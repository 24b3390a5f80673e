/**
 * The text placed on the clipboard by the copy button (`handleCopy` of
 * `App`): one line per pair, `word1 = word2` or `word1 ≠ word2`, the lines
 * joined with line feeds. Reading that text back (splitting it at line feeds
 * and parsing each line) recovers the comparison.
 */
module CopyText {
  import opened Tokenizer
  import opened Aligner

  datatype Option<T> = None | Some(value: T)

  /** The marker between the two words of a line. */
  function Marker(isDifferent: bool): (m: string)
    ensures |m| == 1 && m[0] != ' ' && m[0] != '\n'
    ensures m == "=" <==> !isDifferent
  {
    if isDifferent then "\U{2260}" else "="
  }

  /** The line for one pair: `${word1} ${marker} ${word2}`. */
  function Line(d: WordDiff): string {
    d.word1 + " " + Marker(d.isDifferent) + " " + d.word2
  }

  /** `Array.prototype.join`: the parts with `sep` between neighbours. */
  function Join(parts: seq<string>, sep: string): string {
    if |parts| == 0 then ""
    else if |parts| == 1 then parts[0]
    else parts[0] + sep + Join(parts[1..], sep)
  }

  /** The lines of the copied text, one per pair. */
  function Lines(diffs: seq<WordDiff>): seq<string> {
    seq(|diffs|, i requires 0 <= i < |diffs| => Line(diffs[i]))
  }

  /** The copied text. */
  function Copy(diffs: seq<WordDiff>): string {
    Join(Lines(diffs), "\n")
  }

  /** `String.prototype.split("\n")`: the pieces between line feeds. */
  function SplitLines(s: string): (lines: seq<string>)
    ensures |lines| >= 1
  {
    if s == [] then [[]]
    else
      var rest := SplitLines(s[1..]);
      if s[0] == '\n' then [[]] + rest
      else [[s[0]] + rest[0]] + rest[1..]
  }

  /** The number of line feeds in a text. */
  function NewlineCount(s: string): nat {
    if s == [] then 0
    else (if s[0] == '\n' then 1 else 0) + NewlineCount(s[1..])
  }

  /** Reads back one line: the first word runs up to the first space, then
      come a marker, a space and the second word. */
  function ParseLine(line: string): Option<WordDiff> {
    if line == [] then None
    else if line[0] == ' ' then ParseTail(line[1..])
    else
      match ParseLine(line[1..])
      case None => None
      case Some(d) => Some(d.(word1 := [line[0]] + d.word1))
  }

  /** The part of a line after the first space: a marker, a space and the
      second word. */
  function ParseTail(tail: string): Option<WordDiff> {
    if |tail| >= 2 && tail[1] == ' ' && (tail[0] == '=' || tail[0] == '\U{2260}') then
      Some(WordDiff("", tail[2..], tail[0] == '\U{2260}'))
    else None
  }

  /** A line whose first word is not empty starts with that word's first
      character, followed by the line of the rest of the word. */
  lemma LineCons(d: WordDiff)
    requires d.word1 != []
    ensures Line(d)[0] == d.word1[0]
    ensures Line(d)[1..] == Line(d.(word1 := d.word1[1..]))
  {
    var tail := " " + Marker(d.isDifferent) + " " + d.word2;
    assert Line(d) == d.word1 + tail;
    assert Line(d.(word1 := d.word1[1..])) == d.word1[1..] + tail;
  }

  /** A line can be read back into its pair whenever the first word has no
      space. */
  lemma {:induction false} ParseLineOfLine(d: WordDiff)
    requires ' ' !in d.word1
    ensures ParseLine(Line(d)) == Some(d)
    decreases |d.word1|
  {
    var tail := Marker(d.isDifferent) + " " + d.word2;
    assert Line(d) == d.word1 + " " + tail;
    if d.word1 == [] {
      assert Line(d) == " " + tail;
      assert Line(d)[1..] == tail;
    } else {
      var d' := d.(word1 := d.word1[1..]);
      ParseLineOfLine(d');
      LineCons(d);
      assert [d.word1[0]] + d.word1[1..] == d.word1;
    }
  }

  /** Conversely, every line that can be read back is the line of the pair it
      reads as, and that pair's first word has no space. */
  lemma {:induction false} LineOfParseLine(line: string)
    ensures ParseLine(line).Some? ==>
              ' ' !in ParseLine(line).value.word1 && Line(ParseLine(line).value) == line
  {
    if line != [] && ParseLine(line).Some? {
      var d := ParseLine(line).value;
      if line[0] == ' ' {
        var tail := line[1..];
        assert tail == Marker(d.isDifferent) + " " + d.word2;
        assert line == " " + tail;
      } else {
        LineOfParseLine(line[1..]);
        var d' := ParseLine(line[1..]).value;
        assert Line(d) == [line[0]] + Line(d');
        assert line == [line[0]] + line[1..];
      }
    }
  }

  /** Splitting a text that starts with a piece free of line feeds extends the
      first line by that piece. */
  lemma {:induction false} SplitLinesPrefix(w: string, t: string)
    requires '\n' !in w
    ensures SplitLines(w + t) == [w + SplitLines(t)[0]] + SplitLines(t)[1..]
  {
    var r := SplitLines(t);
    if w == [] {
      assert w + t == t && w + r[0] == r[0];
      assert r == [r[0]] + r[1..];
    } else {
      SplitLinesPrefix(w[1..], t);
      var s := w + t;
      assert s[0] == w[0] && s[1..] == w[1..] + t;
      var rest := SplitLines(s[1..]);
      assert rest[0] == w[1..] + r[0] && rest[1..] == r[1..];
      assert SplitLines(s) == [[w[0]] + rest[0]] + rest[1..];
      assert [w[0]] + (w[1..] + r[0]) == w + r[0];
    }
  }

  /** Splitting joined lines at line feeds gives back the lines, provided
      there is at least one and none holds a line feed. */
  lemma {:induction false} SplitLinesJoin(parts: seq<string>)
    requires |parts| >= 1
    requires forall i | 0 <= i < |parts| :: '\n' !in parts[i]
    ensures SplitLines(Join(parts, "\n")) == parts
  {
    SplitLinesPrefix(parts[0], []);
    assert parts[0] + [] == parts[0];
    if |parts| > 1 {
      var rest := parts[1..];
      SplitLinesJoin(rest);
      var j := Join(rest, "\n");
      assert Join(parts, "\n") == parts[0] + ("\n" + j);
      SplitLinesPrefix(parts[0], "\n" + j);
      assert ("\n" + j)[1..] == j;
      assert parts == [parts[0]] + rest;
    }
  }

  /** A text has one more line than it has line feeds. */
  lemma {:induction false} SplitLinesCount(s: string)
    ensures |SplitLines(s)| == NewlineCount(s) + 1
  {
    if s != [] {
      SplitLinesCount(s[1..]);
    }
  }

  /** A word without whitespace has no space and no line feed, and neither
      has the line of a pair of such words. */
  lemma LineOfWords(d: WordDiff)
    requires NoWhitespace(d.word1) && NoWhitespace(d.word2)
    ensures ' ' !in d.word1
    ensures '\n' !in Line(d)
  {
    assert IsWhitespace(' ') && IsWhitespace('\n');
    assert '\n' !in Marker(d.isDifferent);
    assert forall c | c in Line(d) :: c in d.word1 || c in d.word2 || c in Marker(d.isDifferent) || c == ' ';
  }

  /** Every word of an alignment is a token, or the padding, so it holds no
      whitespace. */
  lemma DifferencesWords(text1: string, text2: string)
    ensures forall i | 0 <= i < |Differences(text1, text2)| ::
              NoWhitespace(Differences(text1, text2)[i].word1) &&
              NoWhitespace(Differences(text1, text2)[i].word2)
  {
    SplitWellFormed(text1);
    SplitWellFormed(text2);
    PadZipAt(Split(text1), Split(text2));
  }

  /** The copied text of an alignment reads back into that alignment: it has
      one line per pair, hence one line feed fewer than pairs, and every line
      parses into its pair. */
  lemma CopyRoundTrip(text1: string, text2: string)
    ensures var diffs := Differences(text1, text2);
            SplitLines(Copy(diffs)) == Lines(diffs) &&
            NewlineCount(Copy(diffs)) == |diffs| - 1 &&
            forall i | 0 <= i < |diffs| :: ParseLine(SplitLines(Copy(diffs))[i]) == Some(diffs[i])
  {
    var diffs := Differences(text1, text2);
    DifferencesLength(text1, text2);
    DifferencesWords(text1, text2);
    forall i | 0 <= i < |diffs|
      ensures '\n' !in Lines(diffs)[i] && ParseLine(Lines(diffs)[i]) == Some(diffs[i])
    {
      LineOfWords(diffs[i]);
      ParseLineOfLine(diffs[i]);
    }
    SplitLinesJoin(Lines(diffs));
    SplitLinesCount(Copy(diffs));
  }

  /** Copying "a b" compared with "a". */
  lemma CopyPadded()
    ensures Copy(Differences("a b", "a")) == "a = a\nb \U{2260} "
  {
    AlignPadded();
    var diffs := [WordDiff("a", "a", false), WordDiff("b", "", true)];
    var lines := Lines(diffs);
    assert Line(diffs[0]) == "a" + " " + "=" + " " + "a" == "a = a";
    assert Line(diffs[1]) == "b" + " " + "\U{2260}" + " " + "" == "b \U{2260} ";
    assert lines == ["a = a", "b \U{2260} "];
    assert lines[1..] == ["b \U{2260} "];
  }
}
