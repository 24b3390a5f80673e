/**
 * The tokenizer of the comparison widget: `text.split(/\s+/)`.
 *
 * JavaScript's `String.prototype.split` with a regular expression that never
 * matches the empty string cuts the text at every maximal run of whitespace:
 * the empty text gives one empty token, a text that starts (ends) with
 * whitespace gives a leading (trailing) empty token, and every other token is
 * a non-empty run of non-whitespace characters.
 */
module Tokenizer {

  /** The character class `\s` of ECMAScript regular expressions: the
      WhiteSpace characters (tab, vertical tab, form feed, space, no-break
      space, zero-width no-break space and the other Unicode "Zs" space
      separators) and the LineTerminator characters (line feed, carriage
      return, line separator, paragraph separator). */
  predicate IsWhitespace(c: char)
    ensures c == ' ' || c == '\t' || c == '\n' || c == '\r' ==> IsWhitespace(c)
    ensures IsWhitespace(c) ==> c as int < 0x1_0000
  {
    c in WhitespaceChars
  }

  const WhitespaceChars: set<char> := {
    '\t', '\n', '\U{000B}', '\U{000C}', '\r', ' ', '\U{00A0}', '\U{1680}',
    '\U{2000}', '\U{2001}', '\U{2002}', '\U{2003}', '\U{2004}', '\U{2005}',
    '\U{2006}', '\U{2007}', '\U{2008}', '\U{2009}', '\U{200A}',
    '\U{2028}', '\U{2029}', '\U{202F}', '\U{205F}', '\U{3000}', '\U{FEFF}'
  }

  /** A token: no character of it is whitespace. */
  predicate NoWhitespace(w: string) {
    forall i | 0 <= i < |w| :: !IsWhitespace(w[i])
  }

  /** A separator: a non-empty run of whitespace. */
  predicate IsGap(g: string) {
    |g| > 0 && forall i | 0 <= i < |g| :: IsWhitespace(g[i])
  }

  /** Separators only. */
  predicate AllGaps(gaps: seq<string>) {
    forall i | 0 <= i < |gaps| :: IsGap(gaps[i])
  }

  /** `s.split(/\s+/)`, one character at a time from the front: a
      non-whitespace character joins the first token of the rest; a whitespace
      character followed by more whitespace belongs to the run that follows;
      the last character of a whitespace run puts an (empty, so far) token in
      front of the tokens of the rest. */
  function Split(s: string): (words: seq<string>)
    ensures |words| >= 1
  {
    if s == [] then [[]]
    else
      var rest := Split(s[1..]);
      if !IsWhitespace(s[0]) then [[s[0]] + rest[0]] + rest[1..]
      else if |s| > 1 && IsWhitespace(s[1]) then rest
      else [[]] + rest
  }

  /** Tokens interleaved with separators: `words[0] + gaps[0] + words[1] + ...`. */
  function Rejoin(words: seq<string>, gaps: seq<string>): string
    requires |words| >= 1 && |gaps| == |words| - 1
  {
    if |words| == 1 then words[0] else words[0] + gaps[0] + Rejoin(words[1..], gaps[1..])
  }

  /** The shape of every token list `Split` returns: at least one token, no
      token holds whitespace, and only the first and the last may be empty. */
  predicate WellFormedWords(words: seq<string>) {
    && |words| >= 1
    && (forall i | 0 <= i < |words| :: NoWhitespace(words[i]))
    && (forall i | 0 < i < |words| - 1 :: words[i] != [])
  }

  /** The first token is empty exactly when the text is empty or starts with
      whitespace. */
  lemma {:induction false} SplitFirst(s: string)
    ensures Split(s)[0] == [] <==> s == [] || IsWhitespace(s[0])
  {
    if s != [] && IsWhitespace(s[0]) && |s| > 1 && IsWhitespace(s[1]) {
      SplitFirst(s[1..]);
    }
  }

  /** A text that starts with whitespace splits to at least two tokens. */
  lemma {:induction false} SplitAtGap(s: string)
    requires s != [] && IsWhitespace(s[0])
    ensures |Split(s)| >= 2
  {
    if |s| > 1 && IsWhitespace(s[1]) {
      SplitAtGap(s[1..]);
    }
  }

  /** The last token is empty exactly when the text is empty or ends with
      whitespace. */
  lemma {:induction false} SplitLast(s: string)
    ensures var words := Split(s);
            words[|words| - 1] == [] <==> s == [] || IsWhitespace(s[|s| - 1])
  {
    if s != [] {
      var t := s[1..];
      SplitLast(t);
      if t != [] {
        assert s[|s| - 1] == t[|t| - 1];
        if !IsWhitespace(s[0]) && |Split(t)| == 1 {
          if IsWhitespace(t[0]) { SplitAtGap(t); }
          SplitFirst(t);
        }
      }
    }
  }

  /** Every token list `Split` returns is well formed: no token holds
      whitespace and only the first and the last may be empty. */
  lemma {:induction false} SplitWellFormed(s: string)
    ensures WellFormedWords(Split(s))
  {
    if s != [] {
      var t := s[1..];
      SplitWellFormed(t);
      SplitFirst(t);
      var words, rest := Split(s), Split(t);
      if !IsWhitespace(s[0]) {
        forall i | 0 <= i < |words| ensures NoWhitespace(words[i]) {
          if i == 0 {
            forall j | 0 <= j < |words[0]| ensures !IsWhitespace(words[0][j]) {
              if j > 0 { assert words[0][j] == rest[0][j - 1]; }
            }
          } else {
            assert words[i] == rest[i];
          }
        }
      } else if !(|s| > 1 && IsWhitespace(s[1])) {
        assert words == [[]] + rest;
        forall i | 0 < i < |words| ensures NoWhitespace(words[i]) && (i < |words| - 1 ==> words[i] != []) {
          assert words[i] == rest[i - 1];
        }
      }
    }
  }

  /** Rejoining a token list with one more character in front of its first
      token. */
  lemma RejoinPrepend(c: char, words: seq<string>, gaps: seq<string>)
    requires |words| >= 1 && |gaps| == |words| - 1
    ensures Rejoin([[c] + words[0]] + words[1..], gaps) == [c] + Rejoin(words, gaps)
  {
    var words' := [[c] + words[0]] + words[1..];
    if |words| > 1 {
      assert words'[1..] == words[1..];
    }
  }

  /** Widening the first separator of a token list whose first token is
      empty puts the extra character in front of the rejoined text. */
  lemma RejoinWiden(c: char, words: seq<string>, gaps: seq<string>)
    requires |words| >= 2 && words[0] == [] && |gaps| == |words| - 1
    ensures Rejoin(words, [[c] + gaps[0]] + gaps[1..]) == [c] + Rejoin(words, gaps)
  {
    var wider := [[c] + gaps[0]] + gaps[1..];
    var tail := Rejoin(words[1..], gaps[1..]);
    assert wider[1..] == gaps[1..];
    assert Rejoin(words, wider) == [] + ([c] + gaps[0]) + tail;
    assert Rejoin(words, gaps) == [] + gaps[0] + tail;
  }

  /** Splitting loses nothing but whitespace: the text is its tokens rejoined
      with the whitespace runs it was cut at, which are returned as `gaps`. */
  lemma {:induction false} RejoinSplit(s: string) returns (gaps: seq<string>)
    ensures |gaps| == |Split(s)| - 1 && AllGaps(gaps)
    ensures Rejoin(Split(s), gaps) == s
  {
    if s == [] {
      gaps := [];
    } else {
      var c, t := s[0], s[1..];
      var rest := RejoinSplit(t);
      var words, r := Split(s), Split(t);
      if !IsWhitespace(c) {
        gaps := rest;
        RejoinPrepend(c, r, gaps);
      } else if |s| > 1 && IsWhitespace(s[1]) {
        SplitAtGap(t);
        SplitFirst(t);
        gaps := [[c] + rest[0]] + rest[1..];
        assert IsGap(gaps[0]);
        assert forall i | 1 <= i < |gaps| :: gaps[i] == rest[i];
        RejoinWiden(c, r, rest);
      } else {
        gaps := [[c]] + rest;
        assert forall i | 1 <= i < |gaps| :: gaps[i] == rest[i - 1];
        assert words == [[]] + r;
        assert words[1..] == r && gaps[1..] == rest;
      }
      assert s == [c] + t;
    }
  }

  /** A token in front of a text becomes part of the text's first token. */
  lemma {:induction false} SplitWordPrefix(w: string, t: string)
    requires NoWhitespace(w)
    ensures Split(w + t) == [w + Split(t)[0]] + Split(t)[1..]
  {
    if w != [] {
      var w' := w[1..];
      assert NoWhitespace(w') by {
        forall i | 0 <= i < |w'| ensures !IsWhitespace(w'[i]) {
          assert w'[i] == w[i + 1];
        }
      }
      SplitWordPrefix(w', t);
      var r := Split(t);
      assert (w + t)[0] == w[0] && (w + t)[1..] == w' + t;
      assert !IsWhitespace(w[0]);
      assert Split(w + t) == [[w[0]] + (w' + r[0])] + r[1..];
      assert [w[0]] + (w' + r[0]) == w + r[0];
    } else {
      var r := Split(t);
      assert w + t == t && w + r[0] == r[0];
      assert r == [r[0]] + r[1..];
    }
  }

  /** A separator in front of a text that does not start with whitespace
      becomes an empty token in front of the text's tokens. */
  lemma {:induction false} SplitGapPrefix(g: string, t: string)
    requires IsGap(g) && (t == [] || !IsWhitespace(t[0]))
    ensures Split(g + t) == [[]] + Split(t)
  {
    var g' := g[1..];
    assert (g + t)[1..] == g' + t;
    if g' != [] {
      SplitGapPrefix(g', t);
    }
  }

  /** A rejoined text never starts with whitespace when its first token is
      free of whitespace and, unless it is the only token, non-empty. */
  lemma RejoinHead(words: seq<string>, gaps: seq<string>)
    requires |words| >= 1 && |gaps| == |words| - 1
    requires NoWhitespace(words[0]) && (|words| > 1 ==> words[0] != [])
    ensures var t := Rejoin(words, gaps); t == [] || !IsWhitespace(t[0])
  {
    var t, w := Rejoin(words, gaps), words[0];
    if |words| > 1 {
      var tail := gaps[0] + Rejoin(words[1..], gaps[1..]);
      assert t == w + tail;
      assert t[0] == w[0];
    } else {
      assert t == w;
    }
    assert t != [] ==> !IsWhitespace(w[0]);
  }

  /** Splitting undoes rejoining: for any well-formed token list and any
      separators, `Split` gives back the tokens. So the kind and the length of
      each whitespace run do not matter. */
  lemma {:induction false} SplitRejoin(words: seq<string>, gaps: seq<string>)
    requires WellFormedWords(words) && |gaps| == |words| - 1 && AllGaps(gaps)
    ensures Split(Rejoin(words, gaps)) == words
    decreases |words|
  {
    var w := words[0];
    if |words| == 1 {
      SplitWordPrefix(w, []);
      assert w + [] == w;
    } else {
      var words', gaps' := words[1..], gaps[1..];
      var rest := Rejoin(words', gaps');
      assert WellFormedWords(words') by {
        forall i | 0 <= i < |words'| ensures NoWhitespace(words'[i]) {
          assert words'[i] == words[i + 1];
        }
      }
      assert AllGaps(gaps') by {
        forall i | 0 <= i < |gaps'| ensures IsGap(gaps'[i]) {
          assert gaps'[i] == gaps[i + 1];
        }
      }
      assert words'[0] == words[1];
      RejoinHead(words', gaps');
      assert IsGap(gaps[0]);
      SplitGapPrefix(gaps[0], rest);
      SplitWordPrefix(w, gaps[0] + rest);
      SplitRejoin(words', gaps');
      assert w + gaps[0] + rest == w + (gaps[0] + rest);
      assert w + [] == w;
      assert words == [w] + words';
    }
  }

  /** Two texts with the same tokens, each whitespace run of one replaced by
      another non-empty run in the same place, split to the same list. A run
      added in front of a text is not such a change: it adds a leading empty
      token (SplitGapPrefix). */
  lemma WhitespaceRunsInterchangeable(words: seq<string>, gaps1: seq<string>, gaps2: seq<string>)
    requires WellFormedWords(words) && |gaps1| == |words| - 1 && |gaps2| == |words| - 1
    requires AllGaps(gaps1) && AllGaps(gaps2)
    ensures Split(Rejoin(words, gaps1)) == Split(Rejoin(words, gaps2)) == words
  {
    SplitRejoin(words, gaps1);
    SplitRejoin(words, gaps2);
  }

  /** The empty text splits to one empty token, not to none. */
  lemma SplitEmpty()
    ensures Split("") == [""]
  {
  }

  /** A single word with no whitespace around it is one token. */
  lemma SplitWord(w: string)
    requires NoWhitespace(w)
    ensures Split(w) == [w]
  {
    SplitWordPrefix(w, []);
    assert w + [] == w;
  }

  /** A run of mixed whitespace between two words is one separator. */
  lemma SplitMixedWhitespace()
    ensures Split("a \t\nb") == ["a", "b"]
  {
    assert !IsWhitespace('a') && !IsWhitespace('b');
    assert IsGap(" \t\n");
    SplitWord("b");
    SplitGapPrefix(" \t\n", "b");
    SplitWordPrefix("a", " \t\nb");
    assert "a" + " \t\nb" == "a \t\nb";
    assert " \t\n" + "b" == " \t\nb";
    assert "a" + "" == "a";
  }

  /** Leading and trailing whitespace give leading and trailing empty tokens. */
  lemma SplitOuterWhitespace()
    ensures Split(" a") == ["", "a"]
    ensures Split("a ") == ["a", ""]
  {
    assert !IsWhitespace('a');
    assert IsGap(" ");
    SplitWord("a");
    SplitGapPrefix(" ", "a");
    assert " " + "a" == " a";
    SplitGapPrefix(" ", "");
    assert " " + "" == " ";
    SplitWordPrefix("a", " ");
    assert "a" + " " == "a ";
    assert "a" + "" == "a";
  }
}
