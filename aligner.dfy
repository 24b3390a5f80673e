/**
 * Positional alignment of two texts (the `differences` memo of `App`): both
 * texts are split into tokens, the shorter token list is padded with empty
 * strings, and the tokens are paired index by index, each pair flagged as
 * different exactly when its two words differ.
 */
module Aligner {
  import opened Tokenizer

  /** One row of the comparison: the two words at a position and whether they
      differ. An empty word means the text has no token at that position. */
  datatype WordDiff = WordDiff(word1: string, word2: string, isDifferent: bool)

  /** `Math.max` on token counts. */
  function Max(a: nat, b: nat): (m: nat)
    ensures m >= a && m >= b
    ensures m == a || m == b
  {
    if a >= b then a else b
  }

  /** `words[i] || ''`: the token at index `i`, or the empty string past the
      end of the list. An empty token and a missing one both give `''`. */
  function WordAt(words: seq<string>, i: nat): (w: string)
    ensures w == "" <==> i >= |words| || words[i] == ""
    ensures w != "" ==> i < |words| && w == words[i]
  {
    if i < |words| then words[i] else ""
  }

  /** The pair built for one position. */
  function Compare(word1: string, word2: string): WordDiff {
    WordDiff(word1, word2, word1 != word2)
  }

  /** The first token, or the empty string for an exhausted list. */
  function Head(words: seq<string>): string {
    if words == [] then "" else words[0]
  }

  /** The tokens after the first; none for an exhausted list. */
  function Tail(words: seq<string>): seq<string> {
    if words == [] then [] else words[1..]
  }

  /** Reference definition of the alignment, by structural recursion: pair the
      heads of both lists (an exhausted list contributes the empty string) until
      both are exhausted. */
  function PadZip(words1: seq<string>, words2: seq<string>): seq<WordDiff>
    decreases |words1| + |words2|
  {
    if words1 == [] && words2 == [] then []
    else [Compare(Head(words1), Head(words2))] + PadZip(Tail(words1), Tail(words2))
  }

  /** The alignment of two texts. */
  function Differences(text1: string, text2: string): seq<WordDiff> {
    PadZip(Split(text1), Split(text2))
  }

  /** The pairs with the two sides exchanged. */
  function Swapped(diffs: seq<WordDiff>): (r: seq<WordDiff>)
    ensures |r| == |diffs|
  {
    seq(|diffs|, i requires 0 <= i < |diffs| => WordDiff(diffs[i].word2, diffs[i].word1, diffs[i].isDifferent))
  }

  /** The alignment has one pair per position of the longer list, and the pair
      at position `i` holds the `i`-th token of each list, or the empty string
      where that list has ended. */
  lemma {:induction false} PadZipAt(words1: seq<string>, words2: seq<string>)
    ensures |PadZip(words1, words2)| == Max(|words1|, |words2|)
    ensures forall i | 0 <= i < |PadZip(words1, words2)| ::
              PadZip(words1, words2)[i] == Compare(WordAt(words1, i), WordAt(words2, i))
    decreases |words1| + |words2|
  {
    if words1 != [] || words2 != [] {
      var t1, t2 := Tail(words1), Tail(words2);
      PadZipAt(t1, t2);
      var z, rest := PadZip(words1, words2), PadZip(t1, t2);
      forall i | 0 < i < |z| ensures z[i] == Compare(WordAt(words1, i), WordAt(words2, i)) {
        assert z[i] == rest[i - 1];
        assert WordAt(t1, i - 1) == WordAt(words1, i);
        assert WordAt(t2, i - 1) == WordAt(words2, i);
      }
    }
  }

  /** The loop of the `differences` memo: split both texts, then push one pair
      per index up to the longer token count. */
  method Align(text1: string, text2: string) returns (diffs: seq<WordDiff>)
    ensures |diffs| == Max(|Split(text1)|, |Split(text2)|)
    ensures forall i | 0 <= i < |diffs| ::
              diffs[i] == Compare(WordAt(Split(text1), i), WordAt(Split(text2), i))
    ensures diffs == Differences(text1, text2)
  {
    var words1 := Split(text1);
    var words2 := Split(text2);
    var maxLength := Max(|words1|, |words2|);
    diffs := [];
    for i := 0 to maxLength
      invariant |diffs| == i
      invariant forall j | 0 <= j < i :: diffs[j] == Compare(WordAt(words1, j), WordAt(words2, j))
    {
      // `words[i] || ''`: past the end, or an empty token, gives ''
      var word1 := if i < |words1| && words1[i] != "" then words1[i] else "";
      var word2 := if i < |words2| && words2[i] != "" then words2[i] else "";
      diffs := diffs + [WordDiff(word1, word2, word1 != word2)];
    }
    PadZipAt(words1, words2);
  }

  /** Two empty texts align to exactly one pair of empty words that do not
      differ. */
  lemma AlignEmpty()
    ensures Differences("", "") == [WordDiff("", "", false)]
  {
    SplitEmpty();
    PadZipAt([""], [""]);
  }

  /** The alignment is never empty: it has as many pairs as the longer text
      has tokens, and every text has at least one token. */
  lemma DifferencesLength(text1: string, text2: string)
    ensures |Differences(text1, text2)| == Max(|Split(text1)|, |Split(text2)|) >= 1
  {
    PadZipAt(Split(text1), Split(text2));
  }

  /** In every pair of an alignment, the flag says exactly whether the two
      words differ. */
  lemma DifferencesFlag(text1: string, text2: string)
    ensures forall d | d in Differences(text1, text2) :: d.isDifferent <==> d.word1 != d.word2
  {
    PadZipAt(Split(text1), Split(text2));
  }

  /** Aligning a text with itself flags no pair. */
  lemma AlignSelf(text: string)
    ensures forall i | 0 <= i < |Differences(text, text)| ::
              !Differences(text, text)[i].isDifferent
  {
    PadZipAt(Split(text), Split(text));
  }

  /** Swapping the two texts swaps the two words of every pair and keeps every
      flag. */
  lemma AlignSwap(text1: string, text2: string)
    ensures Differences(text2, text1) == Swapped(Differences(text1, text2))
  {
    var w1, w2 := Split(text1), Split(text2);
    PadZipAt(w1, w2);
    PadZipAt(w2, w1);
  }

  /** Texts with the same tokens, each whitespace run of one replaced by
      another non-empty run in the same place, align with no pair flagged. */
  lemma AlignIgnoresWhitespaceRuns(words: seq<string>, gaps1: seq<string>, gaps2: seq<string>)
    requires WellFormedWords(words) && |gaps1| == |words| - 1 && |gaps2| == |words| - 1
    requires AllGaps(gaps1) && AllGaps(gaps2)
    ensures forall d | d in Differences(Rejoin(words, gaps1), Rejoin(words, gaps2)) :: !d.isDifferent
  {
    WhitespaceRunsInterchangeable(words, gaps1, gaps2);
    PadZipAt(words, words);
  }

  /** Leading whitespace shifts every token one position to the right, so
      " a" against "a" flags every pair although the texts differ only in
      whitespace. */
  lemma AlignLeadingShift()
    ensures Differences(" a", "a") == [WordDiff("", "a", true), WordDiff("a", "", true)]
  {
    SplitWord("a");
    assert IsGap(" ");
    SplitGapPrefix(" ", "a");
    assert " " + "a" == " a";
    PadZipAt(["", "a"], ["a"]);
  }

  /** Positional alignment of "a b" against "a": the second text is padded. */
  lemma AlignPadded()
    ensures Differences("a b", "a") == [WordDiff("a", "a", false), WordDiff("b", "", true)]
  {
    SplitWord("a");
    SplitWord("b");
    assert IsGap(" ");
    SplitGapPrefix(" ", "b");
    SplitWordPrefix("a", " b");
    assert "a" + " b" == "a b" && " " + "b" == " b" && "a" + "" == "a";
    PadZipAt(["a", "b"], ["a"]);
  }
}
