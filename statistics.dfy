/**
 * The figures shown above the comparison (the `stats` memo of `App`): how
 * many pairs differ, how many pairs there are, and the share of equal pairs
 * as a percentage, which is 100 when there are no pairs.
 */
module Statistics {
  import opened Tokenizer
  import opened Aligner

  /** `differentWords`, `totalWords` and `similarity`, the last one exact
      rather than a floating-point number. */
  datatype Stats = Stats(differentWords: nat, totalWords: nat, similarity: real)

  /** `differences.filter(d => d.isDifferent)`: the flagged pairs, in order. */
  function FilterDifferent(diffs: seq<WordDiff>): (r: seq<WordDiff>)
    ensures |r| <= |diffs|
  {
    if diffs == [] then []
    else
      var rest := FilterDifferent(diffs[1..]);
      if diffs[0].isDifferent then [diffs[0]] + rest else rest
  }

  /** The percentage of equal pairs among `totalWords`, of which
      `differentWords` differ; 100 when there are no pairs. */
  function Similarity(differentWords: nat, totalWords: nat): (p: real)
    requires differentWords <= totalWords
    ensures 0.0 <= p <= 100.0
    ensures p == 100.0 <==> differentWords == 0
    ensures p == 0.0 <==> 0 < totalWords == differentWords
    ensures 0 < totalWords ==> p * totalWords as real == 100.0 * (totalWords - differentWords) as real
  {
    if totalWords != 0 then
      var same, total := (totalWords - differentWords) as real, totalWords as real;
      ShareBounds(same, total);
      same / total * 100.0
    else 100.0
  }

  /** A share of a positive whole lies in [0, 1]; it is 1 exactly for the
      whole and 0 exactly for nothing. */
  lemma ShareBounds(part: real, whole: real)
    requires 0.0 <= part <= whole && 0.0 < whole
    ensures 0.0 <= part / whole <= 1.0
    ensures part / whole == 1.0 <==> part == whole
    ensures part / whole == 0.0 <==> part == 0.0
    ensures part / whole * whole == part
  {
    var q := part / whole;
    assert q * whole == part;
    if q == 1.0 {
      assert part == whole;
    }
    if part == whole {
      assert (q - 1.0) * whole == 0.0;
    }
  }

  /** The `stats` memo. */
  function Summarize(diffs: seq<WordDiff>): (s: Stats)
    ensures s.totalWords == |diffs|
    ensures s.differentWords <= s.totalWords
    ensures s.differentWords == |FilterDifferent(diffs)|
    ensures 0.0 <= s.similarity <= 100.0
    ensures s.similarity == 100.0 <==> s.differentWords == 0
    ensures s.similarity == 0.0 <==> 0 < s.totalWords == s.differentWords
    ensures 0 < s.totalWords ==>
              s.similarity * s.totalWords as real == 100.0 * (s.totalWords - s.differentWords) as real
  {
    var differentWords := |FilterDifferent(diffs)|;
    var totalWords := |diffs|;
    Stats(differentWords, totalWords, Similarity(differentWords, totalWords))
  }

  /** A pair survives the filter exactly when it is in the list and flagged. */
  lemma {:induction false} FilterDifferentMembers(diffs: seq<WordDiff>, d: WordDiff)
    ensures d in FilterDifferent(diffs) <==> d in diffs && d.isDifferent
  {
    if diffs != [] {
      FilterDifferentMembers(diffs[1..], d);
      assert d in diffs <==> d == diffs[0] || d in diffs[1..];
    }
  }

  /** No pair counts as different exactly when no pair is flagged, and every
      pair counts exactly when every pair is flagged. */
  lemma {:induction false} FilterDifferentCount(diffs: seq<WordDiff>)
    ensures |FilterDifferent(diffs)| == 0 <==> forall i | 0 <= i < |diffs| :: !diffs[i].isDifferent
    ensures |FilterDifferent(diffs)| == |diffs| <==> forall i | 0 <= i < |diffs| :: diffs[i].isDifferent
  {
    if diffs != [] {
      FilterDifferentCount(diffs[1..]);
      assert forall i | 1 <= i < |diffs| :: diffs[i] == diffs[1..][i - 1];
    }
  }

  /** Filtering distributes over concatenation. */
  lemma {:induction false} FilterDifferentAppend(a: seq<WordDiff>, b: seq<WordDiff>)
    ensures FilterDifferent(a + b) == FilterDifferent(a) + FilterDifferent(b)
  {
    if a != [] {
      FilterDifferentAppend(a[1..], b);
      assert (a + b)[1..] == a[1..] + b;
    } else {
      assert a + b == b;
    }
  }

  /** Counting the flagged pairs: a flagged pair counts one, an unflagged one
      nothing, and the count of a concatenation is the sum of the counts. */
  lemma DifferentWordsCount(a: seq<WordDiff>, b: seq<WordDiff>, d: WordDiff)
    ensures |FilterDifferent([d])| == if d.isDifferent then 1 else 0
    ensures |FilterDifferent(a + b)| == |FilterDifferent(a)| + |FilterDifferent(b)|
  {
    FilterDifferentAppend(a, b);
    assert [d][1..] == [];
  }

  /** Swapping the sides of every pair keeps the flagged ones flagged. */
  lemma {:induction false} FilterDifferentSwapped(diffs: seq<WordDiff>)
    ensures FilterDifferent(Swapped(diffs)) == Swapped(FilterDifferent(diffs))
  {
    if diffs != [] {
      FilterDifferentSwapped(diffs[1..]);
      assert Swapped(diffs)[1..] == Swapped(diffs[1..]);
      var rest := FilterDifferent(diffs[1..]);
      if diffs[0].isDifferent {
        assert Swapped([diffs[0]] + rest) == Swapped([diffs[0]]) + Swapped(rest);
      }
    }
  }

  /** Swapping the two texts leaves every figure unchanged. */
  lemma StatsSwap(text1: string, text2: string)
    ensures Summarize(Differences(text2, text1)) == Summarize(Differences(text1, text2))
  {
    AlignSwap(text1, text2);
    FilterDifferentSwapped(Differences(text1, text2));
  }

  /** A text compared with itself: no pair differs and the similarity is
      100. */
  lemma StatsSelf(text: string)
    ensures Summarize(Differences(text, text)) == Stats(0, |Split(text)|, 100.0)
  {
    AlignSelf(text);
    DifferencesLength(text, text);
    FilterDifferentCount(Differences(text, text));
  }

  /** Every comparison has at least one pair, so the fallback of 100 for no
      pairs is never taken. */
  lemma StatsNeverEmpty(text1: string, text2: string)
    ensures Summarize(Differences(text1, text2)).totalWords >= 1
  {
    DifferencesLength(text1, text2);
  }

  /** "a b" against "a": two pairs, one different, 50 per cent similar. */
  lemma StatsPadded()
    ensures Summarize(Differences("a b", "a")) == Stats(1, 2, 50.0)
  {
    AlignPadded();
    var diffs := [WordDiff("a", "a", false), WordDiff("b", "", true)];
    assert diffs[1..][1..] == [];
    assert FilterDifferent(diffs) == [WordDiff("b", "", true)];
  }
}
