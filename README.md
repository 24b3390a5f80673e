# text-compare, modelled in Dafny

text-compare is a single React component (`App`) that compares two texts word
by word. Both texts are split at runs of whitespace. The two token lists are
paired by position, and the shorter list is padded with empty strings. Each
pair is flagged as different when its two words differ. Three figures are
derived from the pairs: the number of pairs, the number of flagged pairs, and
the similarity, which is the percentage of unflagged pairs. A copy button
turns the pairs into lines of the form `word1 = word2` or `word1 ≠ word2`,
joined with line feeds.

The model has four modules, one per computation of `App`:

- `Tokenizer` (`tokenizer.dfy`) models `text.split(/\s+/)`.
  - `IsWhitespace` is the ECMAScript `\s` class.
  - `Split` works one character at a time and keeps the empty leading and
    trailing tokens that JavaScript produces.
  - `Rejoin` is its partner. It interleaves tokens with whitespace runs, and
    splitting and rejoining are proved to be inverse to each other.
- `Aligner` (`aligner.dfy`) models the `differences` memo.
  - `Align` is the loop of the source, written as a method with loop
    invariants.
  - It is proved equal to `Differences`, a structural reference definition
    built on `PadZip`.
- `Statistics` (`statistics.dfy`) models the `stats` memo. The similarity is
  an exact `real`.
- `CopyText` (`copy_text.dfy`) models the text built by `handleCopy`. Its
  partner is a reader, `SplitLines` plus `ParseLine`, that is proved to
  recover the comparison from the copied text.

## Model

| member | source | states |
|---|---|---|
| Tokenizer.IsWhitespace | src/App.tsx:9-10 | the class `\s`: space, tab, line feed and carriage return are in it, and every member lies in the Basic Multilingual Plane (the full set is written out in the definition) |
| Tokenizer.Split | src/App.tsx:9-10 | splitting at whitespace runs always yields at least one token |
| Tokenizer.SplitEmpty | src/App.tsx:9-10 | the empty text splits to one empty token, not to none |
| Tokenizer.SplitFirst | src/App.tsx:9-10 | the first token is empty exactly when the text is empty or starts with whitespace |
| Tokenizer.SplitLast | src/App.tsx:9-10 | the last token is empty exactly when the text is empty or ends with whitespace |
| Tokenizer.SplitAtGap | src/App.tsx:9-10 | a text starting with whitespace splits to at least two tokens (that the first is empty is SplitFirst) |
| Tokenizer.SplitWellFormed | src/App.tsx:9-10 | no token holds whitespace, and only the first or the last token can be empty |
| Tokenizer.RejoinSplit | src/App.tsx:9-10 | splitting loses only whitespace: the text is its tokens rejoined with non-empty whitespace runs |
| Tokenizer.SplitRejoin | src/App.tsx:9-10 | splitting undoes rejoining for every well-formed token list and every choice of whitespace runs |
| Tokenizer.WhitespaceRunsInterchangeable | src/App.tsx:9-10 | texts with the same tokens, each whitespace run replaced by another non-empty run in the same place, split to the same tokens (a run added in front instead adds a leading empty token, SplitGapPrefix) |
| Tokenizer.SplitWordPrefix | src/App.tsx:9-10 | a word put in front of a text joins the text's first token |
| Tokenizer.SplitGapPrefix | src/App.tsx:9-10 | a whitespace run put in front of a text that does not start with whitespace adds one leading empty token |
| Tokenizer.SplitWord | src/App.tsx:9-10 | a word without whitespace is exactly one token |
| Tokenizer.SplitMixedWhitespace | src/App.tsx:9-10 | e.g. "a \t\nb" splits to ["a", "b"]: a mixed run of space, tab and line feed is one separator (the general law is WhitespaceRunsInterchangeable) |
| Tokenizer.SplitOuterWhitespace | src/App.tsx:9-10 | e.g. " a" splits to ["", "a"] and "a " to ["a", ""] (the general laws are SplitFirst and SplitLast) |
| Aligner.Max | src/App.tsx:11 | `Math.max`: at least both arguments and equal to one of them |
| Aligner.WordAt | src/App.tsx:15-16 | the token or its fallback `''`: the empty string exactly when the index is past the end or the token there is empty, and otherwise the token at the index |
| Aligner.Differences | src/App.tsx:8-25 | the memo as a function of the two texts; its laws are PadZipAt (length and entry at each index), DifferencesLength and DifferencesFlag, and Align is proved equal to it |
| Aligner.Align | src/App.tsx:11-24 | the loop yields one pair per index up to the longer token count; pair `i` holds the `i`-th token of each text or `''` past its end, flagged exactly when the words differ; the result equals the reference alignment |
| Aligner.PadZipAt | src/App.tsx:11-22 | the reference alignment has the longer list's length, and its entry at each position pairs the two tokens there, padded with `''` |
| Aligner.DifferencesLength | src/App.tsx:11 | there are as many pairs as the longer text has tokens, so always at least one |
| Aligner.DifferencesFlag | src/App.tsx:20 | every pair is flagged if and only if its two words differ |
| Aligner.AlignEmpty | src/App.tsx:8-25 | two empty texts give exactly one pair of empty words, not flagged |
| Aligner.AlignSelf | src/App.tsx:8-25 | a text compared with itself has no flagged pair |
| Aligner.AlignSwap | src/App.tsx:8-25 | swapping the texts swaps the words of every pair and keeps every flag |
| Aligner.AlignIgnoresWhitespaceRuns | src/App.tsx:8-25 | texts with the same tokens, each whitespace run replaced by another non-empty run in the same place, have no flagged pair |
| Aligner.AlignLeadingShift | src/App.tsx:8-25 | a leading whitespace run shifts every pair: " a" against "a" gives ("", a) and (a, ""), both flagged |
| Aligner.AlignPadded | src/App.tsx:14-21 | "a b" against "a" pads the second text: pairs (a, a, equal) and (b, '', different) |
| Statistics.Similarity | src/App.tsx:30 | the similarity lies in [0, 100]; it is 100 exactly when no pair differs, 0 exactly when there are pairs and all differ, and otherwise 100 times the share of equal pairs |
| Statistics.Summarize | src/App.tsx:27-37 | the total is the number of pairs, the different count is the number of flagged pairs and never exceeds the total, and the similarity meets the bounds above and, when there are pairs, is 100 times the share of equal pairs |
| Statistics.FilterDifferent | src/App.tsx:28 | the filter keeps at most all pairs; which pairs it keeps and how many is stated by FilterDifferentMembers and DifferentWordsCount (one per flagged pair, additive over concatenation), with the endpoints in FilterDifferentCount |
| Statistics.FilterDifferentMembers | src/App.tsx:28 | a pair survives the filter exactly when it is in the list and flagged |
| Statistics.FilterDifferentCount | src/App.tsx:28 | the different count is 0 exactly when no pair is flagged, and equals the total exactly when every pair is flagged |
| Statistics.FilterDifferentAppend | src/App.tsx:28 | filtering distributes over concatenation |
| Statistics.DifferentWordsCount | src/App.tsx:28 | the different count adds one per flagged pair and is additive over concatenation |
| Statistics.FilterDifferentSwapped | src/App.tsx:28 | swapping the sides of the pairs commutes with the filter |
| Statistics.StatsSwap | src/App.tsx:27-37 | swapping the two texts leaves all three figures unchanged |
| Statistics.StatsSelf | src/App.tsx:27-37 | a text against itself: no difference, one pair per token, similarity 100 |
| Statistics.StatsNeverEmpty | src/App.tsx:29-30 | every comparison has at least one pair, so the fallback of 100 for no pairs is never taken |
| Statistics.StatsPadded | src/App.tsx:27-37 | "a b" against "a" gives 1 different pair out of 2, similarity 50 |
| CopyText.Marker | src/App.tsx:46 | the marker is one character, neither a space nor a line feed, and is `=` exactly for a pair that does not differ |
| CopyText.Line | src/App.tsx:46 | the line of one pair; ParseLineOfLine and LineOfParseLine show it is read back into exactly that pair |
| CopyText.Lines | src/App.tsx:45-46 | `map` over the pairs, one line each; CopyRoundTrip shows the copied text splits into exactly these lines |
| CopyText.Join | src/App.tsx:47 | `join`: SplitLinesJoin shows splitting at line feeds undoes joining with them |
| CopyText.Copy | src/App.tsx:45-47 | the copied text; CopyRoundTrip shows it has one line per pair and one line feed fewer than pairs, and reads back into the pairs |
| CopyText.ParseLineOfLine | src/App.tsx:46 | a line reads back into its pair whenever the first word has no space |
| CopyText.LineOfParseLine | src/App.tsx:46 | every line that reads back is the line of the pair it reads as |
| CopyText.SplitLinesJoin | src/App.tsx:47 | splitting lines joined with line feeds at line feeds gives the lines back |
| CopyText.SplitLinesCount | src/App.tsx:47 | a text has one more line than line feeds |
| CopyText.LineOfWords | src/App.tsx:46 | the line of two whitespace-free words holds no line feed |
| CopyText.DifferencesWords | src/App.tsx:8-25 | every word of an alignment is whitespace-free |
| CopyText.CopyRoundTrip | src/App.tsx:44-47 | the copied text has one line per pair, one line feed fewer than pairs, and each line parses back into its pair |
| CopyText.CopyPadded | src/App.tsx:44-47 | "a b" against "a" copies as `a = a`, a line feed, then `b ≠ ` |

## Left out

- React state, `useMemo` memoisation and re-rendering are not modelled. The
  memos are modelled as pure functions of the two texts.
- `handleClear` only resets both texts to `''`. It is not modelled, since its
  effect on the figures is `Differences("", "")`, which `AlignEmpty` covers.
- The JSX rendering is not modelled. This includes the `(empty)` placeholder
  shown for an empty word.
- `navigator.clipboard.writeText` is not modelled. The model stops at the
  string handed to it.
- Statistics.Summarize: similarity is an exact rational number. IEEE double
  rounding and `toFixed(1)` formatting are not modelled.
- Tokenizer.IsWhitespace: the `\s` set is written out with the space
  separators of current Unicode. Text is a sequence of code points rather
  than UTF-16 code units, which is the same for `\s`, because every `\s`
  character lies in the Basic Multilingual Plane.
- Tokenizer.Split: a token runs to the next whitespace, as in JavaScript.
  Leading and trailing whitespace give empty first and last tokens, and the
  empty text gives one empty token, as `split(/\s+/)` does. The whitespace
  class is the full `\s` set.
