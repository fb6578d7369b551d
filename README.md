# Text rating app: two-group NDCG engine and rating session, in Dafny

The text rating app lets a rater paste two comma-separated lists of short texts
(group A, "query", and group B, the leaderboard), rate every text on a content scale
and a timeliness scale (Excellent 5, Good 4, Fair 2, Bad 0), and then compare the two
groups by NDCG@10. Both groups are normalised by one shared ideal ranking: the pooled
scores of both groups, sorted in descending order and cut to the first 10.

This project models:

- the NDCG calculator (`ndcgCalculator.js`), in four modules:
  - `Discounted` (`dcg.dfy`): the gain/discount term and the DCG@K loop;
  - `Ideal` (`ideal.dfy`): the pooled, sorted and sliced ideal list, the in-place
    descending sort, and the rearrangement argument that bounds each group's DCG by
    the shared IDCG;
  - `NdcgEngine` (`engine.dfy`): the NDCG step with its zero-IDCG branch and
    4-decimal rounding, and the two-dimension entry point with its fallback value;
  - `NdcgScenarios` (`scenarios.dfy`): concrete inputs worked through the engine;
- the rating session (`App.jsx`), in `RatingSession` (`app.dfy`): item creation from
  the two text inputs, the Fisher-Yates shuffle, rating by id, and the stage machine
  as a class `App` with the fields `stage` and `items`;
- the result stage (`ResultStage.jsx`), in `Results` (`results.dfy`): grouping the
  shuffled items back into entry order, the score lists fed to the engine, the
  averages, the label table and the copied text;
- the rating stage (`RatingStage.jsx`), in `Rating` (`rating.dfy`): the
  "all rated" test, the option scale, the solid option and click forwarding;
- shared pieces: `Items` (`items.dfy`, the item record), `Text` (`text.dfy`, split,
  join and trim on strings) and `Wrappers` (`wrappers.dfy`, the optional score).

How numbers are modelled:

- Scores are `nat`, so the gain 2^rel − 1 is an exact integer.
- DCG values are `real`.
- log2(rank + 1) is not available in Dafny. Every engine member therefore takes the
  discount as a parameter `d: nat -> real` constrained by `ValidDiscount(d)`: `d(1)`
  is 1 (log2 2 = 1), `d` is positive, and it is strictly increasing on ranks ≥ 1.
  Every property proved here holds for log2(rank + 1) in particular.
- `Math.round(x * 10000) / 10000` is `Floor(x * 10000 + 1/2) / 10000`. JavaScript
  rounds halves up; every value rounded here is non-negative, so this is also
  rounding half away from zero.

## Model

| member | source | states |
|---|---|---|
| `Discounted.Gain` | text-rating-app/src/ndcgCalculator.js:13 | the gain 2^rel − 1 is 0 exactly when rel is 0 |
| `Discounted.Term` | text-rating-app/src/ndcgCalculator.js:12-17 | a term is non-negative, is 0 exactly when rel is 0, and at rank 1 equals the plain gain 2^rel − 1 because the discount there is 1 |
| `Discounted.TermDecreasesWithRank` | text-rating-app/src/ndcgCalculator.js:12-17 | for rel > 0 a term strictly shrinks as the rank grows |
| `Discounted.TermMonotoneInRel` | text-rating-app/src/ndcgCalculator.js:12-17 | at a fixed rank a larger score never gives a smaller term |
| `Discounted.Exchange` | text-rating-app/src/ndcgCalculator.js:12-17 | putting the larger of two scores at the better rank never lowers the sum of the two terms |
| `Discounted.RankedSumNonNegative` | text-rating-app/src/ndcgCalculator.js:26-31 | a sum of terms over non-negative scores is non-negative |
| `Discounted.RankedSumZeroIff` | text-rating-app/src/ndcgCalculator.js:26-31 | a sum of terms is 0 exactly when every score in it is 0 |
| `Discounted.RankedSumSnoc` | text-rating-app/src/ndcgCalculator.js:27-32 | one more loop step adds exactly the next score's term at the next rank |
| `Discounted.RankedSumAppend` | text-rating-app/src/ndcgCalculator.js:27-32 | the sum over a concatenation is the first part's sum plus the second part's sum continued at the following ranks |
| `Discounted.RankedSumPrefix` | text-rating-app/src/ndcgCalculator.js:27-32 | cutting a list to a prefix never raises its sum |
| `Discounted.RankedSumUpdate` | text-rating-app/src/ndcgCalculator.js:27-32 | replacing one score changes the sum by exactly the difference of the two terms at its rank |
| `Discounted.DcgEmptyOrNoCutoff` | text-rating-app/src/ndcgCalculator.js:25-34 | DCG@K is 0 for an empty list and for k ≤ 0 |
| `Discounted.DcgIgnoresTail` | text-rating-app/src/ndcgCalculator.js:27 | scores after position k never affect DCG@K |
| `Discounted.DcgNonNegative` | text-rating-app/src/ndcgCalculator.js:25-34 | DCG@K is non-negative |
| `Discounted.DcgAtOne` | text-rating-app/src/ndcgCalculator.js:25-34 | DCG@1 of a non-empty list is the gain of its first score, the list position being the rank |
| `Discounted.DcgAtK` | text-rating-app/src/ndcgCalculator.js:25-34 | the accumulating loop returns the sum of the terms at ranks 1..min(len, k), and that sum is non-negative |
| `Ideal.HeadIsMax` | text-rating-app/src/ndcgCalculator.js:48 | every score of a descending list is at most its head |
| `Ideal.Insert` | text-rating-app/src/ndcgCalculator.js:48 | inserting adds exactly one copy of the score |
| `Ideal.InsertSorted` | text-rating-app/src/ndcgCalculator.js:48 | inserting into a descending list keeps it descending |
| `Ideal.SortDesc` | text-rating-app/src/ndcgCalculator.js:48 | the comparator sort `(a, b) => b - a` yields a descending permutation of the pool |
| `Ideal.SortedDescUnique` | text-rating-app/src/ndcgCalculator.js:48 | two descending lists with the same scores are equal, so ties and sort stability do not matter |
| `Ideal.IdealScoresShape` | text-rating-app/src/ndcgCalculator.js:45-48 | the ideal list is descending, has as many scores as the smaller of k and the pool size, for k ≥ 0, and is drawn from the pool own ++ target |
| `Ideal.IdealScoresSymmetric` | text-rating-app/src/ndcgCalculator.js:43-52 | swapping own and target changes neither the ideal list nor the IDCG |
| `Ideal.IdealFromArrangement` | text-rating-app/src/ndcgCalculator.js:45-48 | the ideal list is the slice of any descending arrangement of the pool |
| `Ideal.MaxToFront` | text-rating-app/src/ndcgCalculator.js:27-32 | moving a largest score to the first rank never lowers a ranked sum |
| `Ideal.RestDrawn` | text-rating-app/src/ndcgCalculator.js:45-48 | a list drawn from a descending pool has its maximum at most the pool's head, and the rest is drawn from the pool's rest |
| `Ideal.Dominated` | text-rating-app/src/ndcgCalculator.js:43-52 | rearrangement: any list drawn from a descending list scores at most the same number of that list's leading scores |
| `Ideal.OwnTopDrawn` | text-rating-app/src/ndcgCalculator.js:45-48 | a group's leading scores are drawn from the sorted pool |
| `Ideal.IdealCoversTop` | text-rating-app/src/ndcgCalculator.js:48-50 | the IDCG is at least the ranked sum of the sorted pool's first n scores, for any n up to min(the pool size, k) |
| `Ideal.DcgAtMostIdcg` | text-rating-app/src/ndcgCalculator.js:61-67 | each group's DCG@K is at most the shared IDCG |
| `Ideal.IdcgZeroIff` | text-rating-app/src/ndcgCalculator.js:43-52 | the shared IDCG is 0 exactly when k ≤ 0 or every score of both groups is 0 (both groups empty included) |
| `Ideal.SortDescending` | text-rating-app/src/ndcgCalculator.js:48 | the in-place sort leaves the array descending and a permutation of what it held |
| `Ideal.IdcgCombined` | text-rating-app/src/ndcgCalculator.js:43-52 | the fresh copy, sorted in place and sliced, is the ideal list, and its DCG is the IDCG; the inputs are values and cannot change |
| `NdcgEngine.Round4` | text-rating-app/src/ndcgCalculator.js:86-91 | the rounded value is a whole number of ten-thousandths and lies within half a ten-thousandth of x, halves going up |
| `NdcgEngine.Round4Monotone` | text-rating-app/src/ndcgCalculator.js:86-91 | rounding preserves order |
| `NdcgEngine.Round4UnitRange` | text-rating-app/src/ndcgCalculator.js:86-91 | rounding keeps 0, 1 and the interval [0, 1] |
| `NdcgEngine.LeaderboardDegenerate` | text-rating-app/src/ndcgCalculator.js:70-79 | the all-zero result with an empty ideal list comes out exactly when k ≤ 0 or every score of both groups is 0 |
| `NdcgEngine.IdcgAtLeastOne` | text-rating-app/src/ndcgCalculator.js:70-79 | a non-zero IDCG is at least 1 and comes with a non-empty ideal list |
| `NdcgEngine.LeaderboardNormalised` | text-rating-app/src/ndcgCalculator.js:81-91 | when the IDCG is non-zero, both NDCGs lie in [0, 1], each is the rounding of its DCG divided by the shared IDCG, the rounded IDCG is at least 1 and the ideal list is reported |
| `NdcgEngine.NdcgInUnitRange` | text-rating-app/src/ndcgCalculator.js:61-93 | for all inputs both reported NDCG values lie in [0, 1] |
| `NdcgEngine.SharedBaseKeepsOrder` | text-rating-app/src/ndcgCalculator.js:81-82 | with one shared IDCG, the group with the larger DCG gets the larger ratio and a rounded NDCG no smaller |
| `NdcgEngine.LeaderboardSwap` | text-rating-app/src/ndcgCalculator.js:61-93 | swapping the groups swaps the per-group fields and keeps the ideal list and the IDCG |
| `NdcgEngine.IdealOrderScoresOne` | text-rating-app/src/ndcgCalculator.js:61-93 | for k > 0, a descending group with a positive score and an empty other group scores exactly 1 (for k <= 0 the result is the all-zero one, see LeaderboardDegenerate) |
| `NdcgEngine.NdcgForLeaderboard` | text-rating-app/src/ndcgCalculator.js:61-93 | the method returns the result of one dimension, and its two NDCGs lie in [0, 1] |
| `NdcgEngine.FallbackIsDegenerateOutput` | text-rating-app/src/ndcgCalculator.js:125-143 | the fallback has all-zero numbers and empty ideal lists and carries the error message; a successful call has msg "", and it matches the fallback numerically exactly when all four score lists are all zero |
| `NdcgEngine.DimensionsIndependent` | text-rating-app/src/ndcgCalculator.js:103-124 | the content fields depend only on the content scores and the time fields only on the time scores |
| `NdcgEngine.CalculateInUnitRange` | text-rating-app/src/ndcgCalculator.js:103-124 | all four reported NDCG values lie in [0, 1] |
| `NdcgEngine.CalculateIdealAtMostTen` | text-rating-app/src/ndcgCalculator.js:105-106 | with the cutoff 10, each ideal list holds at most 10 scores |
| `NdcgEngine.CalculateNdcg` | text-rating-app/src/ndcgCalculator.js:103-124 | both dimensions are computed with k = 10 and the success value has msg "" |
| `NdcgScenarios.MixedOrderScenario` | text-rating-app/src/ndcgCalculator.js:61-93 | own [5,4,2,0] and target [4,5,0,2]: the ideal list is [5,5,4,4,2,2,0,0], and own, with its best score first, has the strictly larger unrounded NDCG |
| `NdcgScenarios.EqualGroupsScenario` | text-rating-app/src/ndcgCalculator.js:61-93 | own = target = [5,5,5]: the ideal list holds six 5s, so both NDCGs are equal and strictly below 1 before rounding |
| `NdcgScenarios.AllZeroScenario` | text-rating-app/src/ndcgCalculator.js:70-79 | all-zero groups and empty groups give the all-zero result |
| `NdcgScenarios.RaisingScoresCanLowerNdcg` | text-rating-app/src/ndcgCalculator.js:61-93 | raising every score of a group can lower its NDCG: on the rating scale, [2,2] scores 1 and the larger [4,5] scores below 1 |
| `Text.Split` | text-rating-app/src/App.jsx:14 | split(',') gives at least one piece, no piece contains the separator, and joining the pieces gives the text back |
| `Text.SplitUnique` | text-rating-app/src/App.jsx:14 | split is the only separator-free cut of the text |
| `Text.SplitOfJoin` | text-rating-app/src/App.jsx:14 | splitting a join of separator-free parts gives the parts back |
| `Text.TrimStart` | text-rating-app/src/App.jsx:15 | trimStart removes only whitespace, and what it keeps does not start with whitespace |
| `Text.TrimStartSuffix` | text-rating-app/src/App.jsx:15 | what trimStart keeps is the tail of the text, so it drops exactly the leading whitespace |
| `Text.TrimEnd` | text-rating-app/src/App.jsx:15 | trimEnd drops exactly the trailing whitespace |
| `Text.Trim` | text-rating-app/src/App.jsx:15 | the trimmed text has no whitespace at either end and is no longer |
| `Text.TrimShape` | text-rating-app/src/App.jsx:15 | the trimmed text is the middle of the text with only whitespace around it |
| `Text.TrimEmptyIff` | text-rating-app/src/App.jsx:15-16 | trim gives "" exactly for an all-whitespace text |
| `Text.TrimIdempotent` | text-rating-app/src/App.jsx:15 | trimming twice is trimming once |
| `Text.TrimKeepsAbsence` | text-rating-app/src/App.jsx:15 | trim adds no character |
| `Items.WithScore` | text-rating-app/src/App.jsx:53 | the spread update sets the named score and keeps every other field |
| `RatingSession.KeptAreClean` | text-rating-app/src/App.jsx:14-16 | every kept segment is non-empty and trimmed |
| `RatingSession.KeptAppend` | text-rating-app/src/App.jsx:14-16 | trimming and filtering distribute over concatenation of segment lists |
| `RatingSession.KeptOfClean` | text-rating-app/src/App.jsx:14-16 | segments already trimmed and non-empty are all kept, unchanged and in order |
| `RatingSession.KeptKeepsAbsence` | text-rating-app/src/App.jsx:14-16 | a kept segment contains no character absent from every segment |
| `RatingSession.KeptOfBlank` | text-rating-app/src/App.jsx:14-16 | segments that all trim to "" are all dropped |
| `RatingSession.ProcessText` | text-rating-app/src/App.jsx:13-24 | one item per non-blank segment in segment order, with the trimmed text, the given group, originalIndex 0..n−1 counted after filtering, and both scores null |
| `RatingSession.ProcessTextClean` | text-rating-app/src/App.jsx:13-24 | every item text is non-empty, trimmed and comma-free |
| `RatingSession.ProcessTextOfJoin` | text-rating-app/src/App.jsx:13-24 | entering clean texts joined by commas gives exactly those texts back as items, in order |
| `RatingSession.BlankInputGivesNothing` | text-rating-app/src/App.jsx:13-24 | input made only of commas and whitespace gives no items |
| `RatingSession.JoinContains` | text-rating-app/src/App.jsx:14 | every character of a piece occurs in the joined text |
| `RatingSession.Swap` | text-rating-app/src/App.jsx:45 | the destructuring swap keeps the length |
| `RatingSession.SwapPermutes` | text-rating-app/src/App.jsx:45 | a swap is a permutation |
| `RatingSession.Shuffle` | text-rating-app/src/App.jsx:43-46 | the Fisher-Yates loop with picks 0 ≤ j ≤ i keeps the length |
| `RatingSession.ShufflePermutes` | text-rating-app/src/App.jsx:42-46 | whatever the random picks, the shuffle is a permutation of itemsA ++ itemsB |
| `RatingSession.ShuffleInPlace` | text-rating-app/src/App.jsx:43-46 | the in-place loop from the last index down to 1 computes the shuffle |
| `RatingSession.ShuffleCopy` | text-rating-app/src/App.jsx:42-46 | the fresh copy, shuffled in place, is the shuffle of the items |
| `RatingSession.RateOne` | text-rating-app/src/App.jsx:52-54 | an item with another id is unchanged; one with this id gets the score in the named field and keeps all other fields |
| `RatingSession.Rate` | text-rating-app/src/App.jsx:51-55 | length and order are kept, and each item changes only as RateOne says |
| `RatingSession.RateTwice` | text-rating-app/src/App.jsx:51-55 | a later rating of the same field replaces an earlier one |
| `RatingSession.RateCommutes` | text-rating-app/src/App.jsx:51-55 | ratings of different fields or different ids commute |
| `RatingSession.ClickSetsScore` | text-rating-app/src/RatingStage.jsx:34 | a click on an option sets that score of the clicked item to the option's value |
| `RatingSession.FilterRate` | text-rating-app/src/ResultStage.jsx:8 | rating commutes with filtering by group |
| `RatingSession.InsertRate` | text-rating-app/src/ResultStage.jsx:8 | rating commutes with inserting by originalIndex |
| `RatingSession.SortRate` | text-rating-app/src/ResultStage.jsx:8 | rating commutes with sorting by originalIndex |
| `RatingSession.GroupItemsRate` | text-rating-app/src/ResultStage.jsx:8-9 | grouping the rated items is rating the grouped items, so entry numbering survives every rating |
| `RatingSession.RateKeepsEntryOrder` | text-rating-app/src/App.jsx:51-55 | rating keeps both groups numbered in entry order |
| `RatingSession.ShuffledEntries` | text-rating-app/src/App.jsx:42-48 | the shuffled items are a non-empty permutation of the entries in which no item has a content or a timeliness score, so they are not all rated, and from which both groups are recovered in entry order |
| `RatingSession.SomeUnrated` | text-rating-app/src/RatingStage.jsx:9 | a permutation of items containing one that lacks either score, at any position, is not all rated |
| `RatingSession.InputNextOutcome` | text-rating-app/src/App.jsx:27-48 | with no items the state is unchanged; otherwise the stage is rating and the items are a permutation of itemsA ++ itemsB that regroups into them, with no item having a content or a timeliness score |
| `RatingSession.App.constructor` | text-rating-app/src/App.jsx:8-9 | the app starts in the input stage with no items |
| `RatingSession.App.HandleInputNext` | text-rating-app/src/App.jsx:12-49 | the new state is the one handleInputNext computes, and the app state stays consistent |
| `RatingSession.App.HandleRate` | text-rating-app/src/App.jsx:51-55 | only the rated items change, as Rate says; the stage is unchanged |
| `RatingSession.App.HandleRatingFinish` | text-rating-app/src/App.jsx:57-59 | the stage becomes result and the items are untouched |
| `RatingSession.App.HandleReset` | text-rating-app/src/App.jsx:61-64 | the items become empty and the stage input |
| `Results.Filter` | text-rating-app/src/ResultStage.jsx:8 | the filtered items all belong to the group |
| `Results.FilterCount` | text-rating-app/src/ResultStage.jsx:8 | filtering keeps every copy of an item of the group and no item of another group |
| `Results.FilterOfPermutation` | text-rating-app/src/ResultStage.jsx:8 | filtering a permutation gives a permutation of the filtered items |
| `Results.FilterAppend` | text-rating-app/src/ResultStage.jsx:8 | filtering distributes over concatenation |
| `Results.FilterWhole` | text-rating-app/src/ResultStage.jsx:8 | a list of one group filters to itself for that group and to nothing for the other |
| `Results.InsertByIndex` | text-rating-app/src/ResultStage.jsx:8 | insertion adds exactly one copy of the item |
| `Results.InsertByIndexSorted` | text-rating-app/src/ResultStage.jsx:8 | insertion keeps a list sorted by originalIndex |
| `Results.SortByIndex` | text-rating-app/src/ResultStage.jsx:8 | the sort by originalIndex is an ascending permutation |
| `Results.GroupItems` | text-rating-app/src/ResultStage.jsx:8-9 | groupAItems / groupBItems are sorted by originalIndex and are a permutation of exactly that group's items |
| `Results.GroupItemsMembers` | text-rating-app/src/ResultStage.jsx:8-9 | an item is in the group's list exactly when it is among the items and belongs to the group, as often as there |
| `Results.SortedHeadLeast` | text-rating-app/src/ResultStage.jsx:8 | the head of a sorted list has the least originalIndex |
| `Results.SameFirst` | text-rating-app/src/ResultStage.jsx:8 | a sorted permutation of a consecutively numbered list starts with its head |
| `Results.SortedEqualsNumbered` | text-rating-app/src/ResultStage.jsx:8-9 | a sorted permutation of a consecutively numbered list is that list |
| `Results.GroupsRecovered` | text-rating-app/src/ResultStage.jsx:8-9 | whatever order the items are in, grouping and sorting by originalIndex gives both groups back exactly as entered |
| `Results.Scores` | text-rating-app/src/ResultStage.jsx:24-27 | the score list has the group's length and order; a present score is kept exactly, a null becomes 0, and a 0 comes only from null or a Bad rating |
| `Results.ResultNdcgIgnoresShuffle` | text-rating-app/src/ResultStage.jsx:22-30 | the figures shown are those of the two groups in entry order, whatever the shuffle did |
| `Results.Average` | text-rating-app/src/ResultStage.jsx:11-15 | 0 for an empty group, otherwise average × count equals the sum with null as 0 |
| `Results.AverageBounds` | text-rating-app/src/ResultStage.jsx:11-15 | the average lies between 0 and the largest score |
| `Results.RatingLabelTable` | text-rating-app/src/ResultStage.jsx:32-39 | a score gets a real label exactly when it is 5, 4, 2 or 0; Unrated goes with gray; distinct scale values get distinct labels |
| `Results.LabelHasNoBreaks` | text-rating-app/src/ResultStage.jsx:32-39 | no label contains a tab or a line break |
| `Results.ExportLineCells` | text-rating-app/src/ResultStage.jsx:44-47 | for an item whose text has no tab and no line feed, its line splits on tabs into the text and the two labels, so no numeric score appears |
| `Results.ExportRoundTrip` | text-rating-app/src/ResultStage.jsx:42-48 | for item texts without tabs or line feeds, the copied text has one line per item in group order, and each line reads back as text, content label, timeliness label |
| `Rating.AllRatedIff` | text-rating-app/src/RatingStage.jsx:9 | all rated exactly when no item has a null content or timeliness score; true for no items, and a 0 counts as rated |
| `Rating.OptionsMatchLabels` | text-rating-app/src/RatingStage.jsx:23-28 | the scale offers exactly 5, 4, 2 and 0, each once, with the label and colour the result stage shows for that score |
| `Rating.SolidAtMostOne` | text-rating-app/src/RatingStage.jsx:33 | at most one option is solid, none for a null score, and exactly one for a score on the scale |

## Two consequences of the shared ideal ranking

- Two identical groups do not score 1. With own = target = [5, 5, 5] and k = 10, the
  shared pool holds six 5s, all within the cutoff, so the IDCG sums six terms while
  each group's DCG sums three. Both NDCGs are equal and strictly below 1 before
  rounding (`NdcgScenarios.EqualGroupsScenario`).
- Raising every score of a group can lower its NDCG, even on the app's 5/4/2/0 scale.
  own = [2, 2] with an empty target scores 1, while own = [4, 5] scores below 1,
  because its larger score sits at the second rank (`NdcgScenarios.RaisingScoresCanLowerNdcg`). What the shared base does
  guarantee is that the group with the larger DCG gets the NDCG no smaller
  (`NdcgEngine.SharedBaseKeepsOrder`).

## Left out

- Rendering, Chakra layout, toasts and `useMemo` caching (`ResultStage.jsx:68-146`,
  `RatingStage.jsx:11-72`): presentation only.
- The clipboard call and its promise callbacks (`ResultStage.jsx:50-65`): I/O. Only
  the copied string is modelled.
- IEEE floating point in `Math.pow`, `Math.log2` and division: numbers are exact reals,
  and the discount is any function satisfying `ValidDiscount`.
- Results.Average: `toFixed(2)` string formatting is not modelled; the model gives the exact
  real quotient.
- RatingSession.ProcessText: ids from `Math.random` are a parameter `ids`, and nothing makes them
  unique. `Rate` updates every item carrying the id, as the code does.
- RatingSession.Shuffle: `Math.floor(Math.random() * (i + 1))` is an oracle `pick` with
  0 ≤ pick(i) ≤ i. Uniformity of the shuffle is not modelled.
- NdcgEngine.CalculateNdcg: JavaScript exceptions are not modelled. The calculation is total on
  its well-formed inputs, and the value of the `catch` branch is the separate
  function `Fallback`.
- Text.Trim: whitespace is the ECMAScript WhiteSpace and LineTerminator code points. The
  model has no other Unicode handling.
- Results.ExportRoundTrip: the one-line-per-item reading holds only for item texts without a
  tab or a line feed. processText trims only the ends of each segment, so an input such
  as "a\nb, c" gives the item text "a\nb", whose exported row spans two lines.
- Results.ExportLineCells: states the three cells of a row only for an item text without a
  tab or a line feed, for the same reason.
- The guard of the input form (`InputStage.jsx:9`), which calls the app only when both
  texts are non-blank, is not modelled. `HandleInputNext` accepts any two texts and
  keeps the app's own no-items branch.
- Scores are natural numbers. The non-integer, negative or non-numeric values that
  JavaScript would accept are not modelled.
