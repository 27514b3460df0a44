# Clip- and event-level evaluation measures, modelled in Dafny

This project models the computational core of `evaluation_measures.py`, the
evaluation module of a sound-event-detection system. It covers:

- **confusion counts** (`intermediate_at_measures`): per-class true/false
  positives and negatives of a reference and an estimated multi-hot matrix
  (rows are clips, columns are classes);
- **F-measure** (`macro_f_measure`, and the same masked formula inlined in
  `get_f_measure_by_class`): 2tp / (2tp + fp + fn) per class, 0 where that
  denominator is 0;
- **the accumulation loop of `get_f_measure_by_class`**: four zeroed count
  arrays to which each batch's counts are added in place, as an imperative
  method over `array<int>`;
- **per-file event lists** (`get_event_list_current_file`): the rows of one
  file, or the placeholder `{"filename": fname}` for a file whose only row
  has no label;
- **strong-to-weak conversion** (`format_df` with `join_labels`): one row per
  file, in sorted filename order, with the multi-hot vector of the file's
  distinct, present labels;
- **audio-tagging results** (`audio_tagging_results`): both tables formatted,
  outer-joined on the filename, missing sides zero-filled, per-class f/p/r
  computed and an "avg" row of unweighted means appended;
- **`flatten`**: the leaves of a nested iterable, left to right, with text
  and byte strings kept whole.

Modules, one per concern: `Wrappers` (Option), `Confusion`, `Scores`,
`Accumulation`, `Keys` (Python's string order, the sorted distinct keys
that `groupby` produces, and the first-appearance order of an outer `merge`), `EventLists`, `WeakLabels`,
`AudioTagging`, `Flatten`.

Modelling choices:

- The four counts are defined by the source's own arithmetic tests
  (`est + ref == 2`, `est - ref == 1`, `ref - est == 1`, `est + ref == 0`) on
  any integers. The partition tp + fp + fn + tn = rows is proved for 0/1
  matrices, where those tests are the four cells of the confusion table.
- NumPy's NaN is `None` in an `Option<real>`; a mean is `None` when any of
  its values is `None` or when there is nothing to average (NumPy's mean of
  an empty column is NaN).
- The class list of `audio_tagging_results` comes from `list(set(...))`,
  whose order Python does not fix; it is a parameter `classes`, and the
  ghost predicate `IsClassList` states what the source builds it from.
- Tables are sequences of rows. `groupby("filename")` lists its keys once
  each in sorted order; `Keys.SortedKeys` models that, with `Keys.Less` as
  Python's code-point order on `str`.
- The outer merge of line 402 passes no `sort=True`, and the pandas versions
  the module runs on (it calls `DataFrame.append`, removed in pandas 2.0) do
  not sort an outer merge then: the keys come in order of first appearance,
  the reference's files first, then the files only the estimate lists.
  `Keys.Unique` of the two filename columns models that order. No count and
  no output value depends on it.
- `ManyHotEncoder.encode_weak` is not part of this model; `EncodeWeak`
  stands in for it as "1 at each listed class, 0 elsewhere".

## Model

| member | source | states |
|---|---|---|
| Confusion.IntermediateAtMeasures | evaluation_measures.py:350-366 | four count vectors, one entry per class, each between 0 and the number of rows |
| Confusion.ColumnCount | evaluation_measures.py:362-365 | the `.sum(axis=0)` of one boolean column is at most the number of rows |
| Confusion.CountVector | evaluation_measures.py:362-365 | one count per class, each between 0 and the row count |
| Confusion.MatchesOnBits | evaluation_measures.py:362-365 | on 0/1 entries the four arithmetic tests are the four confusion cells and exactly one holds |
| Confusion.ColumnCountIsCardinality | evaluation_measures.py:362-365 | a count is the size of the set of row indices passing the test |
| Confusion.ColumnPartition | evaluation_measures.py:362-365 | for 0/1 columns the four counts of a class add up to the number of rows |
| Confusion.CountsPartitionRows | evaluation_measures.py:362-365 | for 0/1 matrices tp + fp + fn + tn = number of rows for every class |
| Confusion.ColumnSwap | evaluation_measures.py:362-365 | swapping the two matrices turns each column count into that of the mirrored outcome |
| Confusion.SwapExchangesFpFn | evaluation_measures.py:362-365 | swapping reference and estimate exchanges fp and fn and keeps tp and tn |
| Confusion.ColumnConcat | evaluation_measures.py:362-365 | a column count over stacked rows is the sum of the counts of the parts |
| Confusion.CountsOfConcat | evaluation_measures.py:337-341 | counts of stacked matrices are the element-wise sum of the parts' counts |
| Confusion.ZeroEstimateRowAddsOnlyNegatives | evaluation_measures.py:404-416 | an all-zero estimate row leaves tp and fp unchanged and adds the reference row to fn, its complement to tn |
| Confusion.ZeroReferenceRowAddsOnlyFalsePositives | evaluation_measures.py:404-416 | an all-zero reference row leaves tp and fn unchanged and adds the estimate row to fp, its complement to tn |
| Confusion.SingleClassExample | evaluation_measures.py:362-365 | reference 1,0,1,1 against estimate 1,1,0,1 gives tp 2, fp 1, fn 1, tn 0 |
| Confusion.VecAdd | evaluation_measures.py:338-341 | the element-wise sum: same length, each entry the sum of the two |
| Confusion.AddCounts | evaluation_measures.py:338-341 | the four `+=` at once: every count of every class is the sum of the two, lengths kept (`Confusion.CountsOfConcat` ties it to stacking the rows) |
| Confusion.Zeros | evaluation_measures.py:300-303 | `np.zeros(n)`: length n, every entry 0 |
| Scores.ClassF | evaluation_measures.py:381-383 | masked per-class F-measure, in [0, 1] for non-negative counts |
| Scores.MacroFMeasure | evaluation_measures.py:369-384 | one F-measure per class, each in [0, 1] for non-negative counts |
| Scores.ClassFExtremes | evaluation_measures.py:381-383 | F is 1 exactly when tp > 0 and fp = fn = 0, and 0 exactly when tp = 0 |
| Scores.ClassFIsHarmonicMean | evaluation_measures.py:381-383 | when tp > 0, F is the harmonic mean 2pr / (p + r) of precision and recall |
| Scores.Precision | evaluation_measures.py:418 | tp / (tp + fp) is NaN exactly when tp + fp = 0 and otherwise lies in [0, 1] |
| Scores.Recall | evaluation_measures.py:419 | tp / (tp + fn) is NaN exactly when tp + fn = 0 and otherwise lies in [0, 1] |
| Scores.PrecisionVector | evaluation_measures.py:418 | one precision per class, NaN exactly where tp + fp = 0 |
| Scores.RecallVector | evaluation_measures.py:419 | one recall per class, NaN exactly where tp + fn = 0 |
| Scores.Mean | evaluation_measures.py:427 | the column mean is defined exactly when there is a value and none is NaN |
| Scores.SumBounds | evaluation_measures.py:427 | a sum of values in [lo, hi] lies between n·lo and n·hi |
| Scores.MeanBounds | evaluation_measures.py:427 | a mean of values in [lo, hi] lies in [lo, hi] |
| Scores.SumOfConstant | evaluation_measures.py:427 | the sum of n copies of a is n·a |
| Scores.MeanOfConstant | evaluation_measures.py:427 | the mean of copies of a is a |
| Accumulation.Stack | evaluation_measures.py:304-341 | stacking the batches keeps the shape and the 0/1 property |
| Accumulation.AddInto | evaluation_measures.py:338-341 | `acc += delta` in place: the new array is the old one plus `delta`, element-wise |
| Accumulation.CountsStep | evaluation_measures.py:337-341 | the counts of the first k + 1 batches are those of the first k plus those of batch k |
| Accumulation.AddCountsInto | evaluation_measures.py:338-341 | the four `+=` lines: each array becomes its old contents plus the batch's vector |
| Accumulation.AccumulateCounts | evaluation_measures.py:300-341 | the loop's totals equal the counts of all batches' rows stacked together |
| Accumulation.AccumulatedPartition | evaluation_measures.py:300-341 | for 0/1 batches the accumulated tp + fp + fn + tn equals the number of clips for every class |
| Accumulation.GetFMeasureByClass | evaluation_measures.py:343-347 | the returned array is the masked F-measure of those totals, every entry in [0, 1] |
| Keys.Insert | evaluation_measures.py:279 | inserting a key into a sorted key list keeps it strictly sorted and adds exactly that key |
| Keys.SortedKeys | evaluation_measures.py:279 | the `groupby` keys: strictly sorted, and exactly the keys of the column |
| Keys.SortedIsDistinct | evaluation_measures.py:279 | strictly sorted keys hold each key once |
| EventLists.RowsOf | evaluation_measures.py:40 | the filter keeps only, and all, the rows of the file |
| EventLists.GetEventListCurrentFile | evaluation_measures.py:33-49 | every entry of the list belongs to the requested file |
| EventLists.RowsOfConcat | evaluation_measures.py:40 | filtering distributes over concatenation, so the rows keep their order |
| EventLists.RowsOfMultiplicity | evaluation_measures.py:40 | each row of the file is kept as often as it occurs, others never |
| EventLists.RowsOfAllMatching | evaluation_measures.py:40 | a table whose rows all belong to the file is returned whole |
| EventLists.RowsInRecords | evaluation_measures.py:46-47 | `to_dict('records')` gives back exactly the rows, in order |
| EventLists.EventListIsFileRows | evaluation_measures.py:41-47 | placeholder exactly when the file has one row with a missing label; otherwise the records are the file's rows in table order |
| EventLists.AbsentFileHasNoEvents | evaluation_measures.py:40-47 | a file with no row gets an empty list, not the placeholder |
| WeakLabels.EncodeWeak | evaluation_measures.py:275-276 | one tag per class |
| Keys.Unique | evaluation_measures.py:276 | `drop_duplicates` (and the merge's key order): no repeats, the same values as the input, and a list without repeats unchanged |
| Keys.UniqueConcat | evaluation_measures.py:402 | the first occurrences in the left list are a prefix of those in the concatenation: the left table's keys come first |
| WeakLabels.DropNa | evaluation_measures.py:276 | exactly the present values, still without repeats |
| WeakLabels.GroupLabels | evaluation_measures.py:276 | the group's distinct, present labels and no others |
| WeakLabels.FormatDf | evaluation_measures.py:264-280 | the result is weak, and a weak table comes back unchanged |
| WeakLabels.FormatDfIdempotent | evaluation_measures.py:278-280 | applying `format_df` twice is applying it once |
| WeakLabels.GroupHasLabel | evaluation_measures.py:276 | a label is among a file's deduplicated, present labels exactly when a row of the file carries it |
| WeakLabels.JoinLabels | evaluation_measures.py:274-276 | the file's weak row: its filename, one 0/1 tag per class, 1 exactly at the classes some row of the group is labelled with |
| WeakLabels.JoinLabelsTag | evaluation_measures.py:274-276 | a file's tag for a class is 1 exactly when one of its rows has that label, 0 otherwise |
| WeakLabels.FormatDfFiles | evaluation_measures.py:278-279 | one row per file of the table, filenames strictly sorted |
| WeakLabels.FormatDfGroups | evaluation_measures.py:274-279 | sorted files, 0/1 tags of the right width, tag 1 exactly for the file's labels |
| AudioTagging.ClipsOf | evaluation_measures.py:402 | the rows of one key on one side of the merge |
| AudioTagging.Cross | evaluation_measures.py:402 | a key listed on both sides of the merge yields (left rows) × (right rows) rows, every left/right pair among them, no side NaN |
| AudioTagging.KeyMatches | evaluation_measures.py:402 | a key's merged rows carry that key, are NaN exactly on a side not listing it, and exist exactly when some side lists it |
| AudioTagging.JoinKeys | evaluation_measures.py:402 | every merged row belongs to one of the keys with NaN exactly on a side not listing it, and every listed key has a row |
| AudioTagging.OuterJoin | evaluation_measures.py:402 | the outer merge: every row is a file of a side, NaN exactly on a side lacking it, every file of either side has a row (`AudioTagging.OuterJoinDistinct` gives the one-row-per-file form and the order) |
| AudioTagging.Lookup | evaluation_measures.py:402 | a side gives a file a value exactly when it lists the file, and that value is the file's tags |
| AudioTagging.KeyMatchesDistinct | evaluation_measures.py:402 | with one row per file per side, a key's merged rows are one row pairing both sides |
| AudioTagging.JoinKeysDistinct | evaluation_measures.py:402 | the merge yields one row per key, in key order |
| AudioTagging.OuterJoinDistinct | evaluation_measures.py:402 | the outer merge has one row per file of either side, each file once, the left side's files first and in its order, with NaN where a side lacks the file |
| AudioTagging.MergeOrderExample | evaluation_measures.py:402 | a reference listing b.wav merged with an estimate listing a.wav and b.wav gives b.wav, then a.wav |
| AudioTagging.RefMatrix | evaluation_measures.py:413-415 | the zero-filled reference column has one row per merged row |
| AudioTagging.PredMatrix | evaluation_measures.py:412-416 | the zero-filled prediction column has one row per merged row |
| AudioTagging.ZeroFill | evaluation_measures.py:404-409 | `na_values`: a present vector is kept, a NaN becomes the all-zero vector over the classes (`AudioTagging.SideTags` states what the filled value means) |
| AudioTagging.FormattedClips | evaluation_measures.py:394-395 | `format_df` of one event table: a row for exactly the files of the table, each a 0/1 vector over the classes |
| AudioTagging.Matching | evaluation_measures.py:394-402 | the merge of the two formatted tables: a side of a row is NaN exactly when its event table has no row for the file |
| AudioTagging.SideTags | evaluation_measures.py:394-409 | a side's zero-filled tags for a file are the multi-hot vector of its labels, zeros when the side lacks the file |
| AudioTagging.MatchingKeys | evaluation_measures.py:394-402 | the merged table has one row per file of either table, each file once, the reference's (sorted) files first, each row pairing what each side gives the file |
| AudioTagging.MatchRow | evaluation_measures.py:402-413 | a merged row's side is NaN exactly when that table lacks the file; zero-filled it is the file's multi-hot labels, zeros when absent |
| AudioTagging.MatchingShape | evaluation_measures.py:412-416 | the two zero-filled columns form 0/1 matrices of the same shape, one column per class |
| AudioTagging.MatchingFacts | evaluation_measures.py:394-416 | one row per file of either table, each file once; a side is zero-filled exactly where it lacks the file; entries are 1 exactly for the file's labels |
| AudioTagging.MatchingSides | evaluation_measures.py:402-416 | for every merged row, a side is NaN exactly when its table lacks the file, and zero-filled it is then all zeros |
| AudioTagging.MatchingLabels | evaluation_measures.py:402-416 | for every merged row and class, each zero-filled side is 1 exactly when its table labels the file with the class |
| AudioTagging.TaggingCounts | evaluation_measures.py:415-416 | one non-negative count per class for each of tp, fp, fn, tn |
| AudioTagging.TaggingCountsCountFiles | evaluation_measures.py:402-416 | tp, fp, fn, tn of a class count the files that both tables, only the estimate, only the reference, or neither tag with it |
| AudioTagging.ScoreColumns | evaluation_measures.py:411-423 | f always defined and in [0, 1], p and r in [0, 1] when defined, all zeros for an empty estimate |
| AudioTagging.CountColumns | evaluation_measures.py:417-419 | `macro_f`, `macro_p`, `macro_r` of non-negative counts: f always defined, every defined value in [0, 1] |
| AudioTagging.ScoresOfCounts | evaluation_measures.py:417-419 | an unfolding of `ScoreColumns`' non-empty-estimate branch, not a separate property: f, p and r of a class are `ClassF`, `Precision` and `Recall` of its tagging counts |
| AudioTagging.Tabulate | evaluation_measures.py:424-427 | class rows named by the class list, then "avg" with the column means |
| AudioTagging.TabulateFacts | evaluation_measures.py:424-427 | the "avg" row is the unweighted mean of the class rows, values stay in [0, 1], f is defined when there is a class |
| AudioTagging.AudioTaggingResults | evaluation_measures.py:387-429 | one row per class then "avg", avg = unweighted column means, every value in [0, 1], f never NaN when there is a class |
| AudioTagging.EmptyEstimateScoresZero | evaluation_measures.py:420-427 | an empty estimate gives f = p = r = 0 on every row, "avg" included |
| AudioTagging.EstimateDenominator | evaluation_measures.py:418 | tp + fp of a class is 0 exactly when the estimate never uses the class |
| AudioTagging.ReferenceDenominator | evaluation_measures.py:419 | tp + fn of a class is 0 exactly when the reference never uses the class |
| AudioTagging.UndefinedRatios | evaluation_measures.py:418-419 | with an estimate, p is NaN exactly when the estimate never uses the class, r exactly when the reference never does |
| AudioTagging.SomeRatioDefined | evaluation_measures.py:388-419 | with the class list built from both tables, no class has both p and r NaN |
| Flatten.Flatten | evaluation_measures.py:24-29 | only atoms are yielded: no nested iterable survives |
| Flatten.FlattenConcat | evaluation_measures.py:25-29 | flattening a concatenation is concatenating the flattenings: leaves keep left-to-right order |
| Flatten.FlatListUnchanged | evaluation_measures.py:26-29 | a list without nested iterables, strings and bytes included, comes back unchanged |
| Flatten.FlattenIdempotent | evaluation_measures.py:24-29 | flattening twice is flattening once |
| Flatten.FlattenNested | evaluation_measures.py:26-27 | an extra level of nesting changes nothing |
| Flatten.FlattenMembers | evaluation_measures.py:24-29 | the values yielded are exactly the atoms reachable by descending into the list |
| Flatten.MixedExample | evaluation_measures.py:24-29 | `[1, ["ab", [2]], 3]` flattens to `[1, "ab", 2, 3]` |

## Left out

- The comma-separated `event_labels` branch of `audio_tagging_results` (lines 396-400), which parses a weak table's label strings with pandas string expansion; the model takes strong tables, which go through `format_df`.
- The order of the class list: `list(set(...))` has no order Python guarantees, so `classes` is a parameter; `IsClassList` states which labels it holds.
- `ManyHotEncoder` is not part of this model; `EncodeWeak` stands in for `encode_weak`.
- AudioTagging.ScoreColumns: NaN arithmetic is not modelled; a zero denominator in p or r gives `None` (no claim of NumPy's NaN or inf values), and a mean involving one is `None`.
- The model forward pass, GPU transfer, `np.max` over the time axis and the `ProbabilityEncoder` binarisation of `get_f_measure_by_class` (lines 305-335): the batches enter the model already binarised.
- `get_sedt_predictions`, the collar and segment matching done by `sed_eval` in `event_based_evaluation_df` and `segment_based_evaluation_df`, PSDS computation and plotting, and the metric printing of `compute_sed_eval_metrics` and `compute_metrics`: external libraries, floating point and I/O.
- Floating-point rounding: f, p, r and the "avg" means are exact rationals (`real`), not float64 values, so `Scores.ClassFIsHarmonicMean` and the bounds hold in exact arithmetic only.
- The NaN onset and offset of an event row without an event: `onset` and `offset` are `real` and cannot be NaN; they are carried in the rows but never computed with, as is `score`.
- NaN values in general: wherever a row above says "NaN", the model has `None` of `Option`, and "NaN exactly when" means the value is `None` exactly then.
- AudioTagging.AudioTaggingResults: accepts any class list, while the source always passes the set of labels of both tables (`AudioTagging.IsClassList`); `WeakLabels.EncodeWeak` ignores labels outside the list, so results for other lists correspond to no run of the source. `AudioTagging.SomeRatioDefined` is the property that needs the source's list.
- Flatten.Flatten: takes the top-level argument as a list; a bare string or bytes passed at the top level (which Python would iterate character by character) and infinite or one-shot iterables are not modelled, laziness of the generator is not represented, and neither is the `RecursionError` Python raises when the nesting is deeper than the interpreter's recursion limit: the model flattens any finite depth.
- Duplicate filenames within one weak table are handled by the join functions (all pairs for a repeated key), but the properties are proved for tables produced by `format_df`, which list each file once.
