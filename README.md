# SeismicPro QC core in Dafny

This project models the quality-control arithmetic of SeismicPro, the seismic processing
library. It covers two source files.

`seismicpro/src/seismic_metrics.py` holds the per-gather metrics and the metrics map:
- `calculate_minmax`: the largest max-minus-min spread over the rows of a semblance.
- `velocity`: the mean apparent velocity `offset / time` over the traces picked later than time 1.
- `MetricsMap`: the class that stores one metric per distinct surface coordinate, concatenates maps with `append`, and splits its rows into columns.
- `construct_map`: builds the extent of the map.
- `construct_metrics_map`: bins the coordinates into half-open square cells and fills a NaN grid with the mean metric of every cell.

`seismicpro/qc/utils.py` holds the AVO (amplitude versus offset) utilities:
- `parse_tuple`.
- The line parsing of `load_horizon`.
- `update_avo_params`: appends, for every gather of a batch, one row of per-offset-bin aggregates. Amplitudes are cut to a sample window that is optionally horizon-relative.
- The arithmetic of `avo_plot`: masking zeros, averaging per bin, dropping empty bins, bin positions and stats labels.
- The arithmetic of `std_plot`: the long-form table of nonzero values and the `align_mean` shift.

## How the model is organised

| Module | What it holds |
|---|---|
| `Wrappers` | `Option` and `Result` |
| `ArrayOps` | the NumPy primitives the code relies on (sum, mean, min, max, `np.arange`, the `int32` cast, `np.clip`, Python slicing, `np.sort`, first-occurrence `np.unique`, `np.nanmean`, `np.nan_to_num`) |
| `SeismicMetrics` | `seismic_metrics.py` |
| `QcText` | `str.split`, `str.strip`, `int()` and `float()` on text, plus `parse_tuple` and `load_horizon` |
| `QcAvo` | `update_avo_params` |
| `QcSummary` | `avo_plot` and `std_plot` |

The model follows the source's own form:
- **State changed in place is imperative.** `MetricsMap` is a class whose `mapsList` field `Append` extends. `ConstructMetricsMap` fills a fresh `array2` in a nested loop. `AlignMean` shifts an `array` of values group by group.
- **Loops that accumulate are methods.** `UpdateAvoParams`, `FillStorage`, `LoadHorizon` and `BuildTable` each have loop invariants and are proved equal to a function over values (`HorizonRows`, `StorageRow`, `AvoParams`, `Table`). The properties are then proved about that function.
- **Special values.** NaN is `None` wherever the model carries a value that can be NaN: cell values, bin averages and the velocity. The metrics of a metrics map are plain reals, so a NaN metric is not represented (see `SeismicMetrics.ConstructMetricsMap` under "Left out"). An exception is a `Failure`, except in `CalculateMinmax` and `MapExtent`, which give `None` where NumPy raises on an empty reduction. Coordinates, amplitudes and times are unbounded reals.
- **`params` of `update_avo_params`.** It is `None` before the first batch and a 2-D array afterwards. The model passes `Option<seq<seq<real>>>`: `None` is Python's `None` and `Some(rows)` is an array with those rows (`Some([])` stands for an array with no rows that is `storage_size` wide). Appending a row to earlier rows of another width fails with `ParamsWidth`, as `np.append` raises.

The source fixes a few behaviours that a reader might not expect. The model keeps them and proves them:
- `MetricsMap` deduplicates the coordinates but not the metrics. The k-th distinct coordinate is paired with the k-th metric: coordinates (0,0), (0,0), (1,1) with metrics 10, 20, 30 give the rows ((0,0), 10) and ((1,1), 20) (`PositionalPairingExample`). Unequal lengths are not an error, because `zip` stops at the shorter input.
- `calculate_minmax` takes the spread along `axis=1`, so it works per row of the semblance.
- `update_avo_params` sorts the offsets but not the traces. Bin membership is therefore decided by position in the sorted offsets. It is right only for traces already in ascending offset order (`SortedOffsetsSelectOwnTraces`, `UnsortedOffsetsSwapTraces`).
- With an integer bin width whose multiple equals the largest offset, that largest offset falls in no bin (`MaxOffsetDropped`). An array of edges ends at `max + 1`. It keeps the largest offset in its last bin whenever at least one given edge lies below that offset (`EdgesLastBin`). When no given edge lies below it, there is no bin at all.
- In `load_horizon`, a horizon line with exactly two tokens parses, and its second token serves as both crossline and time (`TwoTokenLine`).
- In `avo_plot`, an unrecognised `stats` entry builds a `ValueError` but never raises it. The entry is skipped (`UnknownStatSkipped`).
- `np.nan_to_num(x, 0)` passes 0 as `copy`. NaN still becomes 0.
- `velocity` indexes with `[time > 1]`, a list that holds a boolean mask. The model reads it as the mask `time[time > 1]`. NumPy before version 1.23 read such a list as a tuple index, which gives that mask; later versions read it as an array index instead.
- `std_plot` keeps a bin only when its sum across gathers is nonzero. A bin whose nonzero values cancel out is dropped.
- The docstring of `update_avo_params` allows `horizon_window` to be an int (utils.py:116), but the unpack `lower_bound, upper_bound = horizon_window` (utils.py:142) raises for an int and for a length other than 2. The model takes `horizon_window` as either form and reports the unpack error as `WindowUnpack` (`GatherWindow`).
- The docstring calls `window` an interval in ms (utils.py:114-115), but `subfield[:, window[0]: window[1]+1]` (utils.py:157) slices the sample axis with it. `Window` therefore holds sample indices, both ends included, and a `window` given without a horizon is read as indices too.

## Model

| member | source | states |
|---|---|---|
| ArrayOps.SumConcat | seismicpro/src/seismic_metrics.py:130 | the sum of a concatenation is the sum of the sums |
| ArrayOps.SumBounds | seismicpro/src/seismic_metrics.py:130 | n values within [lo, hi] sum to between n*lo and n*hi |
| ArrayOps.Min | seismicpro/src/seismic_metrics.py:111 | `min()` is an element of the array and below every element |
| ArrayOps.Max | seismicpro/src/seismic_metrics.py:111 | `max()` is an element of the array and above every element |
| ArrayOps.MeanOfEqualSum | seismicpro/qc/utils.py:381 | values summing like n copies of c have mean c |
| ArrayOps.MeanBounds | seismicpro/src/seismic_metrics.py:130 | a mean lies between the minimum and the maximum |
| ArrayOps.MeanWithin | seismicpro/src/seismic_metrics.py:130 | the mean of values in [lo, hi] lies in [lo, hi] |
| ArrayOps.Shifted | seismicpro/qc/utils.py:384 | adding c to every value keeps the length and shifts each value by c |
| ArrayOps.SumShifted | seismicpro/qc/utils.py:384 | shifting n values by c adds n*c to the sum |
| ArrayOps.MeanShifted | seismicpro/qc/utils.py:384 | shifting every value by c shifts the mean by c |
| ArrayOps.Ceil | seismicpro/qc/utils.py:146 | the least integer not below q |
| ArrayOps.Trunc | seismicpro/qc/utils.py:143 | the `int32` cast rounds towards zero: within 1 of the value, on the side of 0 |
| ArrayOps.Clip | seismicpro/qc/utils.py:144 | `np.clip` keeps a value inside [lo, hi], and sends a value outside to the nearer bound |
| ArrayOps.Arange | seismicpro/src/seismic_metrics.py:121-122 | `np.arange` yields the number of points its length formula gives |
| ArrayOps.ArangeMember | seismicpro/src/seismic_metrics.py:121-122 | for a positive step, point k exists iff start + k*step < stop, and it equals start + k*step |
| ArrayOps.SliceBound | seismicpro/qc/utils.py:157 | an in-range bound is kept, a bound past the end clamps to the length, and a negative bound counts from the end, clamped at 0 |
| ArrayOps.PySlice | seismicpro/qc/utils.py:157 | `s[lo:hi]` is no longer than s; from a non-negative lo it holds s[lo + k] at k, with length hi - lo after clamping |
| ArrayOps.Insert | seismicpro/qc/utils.py:134 | inserting into a sorted sequence keeps it sorted and adds exactly x to the multiset |
| ArrayOps.ConsSorted | seismicpro/qc/utils.py:134 | a head no larger than any element of a sorted tail keeps the sequence sorted |
| ArrayOps.BoundedByMultiset | seismicpro/qc/utils.py:134 | a lower bound of every element carries over to any permutation |
| ArrayOps.InsertBehindHead | seismicpro/qc/utils.py:134 | inserting behind a smaller head keeps the head first, the result sorted, and adds exactly x |
| ArrayOps.Sort | seismicpro/qc/utils.py:134 | `np.sort` is ascending and a permutation of its input |
| ArrayOps.SortSorted | seismicpro/qc/utils.py:134 | sorting an ascending sequence leaves it as it is |
| ArrayOps.Dedup | seismicpro/src/seismic_metrics.py:78-79 | the unique coordinates: every input element occurs, no element is repeated, nothing new appears |
| ArrayOps.FirstIndex | seismicpro/src/seismic_metrics.py:78 | `return_index`: the first position holding c |
| ArrayOps.FirstIndexUnique | seismicpro/src/seismic_metrics.py:78 | a position holding c with no c before it is the first index |
| ArrayOps.FirstIndexOfPrefix | seismicpro/src/seismic_metrics.py:78 | appending an element does not move the first occurrence of an earlier one |
| ArrayOps.LastFirstIndex | seismicpro/src/seismic_metrics.py:78 | an appended element that is new first occurs at the end |
| ArrayOps.NewInPrefix | seismicpro/qc/utils.py:382 | an element of a duplicate-free list does not occur before its position |
| ArrayOps.DedupFirstOccurrence | seismicpro/src/seismic_metrics.py:78-79 | the unique coordinates are ordered by first occurrence; exactly the repeated positions are dropped |
| ArrayOps.DedupCount | seismicpro/src/seismic_metrics.py:78-79 | the unique coordinates and the repeated ones together number the inputs |
| ArrayOps.DedupOrder | seismicpro/src/seismic_metrics.py:78-79 | the unique coordinates are in order of first occurrence |
| ArrayOps.DedupOrderStep | seismicpro/src/seismic_metrics.py:78-79 | one more coordinate keeps the unique ones in order of first occurrence |
| ArrayOps.Present | seismicpro/qc/utils.py:253 | the present values: a value is kept iff it is present, never more of them than the inputs |
| ArrayOps.PresentConcat | seismicpro/qc/utils.py:253 | skipping NaN distributes over concatenation, so the present values keep their order and multiplicity |
| ArrayOps.PresentSingle | seismicpro/qc/utils.py:253 | one value is kept iff it is present |
| ArrayOps.NanMean | seismicpro/qc/utils.py:253 | `np.nanmean` is NaN iff every value is NaN, and otherwise lies between the least and largest present value |
| ArrayOps.MaskZeros | seismicpro/qc/utils.py:249 | exact zeros become NaN and every other value stays |
| ArrayOps.NonZero | seismicpro/qc/utils.py:367-368 | the nonzero values: a value is kept iff it is nonzero, never more of them than the inputs |
| ArrayOps.NonZeroConcat | seismicpro/qc/utils.py:367-368 | dropping zeros distributes over concatenation, so the nonzero values keep their order and multiplicity |
| ArrayOps.NonZeroSingle | seismicpro/qc/utils.py:367-368 | one value is kept iff it is nonzero |
| ArrayOps.PresentMaskZeros | seismicpro/qc/utils.py:249-253 | masking zeros as NaN, then skipping NaN, leaves exactly the nonzero values in order |
| ArrayOps.NanToNum | seismicpro/qc/utils.py:259 | NaN becomes 0 and every other value stays |
| SeismicMetrics.RowSpread | seismicpro/src/seismic_metrics.py:24 | a row's max - min is non-negative and bounds every difference of two entries |
| SeismicMetrics.CalculateMinmax | seismicpro/src/seismic_metrics.py:24 | fails iff the semblance or one of its rows is empty; otherwise non-negative, at least every row's spread, and equal to one of them |
| SeismicMetrics.VelocityTerms | seismicpro/src/seismic_metrics.py:44-47 | the selection holds at most one ratio per trace |
| SeismicMetrics.VelocityTermsMembers | seismicpro/src/seismic_metrics.py:44-47 | every trace with time > 1 contributes its ratio offset/time, and every ratio comes from such a trace |
| SeismicMetrics.Velocity | seismicpro/src/seismic_metrics.py:44-47 | undefined (NaN) iff no time exceeds 1; otherwise the mean of the qualifying ratios, between the least and the largest of them |
| SeismicMetrics.VelocityTermsConcat | seismicpro/src/seismic_metrics.py:44-47 | the ratios of two runs of traces are those of the first run followed by those of the second |
| SeismicMetrics.VelocityTermsSingle | seismicpro/src/seismic_metrics.py:44-47 | one trace contributes offset/time iff its time exceeds 1 |
| SeismicMetrics.VelocityIgnoresEarlyPicks | seismicpro/src/seismic_metrics.py:44-46 | a trace picked at time <= 1, at any position, does not change the velocity |
| SeismicMetrics.ConstantVelocity | seismicpro/src/seismic_metrics.py:44-47 | if every qualifying trace has offset = v*time, the velocity is v |
| SeismicMetrics.RatioOnLine | seismicpro/src/seismic_metrics.py:44-47 | a trace on the line offset = v*time, picked after time 1, has ratio offset/time = v |
| SeismicMetrics.SplitResult | seismicpro/src/seismic_metrics.py:101-105 | the x, y and metric columns have one entry per row |
| SeismicMetrics.SplitResultRoundTrip | seismicpro/src/seismic_metrics.py:101-105 | zipping the three columns back gives the rows |
| SeismicMetrics.MapExtent | seismicpro/src/seismic_metrics.py:111 | the extent is undefined iff the map is empty; otherwise it bounds every coordinate, and each bound is attained |
| SeismicMetrics.CellSamples | seismicpro/src/seismic_metrics.py:127-130 | the cell holds at most one metric per sample |
| SeismicMetrics.CellSamplesMembers | seismicpro/src/seismic_metrics.py:127-130 | every sample that passes the half-open cell mask contributes its metric, and every metric comes from such a sample |
| SeismicMetrics.CellSamplesEmpty | seismicpro/src/seismic_metrics.py:127-130 | the cell gathers no metric iff no sample passes its mask |
| SeismicMetrics.CellValue | seismicpro/src/seismic_metrics.py:127-130 | a cell is NaN iff no sample lies in it; otherwise its value times the number of its metrics is their sum |
| SeismicMetrics.CellSamplesPrefix | seismicpro/src/seismic_metrics.py:127-130 | the metrics of the first n samples depend on those samples alone |
| SeismicMetrics.CellSamplesConcat | seismicpro/src/seismic_metrics.py:127-130 | the cell's metrics over two runs of samples are those of the first run followed by those of the second |
| SeismicMetrics.CellSamplesSingle | seismicpro/src/seismic_metrics.py:127-130 | one sample contributes its metric iff it passes the cell mask |
| SeismicMetrics.ConstructMetricsMap | seismicpro/src/seismic_metrics.py:119-131 | a fresh grid of len(range_y) x len(range_x) cells; cell [j, i] holds the mean metric of the samples in x-bin i and y-bin j, or NaN when there are none |
| SeismicMetrics.CellValueMeaning | seismicpro/src/seismic_metrics.py:123-130 | a cell is NaN iff no sample falls in it; otherwise it lies between the least and largest of its metrics, and a cell holding one sample holds that sample's metric |
| SeismicMetrics.CellCountSamples | seismicpro/src/seismic_metrics.py:129-130 | the number of metrics averaged in a cell is the cell's count of samples |
| SeismicMetrics.RowCountStep | seismicpro/src/seismic_metrics.py:125-128 | one more sample adds to a row's count exactly the bins of that row that contain it |
| SeismicMetrics.GridCountStep | seismicpro/src/seismic_metrics.py:125-128 | a sample lying in exactly one x-bin adds to the grid count the y-bins that contain it |
| SeismicMetrics.NoSamplesNoCount | seismicpro/src/seismic_metrics.py:125-128 | without samples the grid count is 0 |
| SeismicMetrics.NoSamplesEmptyRow | seismicpro/src/seismic_metrics.py:125-128 | without samples a row count is 0 |
| SeismicMetrics.GridCountAll | seismicpro/src/seismic_metrics.py:125-128 | when every sample lies in exactly one x-bin and one y-bin, the cell counts add up to the number of samples |
| SeismicMetrics.BinIndex | seismicpro/src/seismic_metrics.py:127-128 | for a positive bin size, v lies in bin i iff i is the floor of (v - min) / bin_size |
| SeismicMetrics.HitsOfRegularBins | seismicpro/src/seismic_metrics.py:121-128 | among regular bins, v lies in one bin if its floor index is in range and in none otherwise |
| SeismicMetrics.FloorBin | seismicpro/src/seismic_metrics.py:121 | a value at or above the minimum has a natural bin index whose bin starts at or below it |
| SeismicMetrics.InExactlyOneBin | seismicpro/src/seismic_metrics.py:121-122 | each coordinate lies in exactly one of the bins `np.arange(min, max + bin_size, bin_size)` builds |
| SeismicMetrics.EverySampleCountedOnce | seismicpro/src/seismic_metrics.py:121-130 | for a positive bin size every sample lies in exactly one cell, and the cell counts add up to the number of samples |
| SeismicMetrics.MetricsMap.constructor | seismicpro/src/seismic_metrics.py:77-80 | keeps the metrics; the coordinates are deduplicated in first-occurrence order; row k pairs the k-th distinct coordinate with metrics[k], for min(#coordinates, #metrics) rows |
| SeismicMetrics.MetricsMap.Append | seismicpro/src/seismic_metrics.py:91-93 | the rows become the old rows followed by the other map's rows; nothing else changes, and neither does the other map |
| SeismicMetrics.MetricsMap.ConstructMap | seismicpro/src/seismic_metrics.py:101-115 | fails iff the map is empty (the three-way unpack of `__split_result`) or the bin size is 0 (`np.arange` with step 0); otherwise gives the grid of the split columns and the extent |
| SeismicMetrics.PositionalPairingExample | seismicpro/src/seismic_metrics.py:77-80 | example: coordinates (0,0), (0,0), (1,1) with metrics 10, 20, 30 give the rows ((0,0), 10) and ((1,1), 20) |
| QcText.Split | seismicpro/qc/utils.py:14 | `str.split(sep)` gives at least one piece, and no piece holds sep |
| QcText.JoinSplit | seismicpro/qc/utils.py:14 | joining the pieces of a split gives back the string |
| QcText.SplitJoin | seismicpro/qc/utils.py:14 | splitting pieces joined by sep gives back the pieces |
| QcText.SplitCount | seismicpro/qc/utils.py:14-15 | there is one piece more than there are separators, so a single piece means no separator |
| QcText.Strip | seismicpro/qc/utils.py:188 | `str.strip()` neither starts nor ends with whitespace |
| QcText.StripPiece | seismicpro/qc/utils.py:188 | the stripped string is the piece of the input between a whitespace prefix and a whitespace suffix, and it is empty iff the input is all whitespace |
| QcText.Collapse | seismicpro/qc/utils.py:188 | collapsing spaces never lengthens, keeps the first and last character, and leaves no two neighbouring spaces |
| QcText.CollapseAroundChar | seismicpro/qc/utils.py:188 | a character other than a space splits the collapsing: the text before and after it collapse on their own |
| QcText.CollapseStep | seismicpro/qc/utils.py:188 | a space followed by a space is dropped, and any other character is kept before the collapse of the rest |
| QcText.CollapseAfterChar | seismicpro/qc/utils.py:188 | a character other than a space is kept in front of the collapse of what follows it |
| QcText.CollapseSpaces | seismicpro/qc/utils.py:188 | a run of one or more spaces becomes a single space |
| QcText.CollapseKeepsClass | seismicpro/qc/utils.py:188 | collapsing spaces adds no letter and no ':' |
| QcText.ParseInt | seismicpro/qc/utils.py:17 | `int()` fails with the offending literal |
| QcText.NatToString | seismicpro/qc/utils.py:357 | the decimal text of n is a non-empty string of digits whose value is n |
| QcText.IntToString | seismicpro/qc/utils.py:357 | `str()` of an integer is integer text |
| QcText.IntRoundTrip | seismicpro/qc/utils.py:17 | `int(str(x)) == x` |
| QcText.ParseFloat | seismicpro/qc/utils.py:192 | `float()` fails with the offending literal |
| QcText.FloatOfIntString | seismicpro/qc/utils.py:192 | `float(str(x)) == x` for an integer x |
| QcText.Collect | seismicpro/qc/utils.py:17 | a success has one value per result, and a failure is the error of the first failing result, every earlier one succeeding |
| QcText.CollectMeaning | seismicpro/qc/utils.py:17 | collecting succeeds iff every result does, and then keeps each value in its place |
| QcText.IntResults | seismicpro/qc/utils.py:17 | one `int()` outcome per token |
| QcText.ParseInts | seismicpro/qc/utils.py:17 | a successful parse has one integer per token, and a failure is the invalid literal of the first token `int()` rejects |
| QcText.ParseIntsMeaning | seismicpro/qc/utils.py:17 | the list parse succeeds iff every token parses, and then holds each token's value in order |
| QcText.ParseTuple | seismicpro/qc/utils.py:12-17 | the "wrong input format" error occurs iff the argument has no comma; a success holds one integer per comma-separated part |
| QcText.ParseTupleRoundTrip | seismicpro/qc/utils.py:12-17 | the comma-joined text of two or more integers parses back to them |
| QcText.ParseIntsAll | seismicpro/qc/utils.py:17 | tokens that each parse to xs[k] parse together to xs |
| QcText.CleanLine | seismicpro/qc/utils.py:187-188 | a cleaned line has no double space and no leading or trailing whitespace |
| QcText.Blanked | seismicpro/qc/utils.py:187 | each letter and ':' becomes a space and every other character stays at its position |
| QcText.CleanLineBlanksLetter | seismicpro/qc/utils.py:187-188 | a letter or ':' anywhere in a line cleans exactly as a space in its place would |
| QcText.CleanLineShape | seismicpro/qc/utils.py:187-190 | a cleaned line holds no letter or ':', and it is empty (skipped) iff the line holds only whitespace, letters and ':' |
| QcText.ParseHorizonLine | seismicpro/qc/utils.py:187-192 | a line is skipped iff it is blank once cleaned |
| QcText.TwoTokenLine | seismicpro/qc/utils.py:192 | a two-integer line "a b" gives (a, b, b) |
| QcText.ThreeTokenLine | seismicpro/qc/utils.py:192 | a three-integer line "a b t" gives (a, b, t) |
| QcText.TwoPlainTokens | seismicpro/qc/utils.py:187-191 | "a b" made of integer texts is left as it is by the cleaning and splits into [a, b] |
| QcText.ThreePlainTokens | seismicpro/qc/utils.py:187-191 | "a b t" made of integer texts is left as it is by the cleaning and splits into [a, b, t] |
| QcText.OneTokenLine | seismicpro/qc/utils.py:192 | a one-integer line fails with the index error of `line[1]` |
| QcText.HorizonLineOfTokens | seismicpro/qc/utils.py:191-192 | with at least two tokens, the entry is (int first, int second, float last) |
| QcText.LineResults | seismicpro/qc/utils.py:186-192 | one line outcome per line |
| QcText.CollectRows | seismicpro/qc/utils.py:186-192 | gathering succeeds iff every line outcome does, with at most one row per outcome |
| QcText.HorizonRows | seismicpro/qc/utils.py:186-192 | loading succeeds iff every line parses, with at most one row per line |
| QcText.CollectRowsCount | seismicpro/qc/utils.py:186-192 | a successful gathering has one row per outcome that is not a skip, each row coming from one outcome |
| QcText.NonBlankFilled | seismicpro/qc/utils.py:187-190 | the non-blank lines are exactly the lines whose outcome is not a skip |
| QcText.NonBlankSkips | seismicpro/qc/utils.py:187-190 | when outcomes are skips exactly on blank lines, the number of non-blank lines is the number of filled outcomes |
| QcText.CollectRowsFailure | seismicpro/qc/utils.py:192 | a failed outcome makes the gathering fail |
| QcText.CollectRowsFirstFailure | seismicpro/qc/utils.py:186-192 | the gathering fails with the error of the first failing outcome |
| QcText.CollectRowsSingle | seismicpro/qc/utils.py:186-192 | one outcome gives its entry, no row when it is a skip, or its error |
| QcText.CollectRowsConcat | seismicpro/qc/utils.py:186-192 | two runs of outcomes give the first run's error, else the second run's error, else the first run's rows followed by the second's |
| QcText.HorizonRowsCount | seismicpro/qc/utils.py:186-192 | a successful load has one row per non-blank line, each the parse of one line |
| QcText.HorizonRowsFailure | seismicpro/qc/utils.py:192 | a line that fails makes the whole load fail |
| QcText.HorizonRowsFirstFailure | seismicpro/qc/utils.py:186-192 | the load raises the error of its first failing line |
| QcText.HorizonRowsSingle | seismicpro/qc/utils.py:186-192 | one line gives its entry, no row when it is blank once cleaned, or its error |
| QcText.HorizonRowsConcat | seismicpro/qc/utils.py:186-192 | the lines of two pieces of text give the rows of the first, then those of the second, or the error of the first failing line |
| QcText.LineResultsConcat | seismicpro/qc/utils.py:186-192 | the outcomes of two runs of lines are those of the first run, then those of the second |
| QcText.LoadHorizon | seismicpro/qc/utils.py:185-192 | the loop over the lines of the text gives the rows `HorizonRows` gives for the lines: the entries of the non-blank lines in file order, or the error of the first failing line (`HorizonRowsConcat`, `HorizonRowsSingle`, `HorizonRowsFirstFailure`) |
| QcText.CollectRowsPrefixFailure | seismicpro/qc/utils.py:186-192 | once a prefix of the outcomes fails, the whole gathering fails with that prefix's error |
| QcAvo.HorizonTime | seismicpro/qc/utils.py:139-141 | no time iff no horizon row matches (crossline, inline); otherwise the time of the first matching row |
| QcAvo.SampleIndex | seismicpro/qc/utils.py:143-144 | the window bound is the truncated t / t_step clipped to [0, len(samples)]: itself when in range, 0 below, len(samples) above |
| QcAvo.GatherWindow | seismicpro/qc/utils.py:136-144 | without a horizon the window argument is used as it is; with one, the window is the clipped sample indices of t - lower and t + upper, t the first matching horizon time and lower, upper the two values of `horizon_window`; each error case holds exactly when its condition does, in the source's order: ShortSampleAxis, EmptyGather, HorizonMissing, WindowUnpack (an int or a length other than 2 at utils.py:142), ZeroTimeStep |
| QcAvo.TruncMonotone | seismicpro/qc/utils.py:143 | the `int32` cast never decreases as its argument grows |
| QcAvo.WindowAroundHorizon | seismicpro/qc/utils.py:142-144 | for a positive time step and non-negative bounds, the window starts at or before the horizon's sample and ends at or after it |
| QcAvo.GatherWindowSpansHorizon | seismicpro/qc/utils.py:139-144 | a gather under a horizon gets a window that holds the sample of its horizon time, when the samples rise and the bounds are not negative |
| QcAvo.Below | seismicpro/qc/utils.py:148 | `bin_size[bin_size < offset[-1]]`: an edge is kept iff it is below the largest offset, and every kept edge is below it |
| QcAvo.BelowConcat | seismicpro/qc/utils.py:148 | the edge filter distributes over concatenation, so the kept edges keep their order and multiplicity |
| QcAvo.BelowSingle | seismicpro/qc/utils.py:148 | one edge is kept iff it is below the largest offset |
| QcAvo.Steps | seismicpro/qc/utils.py:145-148 | fails iff the width is 0; edges give the edges below the largest offset followed by max + 1 |
| QcAvo.SelectRows | seismicpro/qc/utils.py:152 | every row whose offset at its position is in [lo, hi) is selected |
| QcAvo.SelectRowsConcat | seismicpro/qc/utils.py:152 | the selection distributes over concatenation, so the selected rows keep their order and multiplicity |
| QcAvo.SelectRowsSingle | seismicpro/qc/utils.py:152 | one row is selected iff its offset lies in [lo, hi) |
| QcAvo.SelectRowsQualify | seismicpro/qc/utils.py:152 | every selected row is the trace at a position whose offset lies in [lo, hi) |
| QcAvo.SliceColumns | seismicpro/qc/utils.py:157 | each row is cut to the window's columns with Python's slice rules |
| QcAvo.Masked | seismicpro/qc/utils.py:158 | exact zero amplitudes become NaN and the others stay |
| QcAvo.BinOutcome | seismicpro/qc/utils.py:151-159 | a bin without amplitudes stores 0, one with amplitudes the NaN-to-0 aggregate of its window; without a window it fails with NoWindow, past storage_size with TooManyBins |
| QcAvo.BinValues | seismicpro/qc/utils.py:151-159 | a success holds one value per bin, and there are no more bins than storage slots |
| QcAvo.Zeros | seismicpro/qc/utils.py:150 | `np.zeros(n)` |
| QcAvo.StorageRow | seismicpro/qc/utils.py:150-159 | a gather's row has storage_size entries |
| QcAvo.GatherRow | seismicpro/qc/utils.py:130-159 | a gather's row has storage_size entries |
| QcAvo.RowResults | seismicpro/qc/utils.py:129 | one outcome per gather, in batch order |
| QcAvo.Rows | seismicpro/qc/utils.py:161 | the rows `params` holds: none for `None` |
| QcAvo.Appended | seismicpro/qc/utils.py:161 | with no outcome `params` is returned as it is; a success holds one more row per outcome, and is `None` only when `params` is `None` and there is no outcome |
| QcAvo.AvoParams | seismicpro/qc/utils.py:129-162 | with no gather `params` is returned as it is; a success holds one more row per gather, and is `None` only when `params` is `None` and there is no gather |
| QcAvo.FillStorage | seismicpro/qc/utils.py:150-159 | the loop over the bins gives `StorageRow` |
| QcAvo.GatherStorage | seismicpro/qc/utils.py:130-159 | one gather's processing gives `GatherRow` |
| QcAvo.UpdateAvoParams | seismicpro/qc/utils.py:129-162 | the loop over the gathers gives `AvoParams`, including the `np.append` width error |
| QcAvo.BinValuesFailure | seismicpro/qc/utils.py:151-159 | once a bin raises, later bins do not change the error |
| QcAvo.AppendedFailure | seismicpro/qc/utils.py:129-161 | once a gather raises, later gathers do not change the error |
| QcAvo.AppendedSuccess | seismicpro/qc/utils.py:129-161 | for rows w entries wide, appending succeeds iff every outcome is a row and the earlier rows, if any, are w wide; the result is then w wide |
| QcAvo.AppendedRows | seismicpro/qc/utils.py:161 | the earlier rows come first and unchanged, then one row per gather in order |
| QcAvo.AvoParamsRows | seismicpro/qc/utils.py:129-162 | succeeds iff every gather succeeds and the earlier rows, if any, are storage_size wide; the result is then the earlier rows unchanged, followed by each gather's row in order, all storage_size wide |
| QcAvo.AvoParamsWidthError | seismicpro/qc/utils.py:161 | when the first gather's row succeeds but an earlier row is not storage_size wide, `np.append` raises |
| QcAvo.StorageRowContents | seismicpro/qc/utils.py:150-159 | a bin without traces is 0, slots past the last bin are 0, and any other bin is the NaN-to-0 aggregate of its window (inclusive bounds) with zeros masked |
| QcAvo.BinValuesContents | seismicpro/qc/utils.py:151-159 | value i is the outcome of bin i |
| QcAvo.BinValuesSnoc | seismicpro/qc/utils.py:151-159 | a bin whose outcome is v extends the values of the earlier bins by v |
| QcAvo.StorageRowFailure | seismicpro/qc/utils.py:151-159 | a bin that raises makes the storage row fail with that error |
| QcAvo.LastSortedIsMax | seismicpro/qc/utils.py:134-146 | `offset[-1]` of the sorted offsets is the largest offset |
| QcAvo.WidthEdges | seismicpro/qc/utils.py:146 | with an integer width b > 0 the edges are 0, b, 2b, ... below max + b |
| QcAvo.BinsHoldingIsHits | seismicpro/qc/utils.py:152 | consecutive bins of width b contain an offset exactly as many times as the map's regular bins do |
| QcAvo.WidthBinsHolding | seismicpro/qc/utils.py:146-152 | with width b > 0, an offset o >= 0 lies in one bin iff floor(o / b) is a bin index, and in none otherwise |
| QcAvo.WidthBinCount | seismicpro/qc/utils.py:146-151 | with width b > 0 there are ceil(max / b) bins |
| QcAvo.OffsetBelowMaxBinnedOnce | seismicpro/qc/utils.py:146-152 | every offset in [0, max) lies in exactly one width bin |
| QcAvo.MaxOffsetDropped | seismicpro/qc/utils.py:146-152 | when the largest offset is a multiple of the width, it lies in no bin |
| QcAvo.IntegralRatioDropped | seismicpro/qc/utils.py:146-152 | when max / width is a whole number, the offset max lies in no bin |
| QcAvo.EdgesKeepMaxOffset | seismicpro/qc/utils.py:148-152 | when every given edge is below the largest offset, the edges are kept and the largest offset lies in the last bin |
| QcAvo.EdgesLastBin | seismicpro/qc/utils.py:148-152 | with bin edges there is a bin iff some given edge is below the largest offset, and then the largest offset lies in the last bin, which ends at max + 1 |
| QcAvo.BelowAll | seismicpro/qc/utils.py:148 | edges all below the largest offset are kept as they are |
| QcAvo.SortedOffsetsSelectOwnTraces | seismicpro/qc/utils.py:134-152 | with offsets already ascending, each trace is binned by its own offset |
| QcAvo.UnsortedOffsetsSwapTraces | seismicpro/qc/utils.py:134-152 | with offsets [200, 100], the bin [0, 150) selects the first trace, whose offset is 200, in place of the second |
| QcSummary.Column | seismicpro/qc/utils.py:247 | row b of `data.T` holds bin b of every gather |
| QcSummary.Transposed | seismicpro/qc/utils.py:247 | `data.T` has one row per bin, each the bin's column |
| QcSummary.NanData | seismicpro/qc/utils.py:247-249 | each bin's values with exact zeros as NaN |
| QcSummary.BinAverages | seismicpro/qc/utils.py:252-259 | the ValueError occurs iff `avg_method` is a name other than 'mean'; 'mean' gives one average per bin |
| QcSummary.NonzeroIndices | seismicpro/qc/utils.py:262 | `np.nonzero`: ascending in-range indices of nonzero entries, and all of them |
| QcSummary.AvoBinning | seismicpro/qc/utils.py:252-256 | an unknown `avg_method` name fails with its ValueError |
| QcSummary.KeepNonzero | seismicpro/qc/utils.py:262-269 | dropping the zero averages raises the IndexError of `transposed_data[nonzeros]` (BinOutOfRange) exactly when some nonzero average lies at an index past the last bin, so it succeeds whenever there are no more averages than bins |
| QcSummary.MeanBinAverage | seismicpro/qc/utils.py:247-259 | with 'mean', a bin's average is 0 when it has no nonzero amplitude, and otherwise the mean of its nonzero amplitudes |
| QcSummary.KeepNonzeroBins | seismicpro/qc/utils.py:262-264 | the kept bins are, in ascending order, exactly the bins with a nonzero average, each with its average and amplitudes |
| QcSummary.KeepNonzeroPositions | seismicpro/qc/utils.py:266-269 | a kept bin's x-position is its index for 'offset', index times the width for an integer width, and the given value otherwise |
| QcSummary.Positions | seismicpro/qc/utils.py:266-269 | the x-position of each kept bin: its index for 'offset', index times the width for an integer width, the given values otherwise |
| QcSummary.MeanBinningKeepsNonzeroMeans | seismicpro/qc/utils.py:247-269 | with 'mean' the binning loop raises nothing (the `np.polyfit` after it is left out), and a bin is kept iff it has a nonzero amplitude and their mean is nonzero |
| QcSummary.Labels | seismicpro/qc/utils.py:276-290 | at most one label per stats entry |
| QcSummary.StatLabels | seismicpro/qc/utils.py:275-290 | no stats give no label; a single name gives "Mean std" for 'std', "Corr" for 'corr' and nothing otherwise; a list gives at most one label per entry |
| QcSummary.LabelsConcat | seismicpro/qc/utils.py:279 | the labels of consecutive entries are the labels of each part in turn |
| QcSummary.UnknownStatSkipped | seismicpro/qc/utils.py:289-290 | an unrecognised stats name adds no label and raises nothing |
| QcSummary.LabelsAllKnown | seismicpro/qc/utils.py:279-290 | every entry gets a label iff every entry is recognised |
| QcSummary.BinEntries | seismicpro/qc/utils.py:366-371 | a bin's entries are its nonzero values in gather order, tagged with the bin's offset and the series name |
| QcSummary.BinPart | seismicpro/qc/utils.py:364-371 | a bin with zero sum gives no entry; every entry is a nonzero value tagged with b * bin_size and the name, at most one per gather |
| QcSummary.ConcatMembers | seismicpro/qc/utils.py:373 | an entry is in the concatenated table iff it is in one of the parts |
| QcSummary.BinPartMembers | seismicpro/qc/utils.py:364-371 | an entry of bin b is a nonzero value m[g][b] of a bin with nonzero sum, tagged with b * bin_size and the name |
| QcSummary.SeriesMembers | seismicpro/qc/utils.py:362-371 | a series' table holds exactly its nonzero values in bins with nonzero sum, each tagged with its offset and name |
| QcSummary.Series | seismicpro/qc/utils.py:362-371 | a series without bins gives no entry; every entry is nonzero and carries the series name |
| QcSummary.DefaultNames | seismicpro/qc/utils.py:356-357 | `names=None` gives one name per series |
| QcSummary.DefaultNamesDistinct | seismicpro/qc/utils.py:357 | the default names "0", "1", ... are distinct |
| QcSummary.SeriesCount | seismicpro/qc/utils.py:361 | `zip` gives as many series as the shorter of the distributions and the names |
| QcSummary.SeriesTables | seismicpro/qc/utils.py:361 | `zip` gives one table per series, as many as the shorter of the results and the names |
| QcSummary.TableMembers | seismicpro/qc/utils.py:361-373 | an entry is in the table iff it is a nonzero value of a bin with nonzero sum, in one of the zipped series, tagged with that bin's offset and the series name |
| QcSummary.Table | seismicpro/qc/utils.py:361-373 | no zipped series give an empty table; every entry is nonzero and carries one of the names |
| QcSummary.BuildTable | seismicpro/qc/utils.py:361-373 | the loop appending each series' frame gives `Table` |
| QcSummary.GroupValues | seismicpro/qc/utils.py:382 | a group is empty iff its name is absent, and it holds only the table's values |
| QcSummary.GroupValuesConcat | seismicpro/qc/utils.py:382 | the group over two runs of entries is that of the first run followed by that of the second |
| QcSummary.GroupValuesSingle | seismicpro/qc/utils.py:382 | one entry joins the group iff it carries the group's name |
| QcSummary.Aligned | seismicpro/qc/utils.py:378-384 | alignment keeps the number of values |
| QcSummary.GroupAgrees | seismicpro/qc/utils.py:384 | shifting each member of a group by c shifts the group by c |
| QcSummary.GroupUnchanged | seismicpro/qc/utils.py:384 | a group whose members keep their values is unchanged |
| QcSummary.AlignedGroupMean | seismicpro/qc/utils.py:378-384 | after alignment every series' mean is the original global mean |
| QcSummary.AlignedDifferences | seismicpro/qc/utils.py:384 | alignment keeps the differences within a series |
| QcSummary.GroupSumsSnoc | seismicpro/qc/utils.py:382 | one more value adds to the sum of groups exactly where its name is listed |
| QcSummary.SumByGroups | seismicpro/qc/utils.py:382 | groups whose keys name every value once partition the sum |
| QcSummary.GroupSumsEmpty | seismicpro/qc/utils.py:382 | no values give group sums of 0 |
| QcSummary.EqualMeanGroupSums | seismicpro/qc/utils.py:383-384 | groups with mean c sum as the same groups of constant c |
| QcSummary.GroupSumOfMean | seismicpro/qc/utils.py:383 | a group with mean c sums as that group of constant c |
| QcSummary.GroupSize | seismicpro/qc/utils.py:382 | a group's size depends on the names only |
| QcSummary.Constant | seismicpro/qc/utils.py:383 | n copies of c |
| QcSummary.ConstantGroupSum | seismicpro/qc/utils.py:382 | a group of a constant sequence sums to its size times the constant |
| QcSummary.ConstantGroup | seismicpro/qc/utils.py:382 | every value of a group of a constant sequence is that constant |
| QcSummary.AlignedGlobalMean | seismicpro/qc/utils.py:378-384 | alignment leaves the global mean unchanged |
| QcSummary.EqualGroupMeans | seismicpro/qc/utils.py:381-384 | when every series has mean m, so does the whole table |
| QcSummary.AlignedAt | seismicpro/qc/utils.py:383-384 | an aligned value is the value plus global mean minus its series mean |
| QcSummary.ShiftedGroup | seismicpro/qc/utils.py:384 | shifting one series keeps the number of values |
| QcSummary.PartlyAligned | seismicpro/qc/utils.py:378-384 | aligning some of the series keeps the number of values |
| QcSummary.UntouchedGroup | seismicpro/qc/utils.py:382-384 | a series not yet aligned still has its original values, so its mean is unchanged |
| QcSummary.AlignStep | seismicpro/qc/utils.py:383-384 | aligning one more series n shifts exactly its values by the global mean minus its own mean |
| QcSummary.AllAligned | seismicpro/qc/utils.py:378-384 | once every series is done, the values are the aligned ones |
| QcSummary.ShiftGroup | seismicpro/qc/utils.py:384 | exactly the values of series n are shifted by align |
| QcSummary.AlignMean | seismicpro/qc/utils.py:378-384 | the in-place group-by loop leaves the aligned values |
| QcSummary.Values | seismicpro/qc/utils.py:376 | the `val` column |
| QcSummary.Offsets | seismicpro/qc/utils.py:375 | the `indices` column |
| QcSummary.Names | seismicpro/qc/utils.py:371 | the `name` column |
| QcSummary.StdPlotTable | seismicpro/qc/utils.py:354-384 | the val, indices and name columns of the table, with the values aligned when `align_mean` is set |

Arithmetic helpers model no source line of their own and have no row: `ArrayOps.MeanTimesCount`, `ArrayOps.MeanOfSum`, `ArrayOps.SumConstant`, `ArrayOps.DivOfMultiple`, `ArrayOps.DivShift`, `ArrayOps.ScaleLess`, `ArrayOps.DropLastConcat`, `ArrayOps.ConcatEmpty`, `QcText.Regroup`, `QcText.AroundParts`, `SeismicMetrics.DistanceToBinStart`, `SeismicMetrics.FloorUnique`, `SeismicMetrics.ScaleSign`, `QcAvo.DivAddOne`, `QcAvo.CeilShift` and `QcAvo.DivMonotone`.

Proof steps of the text parsers and the summary model likewise have no row; each serves the member named after it: `QcText.DigitChar`, `QcText.ParseDigits`, `QcText.ParseSignedDigits`, `QcText.Pow10`, `QcText.DotIndex`, `QcText.FloatOfDigits`, `QcText.FloatOfSignedDigits`, `QcText.ParseFloatOfStripped`, `QcText.WholeNumber`, `QcText.DecimalOfDigits` and `QcText.NoDot` (`ParseInt`, `ParseFloat`); `QcText.SplitNoSeparator` and `QcText.SplitAfterPiece` (`Split`); `QcText.SkipSpaces`, `QcText.TrimEnd` and `QcText.StripUnchanged` (`Strip`); `QcText.CollapseUnchanged` (`Collapse`); `QcText.ThreeTokens`, `QcText.CleanPlain`, `QcText.PlainToken` and `QcText.PlainJoin` (`TwoPlainTokens`, `ThreePlainTokens`, `OneTokenLine`); `ArrayOps.DivBounds` (`MeanWithin`); `QcSummary.GroupValuesLast` and `QcSummary.ShiftedSnoc` (`GroupAgrees`); `ArrayOps.PrefixSnoc` (`AlignMean`).

Definitions that transcribe one source expression carry no contract of their own and have no row; what they compute is stated by the lemmas and contracts of the members that use them:
- `ArrayOps.Sum` and `ArrayOps.Mean` are `np.sum` and `np.mean` (seismicpro/src/seismic_metrics.py:47, seismicpro/qc/utils.py:381), stated by `SumConcat`, `SumBounds`, `MeanBounds` and `MeanWithin`.
- `SeismicMetrics.BinStarts` is the `np.arange` of one axis (seismicpro/src/seismic_metrics.py:121-122), stated through `Arange` and `ArangeMember`.
- `SeismicMetrics.InCell` is the mask of one cell (seismicpro/src/seismic_metrics.py:127-128), stated by `CellSamplesMembers` and `InExactlyOneBin`.
- `QcAvo.BinCount` is the number of bins `step_list[:-1]` walks (seismicpro/qc/utils.py:151).
- `QcAvo.BinRows` is the bin's `subfield` (seismicpro/qc/utils.py:152), stated by the `SelectRows` lemmas.
- `QcAvo.NoAmplitudes` is `subfield.size == 0` (seismicpro/qc/utils.py:153), used by `BinOutcome`.
- `QcAvo.RowsOfWidth` is the width test of `np.append` (seismicpro/qc/utils.py:161), used by `Appended` and `AppendedSuccess`.
- `QcSummary.StatLabel` is the label of one stats entry (seismicpro/qc/utils.py:280-290), stated by `StatLabels`, `UnknownStatSkipped` and `LabelsAllKnown`.
- `QcSummary.GroupMean` is `np.mean(dframe.val)` (seismicpro/qc/utils.py:383), stated by `AlignedGroupMean`.
- `QcSummary.SeriesNames` is the default of `names` (seismicpro/qc/utils.py:357), stated by `DefaultNames` and `DefaultNamesDistinct`.
- `QcSummary.Concat` is the appending of each frame to `resulted_df` (seismicpro/qc/utils.py:373), stated by `ConcatMembers` and `TableMembers`.
- `QcSummary.Width` is the number of bins of one distribution (seismicpro/qc/utils.py:369).
- `QcText.IsSpace` is the whitespace `str.strip()` removes (seismicpro/qc/utils.py:188), limited as the `QcText.Strip` line below says.

## Left out

- Plotting and file output are not part of this model: `plot_metrics`, `plot_slice`, `plot_metrics_map`, the matplotlib and seaborn calls, `savefig`, and the CSV written by `avo_plot` (seismicpro/qc/utils.py:314-322).
- `load_horizon` opening and reading its file: `LoadHorizon` receives the file's text as a parameter, and the DataFrame it returns is a sequence of rows.
- `calc_range`, `SemblanceMetrics.calculate_std` and `PM.linear_diff` are left out. They rely on NaN percentiles, square roots and `scipy.stats.siegelslopes`, which this model does not define.
- `np.polyfit` and `np.polyval` in `avo_plot`, and the values of the 'std', 'corr' and callable stats, are left out as floating-point numerics. Only the labels the stats produce are modelled.
- QcSummary.AvoBinning: `np.polyfit` (seismicpro/qc/utils.py:272) runs on the kept bins unconditionally and raises when no bin is kept (all-zero data) or when the given positions have another length than the kept bins. Because `np.polyfit` is left out, `AvoBinning` and `MeanBinningKeepsNonzeroMeans` return a success in those cases.
- SeismicMetrics.ConstructMetricsMap: the metrics of a metrics map are NaN-free reals. A NaN metric, such as the one `PM.velocity` writes when no pick is later than time 1, would make its cell NaN although samples fall in it, which `CellValueMeaning` does not cover.
- QcText.CleanLine: its own contract states the shape of a cleaned line; what each character becomes is stated by `Blanked`, `CleanLineBlanksLetter`, `StripPiece` and `CollapseAroundChar`.
- QcText.CollectRows: its own contract states when the gathering succeeds and bounds the number of rows; the order and the multiplicity of the rows and the error of the first failing outcome are stated by `CollectRowsConcat`, `CollectRowsSingle` and `CollectRowsFirstFailure`.
- QcText.HorizonRows: its own contract states when loading succeeds and bounds the number of rows; the order and the multiplicity of the rows and the error of the first failing line are stated by `HorizonRowsConcat`, `HorizonRowsSingle` and `HorizonRowsFirstFailure`.
- QcText.CollectRowsCount: it states the number of rows and the origin of each; their order is stated by `CollectRowsConcat` and `CollectRowsSingle`.
- QcText.HorizonRowsCount: it states the number of rows and the origin of each; their order is stated by `HorizonRowsConcat` and `HorizonRowsSingle`.
- `MetricsMap.__getattr__` is left out. It is a dynamic attribute lookup through an alias table.
- `inbatch_parallel`, `njit(parallel=True)` and `prange` are not modelled; the per-index bodies are modelled sequentially. The batch accessors (`get_pos`, `index.get_df`, `meta`) are replaced by the gather data they return.
- `seismicpro/src/dataset.py`, `seismicpro/src/file_utils.py` and `docker_containers/picking_docker/picking_inference.py` are not part of this model. They cover dataset wiring, SEG-Y and CSV input/output, and a command-line inference tool.
- Rounding: values are exact reals, not float32/float64. The float32 columns of `__split_result` are therefore not rounded.
- SeismicMetrics.SplitResult: the float32 conversion of the columns is not modelled, because values are exact reals.
- QcAvo.SampleIndex: the `int32` cast does not wrap around on out-of-range values; it truncates towards zero over unbounded integers.
- QcAvo.GatherWindow: a zero time step is reported as the ZeroTimeStep failure. NumPy would instead divide by zero, giving inf/nan and then an undefined cast; there is no such value to represent here.
- QcAvo.GatherRow: `calc_method` is a total function from the masked amplitudes to a value or NaN. An exception raised inside it is not modelled.
- QcText.Strip: the whitespace set is the one `IsSpace` defines, up to U+00A0; the wider Unicode whitespace set of `str.strip()` is not modelled. Its own contract states only the ends of the result: that only whitespace is removed, from both ends, is stated by `StripPiece`.
- QcText.Collapse: its own contract states the length, the end characters and the absence of double spaces; what it does with each character is stated by `CollapseAroundChar` (a non-space character is kept and splits the text) and `CollapseSpaces` (a run of spaces becomes one space).
- ArrayOps.Present: its own contract is about membership only; the order and the multiplicity of the present values are stated by `PresentConcat` and `PresentSingle`.
- ArrayOps.NonZero: its own contract is about membership only; the order and the multiplicity of the nonzero values are stated by `NonZeroConcat` and `NonZeroSingle`.
- SeismicMetrics.VelocityTerms: its own contract bounds the length only; membership is stated by `VelocityTermsMembers`, and the order and the multiplicity of the ratios are stated by `VelocityTermsConcat` and `VelocityTermsSingle`.
- SeismicMetrics.CellSamples: its own contract bounds the length only; membership is stated by `CellSamplesMembers` and `CellSamplesEmpty`, and the order and the multiplicity of a cell's metrics are stated by `CellSamplesConcat`, `CellSamplesPrefix` and `CellSamplesSingle`.
- QcAvo.Below: its own contract is about membership only; the order and the multiplicity of the kept edges are stated by `BelowConcat` and `BelowSingle`.
- QcAvo.SelectRows: its own contract says only that qualifying rows are selected; that only qualifying rows are, in order and once each, is stated by `SelectRowsQualify`, `SelectRowsConcat` and `SelectRowsSingle`.
- QcSummary.GroupValues: its own contract is about membership only; the order and the multiplicity of a group's values are stated by `GroupValuesConcat` and `GroupValuesSingle`.
- QcAvo.EdgesKeepMaxOffset: it requires every given edge to be below the largest offset; the general case is `EdgesLastBin`.
- QcText.ParseInt: `int()` is modelled for ASCII digits with optional sign and the whitespace up to U+00A0. Digit-grouping underscores, non-ASCII digits and the wider Unicode whitespace set are not accepted.
- QcText.ParseFloat: `float()` is modelled for ASCII decimal literals without an exponent, with optional sign and the whitespace up to U+00A0. Digit-grouping underscores (`float("3_5")` is 35.0), non-ASCII digits and the wider Unicode whitespace set, all of which reach `float()` in `load_horizon`, give a `Failure` in the model. Exponents, "inf" and "nan" are not modelled either; they cannot reach `float()` there, because letters are blanked first.
- QcSummary.BinAverages: a callable `avg_method` is modelled as a function from the masked bins-by-gathers matrix to one possibly-NaN value per bin; whatever else a callable may return is not modelled. A non-callable, non-string `avg_method` cannot be expressed and is not modelled.
- QcSummary.StdPlotTable: `avo_results` must be a list of 2-D distributions; a single 2-D array passed on its own is not modelled. The string round trip of the table's columns through `np.array` and `astype(float)` is taken to be exact.
- QcSummary.AlignMean: pandas assigns the shifted values through index alignment, and the frames appended to `resulted_df` each restart their index at 0. The model assigns by position within each series. The `groupby` order (sorted names) is replaced by first-occurrence order; this gives the same final values, because each series is shifted once by an amount computed from the original values.
- QcSummary.StatLabels: a stats callable passed on its own, rather than inside a list, is not modelled.
