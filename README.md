# PandasPlusPlus data frames, modelled in Dafny

This project models the core of PandasPlusPlus, a small C++ data-frame library.

- **Data frame.** `ppp::Dataframe<T>` is a table of floating-point cells with an optional header row of column names. It is built from a CSV file, from in-memory rows, or as a zero-filled table of a given size. Its mutators change it in place:
  - insert rows and columns;
  - replace a column;
  - rename the columns;
  - stack another frame underneath.

  It answers NaN-aware means and medians by row, by column position, by column name and over the whole table.
- **Older frame.** The older `Dataframe` (at the repository root) has the same parser and reductions, and its own exception for a bad row.
- **Older reader.** `read_file::CSV` is an earlier reader with its own width rule.
- **Column.** `ppp::Column<int>` is a named integer vector with element-wise arithmetic, dot and cross products, norms, checked indexing and append.

How the model is laid out:

- `wrappers.dfy`: `Option`, `Result` and `Outcome`.
- `text.dfy`: the `find(",")`/`substr`/`erase` line splitting and `std::to_string`.
- `cells.dfy`: a cell is `NaN` or an exact `real`. This file holds:
  - the two NaN policies of the means;
  - a reference sort and the median.
- `selection.dfy`: the in-place `MedianHelper`, which does `nth_element` and then `max_element` on an `array<real>`.
- `tables.dfy`: the six fields of a frame as a value (`Table`), and its shape invariant. It also holds:
  - the exceptions, as `Error`;
  - every read-only reduction.
- `parse.dfy`:
  - the header and data-line readers shared by the file constructors;
  - the file, modelled as a sequence of lines;
  - `std::stof`, modelled as a parameter.
- `dataframe.dfy`: class `Frame.Dataframe` with the same fields as the C++ class. It holds:
  - the constructors; those that throw are static methods returning `Result`;
  - the mutators, each with `modifies this` and a `Fail` outcome that leaves the frame unchanged, where the C++ method throws;
  - the accessors.
- `legacy.dfy`: class `LegacyFrame.Dataframe`.
- `readcsv.dfy`: class `ReadCsv.CSV`.
- `column.dfy`: class `Columns.Column`. Its element-wise results are specified on sequences.

The const reductions of a frame are written once, in `Tables`, over `Table`. A frame `f` answers `MeanOfRow(f.View(), i, omit)` and so on. `View()` is the snapshot of its fields.

## Model

| member | source | states |
|---|---|---|
| Text.FindComma | ppp/ppp/Dataframe.hpp:220-221 | `None` exactly when the line has no comma; otherwise the position of the first comma |
| Text.SplitLength | ppp/ppp/Dataframe.hpp:220-232 | splitting a line on commas gives one token per comma plus the trailing token |
| Text.JoinSplit | ppp/ppp/Dataframe.hpp:220-232 | the tokens joined back with ',' give the line: the split loses nothing |
| Text.SplitJoin | ppp/ppp/Dataframe.hpp:220-232 | comma-free tokens survive a join followed by a split |
| Text.SplitTokensCommaFree | ppp/ppp/Dataframe.hpp:220-232 | no token holds a comma |
| Text.NatToStringRoundTrip | ppp/ppp/Dataframe.hpp:1187-1188 | the decimal rendering of a column number reads back as that number |
| Text.IntToString | ppp/ppp/Column.hpp:265 | `std::to_string` of an integer starts with '-' exactly when it is negative |
| Cells.ValuesAndNaNs | ppp/ppp/Dataframe.hpp:674-733 | the non-NaN values and the NaN count together account for every cell |
| Cells.ZeroSubstituteTotal | ppp/ppp/Dataframe.hpp:645-663 | replacing NaN by 0 leaves the sum of the values unchanged |
| Cells.PoliciesShareTheSum | ppp/ppp/Dataframe.hpp:674-733 | both NaN policies divide the same sum, the total of the non-NaN values: the zero-substituting mean by the cell count, the omitting mean by the non-NaN count; with no values that sum is 0 and the omitting mean is 0 |
| Cells.PoliciesAgreeWithoutNaN | ppp/ppp/Dataframe.hpp:674-733 | without NaN both policies give the same mean |
| Cells.OmitMeanIsMeanOfValues | ppp/ppp/Dataframe.hpp:674-733 | with some non-NaN cell, the NaN-omitting mean is the mean of the values |
| Cells.MeanWithinBounds | ppp/ppp/Dataframe.hpp:894-911 | a mean lies between any lower and upper bound of its values |
| Cells.SortFacts | ppp/ppp/Dataframe.hpp:298-310 | the reference ordering is sorted and a permutation of its input |
| Cells.SortedUnique | ppp/ppp/Dataframe.hpp:298-310 | two sorted permutations of one multiset are equal |
| Cells.MedianPermutation | ppp/ppp/Dataframe.hpp:931-941 | the median depends only on the multiset of values, so the unordered gathers may feed it |
| Cells.MedianWithinBounds | ppp/ppp/Dataframe.hpp:298-310 | the median lies between any lower and upper bound of the values |
| Selection.NthElement | ppp/ppp/Dataframe.hpp:299-300 | rearranges the vector as a permutation with nothing larger before position n and nothing smaller after it |
| Selection.MinIndex | ppp/ppp/Dataframe.hpp:299-300 | the position of a least element of the suffix |
| Selection.Swap | ppp/ppp/Dataframe.hpp:299-300 | swaps two cells, keeps the others and the multiset |
| Selection.MaxElement | ppp/ppp/Dataframe.hpp:302-305 | the result is one of the first n elements and no smaller than any of them |
| Selection.MedianHelper | ppp/ppp/Dataframe.hpp:298-310 | permutes the vector in place and returns the median of its old contents: the middle element for an odd count, else the mean of the two middle ones |
| Selection.PartitionSort | ppp/ppp/Dataframe.hpp:299-300 | sorting a vector partitioned around n is sorting the two sides separately around the pivot |
| Selection.PartitionRanks | ppp/ppp/Dataframe.hpp:299-300 | after the partition, position n holds the element of rank n |
| Selection.MaxIsRankBelow | ppp/ppp/Dataframe.hpp:302-305 | the largest element before the pivot has rank n - 1 |
| Tables.Find | ppp/ppp/Dataframe.hpp:634-642 | `None` exactly when the name is absent; otherwise the first position carrying it |
| Tables.Resolve | ppp/ppp/Dataframe.hpp:737-748 | rejects an index exactly when its magnitude reaches the extent; a negative index counts back from the end |
| Tables.NegativeIndexing | ppp/ppp/Dataframe.hpp:743-745 | `-k` and `extent - k` name the same position |
| Tables.Column | ppp/ppp/Dataframe.hpp:1115-1123 | column j has one cell per row, the j-th of that row |
| Tables.MeanOfLabel | ppp/ppp/Dataframe.hpp:626-728 | `ColumnNotFound` exactly when there is no header row or the name is missing; otherwise the mean of the first column with that name, zero-substituting by default and NaN-omitting with `omit_nan` |
| Tables.MeanOfRow | ppp/ppp/Dataframe.hpp:735-798 | `IndexOutOfBounds` exactly when the magnitude of the index reaches the height; otherwise the chosen policy's mean of the resolved row |
| Tables.MeanAlong | ppp/ppp/Dataframe.hpp:808-888 | row-wise it is the row mean; column-wise it is out of bounds exactly when the magnitude reaches the width, else the mean of the resolved column |
| Tables.NegativeRowMean | ppp/ppp/Dataframe.hpp:743-748 | `Mean(-k)` equals `Mean(height - k)` and succeeds |
| Tables.LabelMeanIsIndexMean | ppp/ppp/Dataframe.hpp:674-733 | the mean by name equals the column-wise mean at the first position of that name |
| Tables.FlatMembers | ppp/ppp/Dataframe.hpp:280-291 | a value is among the flattened values exactly when some cell holds it |
| Tables.NonNaN | ppp/ppp/Dataframe.hpp:931-939 | the gathered values are, as a multiset, the non-NaN cells |
| Tables.Flatten | ppp/ppp/Dataframe.hpp:280-291 | the flattened vector is, as a multiset, every non-NaN cell of the table |
| Tables.MedianOf | ppp/ppp/Dataframe.hpp:298-310 | the median of a non-empty NaN-free sequence, through the in-place helper on a fresh vector |
| Tables.MedianOfCells | ppp/ppp/Dataframe.hpp:931-941 | the median of the non-NaN cells |
| Tables.MedianOfRow | ppp/ppp/Dataframe.hpp:918-942 | `IndexOutOfBounds` exactly when the magnitude reaches the height (the corrected test); otherwise the median of the resolved row's values |
| Tables.MedianOfLabel | ppp/ppp/Dataframe.hpp:949-970 | `ColumnNotFound` exactly when the name is not a header; otherwise the median of the first such column's values |
| Tables.MedianAlong | ppp/ppp/Dataframe.hpp:978-1003 | row-wise as `Median(index)`; column-wise out of bounds exactly when the magnitude reaches the width, else the resolved column's median |
| Tables.MedianOfTable | ppp/ppp/Dataframe.hpp:1009-1013 | the median of every non-NaN cell of the table |
| Tables.MeanOfTable | ppp/ppp/Dataframe.hpp:894-911 | the sum of the non-NaN cells over their count, NaN when there are none |
| Tables.AccumulateRow | ppp/ppp/Dataframe.hpp:899-908 | the sum and the count of one row's non-NaN cells |
| Tables.TableMeanOmitsNaN | ppp/ppp/Dataframe.hpp:894-911 | the whole-table mean is the NaN-omitting mean of the flattened table, and NaN when every cell is NaN |
| Tables.MedianGuardAsWritten | ppp/ppp/Dataframe.hpp:919-929 | the median bound test as written: rejects only magnitudes above the extent |
| Tables.MedianGuardAdmitsExtent | ppp/ppp/Dataframe.hpp:919-929 | the as-written test lets `index == extent` through to a position past the end, which `Resolve` rejects |
| Parse.ToCells | ppp/ppp/Dataframe.hpp:252-266 | one cell per token: its number, or NaN where `stof` throws |
| Parse.ParseLine | ppp/ppp/Dataframe.hpp:249-266 | a line gives one cell per comma plus one for the trailing token |
| Parse.ParseGrid | ppp/ppp/Dataframe.hpp:246-271 | one row per data line, each the parse of that line |
| Parse.HeaderWidthBounds | ppp/ppp/Dataframe.hpp:223-227 | the header width never shrinks, covers every comma-terminated token, and is the start value or some token's length plus the padding of 5 |
| Parse.ReadHeaders | ppp/ppp/Dataframe.hpp:213-234 | the header labels are the comma split of the line; the width is grown by every comma-terminated token |
| Parse.ReadLine | ppp/ppp/Dataframe.hpp:249-266 | the loop's row is the parse of the line |
| Parse.ReadRows | ppp/ppp/Dataframe.hpp:244-271 | the row loop: one row per line, each the parse of its line, and the counter holding the total number of cells read |
| Parse.ReadVals | ppp/ppp/Dataframe.hpp:240-273 | the rows are the parse of the lines, the height their count, and the width the total cell count divided by the height |
| Parse.RectangularLines | ppp/ppp/Dataframe.hpp:240-273 | lines with a common comma count give a rectangular grid whose width is that count plus one |
| Parse.RaggedWidth | ppp/ppp/Dataframe.hpp:272 | on ragged lines the averaged width fits no row: `1,2` then `3` gives width 1 while the first row has 2 cells |
| Frame.WidestIsMaximum | ppp/ppp/Dataframe.hpp:434-439 | the label width is the largest of the start width and the label lengths |
| Frame.Widen | ppp/ppp/Dataframe.hpp:434-439 | the label loop computes that maximum |
| Frame.LastLongLabelMissesWidest | ppp/ppp/Dataframe.hpp:392-396 | the labelled-grid loop as written gives 16 for labels of 20 and 16 characters, while the widest is 20 |
| Frame.ZeroRow | ppp/ppp/Dataframe.hpp:1031-1032 | n cells, all zero |
| Frame.Zeros | ppp/ppp/Dataframe.hpp:412-417 | rows of zeros of the requested shape |
| Frame.Dataframe.FromFile | ppp/ppp/Dataframe.hpp:319-356 | a path that does not open leaves an empty frame; otherwise labels, width, rows, height and averaged width are those of the parse; a file whose lines share the comma count gives a valid frame |
| Frame.Dataframe.Empty | ppp/ppp/Dataframe.hpp:402-405 | no rows, no columns, no header row, column width 15 |
| Frame.Dataframe.Sized | ppp/ppp/Dataframe.hpp:412-417 | rows by columns of zeros, no header row, column width 15 |
| Frame.Dataframe.CheckShape | ppp/ppp/Dataframe.hpp:366-370 | true exactly when every row is as long as the first |
| Frame.Dataframe.FromGrid | ppp/ppp/Dataframe.hpp:362-371 | `BadShape` exactly when the rows are ragged; otherwise a valid frame of exactly those rows |
| Frame.Dataframe.FromLabelledGrid | ppp/ppp/Dataframe.hpp:377-397 | `BadShape` for ragged rows, then `HeaderDataSizeMismatch` for a wrong label count; otherwise a valid labelled frame whose width is the widest label, at least 15 |
| Frame.Dataframe.SizedLabelled | ppp/ppp/Dataframe.hpp:425-440 | `HeaderDataSizeMismatch` exactly when the label count is not the column count; otherwise labelled zeros whose width is the widest label, at least 15 |
| Frame.Dataframe.RefactorHeaders | ppp/ppp/Dataframe.hpp:446-469 | fails, unchanged, exactly when the label count differs from the current labels (or the width without a header row); otherwise installs the labels and grows the column width to the widest label |
| Frame.Dataframe.RefactorColumn | ppp/ppp/Dataframe.hpp:476-494 | `VectorSizeMismatch` for a wrong length, then `IndexOutOfBounds`; otherwise only column `index` changes, and it becomes the new column |
| Frame.Dataframe.SetColumn | ppp/ppp/Dataframe.hpp:1161-1169 | `VectorSizeMismatch` exactly for a wrong length; otherwise only column `index` is replaced |
| Frame.Dataframe.InsertRow | ppp/ppp/Dataframe.hpp:1019-1025 | `VectorSizeMismatch`, unchanged, exactly when the row length is not the width; otherwise the row is appended and the height grows by one |
| Frame.Dataframe.InsertZeroRow | ppp/ppp/Dataframe.hpp:1030-1036 | a row of zeros is appended and the height grows by one |
| Frame.Dataframe.InsertLabelledColumn | ppp/ppp/Dataframe.hpp:1043-1059 | `VectorSizeMismatch` for a wrong length, then `HeaderStateMismatch` without a header row; otherwise the column and its label are appended |
| Frame.Dataframe.InsertColumn | ppp/ppp/Dataframe.hpp:1065-1079 | `VectorSizeMismatch` for a wrong length, then `HeaderStateMismatch` with a header row; otherwise the column is appended |
| Frame.Dataframe.InsertLabelledZeroColumn | ppp/ppp/Dataframe.hpp:1084-1095 | `HeaderStateMismatch` exactly without a header row; otherwise a labelled zero column is appended |
| Frame.Dataframe.InsertZeroColumn | ppp/ppp/Dataframe.hpp:1100-1108 | `HeaderStateMismatch` exactly with a header row; otherwise a zero column is appended |
| Frame.Dataframe.Stack | ppp/ppp/Dataframe.hpp:1300-1314 | `VectorSizeMismatch` for another width, then `HeaderLabelMismatch` for other labels; otherwise the other frame's rows are appended below and it is unchanged |
| Frame.Dataframe.GetColumn | ppp/ppp/Dataframe.hpp:1115-1123 | the loop collects column `index`, one cell per row; on a frame without rows any index gives the empty column |
| Frame.Dataframe.GetHeader | ppp/ppp/Dataframe.hpp:1139-1144 | `IndexOutOfBounds` exactly when the index reaches the width; otherwise that label |
| Frame.Dataframe.GetElement | ppp/ppp/Dataframe.hpp:1152-1154 | the cell at that row of that column |
| Frame.Dataframe.RowAt | ppp/ppp/Dataframe.hpp:1320-1322 | a row of `width` cells, cell j being the element at (index, j) |
| Frame.Dataframe.DspHeaders | ppp/ppp/Dataframe.hpp:1182-1209 | the labels are those of `DspLabels(width)`: three per column: "Signal " and the column number from 1, then " Frequencies", " Amplitudes", " Phases" |
| Frame.DspLabels | ppp/ppp/Dataframe.hpp:1182-1209 | the labels of `n` columns number `3 * n` |
| Frame.DspLabelAt | ppp/ppp/Dataframe.hpp:1182-1209 | label `k` is attribute `k % 3` (frequencies, amplitudes, phases) of column number `k / 3 + 1` |
| LegacyFrame.Dataframe.FromFile | Dataframe.h:140-179 | the older file constructors: the same parse, and a valid frame for lines that share the comma count |
| LegacyFrame.Dataframe.InsertRow | Dataframe.h:694-700 | `RowSizeMismatch`, unchanged, exactly when the row length is not the width; otherwise the row is appended |
| LegacyFrame.Dataframe.RowAt | Dataframe.h:706-708 | a row of `width` cells, cell j being that row's entry of column j |
| ReadCsv.TerminatedRow | ReadCSV.h:69-78 | one value per comma of the line, each the number of the token before it, or 0 where `stof` throws |
| ReadCsv.ReadTerminatedLine | ReadCSV.h:69-78 | the inner loop's row is that row |
| ReadCsv.ReadTerminatedLines | ReadCSV.h:66-81 | one row per line and the total comma count |
| ReadCsv.CSV.FromFile | ReadCSV.h:23-83 | a path that does not open leaves zero counters and no data; otherwise the labels and widths of the header loop, the terminated rows, height = line count and width = comma total / height + 1 |
| ReadCsv.WidthExceedsRows | ReadCSV.h:82 | on lines with c commas each, the width is c + 1 while every row holds c values |
| Columns.MaxAbs | ppp/ppp/Column.hpp:91-98 | the largest magnitude: no entry exceeds it and some entry reaches it |
| Columns.Add | ppp/ppp/Column.hpp:214-228 | `None` exactly when the sizes differ; otherwise the element-wise sums |
| Columns.Subtract | ppp/ppp/Column.hpp:230-244 | `None` exactly when the sizes differ; otherwise the element-wise differences |
| Columns.Scale | ppp/ppp/Column.hpp:257-266 | every entry multiplied by k |
| Columns.Cross | ppp/ppp/Column.hpp:135-149 | `None` unless both have three entries; otherwise the three components `a1 b2 - a2 b1`, `a2 b0 - a0 b2`, `a0 b1 - a1 b0` |
| Columns.AddCommutes | ppp/ppp/Column.hpp:214-228 | column addition commutes |
| Columns.SubtractUndoesAdd | ppp/ppp/Column.hpp:214-244 | subtracting what was added gives the column back |
| Columns.SubtractSelfIsZero | ppp/ppp/Column.hpp:230-244 | a column minus itself is all zeros |
| Columns.SumOfAdd | ppp/ppp/Column.hpp:83-86 | the sum of a sum is the sum of the sums |
| Columns.SumOfScale | ppp/ppp/Column.hpp:83-86 | the sum of a scaled column is k times the sum |
| Columns.DotCommutes | ppp/ppp/Column.hpp:121-133 | the dot product is symmetric |
| Columns.DotSelf | ppp/ppp/Column.hpp:121-133 | a column's dot product with itself is never negative, and zero only for the zero column |
| Columns.CrossOrthogonal | ppp/ppp/Column.hpp:135-149 | the cross product is orthogonal to both factors |
| Columns.CrossAnticommutes | ppp/ppp/Column.hpp:135-149 | swapping the factors negates the cross product |
| Columns.NormBounds | ppp/ppp/Column.hpp:90-110 | L-infinity <= L1 <= size times L-infinity; L0 <= size; L0 is zero exactly when L1 is |
| Columns.AbsSumCovers | ppp/ppp/Column.hpp:100-104 | every entry's magnitude is at most the L1 norm |
| Columns.ColumnExamples | test/cpp/src/column_tests.cpp:40-306 | the expected sums, differences, dot product, total, scaling and norms of the column tests |
| Columns.Column.constructor | ppp/ppp/Column.hpp:74-78 | a column holding those entries and that key |
| Columns.Column.Size | ppp/ppp/Column.hpp:88 | the number of entries |
| Columns.AbsFoldRegroups | ppp/ppp/Column.hpp:100-104 | the operation handed to `std::reduce` for the L1 norm gives 7 on the entries -3 and -4 when folded in order, and 1 when the two entries are combined first |
| Columns.Column.LNorm | ppp/ppp/Column.hpp:90-110 | no order: the largest magnitude; order 1: the sum of magnitudes; order 0: the count of nonzero entries, at most the size |
| Columns.Column.Dot | ppp/ppp/Column.hpp:121-133 | `None` exactly when the sizes differ; otherwise the sum of the pairwise products |
| Columns.Column.Cross3D | ppp/ppp/Column.hpp:135-149 | `None` unless both have three entries; otherwise a new column with the cross product and the given key, empty by default |
| Columns.Column.Append | ppp/ppp/Column.hpp:151-152 | the value is added at the end and the key kept |
| Columns.Column.At | ppp/ppp/Column.hpp:158-164 | `None` exactly past the end; otherwise that entry |
| Columns.Column.Plus | ppp/ppp/Column.hpp:214-228 | `None` exactly when the sizes differ; otherwise a new column of the sums keyed "lhs + rhs" |
| Columns.Column.Minus | ppp/ppp/Column.hpp:230-244 | `None` exactly when the sizes differ; otherwise a new column of the differences keyed "lhs - rhs" |
| Columns.Column.ScaledBy | ppp/ppp/Column.hpp:257-266 | a new column of the scaled entries keyed "key * k" |
| Columns.Column.Times | ppp/ppp/Column.hpp:268-271 | `column * k` is `k * column` |
| Columns.Column.Equals | ppp/ppp/Column.hpp:246-249 | equal exactly when the entries agree position by position, whatever the keys |

The older `Dataframe.h` repeats these operations line for line, and the same members model its copies:

- `Parse.ReadHeaders`: Dataframe.h lines 35-56
- `Parse.ReadVals`: Dataframe.h lines 62-95
- `Tables.Flatten`: Dataframe.h lines 102-113
- `Selection.MedianHelper`: Dataframe.h lines 120-131
- `Tables.MeanOfLabel`: Dataframe.h lines 301-403
- `Tables.MeanOfRow`: Dataframe.h lines 410-473
- `Tables.MeanAlong`: Dataframe.h lines 483-563
- `Tables.MeanOfTable`: Dataframe.h lines 569-586
- `Tables.MedianOfRow`: Dataframe.h lines 593-617
- `Tables.MedianOfLabel`: Dataframe.h lines 624-645
- `Tables.MedianAlong`: Dataframe.h lines 653-678
- `Tables.MedianOfTable`: Dataframe.h lines 684-688

## Left out

- The signal-processing half of `GetDSPData` and the `detail` DFT helpers are not modelled. They depend on complex floating-point arithmetic. Only the label construction (`DspHeaders`) is modelled.
- `PrintData`, `PrintTail`, `operator<<`, `ToCsv` and `ToTxt` are not modelled. They only produce output.
- File I/O is not modelled. A file is the sequence of its lines, and `None` is a path that does not open. The "INVALID FILE PATH" message is dropped.
- `std::stof` is a parameter (`NumberParser`). Which strings it accepts, including "nan" and "inf" literals, is not modelled.
- IEEE floating point is replaced by exact reals: there is no rounding, overflow or infinity. A 0/0 division is modelled as NaN where the source divides by a zero count.
- The `par_unseq` algorithms are not modelled as concurrent.
  - The gathers under a mutex are specified up to order, by multiset.
  - The reductions that add exact values (`Sum`, `Dot`, the means) do not depend on order.
  - The L1 norm is the exception; see the `Columns.Column.LNorm` line below and the findings.
- `size_t`, `uint64_t` and `int64_t` are unbounded integers, so wrap-around is not modelled. Examples are `height_ - n_rows` and `std::abs` of the most negative index.
- `Height`, `Width` and `HasHeaderRow` of every class are not separate members. They read the fields, which are the class fields here.
- The 1-argument file constructor is modelled by `FromFile` with `hasHeader` true.
- `RefactorColumn(name, col)`, `GetColumn(label)` and `SetColumn(col, name)` are not modelled. They are empty stubs in the source.
- The source leaves the following undefined; the model requires them away instead:
  - a median of a selection with no non-NaN value;
  - a grid constructor on an empty grid;
  - a file with no data lines (a division by zero height);
  - unchecked indices in `GetColumn`, `GetElement`, `SetColumn` and `operator[]`;
  - `Stack` of a frame onto itself;
  - `GetHeader` below the width of a frame without labels;
  - the L-infinity `LNorm` of an empty column, which dereferences the end of an empty range.
- ReadCsv.CSV.FromFile: on a path that does not open, the header flag stays uninitialised in the source. The model makes no claim about it.
- Columns.Column.LNorm: for order 1 the model fixes the in-order fold, the sum of magnitudes. The source's parallel `std::reduce` may regroup the non-associative `lhs + std::abs(rhs)`, so its result is not determined (`Columns.AbsFoldRegroups`).
- Columns.Column.LNorm: orders 2 and above go through floating-point `std::pow` and truncate back to `int`, so the model requires an order of at most 1.
- Columns.Column.Sum: the sum of the entries is the function `SumOf`; its properties are the lemmas `SumOfAdd` and `SumOfScale`.
- Columns.Add, Columns.Subtract, Columns.Scale, Columns.DotOf, Columns.AbsSum, Columns.Cross and Columns.Column.Dot compute on unbounded integers. Overflow of the source's 32-bit signed `int` is undefined behaviour and is not modelled. The same holds for `std::abs` of the most negative `int` in `LNorm`.
- `Column` over other element types (floats and complex numbers) is not modelled; only `int` is.
- `Matrix`, `CsvFile`, the C and Python exports, and the .NET bindings are not part of this model.

## Findings

| source | as written | input that shows it | evidently intended | confidence | as-written member | corrected member |
|---|---|---|---|---|---|---|
| ppp/ppp/Dataframe.hpp:919 (also :982, Dataframe.h:594 and :657) | `Median(index)` rejects an index only when its magnitude is strictly above the height (or width) | `index == height` passes the test and reads the row one past the end | reject when the magnitude reaches the extent, as the `Mean` overloads do | not executed | Tables.MedianGuardAdmitsExtent | Tables.MedianOfRow |
| ppp/ppp/Dataframe.hpp:392-396 | the labelled grid constructor sets the column width to the length of every label longer than 15, so the last such label wins | labels of 20 and then 16 characters give width 16 | the widest label, at least 15, as the sized labelled constructor computes | not executed | Frame.LastLongLabelMissesWidest | Frame.Dataframe.FromLabelledGrid |
| ReadCSV.h:66-82 | each row keeps only the comma-terminated tokens while the width adds 1 to the average comma count | lines with two commas each give rows of 2 values and width 3 | rows that keep the trailing token, and a width equal to the row length | not executed | ReadCsv.WidthExceedsRows | Parse.RectangularLines |
| ppp/ppp/Column.hpp:100-104 | `LNorm(1)` reduces with `lhs + std::abs(rhs)` under `std::reduce(par_unseq)`, which may group and reorder the terms, while that operation is neither associative nor commutative | entries -3 and -4: combining the entries first gives 0 + \|-3 + 4\| = 1 instead of 7 | the sum of the magnitudes, 7, which test/cpp/src/column_tests.cpp:266-269 expects for this very column, e.g. `std::transform_reduce` with `std::abs` as the transform | not executed | Columns.AbsFoldRegroups | Columns.Column.LNorm |
