# Store sales: monthly series preparation

This project models the data-preparation core of a store-sales
forecasting repository written in Python on pandas. It covers two pieces.

- `load_and_preprocess_data` (src/data_preprocessing.py). It reads the
  sales file and drops every column with exactly one distinct non-null
  value. It drops repeated rows, keeping first occurrences, and parses
  `Order Date`. It then sums `Sales` per calendar month into a series
  indexed by each month's last day, whose date index is named `Date`.
- The input guard of `seasonal_decomposition_plot`
  (src/seasonal_decomposition.py). A table is replaced by its first
  column. Anything that is not a series is rejected, and so is a series
  without a date index. What passes is sorted by date.

## Modules

- `Calendar`: dates, the month number of a date, and the month-end label.
- `Values`: table cells (`Null`, numbers, text, parsed dates), the
  exceptions the code can raise, `Option`/`Result`, and column lookup by
  name.
- `Positions`: selecting the elements of a sequence at given positions,
  used for the columns kept by pruning and the rows kept by duplicate
  removal.
- `TimeSeries`: series, their index (dates or other labels) and
  date/value points.
- `Cleaning`: the table as a value (`Table`) and as the object the code
  changes in place (`Frame`). It holds constant-column pruning,
  duplicate-row removal and `Order Date` parsing. Each is a specification
  function, a loop method proved equal to it, and the lemmas about it.
- `Monthly`: month bucketing with the pandas month-end grouper and the
  per-month Sales sums.
- `Preprocessing`: the whole function, as a method driving a `Frame` and
  as the function that specifies it.
- `SeasonalDecomposition`: the input guard.

## Behaviour of the code worth knowing

- Month keys are each month's last day (`freq='M'`, line 24 of
  src/data_preprocessing.py).
- The grouper emits every month from the month of the earliest dated row
  to that of the latest. A month without orders is present and sums to 0.
- Rows whose `Order Date` is empty (NaT) belong to no month. Their Sales
  do not reach the series, so the series adds up to the Sales of the
  dated rows only.
- The grouper builds its month range from the earliest and latest date.
  A table with rows but no date at all therefore raises ValueError before
  `Sales` is looked up. A table with no rows gives an empty series.
- The comment on line 13 of src/data_preprocessing.py says columns with
  unique values (a row id) are dropped, but line 14 drops columns with
  exactly one distinct value. A row-id column is kept once the file has two
  or more rows, and is dropped only in a one-row file.
- A file with a header but no data rows is not an error. It gives an
  empty table and an empty series.
- A missing file or an empty file returns `(None, None)` instead of
  raising.
- Pruning (lines 14-15) can drop `Order Date` or `Sales` itself, for
  example from a one-row file. Reading the column afterwards then raises
  `KeyError`.
- When pruning drops every column, the table is empty for
  `drop_duplicates` (line 18), which then keeps every row.
- Duplicates are removed (line 18) before `Order Date` is parsed
  (line 21). Two rows that differ only in how their date is written both
  stay, so the returned table can hold equal rows after parsing, and its
  `Order Date` column can have a single distinct value.
- Neither function rejects duplicate dates. Sorting keeps them.

## Model

| member | source | states |
|---|---|---|
| Preprocessing.LoadAndPreprocess | src/data_preprocessing.py:3-32 | Running the in-place pipeline on a `Frame` gives exactly `Preprocess`. That is `(None, None)` for an unread file, the first exception raised, or the cleaned table and its monthly series. |
| Preprocessing.Preprocess | src/data_preprocessing.py:3-32 | The exceptions that can escape are a KeyError for `Order Date` or `Sales`, an unparsable date, a Sales cell that cannot be summed, and the ValueError of a date column without any date. |
| Preprocessing.CleanInPlace | src/data_preprocessing.py:13-21 | Pruning, de-duplicating and converting dates on one frame in place gives the converted cleaned table, or the exception the conversion raises. |
| Preprocessing.NoDataExactlyWhenUnread | src/data_preprocessing.py:4-11 | The result is `(None, None)` exactly when the file is missing or empty. Once a table is read, the function returns both results or raises. |
| Preprocessing.DoneIsCleanedAndAggregated | src/data_preprocessing.py:13-27 | A returned table is the pruned and de-duplicated table with `Order Date` parsed. It has the same columns and row count. No column other than `Order Date` has exactly one distinct value. The series is the monthly Sales series of that table. |
| Preprocessing.ParsedDatesKeepNoConstant | src/data_preprocessing.py:14-21 | Parsing `Order Date` leaves every other column of a table without constant columns non-constant. |
| Preprocessing.SingleRowRaisesKeyError | src/data_preprocessing.py:14-21 | In a one-row file whose `Order Date` cell is filled, that column has one distinct value. It is pruned, and reading it raises `KeyError('Order Date')`. |
| Preprocessing.HeaderOnlyFileGivesEmptySeries | src/data_preprocessing.py:5-30 | A file with the two needed columns and no rows gives an empty table and an empty series, not an error. |
| Preprocessing.UndatedFileRaisesValueError | src/data_preprocessing.py:14-24 | A file with rows whose `Order Date` cells are all empty raises ValueError at the month grouper. |
| Preprocessing.CleanKeepsEmptyDates | src/data_preprocessing.py:14-18 | Cleaning a table with rows keeps an all-empty `Order Date` column, keeps at least one row, and leaves every date cell empty. |
| Calendar.MonthEnd | src/data_preprocessing.py:24 | The label of a month is a real date that lies in that month. |
| Calendar.MonthEndIsLastDay | src/data_preprocessing.py:24 | No date of a month comes after the month's label, so the label is the month's last day. |
| Values.IndexOf | src/data_preprocessing.py:21 | Looking up a column by name fails exactly when the name is absent. Otherwise it gives the first position holding that name. |
| Cleaning.Distinct | src/data_preprocessing.py:14 | The distinct values counted by `nunique` never include a missing value. |
| Cleaning.NoDistinctValueExactlyWhenAllNull | src/data_preprocessing.py:14 | A column has no distinct value exactly when all its cells are missing, so `nunique` is 0 for such a column. |
| Cleaning.ConstantColumnHasOneValue | src/data_preprocessing.py:14 | `nunique() == 1` holds exactly when the column has a non-missing cell and every non-missing cell equals it. |
| Cleaning.TwoValuesNotConstant | src/data_preprocessing.py:13-14 | A column with two different non-missing cells is not dropped, so a row-id column survives in any file of two or more rows. |
| Cleaning.OneRowColumnIsConstant | src/data_preprocessing.py:13-14 | In a one-row table every column with a non-missing cell has exactly one distinct value and is dropped. |
| Cleaning.KeptColumns | src/data_preprocessing.py:14 | The selected positions are increasing and in range. Column j is kept exactly when it does not have exactly one distinct non-null value: it has no non-null value, or two or more distinct non-null values. |
| Cleaning.Pruned | src/data_preprocessing.py:14-15 | Pruning keeps the table well formed and keeps every row. It never adds a column. |
| Cleaning.PrunedColumns | src/data_preprocessing.py:14-15 | Every surviving column was a column before. A column survives exactly when it is not constant. |
| Cleaning.PrunedKeepsColumnOrder | src/data_preprocessing.py:15 | Surviving columns keep their relative order. |
| Cleaning.PrunedKeepsCells | src/data_preprocessing.py:15 | Pruning keeps every row. Every surviving cell, looked up by row and column name, is unchanged. |
| Cleaning.PrunedDistinct | src/data_preprocessing.py:15 | A surviving column holds the same distinct values as it did before pruning. |
| Cleaning.Frame.DropConstantColumns | src/data_preprocessing.py:14-15 | The table changed in place is the pruned table, and it stays well formed. |
| Cleaning.NonConstantColumns | src/data_preprocessing.py:14 | The loop over columns selects exactly the positions `KeptColumns` specifies. |
| Cleaning.ProjectRows | src/data_preprocessing.py:15 | The loop over rows keeps, in every row, exactly the selected cells in order. |
| Cleaning.FirstOccurrences | src/data_preprocessing.py:18 | The surviving positions are increasing and in range. A row survives exactly when no equal row comes before it. |
| Cleaning.DedupSameRows | src/data_preprocessing.py:18 | A row occurs after de-duplication exactly when it occurred before. |
| Cleaning.DedupNoRepeats | src/data_preprocessing.py:18 | No two rows are equal after de-duplication. |
| Cleaning.DedupKeepsDistinct | src/data_preprocessing.py:18 | De-duplication removes no distinct value from any column. |
| Cleaning.Deduplicated | src/data_preprocessing.py:18 | `drop_duplicates` on a table keeps the columns and never adds rows. A row occurs afterwards exactly when it occurred before. A table with columns has no two equal rows afterwards. A table without columns is empty for pandas and keeps its rows. |
| Cleaning.Frame.DropDuplicates | src/data_preprocessing.py:18 | The table changed in place becomes `Deduplicated` of the old table. An empty frame, with no columns or no rows, is left as it is. |
| Cleaning.FirstOccurrenceRows | src/data_preprocessing.py:18 | The loop over rows keeps exactly the first occurrences, in order. |
| Cleaning.Clean | src/data_preprocessing.py:14-18 | Pruning and then de-duplicating keeps the table well formed, with no more columns and no more rows than before. |
| Cleaning.CleanInvariant | src/data_preprocessing.py:14-18 | After pruning and de-duplication no column has exactly one distinct value. Unless every column was pruned, no two rows are equal. |
| Cleaning.AllColumnsPrunedKeepsRows | src/data_preprocessing.py:14-18 | When every column is constant, the cleaned table has no columns and still has every row. |
| Cleaning.CleanIdempotent | src/data_preprocessing.py:14-18 | Pruning and de-duplicating a cleaned table again changes nothing. |
| Cleaning.ParseCell | src/data_preprocessing.py:21 | A missing cell stays missing (NaT). Any other cell becomes the date the parser reads from it. The cell raises a parse error exactly when it is not missing and the parser rejects it. |
| Cleaning.ParseColumn | src/data_preprocessing.py:21 | Converting a column succeeds exactly when every cell parses or is null. The result has the same rows with only that cell replaced by its parsed value. A failure is always a date-parse error. |
| Cleaning.WithParsedDates | src/data_preprocessing.py:21 | A conversion keeps the columns and the number of rows. It raises only a KeyError for `Order Date` or a date-parse error. |
| Cleaning.WithParsedDatesSpec | src/data_preprocessing.py:21 | A missing `Order Date` column, and only that, raises `KeyError`. Otherwise conversion succeeds exactly when every date cell parses. It keeps the columns, the row count and every other cell, and stores the parsed date. |
| Cleaning.ParseDateColumn | src/data_preprocessing.py:21 | The loop over rows computes exactly `ParseColumn`. It stops at the first unparsable cell. |
| Cleaning.Frame.ConvertOrderDate | src/data_preprocessing.py:21 | On success the table becomes the converted table. On failure the error is returned and the table is unchanged. |
| Monthly.Amount | src/data_preprocessing.py:24 | A number adds itself to a Sales sum and a missing value adds 0. Any other cell has no amount. |
| Monthly.Orders | src/data_preprocessing.py:24 | Reading the orders succeeds exactly when every `Sales` cell is a number or null. A failure is a Sales type error. |
| Monthly.OrdersMonthTotal | src/data_preprocessing.py:24 | The per-month and overall order totals equal the Sales sums over the dated table rows. Undated rows are left out. |
| Monthly.OrdersFromDatedRows | src/data_preprocessing.py:24 | Every order comes from a dated row and carries that row's date. |
| Monthly.EmptyMonthTotalsZero | src/data_preprocessing.py:24 | A month without orders totals 0. |
| Monthly.FirstMonth | src/data_preprocessing.py:24 | The first month is the earliest order month. |
| Monthly.LastMonth | src/data_preprocessing.py:24 | The last month is the latest order month. |
| Monthly.Buckets | src/data_preprocessing.py:24 | Bucket k is labelled with the last day of month lo+k and holds that month's order total. |
| Monthly.GroupByMonth | src/data_preprocessing.py:24 | There are no groups exactly when there are no orders. Otherwise there is one group per month from the earliest to the latest order month. |
| Monthly.GroupByMonthKeys | src/data_preprocessing.py:24 | The result is empty exactly when there are no orders. Keys are valid month-end dates, one per consecutive month, strictly increasing, from the earliest to the latest order month. Every order's month is covered. |
| Monthly.GroupByMonthTotals | src/data_preprocessing.py:24 | Each value is the total of the orders in its month. A month without orders has value 0. |
| Monthly.GroupByMonthSum | src/data_preprocessing.py:24 | The monthly totals add up to the total of all orders. |
| Monthly.MonthlySales | src/data_preprocessing.py:21-30 | A missing `Order Date` raises a KeyError naming it. Rows without any date raise ValueError. Otherwise a missing `Sales` raises a KeyError naming it. Any other failure is a Sales type error. Stated for a table whose `Order Date` column has been parsed, so every date cell is a date or missing. The result is a series whose date index is named `Date`. |
| Monthly.MonthlySalesGroups | src/data_preprocessing.py:24-27 | Once both columns are found, the series is built exactly when some row is dated or there are no rows, and every Sales cell is usable. It then holds the month groups of the table's orders. |
| Monthly.MonthlySalesKeys | src/data_preprocessing.py:24-27 | The series keys are strictly increasing and each is its month's last day. They run one per consecutive month and cover the month of every dated table row. |
| Monthly.MonthlySalesRange | src/data_preprocessing.py:24-27 | The series is empty exactly when the table has no rows. Its first and its last key are each the month of some dated row, so it starts and ends with the dated rows. |
| Monthly.MonthlySalesTotals | src/data_preprocessing.py:24-27 | Every Sales cell is a number or null. Each monthly value is the Sales sum of the table rows dated in that month. The values add up to the Sales total of the dated rows. Undated rows count in no month. |
| TimeSeries.AsSeries | src/data_preprocessing.py:26-30 | Re-wrapping the pairs as a series keeps the same keys and values in the same order, with a date index of the given name. |
| SeasonalDecomposition.AsSeriesInput | src/seasonal_decomposition.py:13-14 | A table with no columns raises `IndexError`. A table with columns becomes the series of its first column on the same index. Any other input passes unchanged. |
| SeasonalDecomposition.Insert | src/seasonal_decomposition.py:25 | Inserting a point adds exactly that point and nothing else. |
| SeasonalDecomposition.InsertKeepsSorted | src/seasonal_decomposition.py:25 | Inserting into points in date order keeps them in date order. |
| SeasonalDecomposition.SortByDate | src/seasonal_decomposition.py:25 | The result is in non-decreasing date order and is a permutation of the input. |
| SeasonalDecomposition.Normalize | src/seasonal_decomposition.py:12-25 | A success is in non-decreasing date order. Every failure is a `TypeError` or `IndexError`. |
| SeasonalDecomposition.NormalizeAccepts | src/seasonal_decomposition.py:13-22 | The guard accepts exactly a date-indexed series, or a date-indexed table with at least one column. |
| SeasonalDecomposition.NormalizePermutes | src/seasonal_decomposition.py:24-25 | On success the result has the same points as the series, each as often, and the same length. Duplicate dates are neither rejected nor merged. |
| SeasonalDecomposition.FrameIsNeverRejectedAsNonSeries | src/seasonal_decomposition.py:13-18 | A table never gets the series `TypeError`. A table with columns is handled as its first column. |
| SeasonalDecomposition.NonSeriesRejectedFirst | src/seasonal_decomposition.py:17-22 | Any other input raises the series `TypeError`, even when it has a date index. |
| SeasonalDecomposition.LabelIndexRejected | src/seasonal_decomposition.py:21-22 | A series whose index is not made of dates raises the index `TypeError`. |
| SeasonalDecomposition.SortByDateOfSorted | src/seasonal_decomposition.py:25 | Points already in date order come out unchanged. |
| SeasonalDecomposition.NormalizeIdempotent | src/seasonal_decomposition.py:25 | Normalising a normalised series gives the same result. |
| SeasonalDecomposition.PreprocessedSeriesPassesUnchanged | src/seasonal_decomposition.py:12-25 | The monthly series that preprocessing returns passes the guard, and sorting leaves it as it is. |

## Left out

- Reading the CSV file and decoding Latin-1 (src/data_preprocessing.py:5) are file I/O. They are modelled as a read outcome: missing file, empty file, or a table.
- The messages printed for a missing or empty file (lines 7 and 10) are console output and are left out.
- `pd.to_datetime` infers text formats inside pandas. It is a parser parameter `Value -> Option<Date>`. Null becomes missing (NaT) and an unparsable cell raises. Its output is trusted to be a real calendar date, and pandas' Timestamp range is not modelled.
- `Sales` amounts are integers (for example cents) rather than floats, so sums are exact.
- Monthly.Orders: a `Sales` cell that is not a number raises a Sales type error. Pandas might instead concatenate strings or coerce them. Only numeric and null cells are modelled faithfully.
- SeasonalDecomposition.SortByDate: pandas' `sort_index` uses an unstable sort by default. The model sorts stably, and its contracts state only sortedness, permutation and identity on sorted input. The order among equal dates in unsorted input is therefore not captured.
- SeasonalDecomposition.Normalize: the result is the sorted date/value pairs. The index name and series name carried along by pandas are not part of the result.
- The series' own name, which becomes None when line 27 of src/data_preprocessing.py rebuilds the series from `.values`, is not modelled; only the index name `Date` (line 30) is.
- Monthly.MonthlySales: an `Order Date` column holding text or numbers is treated as undated and raises ValueError. Pandas' grouper would raise a TypeError for a key column that is not datetime. The pipeline always parses the column first, so this case does not arise there.
- The `seasonal_decompose` call (src/seasonal_decomposition.py:28-32), with its period of 12 and its minimum-history check, works on floats in statsmodels and is not part of this model. Plotting (lines 35-57) is not part of it either.
- src/prophet_forecasting.py (Prophet fitting, prediction and plotting) and src/data_visualization.py (plotting only) are not part of this model.
- Read errors other than a missing or empty file, such as a malformed CSV or an unreadable file, propagate out of `pd.read_csv` (line 5). `ReadOutcome` has no case for them.
- Dates carry no time of day. `pd.to_datetime` can produce timestamps with a time, and `sort_index` (src/seasonal_decomposition.py:25) then orders same-day timestamps by time. The model treats them as equal dates, so their order is not captured.
- A `DatetimeIndex` in the model holds only real dates. A NaT in the index of a series passed to the decomposition guard is not modelled.
- The row labels of the returned table are not modelled. After `drop_duplicates` (line 18) they have gaps; the model keeps only the rows in order.
- Exception messages: every KeyError in the model names the missing column. Pandas words the one raised when selecting `Sales` on a groupby as `'Column not found: Sales'`. The ValueError for a date column without any date carries no message.
- Monthly.MonthlySales: the ValueError for a table with rows but no date follows from how pandas builds the grouper's month range from the column's earliest and latest date. The exact message is not modelled.
- Aliasing: `Frame` is a fresh object owned by the pipeline method, so sharing of the pandas frame with other references is not modelled.
