# True-detection percentage by distance range: a Dafny model

This project models the core of a small pipeline. The pipeline measures how
often vehicles are detected, by vehicle type and by distance range. It has
four parts.

- **The query generator** (`SqlQueriesGenerator`, in two copies). It checks
  a block size. It cuts the distances 1 to 100 into blocks of that size,
  with the last block cut at 100. It renders one aggregate column per block,
  aliased `"start-end"`, and puts the columns into the single
  `###PLACE_HOLDER###` of a fixed outer query.
- **The sleep-time rule** (`QueryAthena._get_sleep_time` and
  `get_sleep_time`). It reads the `SLEEP_TIME` setting, falls back to 30 for
  an unreadable or negative value, and caps the value at 120.
- **The result shaper** (the list part of `_format_output_data`). Row 0
  names the columns. Later rows are data rows, and an absent cell becomes
  `""`. Rows whose `vehicle_type` is `"ignore"` are dropped.
- **The orchestration** (`generate_true_detection_data`, in `src/main.py`
  and `vehicle_detection_by_size.py`). It builds the query, or exits with
  status 1 when there is none. Then it submits, waits, fetches by the
  returned execution id and shapes the result. Any exception ends in `None`.

Python's `str.replace` is modelled as `Text.ReplaceAll`, which scans left to
right for non-overlapping matches and does not rescan the text it puts in.
A template is a list of literal pieces and holes (`Templates.Template`).
The template strings of the source are the shown form of these lists.
`Templates.ReplaceFills` proves that replacing a marker in the shown text is
the same as filling that hole. The rendered lines and queries are therefore
derived from the same `replace` calls the source makes. The loop of
`_get_sql_detection_range_lines` is a `while` method proved against the
recursive `DetectionRanges.Blocks` and `Render`. Athena and the clock are a
`World` class that records every call and gives back replies fixed in
advance.

Modules: `Wrappers`, `Text`, `Templates`, `DetectionRanges` (the loop and
the ranges, shared by both generator copies), `SqlQueriesGenerator`
(`src/sql_queries_generator.py`), `RootSqlQueriesGenerator`
(`sql_queries_generator.py`), `ResultShaper`, `Athena`,
`DetectionPercentage` (`src/main.py`) and `DetectionBySize`
(`vehicle_detection_by_size.py`).

A negative `SLEEP_TIME` is not clamped to 0; the code replaces it with the
default 30 (`src/sql_queries_generator.py:153-155`, `src/main.py:100-102`).

## Model

| member | source | states |
|---|---|---|
| Text.IntToString | src/sql_queries_generator.py:70-71 | `str(n)` is non-empty, made of digits and a minus sign, and all digits for `n >= 0` |
| Text.ParseNatToString | src/sql_queries_generator.py:70-71 | the decimal text of a natural number reads back as that number |
| Text.IntToStringInjective | src/sql_queries_generator.py:70-71 | different non-negative numbers have different decimal texts |
| Text.ReplaceAll | src/sql_queries_generator.py:70-71 | Python's `str.replace` on a non-empty pattern, scanning left to right without overlap; replacing a pattern by itself gives the text back (the filling theorem is `Templates.ReplaceFills`) |
| Text.ReplaceAllAbsent | src/sql_queries_generator.py:106 | `replace` of a pattern that does not occur leaves the text unchanged |
| Text.ReplaceAllSkips | src/sql_queries_generator.py:70-71 | text where no match can start passes through `replace` unchanged, and scanning goes on after it |
| Text.ReplaceAllAtFront | src/sql_queries_generator.py:70-71 | a match at the front is replaced and scanning resumes right after it |
| Text.DashAfterDigits | sql_queries_generator.py:17 | in digits followed by `-...`, the first dash comes right after the digits |
| Templates.Marker | src/sql_queries_generator.py:39-42 | a marker is longer than six characters and starts with `#` |
| Templates.LineTemplate | src/sql_queries_generator.py:38-42 | the column template as pieces and holes: each of the two `BETWEEN` clauses holds `###START###` and `###END###`, and the alias holds `###START###-###END###` between double quotes (its spacing and filled text are `LineSpaced` and `LineFilled`) |
| Templates.Line | src/sql_queries_generator.py:70-71 | the two `replace` calls of one loop step on the column template, `str(start)` then `str(end)` (its resulting text is `LineForm`) |
| Templates.MarkerNoMatch | src/sql_queries_generator.py:70-71 | the marker of one slot never starts inside the marker of another |
| Templates.ReplaceFills | src/sql_queries_generator.py:70-71 | on a spaced template, replacing a slot's marker fills exactly that slot's holes and keeps everything else |
| Templates.FillSpaced | src/sql_queries_generator.py:70-71 | filling a hole with text free of `#` keeps the template spaced, so a second `replace` is also exact |
| Templates.LineSpaced | src/sql_queries_generator.py:38-42 | the line template is spaced |
| Templates.LineFilled | src/sql_queries_generator.py:38-42 | filling both slots of the line template gives its text with the two values in the six marker places |
| Templates.LineForm | src/sql_queries_generator.py:70-71 | the two `replace` calls on the line template give that text with `str(start)` and `str(end)` in place |
| Templates.ColumnPlain | src/sql_queries_generator.py:38-42 | a column line built from plain values has no `#` and no line break |
| Templates.LinePlain | src/sql_queries_generator.py:70-71 | a substituted column line keeps no marker character and no line break |
| Templates.LineAlias | sql_queries_generator.py:17 | each column ends with its alias: the range label `str(start)-str(end)` between double quotes |
| Templates.LabelInjective | sql_queries_generator.py:45-46 | ranges with non-negative ends and the same label are the same range, so no two columns share an alias |
| Templates.SkeletonHashFree | src/sql_queries_generator.py:79-93 | the outer query has no `#` outside its marker, and the text after the marker starts with a line break |
| Templates.QueryTemplate | src/sql_queries_generator.py:79-93 | the outer query as literal text, one `###PLACE_HOLDER###` hole and literal text (its form is `QueryFilled`) |
| Templates.QuerySpaced | src/sql_queries_generator.py:79-93 | the outer query template is spaced |
| Templates.QueryFilled | src/sql_queries_generator.py:106 | the outer query is `Head`, the marker, then `Tail`, and replacing the marker by `v` gives `Head + v + Tail` |
| DetectionRanges.BlockAt | src/sql_queries_generator.py:65-72 | range `i` is `(lo + i*bs, min(lo + i*bs + bs - 1, hi))` |
| DetectionRanges.Blocks | src/sql_queries_generator.py:64-72 | the ranges the loop visits: a block of `bs` from `start`, cut at `hi`, then the ranges from `start + bs` (its properties are the `Blocks...` lemmas) |
| DetectionRanges.BlocksInBounds | src/sql_queries_generator.py:66-69 | every range satisfies `lo <= start <= end <= hi` |
| DetectionRanges.BlocksContiguous | src/sql_queries_generator.py:67-72 | each range ends one before the next one starts |
| DetectionRanges.BlocksWidths | src/sql_queries_generator.py:67-69 | every range but the last holds `bs` values, and the last holds at most `bs` and ends at `hi` |
| DetectionRanges.BlocksCount | src/sql_queries_generator.py:66-72 | with `n` ranges, `n - 1` blocks fit before `hi` and `n` blocks reach past it |
| DetectionRanges.BlocksCover | src/sql_queries_generator.py:66-72 | every value in `[lo, hi]` lies in some range |
| DetectionRanges.BlockCount | src/sql_queries_generator.py:66-72 | the number of ranges is `ceil((hi - lo + 1) / bs)`, as an inequality and as `(hi - lo + bs) / bs` |
| DetectionRanges.Columns | src/sql_queries_generator.py:73-76 | one column per range |
| DetectionRanges.Render | src/sql_queries_generator.py:73-76 | the text the loop appends for the ranges: each column line with `,\n`, the last with `\n` (its line structure is `RenderLines` and `RenderLineBreaks`) |
| DetectionRanges.RenderLines | src/sql_queries_generator.py:73-76 | the loop's text is the range columns in order, one per line, each ended by `,` and a line break except the last, ended by a line break only |
| DetectionRanges.RenderLineBreaks | src/sql_queries_generator.py:73-76 | the rendered text has exactly one line break per range |
| DetectionRanges.RenderHashFree | src/sql_queries_generator.py:70-71 | the rendered text holds no `#`, so no `###START###` or `###END###` survives |
| DetectionRanges.RenderStep | src/sql_queries_generator.py:72-76 | rendering from `start` emits the first range, `\n` when the next start is past `hi` and `,\n` otherwise, then the rest |
| DetectionRanges.AppendStep | src/sql_queries_generator.py:70-76 | one iteration keeps "text so far + rendering of the remaining ranges" equal to the whole |
| DetectionRanges.RangeLines | src/sql_queries_generator.py:56-77 | the `while` loop returns the rendering of `Blocks(lo, hi, bs)` |
| SqlQueriesGenerator.ValidateDetectionRangeValue | src/sql_queries_generator.py:44-54 | true exactly for an int with `1 <= n <= 100`; any non-int (`"10"`, `None`) is rejected |
| SqlQueriesGenerator.QueryFor | src/sql_queries_generator.py:95-107 | the query `create_query_by_range` returns: `None` on an invalid size, otherwise the placeholder replaced by the rendered ranges (its form is `QueryComplete`) |
| SqlQueriesGenerator.CreateQueryByRange | src/sql_queries_generator.py:95-107 | returns `None` exactly when validation fails; otherwise the outer query with the loop's lines in place of its placeholder |
| SqlQueriesGenerator.QueryComplete | src/sql_queries_generator.py:102-107 | a valid size gives `Head + lines + Tail`, the skeleton otherwise unchanged, and no marker of any slot is left |
| SqlQueriesGenerator.RangesSpan | src/sql_queries_generator.py:65-69 | the first range starts at 1, the last ends at exactly 100, and each satisfies `1 <= start <= end <= 100` |
| SqlQueriesGenerator.RangesPartition | src/sql_queries_generator.py:66-72 | consecutive ranges are contiguous and every distance 1..100 lies in one of them |
| SqlQueriesGenerator.RangesWidths | src/sql_queries_generator.py:67-69 | every range but the last has width `bs`, and the last has width at most `bs` |
| SqlQueriesGenerator.LineCount | src/sql_queries_generator.py:66-76 | there are `ceil(100 / bs)` ranges and exactly that many lines |
| SqlQueriesGenerator.ThirtyExample | src/sql_queries_generator.py:64-77 | size 30 gives 1-30, 31-60, 61-90, 91-100 |
| SqlQueriesGenerator.SizeExtremes | src/sql_queries_generator.py:64-77 | size 100 gives the one column aliased `"1-100"` ended by `\n`, and size 1 gives 100 lines |
| SqlQueriesGenerator.GetSleepTime | src/sql_queries_generator.py:145-160 | the resolved wait always lies in `[0, 120]` |
| SqlQueriesGenerator.SleepTimeCases | src/sql_queries_generator.py:145-160 | unreadable or negative gives 30, above 120 gives 120, a value in `[0, 120]` is kept, and an unset setting reads as `"30"` |
| SqlQueriesGenerator.SleepTimeFixedPoint | src/sql_queries_generator.py:153-160 | a resolved wait fed back as the setting resolves to itself |
| RootSqlQueriesGenerator.ValidateDetectionRangeValue | sql_queries_generator.py:18-27 | true exactly for an int within `[LOWER_BOUND, UPPER_BOUND]` = `[1, 100]` |
| RootSqlQueriesGenerator.QueryFor | sql_queries_generator.py:71-82 | the query the root `create_query_by_range` returns over its own bounds (equal to the `src/` one by `CopiesAgree`) |
| RootSqlQueriesGenerator.CreateQueryByRange | sql_queries_generator.py:71-82 | `None` exactly on an invalid size; otherwise the loop's lines (sql_queries_generator.py:38-52) substituted for the placeholder |
| RootSqlQueriesGenerator.CopiesAgree | sql_queries_generator.py:54-82 | the root copy validates and builds the same query as the `src/` copy, so its valid result is the skeleton with the lines in place and no marker left |
| ResultShaper.Header | src/main.py:52 | present exactly when every header cell has a value; then the column names are those values, in order |
| ResultShaper.Values | src/main.py:53 | one value per cell, in order, `""` where the cell has no value |
| ResultShaper.DataRows | src/main.py:53 | one data row per result row after the first, in order |
| ResultShaper.ColumnIndex | src/main.py:59 | the first position of the column name, or nothing exactly when no column has that name |
| ResultShaper.KeepRows | src/main.py:59 | the filter never adds rows |
| ResultShaper.KeepRowsMembers | src/main.py:59 | a row is kept exactly when it is a data row whose `vehicle_type` is not `"ignore"` |
| ResultShaper.KeepRowsAppend | src/main.py:59 | the filter keeps the order of the rows: filtering a concatenation filters each part |
| ResultShaper.KeepRowsNoIgnored | src/main.py:59 | with no `"ignore"` row the table is unchanged |
| ResultShaper.FormatOutputData | src/main.py:51-59 | fails exactly when there are no rows, a header cell has no value, the rows do not fit the header, or there is no `vehicle_type` column; on success the header is row 0's values and the rows are the data rows filtered by `KeepRows`, every non-ignored row kept once, in order (the same code as vehicle_detection_by_size.py:45-53) |
| ResultShaper.IgnoreRowDropped | vehicle_detection_by_size.py:45-53 | a header, a `car` row and an `ignore` row give the header and the `car` row only |
| Athena.World.constructor | src/main.py:122 | a fresh world has made no calls and holds the given replies and setting |
| Athena.World.RunSqlQuery | src/query_athena.py:24-50 | records the submit with its query, database and output location, and returns the scripted id or error |
| Athena.World.Sleep | src/main.py:134 | records a wait of the given duration |
| Athena.World.GetQueryResult | src/query_athena.py:52-65 | records the fetch of that execution id and returns its scripted rows or error |
| Athena.Pipeline | src/main.py:121-145 | the calls and outcome of one run for a query, a wait and the service replies, shared by both orchestrations (its properties are `PipelineExit`, `PipelineOrder` and `PipelineResult`) |
| Athena.PipelineExit | src/main.py:124-132 | a run exits exactly when there is no query, always with status 1 and before any call |
| Athena.PipelineOrder | src/main.py:132-137 | the calls are submit, then wait, then fetch with the id the submit returned; a failed submit is the only call |
| Athena.PipelineResult | src/main.py:121-145 | a table is returned exactly when submit, fetch and shaping all succeed, and it is the shaped result; any failure returns `None` |
| DetectionPercentage.VehicleDetectionPercentage.constructor | src/main.py:21-37 | keeps the block size, 10 when none is given, and fixes the database, bucket and output location |
| DetectionPercentage.DefaultBlockSize | src/main.py:21 | an object made without a block size uses `block_size=10` |
| DetectionPercentage.VehicleDetectionPercentage.GetSleepTime | src/main.py:92-107 | the wait always lies in `[0, 120]` |
| DetectionPercentage.VehicleDetectionPercentage.SleepTimesAgree | src/main.py:92-107 | this copy of the rule gives the same wait as `QueryAthena._get_sleep_time` for every setting |
| DetectionPercentage.VehicleDetectionPercentage.GenerateTrueDetectionData | src/main.py:108-145 | the calls made and the outcome are those of `Pipeline` for the `src/` generator's query and the resolved wait |
| DetectionPercentage.RunIsSafe | src/main.py:124-134 | every wait of a run lies in `[0, 120]`, and an invalid block size makes no call at all |
| DetectionBySize.VehicleDetectionPercentage.constructor | vehicle_detection_by_size.py:17-31 | keeps the block size, 10 when none is given, and fixes the database, bucket and output location |
| DetectionBySize.DefaultBlockSize | vehicle_detection_by_size.py:17 | an object made without a block size uses `block_size=10` |
| DetectionBySize.VehicleDetectionPercentage.GenerateTrueDetectionData | vehicle_detection_by_size.py:85-119 | the calls made and the outcome are those of `Pipeline` for the root generator's query and a 30-second wait |
| DetectionBySize.WaitIsFixed | vehicle_detection_by_size.py:101-109 | every wait is exactly 30 seconds with no setting read, and an invalid block size makes no call |

## Left out

- AWS, the environment and the clock are not modelled. The boto3 calls are
  the scripted `World` replies. `load_dotenv` and `os.getenv` become the
  `sleepSetting` value. `time.sleep` is recorded by its duration only.
- Python's `int()` on text (whitespace, signs, underscores) is the
  parameter `parse: string -> Option<int>`; `None` stands for `ValueError`.
- `SqlQueriesGenerator.ValidateDetectionRangeValue`: does not model that
  `isinstance(True, int)` holds in Python. The argument is an int or a
  non-int (`BlockSizeArg`), so `True` and `False` are outside the model.
- The JSON envelope is not modelled. `fetchReply` gives the rows directly,
  as lists of optional `VarCharValue`s; a missing `ResultSet`, `Rows` or
  `Data` key is not modelled.
- `ResultShaper.FormatOutputData`: treats every data row whose width differs
  from the header as an error. pandas pads shorter rows when the widest row
  matches the header; that padding is not modelled.
- `ResultShaper.FormatOutputData`: filters on the first `vehicle_type`
  column. pandas treats duplicate column names differently; that case is not
  modelled.
- File and chart output is not modelled: the JSON and CSV writes,
  `_format_df_for_bar_chart`, `pd.to_numeric` (floating point) and
  matplotlib.
- Logging, `logging.basicConfig` and the `__main__` blocks are not
  modelled. `_test_create_sql_by_block_sizes` uses an undefined global, so
  it is not modelled either.
- `DetectionPercentage.VehicleDetectionPercentage.GenerateTrueDetectionData`:
  `get_sleep_time` is called twice, once for the log message and once for
  the sleep. Both calls read the same setting, so the model resolves it once.
- `QueryAthena.run_sql_query` and `get_query_result` at
  src/sql_queries_generator.py:162-203, and the two `query_athena.py`
  files. They are network wrappers, modelled only as the `World` calls.
  src/main.py constructs the Athena client with no further effect.
- The template literal of `_get_sql_detection_range_template` is written as
  the piece list `Templates.LineTemplate` (marker, text, marker, ...). Its
  text is the concatenation of the source's pieces, but the model does not
  prove it equal to one literal string of the whole template.
- Where the tests and the code disagree, the model follows the code. In
  particular, 121 gives 120, not 30.
