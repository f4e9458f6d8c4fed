# Social media analytics core, modelled in Dafny

This project models the deterministic core of a social-media analytics
pipeline. It has three parts.

- **Record normaliser and schema validator** (`DataProcessor`). `normalize_data` aligns a table of post records to a fixed
  ten-column schema: `platform`, `post_id`, `content`, `likes`, `comments`, `shares`, `post_date`, `author_id`,
  `engagement_score` and `collected_at`. It works in place on the caller's DataFrame:
  - it adds missing columns as all-null;
  - it fills null counts with 0 and null content with `''`;
  - it converts the two timestamp columns, and a value that does not parse becomes null;
  - it casts each schema column leniently, printing a warning and going on when a cast raises;
  - it recomputes `engagement_score = likes + comments + shares`.

  `validate_data` accepts an empty table, and a table that holds every schema column. Otherwise it raises a
  `ValueError` that lists the missing schema columns.
- **Aggregation engine** (`AnalyticsEngine`). It has three read-only operations:
  - daily roll-ups per `(platform, date)`: sum, mean and count of `engagement_score`, and the sums of the three
    counts;
  - a per-platform trailing moving average of the daily sums, with a partial window at the start of each
    platform;
  - global and per-platform top-N posts by `engagement_score`.
- **Facebook response mapper** (`FacebookClient`). `_transform_response` flattens the posts of a Graph API
  `{'data': [...]}` response into records. Along the way it:
  - defaults missing counters to 0;
  - derives the author from the id text before the first `_`;
  - skips, without aborting the batch, any post whose mapping raises.

## Layout

| file | module | what it holds |
|---|---|---|
| `common.dfy` | `Common` | `Option`, `Result`, `Min`/`Max`, distinctness, subsequences |
| `order.dfy` | `Order` | Python's `<` on strings (`StrLess`), a strict total order |
| `frames.dfy` | `Frames` | cell values and timestamps; `Table` (a DataFrame's value) and the mutable `Frame` class |
| `data_processor.dfy` | `DataProcessor` | the schema; `Normalize` (a specification function) and `NormalizeData` (the in-place method proved against it); `ValidateData` |
| `analyzer.dfy` | `AnalyticsEngine` | `ComputeDailyMetrics`, `ComputeMovingAverage`, `IdentifyTopPosts` and their properties |
| `facebook_client.dfy` | `FacebookClient` | a JSON value type, `TransformPost`, and the `TransformResponse` loop proved against `TransformResponseSpec` |

### Modelling choices

**Tables and timestamps**
- A DataFrame is a `Table`: a map from column name to a column of cells, plus the row count.
  - `df.empty` holds when there are no rows or no columns.
  - A cell is null (NaN/None/NaT), an integer, a string or a timestamp.
- `normalize_data` mutates the caller's frame, so it is the method `DataProcessor.NormalizeData` on the class
  `Frames.Frame`. Its `ensures` ties the new frame to the specification function `DataProcessor.Normalize`, and
  the properties are proved about `Normalize`.
- Timestamp parsing is a parameter `parse: string -> Option<Timestamp>`. Python's `datetime.fromisoformat` is a
  parameter `fromIso` as well.
- `to_datetime` yields `datetime64[ns]`: the nanoseconds since the epoch must be an int64 other than -2^63
  (pandas' NaT). An integer in that range converts to a timestamp as nanoseconds since the epoch. Under
  `errors='coerce'`, an integer outside it, and a parsed or given instant outside the range
  (1677-09-21 to 2262-04-11), become null.

**Casts and line 40**
- A cast is all or nothing per column.
  - `object` keeps every cell.
  - `int64` accepts integers and decimal integer strings within the 64-bit range [-2^63, 2^63). It raises on
    anything else, including an integer outside that range (`OverflowError`).
  - A column whose cast raises is listed in `castWarnings` and left as it was.
- Line 40 of `data_processor.py` uses Python's `+`. When a count column kept non-integer cells (its cast raised),
  this can itself raise `TypeError`, because a string cannot be added to an integer. So `normalize_data` does
  not always complete. The model records this as `raised`, and the frame keeps the changes made before line 40.
- Missing columns are added as null (lines 24-26). Only the three counts and `content` are then filled
  (lines 28-29), so `platform`, `post_id` and `author_id` stay null when they were absent.

**Analytics**
- The analytics operate on typed rows of a normalised table (`AnalyticsEngine.Post`): integer counts, and
  optional platform and post date. `groupby` drops a row whose platform or date is null and sorts its keys
  (Python string order for the platform, then the date).
- Means are exact `real` quotients, with no rounding.
- `nlargest(n)` keeps no rows when `n <= 0`. With `keep='first'`, rows of equal score are taken in input order;
  the model uses that order for ties in every case.
- `top_per_platform` comes from `groupby('platform', group_keys=False).apply(...)`, which has two cases.
  - When some platform's `nlargest` block differs from that platform's rows, `apply` concatenates the
    blocks in sorted platform order.
  - When every block is its platform's rows unchanged, `apply` treats the call as a transform. It puts the
    result back on the input's rows, minus those with a null platform, so the rows come in input order.
- A rolling window below 1 makes pandas raise `ValueError`. This is modelled as `Err(WindowTooSmall)` for a
  non-empty input.

**Facebook mapper**
- A JSON dict is a sequence of entries in insertion order.
- Calling `.get` on a value that is not a dict raises, so the post is skipped.
- Iterating `data` walks a list's items, a string's characters or a dict's keys. Anything else raises
  `TypeError` outside the `try`: `Err(DataNotIterable)`.

## Model

| member | source | states |
|---|---|---|
| Frames.EpochNanos | src/core/data_processor.py:31 | no contract of its own: an instant's nanoseconds since the epoch, the quantity datetime64[ns] stores |
| Frames.InNanosRange | src/core/data_processor.py:31 | no contract of its own: the int64 values other than -2^63 (NaT), the nanosecond counts a datetime64[ns] cell holds |
| Frames.FromEpochNanos | src/core/data_processor.py:31 | an integer converted to a timestamp is read as nanoseconds since the epoch: day * NanosPerDay + nanoOfDay equals it |
| Frames.Nulls | src/core/data_processor.py:26 | a column added with np.nan has exactly one null per row |
| Frames.Table.Assign | src/core/data_processor.py:26 | `df[c] = vs` replaces or adds column c and keeps the table well formed and its height |
| Frames.Frame.SetColumn | src/core/data_processor.py:37 | the frame's new state is its old value with column c replaced or added |
| DataProcessor.SchemaNamesDistinct | src/core/data_processor.py:7-18 | the ten schema columns are distinct |
| DataProcessor.CountColumnFacts | src/core/data_processor.py:7-18 | likes, comments and shares are int64 schema columns that the cast loop converts and that are not timestamps |
| DataProcessor.TextColumnFacts | src/core/data_processor.py:7-18 | platform, post_id, content and author_id are object schema columns that the cast loop converts |
| DataProcessor.DateColumnFacts | src/core/data_processor.py:7-18 | post_date and collected_at are schema columns that the cast loop skips |
| DataProcessor.AddMissing | src/core/data_processor.py:24-26 | every schema column but engagement_score is present afterwards; existing columns are untouched; new columns are all-null; engagement_score is present iff it was before; nothing else is added |
| DataProcessor.AddMissingColumns | src/core/data_processor.py:24-26 | the loop leaves the frame equal to AddMissing of its old value |
| DataProcessor.FillNulls | src/core/data_processor.py:27-29 | same length; each cell is filled on its own; columns other than the counts and content are unchanged |
| DataProcessor.FillDefault | src/core/data_processor.py:28-29 | no contract of its own: a null count becomes 0 and a null content ''; every other cell is kept; FillNulls and FillNullsWithoutNulls state its properties |
| DataProcessor.FillDefaults | src/core/data_processor.py:27-29 | same columns and height; each column is FillNulls of the old column |
| DataProcessor.FillDefaultValues | src/core/data_processor.py:27-29 | the frame becomes FillDefaults of its old value |
| DataProcessor.FillNullsWithoutNulls | src/core/data_processor.py:27-29 | fillna leaves a column without nulls unchanged |
| DataProcessor.StampOrNaT | src/core/data_processor.py:31 | an instant stays a timestamp iff its nanoseconds since the epoch are in the datetime64[ns] range, and becomes NaT otherwise |
| DataProcessor.ToDatetime | src/core/data_processor.py:31 | a converted cell is NaT or a timestamp within the datetime64[ns] range; an integer becomes a timestamp iff it lies in that range (an int64 other than -2^63) |
| DataProcessor.ToDatetimeColumn | src/core/data_processor.py:30-33 | same length; each cell is converted on its own |
| DataProcessor.ParseDateColumns | src/core/data_processor.py:30-33 | same columns and height; only post_date and collected_at change, cell by cell |
| DataProcessor.ParseDates | src/core/data_processor.py:30-33 | the frame becomes ParseDateColumns of its old value |
| DataProcessor.CastValue | src/core/data_processor.py:37 | an int64 cast that succeeds yields an integer in the 64-bit range; an integer cell casts iff it is in that range; object and datetime casts keep the value |
| DataProcessor.ParseInt | src/core/data_processor.py:37 | no contract of its own: how the int64 cast reads a string, an optional sign and decimal digits; CastValue and NormalizeCounts state what it gives |
| DataProcessor.InInt64 | src/core/data_processor.py:37 | no contract of its own: the range [-2^63, 2^63) an int64 cast accepts |
| DataProcessor.ColumnCasts | src/core/data_processor.py:37 | no contract of its own: astype succeeds on a column iff every cell casts; CastOrKeep states what follows |
| DataProcessor.CastTarget | src/core/data_processor.py:34-35 | no contract of its own: a schema column other than post_date and collected_at; CastStep and CastAllSpec state the loop over it |
| DataProcessor.CastValueIdempotent | src/core/data_processor.py:37 | casting an already cast cell again changes nothing |
| DataProcessor.CastOrKeep | src/core/data_processor.py:36-39 | same length; every cell is cast when the whole column casts, and otherwise the column is kept as it was |
| DataProcessor.CastOrKeepIdempotent | src/core/data_processor.py:36-39 | casting a column a second time changes nothing |
| DataProcessor.CastStep | src/core/data_processor.py:35-39 | one loop turn changes only column c, by CastOrKeep when c is a cast target, and reports c iff its cast raised |
| DataProcessor.CastColumn | src/core/data_processor.py:35-39 | the frame and the report are those of CastStep on the old frame |
| DataProcessor.CastAll | src/core/data_processor.py:34-39 | the loop keeps the columns and the height |
| DataProcessor.CastAllSpec | src/core/data_processor.py:34-39 | each listed target column is cast once or kept; exactly the targets whose cast raised are reported; the loop goes on after a failure |
| DataProcessor.CastColumns | src/core/data_processor.py:34-39 | the loop's frame and warnings equal CastAll over the schema on the old frame |
| DataProcessor.EngagementColumn | src/core/data_processor.py:40 | defined iff every row's three counts can be added; then each cell is that row's sum |
| DataProcessor.AddValues | src/core/data_processor.py:40 | no contract of its own: Python's `+` on two cells: integers add, two strings concatenate, and any other pair raises |
| DataProcessor.EngagementOf | src/core/data_processor.py:40 | no contract of its own: one row's likes + comments + shares, left to right; EngagementColumn and FinishEngagement state the column |
| DataProcessor.Staged | src/core/data_processor.py:24-33 | steps 1 to 3 keep the height and leave every schema column but engagement_score present |
| DataProcessor.StagedColumn | src/core/data_processor.py:27-33 | filling and date conversion keep a column's length |
| DataProcessor.StagedColumnSpec | src/core/data_processor.py:24-33 | a column after steps 1 to 3 is StagedColumn of the input column, where a missing column reads as all-null |
| DataProcessor.StagedSpec | src/core/data_processor.py:24-33 | after steps 1 to 3 the columns are the input's plus the schema's minus engagement_score, each given by StagedColumn |
| DataProcessor.Prepared | src/core/data_processor.py:24-39 | the table before line 40 keeps the height and has every schema column but engagement_score |
| DataProcessor.PreparedSpec | src/core/data_processor.py:24-39 | the table before line 40, column by column, in terms of the input, with exactly the failed casts reported |
| DataProcessor.Finish | src/core/data_processor.py:40 | line 40 touches only engagement_score; it raises iff some row cannot be added, and the table is then left as it was |
| DataProcessor.Normalize | src/core/data_processor.py:21-41 | the height is kept; an empty table comes back unchanged with no warnings |
| DataProcessor.NormalColumn | src/core/data_processor.py:27-39 | a column keeps its length, and a non-schema column is unchanged |
| DataProcessor.NormalizeColumnSpec | src/core/data_processor.py:24-39 | every input or schema column other than engagement_score is present; it is NormalColumn of the input column; it is reported iff its cast raised |
| DataProcessor.NormalizeColumns | src/core/data_processor.py:24-40 | the output columns are the input's plus the schema's, with engagement_score only when line 40 did not raise; non-schema columns are unchanged |
| DataProcessor.NormalizeKeysWithoutRaise | src/core/data_processor.py:24-40 | when line 40 does not raise, the output columns are the input's plus every schema column |
| DataProcessor.CountColumnCells | src/core/data_processor.py:27-39 | for a count column: it casts iff every cell is null, or an integer or integer string in the 64-bit range; nulls become 0 and integers stay; after a cast every cell is a 64-bit integer, and otherwise non-null cells are kept |
| DataProcessor.NormalizeCounts | src/core/data_processor.py:27-39 | likes, comments and shares: null becomes 0, integers stay, integer strings are parsed; the column is reported iff some cell is not readable as a 64-bit integer, and it then keeps its values; otherwise every cell is a 64-bit integer |
| DataProcessor.TextColumnCells | src/core/data_processor.py:27-39 | for platform, post_id, content and author_id, only a null content changes (to ''), and the object cast never fails |
| DataProcessor.NormalizeTextColumns | src/core/data_processor.py:27-39 | in the output, platform, post_id and author_id are unchanged, and content changes only where it was null (to ''); none of them is reported |
| DataProcessor.DateColumnCells | src/core/data_processor.py:30-33 | each date cell is to_datetime of its input cell: null stays null; a timestamp stays and an integer is read as epoch nanoseconds, in both cases only within the datetime64[ns] range and NaT outside it; a string becomes its parsed instant when it parses to one in range, and null otherwise |
| DataProcessor.NormalizeDates | src/core/data_processor.py:30-35 | post_date and collected_at are present; every cell is null or a timestamp within the datetime64[ns] range; integers and instants outside that range, and unparseable strings, become null for that row |
| DataProcessor.NormalizeDateCell | src/core/data_processor.py:30-33 | one output date cell is to_datetime of the same input cell |
| DataProcessor.NormalizeDateRowLocal | src/core/data_processor.py:30-33 | a row's output timestamp depends only on that row's input value, so a bad row never affects another |
| DataProcessor.FinishEngagement | src/core/data_processor.py:40 | line 40 raises iff some row cannot be added, and otherwise stores each row's sum |
| DataProcessor.NormalizeEngagement | src/core/data_processor.py:40 | normalize_data raises iff some output row cannot be added, and otherwise engagement_score holds each row's sum |
| DataProcessor.NormalizeEngagementSums | src/core/data_processor.py:34-40 | when no count cast is reported, nothing raises and engagement_score == likes + comments + shares as integers in every row |
| DataProcessor.CastCountsAreIntegers | src/core/data_processor.py:34-39 | an unreported count column holds only 64-bit integers |
| DataProcessor.IntegerRowsSum | src/core/data_processor.py:40 | when every count is an integer, no row fails to add, and the sums line 40 stores are the integer sums |
| DataProcessor.SameCountsSameLine40 | src/core/data_processor.py:40 | line 40 reads only the three count columns |
| DataProcessor.NormalizeAgreesOutsideScore | src/core/data_processor.py:24-39 | inputs that agree outside engagement_score agree in every other output column |
| DataProcessor.NormalizeIgnoresSuppliedScore | src/core/data_processor.py:40 | inputs that differ only in engagement_score normalise with the same raise flag and, when line 40 does not raise, to the same table |
| DataProcessor.NormalColumnIdempotent | src/core/data_processor.py:27-39 | filling, date conversion and casting are idempotent column by column |
| DataProcessor.NormalizeIdempotent | src/core/data_processor.py:21-41 | normalising a normalised table again changes nothing, engagement_score included, and does not raise |
| DataProcessor.NormalizeData | src/core/data_processor.py:21-41 | the in-place run leaves the frame, warnings and raise flag exactly as Normalize specifies |
| DataProcessor.MissingFrom | src/core/data_processor.py:47-48 | the missing names are exactly the listed names the table lacks, in list order |
| DataProcessor.MissingNone | src/core/data_processor.py:48-50 | nothing is missing when the table has every name |
| DataProcessor.MissingOnly | src/core/data_processor.py:48-50 | when only x is absent, the missing list is exactly [x] |
| DataProcessor.ValidateData | src/core/data_processor.py:44-51 | an empty table is accepted; otherwise it is accepted iff every schema column is present; the error lists exactly the missing schema columns, non-empty and in schema order |
| DataProcessor.ValidateReportsMissingAuthor | src/core/data_processor.py:44-51 | a table lacking only author_id is rejected with exactly ["author_id"] |
| DataProcessor.ValidateAfterNormalize | src/core/data_processor.py:21-51 | whenever normalize_data completes, validate_data accepts its output |
| Order.StrLessIrreflexive | src/core/analyzer.py:26 | no string sorts before itself |
| Order.StrLessTransitive | src/core/analyzer.py:26 | the string order is transitive |
| Order.StrLessTotal | src/core/analyzer.py:26 | any two distinct strings are ordered |
| Order.StrLessAsymmetric | src/core/analyzer.py:26 | the string order is asymmetric |
| AnalyticsEngine.KeyLessIrreflexive | src/core/analyzer.py:26 | no key sorts before itself |
| AnalyticsEngine.KeyLessTransitive | src/core/analyzer.py:26 | the (platform, date) order is transitive |
| AnalyticsEngine.KeyLessTotal | src/core/analyzer.py:26 | any two distinct keys are ordered |
| AnalyticsEngine.KeyLessAsymmetric | src/core/analyzer.py:26 | the key order is asymmetric |
| AnalyticsEngine.KeyLeqTransitive | src/core/analyzer.py:26 | the non-strict key order is transitive |
| AnalyticsEngine.KeyOf | src/core/analyzer.py:11-12 | a row has a group iff its platform and post date are non-null; the group is its platform and calendar day |
| AnalyticsEngine.Plus | src/core/analyzer.py:13-16 | no contract of its own: adds one row to a group's running sums and count; Tally and GroupRowsFind state the totals |
| AnalyticsEngine.Tally | src/core/analyzer.py:12-16 | the count aggregate is the number of rows |
| AnalyticsEngine.Members | src/core/analyzer.py:12 | a group's members are exactly the input rows carrying its key |
| AnalyticsEngine.KeyedCount | src/core/analyzer.py:11-13 | at most the number of rows |
| AnalyticsEngine.Absorb | src/core/analyzer.py:12-16 | adding a row adds only group k, with a positive count, and loses no group |
| AnalyticsEngine.AbsorbSorted | src/core/analyzer.py:12 | adding a row keeps the groups strictly increasing by key |
| AnalyticsEngine.AbsorbAbove | src/core/analyzer.py:12 | adding a key above b to keys above b leaves only keys above b |
| AnalyticsEngine.AbsorbFind | src/core/analyzer.py:12-16 | only group k changes, by exactly the added row |
| AnalyticsEngine.Find | src/core/analyzer.py:12 | no contract of its own: the totals stored for key k, if any; FindSorted, FindSome and GroupPresent state its behaviour |
| AnalyticsEngine.FindAbsentBelow | src/core/analyzer.py:12 | a key below all keys is not present |
| AnalyticsEngine.FindSorted | src/core/analyzer.py:12 | in increasing groups, each key finds its own entry |
| AnalyticsEngine.FindSome | src/core/analyzer.py:12 | a key that finds something is some group's key |
| AnalyticsEngine.GroupRows | src/core/analyzer.py:12-16 | every group has at least one row |
| AnalyticsEngine.GroupRowsSorted | src/core/analyzer.py:12 | the groups are strictly increasing by (platform, date) |
| AnalyticsEngine.GroupRowsFind | src/core/analyzer.py:12-16 | group k holds the totals of exactly its member rows, and there is no group when it has none |
| AnalyticsEngine.AbsorbCountSum | src/core/analyzer.py:13 | adding a row raises the total count by one |
| AnalyticsEngine.GroupRowsCountSum | src/core/analyzer.py:11-13 | the group counts add up to the number of rows with a platform and a date |
| AnalyticsEngine.GroupsAtMostCounted | src/core/analyzer.py:13 | there are no more groups than counted rows |
| AnalyticsEngine.ToMetric | src/core/analyzer.py:12-19 | the output row carries the group's key and count |
| AnalyticsEngine.ComputeDailyMetrics | src/core/analyzer.py:7-20 | empty input gives empty output |
| AnalyticsEngine.DailyMetricsSorted | src/core/analyzer.py:12-19 | rows are strictly increasing by (platform, date): one row per group |
| AnalyticsEngine.DailyMetricsGroups | src/core/analyzer.py:11-17 | there is a row for key k iff some input row has that platform and that date |
| AnalyticsEngine.MembersPresent | src/core/analyzer.py:12 | a group has members iff some row carries its key |
| AnalyticsEngine.GroupPresent | src/core/analyzer.py:12 | in increasing groups, k is found iff it is some group's key |
| AnalyticsEngine.DailyMetricsTotals | src/core/analyzer.py:12-17 | each row's count is its member count (positive); its sums are the sums of engagement_score, likes, comments and shares over its members; mean = sum / count |
| AnalyticsEngine.DailyMetricsCounts | src/core/analyzer.py:11-13 | the counts add up to the rows with a non-null platform and date; there are never more groups than such rows |
| AnalyticsEngine.MetricsCountGroups | src/core/analyzer.py:13 | the output counts add up to the group counts |
| AnalyticsEngine.InsertByKey | src/core/analyzer.py:26 | insertion adds exactly the new row (as a multiset) |
| AnalyticsEngine.SortByKey | src/core/analyzer.py:26 | sorting keeps the row count and the rows, as a multiset |
| AnalyticsEngine.InsertByKeyAbove | src/core/analyzer.py:26 | inserting a row whose key is at least b, among such rows, keeps every key at least b |
| AnalyticsEngine.InsertByKeySorted | src/core/analyzer.py:26 | insertion keeps the rows ascending by (platform, date) |
| AnalyticsEngine.SortByKeySorted | src/core/analyzer.py:26 | the sorted rows are ascending by (platform, date) |
| AnalyticsEngine.WithKey | src/core/analyzer.py:26 | the rows of one (platform, date) key are at most all the rows |
| AnalyticsEngine.WithKeyConcat | src/core/analyzer.py:26 | selecting by key distributes over concatenation |
| AnalyticsEngine.WithKeyNone | src/core/analyzer.py:26 | no row has key k, so none is selected |
| AnalyticsEngine.WithKeyOne | src/core/analyzer.py:26 | a single row is selected iff it has key k |
| AnalyticsEngine.InsertByKeyStable | src/core/analyzer.py:26 | an inserted row goes behind the rows of equal key already there |
| AnalyticsEngine.InsertFrontKeyStable | src/core/analyzer.py:26 | a row inserted in front of higher keys keeps the order of equal keys |
| AnalyticsEngine.InsertBehindKeyStable | src/core/analyzer.py:26 | insertion behind the head keeps the order of equal keys |
| AnalyticsEngine.SortByKeyStable | src/core/analyzer.py:26 | the sort is stable: the rows of each (platform, date) key keep their input order |
| AnalyticsEngine.Series | src/core/analyzer.py:27 | a platform's series has no more values than rows |
| AnalyticsEngine.SeriesPrefix | src/core/analyzer.py:27 | the series of a prefix of the rows is a prefix of the series |
| AnalyticsEngine.SeriesAt | src/core/analyzer.py:27 | row i is the next value of its own platform's series |
| AnalyticsEngine.SeriesOfOthers | src/core/analyzer.py:27 | a platform with no rows has an empty series |
| AnalyticsEngine.Mean | src/core/analyzer.py:13 | no contract of its own: the exact mean, sum over count, of a non-empty series |
| AnalyticsEngine.RollingMean | src/core/analyzer.py:27-28 | no contract of its own: `rolling(window, min_periods=1).mean()` at position j, the mean of positions max(0, j - window + 1) through j; AverageAtWindow states it |
| AnalyticsEngine.AverageAt | src/core/analyzer.py:27-28 | no contract of its own: engagement_ma of sorted row i, the rolling mean of its platform's series at its position there; AverageAtWindow and MovingAverageWindow state it |
| AnalyticsEngine.ComputeMovingAverage | src/core/analyzer.py:22-29 | empty input gives empty output; it fails iff the input is non-empty and window < 1; otherwise the row count is preserved |
| AnalyticsEngine.MovingAverageOrder | src/core/analyzer.py:26 | the output rows are the input rows, each once, ascending by (platform, date); rows with equal keys keep their input order, as pandas' stable multi-column sort leaves them |
| AnalyticsEngine.AverageAtWindow | src/core/analyzer.py:27-28 | the average at row i is the mean of the last min(window, n) values of its platform's n values up to row i |
| AnalyticsEngine.MovingAverageWindow | src/core/analyzer.py:27-28 | engagement_ma of row i is the mean of the last min(window, n) engagement_score_sum values among the n rows of its platform up to and including i; other platforms never enter |
| AnalyticsEngine.AverageAtFirst | src/core/analyzer.py:27-28 | a row with no earlier row of its platform averages over itself alone |
| AnalyticsEngine.MovingAverageFirstOfPlatform | src/core/analyzer.py:27-28 | the first row of each platform has engagement_ma equal to its own sum |
| AnalyticsEngine.InsertByScore | src/core/analyzer.py:35 | insertion adds one row |
| AnalyticsEngine.SortByScore | src/core/analyzer.py:35 | sorting keeps the row count |
| AnalyticsEngine.InsertByScorePermutes | src/core/analyzer.py:35 | insertion adds exactly the new row (as a multiset) |
| AnalyticsEngine.SortByScorePermutes | src/core/analyzer.py:35 | sorting by score is a permutation |
| AnalyticsEngine.InsertByScoreBelow | src/core/analyzer.py:35 | inserting a row scoring at most b among such rows keeps every score at most b |
| AnalyticsEngine.InsertByScoreDescending | src/core/analyzer.py:35 | insertion keeps scores non-increasing |
| AnalyticsEngine.SortByScoreDescending | src/core/analyzer.py:35 | the sorted rows are non-increasing in engagement_score |
| AnalyticsEngine.WithScore | src/core/analyzer.py:35 | at most the number of rows |
| AnalyticsEngine.WithScoreConcat | src/core/analyzer.py:35 | selecting by score distributes over concatenation |
| AnalyticsEngine.WithScorePrefix | src/core/analyzer.py:35 | the rows of score v in a prefix are a prefix of the rows of score v |
| AnalyticsEngine.WithScoreNone | src/core/analyzer.py:35 | no row scores v, so none is selected |
| AnalyticsEngine.WithScoreOne | src/core/analyzer.py:35 | a single row is selected iff it scores v |
| AnalyticsEngine.InsertByScoreStable | src/core/analyzer.py:35 | an inserted row goes behind the rows of equal score already there |
| AnalyticsEngine.InsertFrontStable | src/core/analyzer.py:35 | a row inserted in front of lower-scoring rows keeps the order of equal scores |
| AnalyticsEngine.InsertBehindStable | src/core/analyzer.py:35 | insertion behind the head keeps the order of equal scores |
| AnalyticsEngine.SortByScoreStable | src/core/analyzer.py:35 | the sort is stable: each score's rows keep their input order |
| AnalyticsEngine.TopCount | src/core/analyzer.py:35 | nlargest keeps at most n rows and at most all of them |
| AnalyticsEngine.NLargest | src/core/analyzer.py:35 | exactly min(max(n, 0), row count) rows |
| AnalyticsEngine.NLargestSpec | src/core/analyzer.py:35 | non-increasing scores; drawn from the input without duplication; every omitted row scores at most every chosen row |
| AnalyticsEngine.PermutationPrefix | src/core/analyzer.py:35 | a prefix of a permutation is drawn from the input, and what it omits is the rest |
| AnalyticsEngine.DescendingSplit | src/core/analyzer.py:35 | in descending rows, the rows past k score at most those before k |
| AnalyticsEngine.NLargestStable | src/core/analyzer.py:35 | among equal scores, nlargest keeps the earliest input rows, in input order |
| AnalyticsEngine.InsertName | src/core/analyzer.py:38 | the platform set grows by exactly the new name |
| AnalyticsEngine.InsertNameAbove | src/core/analyzer.py:38 | inserting a name above b among names above b keeps every name above b |
| AnalyticsEngine.InsertNameSorted | src/core/analyzer.py:38 | insertion keeps the names strictly increasing |
| AnalyticsEngine.Platforms | src/core/analyzer.py:38 | the groups are exactly the non-null platforms |
| AnalyticsEngine.PlatformsIncreasing | src/core/analyzer.py:38 | the groups are strictly increasing, each platform once |
| AnalyticsEngine.PlatformRows | src/core/analyzer.py:38 | a platform group holds exactly that platform's rows |
| AnalyticsEngine.PlatformBlocks | src/core/analyzer.py:38-41 | one block per platform group |
| AnalyticsEngine.OverallRows | src/core/analyzer.py:35-37 | the column selection keeps the row count |
| AnalyticsEngine.PlatformTopRows | src/core/analyzer.py:39-41 | the column selection keeps the row count |
| AnalyticsEngine.Stack | src/core/analyzer.py:38-42 | no contract of its own: the per-platform blocks concatenated in group order, which `apply` returns when some block differs from its group; StackLength and TopPerPlatformSpec state it |
| AnalyticsEngine.GroupedRows | src/core/analyzer.py:38-42 | the rows with a non-null platform, in input order, which `apply` returns when every block is its whole group: each is an input row with a platform |
| AnalyticsEngine.BlocksKeepGroups | src/core/analyzer.py:38-41 | no contract of its own: every platform's `nlargest` block is that platform's rows unchanged, the case where `apply` behaves as a transform |
| AnalyticsEngine.PerPlatformRows | src/core/analyzer.py:38-42 | no contract of its own: the rows `apply` combines, GroupedRows when BlocksKeepGroups holds and Stack otherwise; PerPlatformRowsSpec states it |
| AnalyticsEngine.StackLength | src/core/analyzer.py:38-42 | stacking the blocks gives the sum of their lengths |
| AnalyticsEngine.IdentifyTopPosts | src/core/analyzer.py:31-46 | the empty mapping iff the input is empty; top_overall has min(overall_n, rows) rows; top_per_platform is PerPlatformRows without the platform column |
| AnalyticsEngine.TopOverallSpec | src/core/analyzer.py:35-37 | for any overall_n and platform_n, top_overall is the seven columns of nlargest(overall_n): non-increasing, drawn from the input, every omitted row scoring at most every chosen one |
| AnalyticsEngine.PlatformBlocksSpec | src/core/analyzer.py:38-41 | each platform's block has min(platform_n, its rows) rows (at least one when platform_n >= 1), all of that platform, non-increasing, none of its omitted rows scoring above a chosen one |
| AnalyticsEngine.PlatformBlocksCover | src/core/analyzer.py:38 | the blocks cover exactly the non-null platforms, each once, in sorted order |
| AnalyticsEngine.TopPerPlatformSpec | src/core/analyzer.py:38-42 | for any overall_n and platform_n, top_per_platform drops the platform column from the grouped rows in input order when every block is its whole group, and from the blocks stacked in sorted platform order otherwise; its length is the total of the block lengths |
| AnalyticsEngine.PlatformRowsConcat | src/core/analyzer.py:38 | selecting a platform's rows distributes over concatenation |
| AnalyticsEngine.PlatformRowsPure | src/core/analyzer.py:38 | rows all of platform x are selected whole, and rows none of which are of x give nothing |
| AnalyticsEngine.GroupedRowsByPlatform | src/core/analyzer.py:38-42 | a platform's rows among the grouped rows are its rows in the input |
| AnalyticsEngine.StackMember | src/core/analyzer.py:38-42 | a stacked row comes from some block |
| AnalyticsEngine.StackByPlatform | src/core/analyzer.py:38-42 | from blocks of distinct single platforms, selecting platform x gives x's block, or nothing when x has no block |
| AnalyticsEngine.CountWithinPlatform | src/core/analyzer.py:38 | a row occurs as often among its own platform's rows as among all rows |
| AnalyticsEngine.PlatformsDistinct | src/core/analyzer.py:38 | the groups' platform names are distinct |
| AnalyticsEngine.BlocksPure | src/core/analyzer.py:38-41 | each block holds only rows of its own platform |
| AnalyticsEngine.StackedBlocksByPlatform | src/core/analyzer.py:38-42 | in the stacked blocks, every row has a grouped platform, and each platform's rows are its block, in order |
| AnalyticsEngine.KeptGroupsByPlatform | src/core/analyzer.py:38-42 | when every block is its group, each platform's rows among the grouped rows are its block |
| AnalyticsEngine.SameByPlatform | src/core/analyzer.py:38-42 | rows whose platforms lie in the same names and agree platform by platform are the same multiset |
| AnalyticsEngine.PerPlatformRowsSpec | src/core/analyzer.py:38-42 | in both cases of `apply`, every row has a grouped platform, each platform's rows are exactly its `nlargest` block in block order, and the rows are the stacked blocks as a multiset |
| AnalyticsEngine.NLargestOne | src/core/analyzer.py:39 | a single row is its own nlargest for n >= 1 |
| AnalyticsEngine.TwoPlatformGroups | src/core/analyzer.py:38 | a twitter row then a facebook row form the groups facebook, twitter, one row each |
| AnalyticsEngine.TopPerPlatformInputOrder | src/core/analyzer.py:38-42 | with one twitter row then one facebook row and platform_n = 3, top_per_platform keeps the input order (twitter first), not the sorted platform order |
| FacebookClient.Get | src/api/facebook_client.py:66 | a key is found iff the dict has an entry for it, and the value found is that entry's |
| FacebookClient.GetOr | src/api/facebook_client.py:70-73 | `d.get(k, default)`: the entry's value when present, else the default |
| FacebookClient.Truthy | src/api/facebook_client.py:66 | no contract of its own: Python truthiness of a JSON value (None, False, 0, '', [] and {} are false), used at lines 66, 72 and 74 |
| FacebookClient.TotalCount | src/api/facebook_client.py:70-71 | no contract of its own: `total_count` under likes or comments, through the defaults {}, {} and 0; SummaryCountDefaults states it |
| FacebookClient.SummaryCount | src/api/facebook_client.py:70-71 | no contract of its own: the likes or comments count, None when `.get` is called on a non-dict; SummaryCountDefaults states it |
| FacebookClient.SharesCount | src/api/facebook_client.py:72 | no contract of its own: 0 for falsy shares, else its `count` (default 0), None when shares is truthy but not a dict; TransformPostFields states it |
| FacebookClient.PostDate | src/api/facebook_client.py:73-78 | no contract of its own: None for a falsy created_time, else fromIso of it with `Z` replaced, and a raise (skip) when that fails or it is not a string; TransformPostFields states it |
| FacebookClient.Author | src/api/facebook_client.py:86-87 | no contract of its own: author_id and author_name from the id; a list or dict id is kept whole unless it holds `_`, where `split` raises, and any other non-string id raises at `'_' in id`; TransformPostAuthor states the string case |
| FacebookClient.TransformPost | src/api/facebook_client.py:69-88 | no contract of its own: one post's record, or None when lines 69-88 raise; TransformPostFields, TransformPostAuthor, MissingIdSkipped and WellFormedPostMaps state it |
| FacebookClient.Iterated | src/api/facebook_client.py:68 | no contract of its own: what `for post in data` walks (list items, string characters, dict keys), None when data is not iterable |
| FacebookClient.TransformResponseSpec | src/api/facebook_client.py:64-92 | no contract of its own: the specification the TransformResponse loop is proved against; EmptyResponse, TransformResponseRecords and TransformAllSkips state its properties |
| FacebookClient.ReplaceZ | src/api/facebook_client.py:75 | no `Z` is left |
| FacebookClient.ReplaceZWithoutZ | src/api/facebook_client.py:75 | a string without `Z` is unchanged |
| FacebookClient.ReplaceZSuffix | src/api/facebook_client.py:75 | a trailing `Z` becomes `+00:00` |
| FacebookClient.BeforeUnderscore | src/api/facebook_client.py:86 | `split('_')[0]`: a prefix without `_`, followed in the id by `_` when shorter; the whole id when it has no `_` |
| FacebookClient.FilterMapConcat | src/api/facebook_client.py:68-91 | mapping a + b gives a's records followed by b's |
| FacebookClient.FilterMapLength | src/api/facebook_client.py:68-91 | no more records than inputs, and as many when every input maps |
| FacebookClient.TransformAllStep | src/api/facebook_client.py:68-91 | one more post appends its record if it maps and nothing otherwise |
| FacebookClient.TransformResponse | src/api/facebook_client.py:64-92 | the loop's result is TransformResponseSpec: nothing for a falsy response or one without data, an error when data cannot be iterated, otherwise the records of the posts that map |
| FacebookClient.TransformAllSkips | src/api/facebook_client.py:89-91 | records keep post order; a skipped post drops out without affecting the posts around it |
| FacebookClient.TransformAllLength | src/api/facebook_client.py:68-91 | at most one record per post, and exactly one each when every post maps |
| FacebookClient.EmptyResponse | src/api/facebook_client.py:66-67 | a falsy response or one without 'data' gives an empty list |
| FacebookClient.MissingIdSkipped | src/api/facebook_client.py:69-91 | a post without an id, or one that is not a dict, raises and is skipped |
| FacebookClient.SummaryCountDefaults | src/api/facebook_client.py:70-71 | the count is read iff the `.get` chain does not raise, and is then `total_count`; a missing likes/comments, `summary` or `total_count` reads as 0 |
| FacebookClient.TransformPostFields | src/api/facebook_client.py:70-85 | in a record: post_id is the id; likes and comments are their `total_count`, 0 when missing; shares is 0 when falsy, else its count; content defaults to ''; post_date is None for an empty created_time, else the parsed time with `Z` as UTC |
| FacebookClient.TransformPostAuthor | src/api/facebook_client.py:86-87 | author_id is the id text before the first `_` and author_name `page_` plus it; without `_`, the whole id and `unknown` |
| FacebookClient.WellFormedPostMaps | src/api/facebook_client.py:69-88 | a dict post with a string id, readable counts, shares absent or a dict, and a parseable or absent created_time always maps |
| FacebookClient.TransformResponseRecords | src/api/facebook_client.py:66-92 | for a list of posts, the result is exactly the mapped posts, no more than the posts |

## Left out

- I/O, logging and printing are not modelled. The cast warning on line 39 and the skip warning on line 90 become, respectively, the `castWarnings` list and a dropped post.
- The network clients, mock data, orchestration, configuration and smoke tests are not part of this model, nor is the rest of `facebook_client.py`. These use random numbers, the clock and foreign calls.
- Floating point is not modelled. Means are exact reals, and the rounding to 2 decimals at line 17 of `analyzer.py` is not modelled. Counts are integers, so a float count (such as NaN filled to 0.0) is read as the integer.
- Column order and the row index of a DataFrame are not modelled. The group keys that `reset_index()` turns into columns at line 19 of `analyzer.py` are the `platform` and `date` fields of each output row; the renumbering at line 42 has no counterpart.
- pandas date parsing, time zones and `datetime.fromisoformat` are abstract parameters (`parse`, `fromIso`). Their formats are not modelled.
- DataProcessor.NormalizeDateRowLocal: holds of the per-cell `parse` the model takes. pandas 2 `to_datetime` infers one format from the first non-null string of the column, so there a cell can become NaT because of what another row holds; that cross-row effect is not modelled (nor in `NormalizeDates`, `NormalizeDateCell` and `DateColumnCells`).
- `DataProcessor.ParseInt` accepts only an optional sign followed by ASCII digits. It does not accept the surrounding whitespace, the digit underscores or the non-ASCII decimal digits (such as Arabic-Indic ones) that Python's `int()` also allows.
- `DataProcessor.CastValue`: the `datetime64` cast is the identity. The loop never casts the two timestamp columns (line 35), so it is never used.
- DataProcessor.EngagementColumn: the sum at line 40 is exact. On int64 columns numpy wraps around past 2^63 - 1, so the model agrees with the source only while each row's likes + comments + shares stays within the 64-bit range. Wrap-around is not modelled because the dtype the columns hold at line 40 (int64 after a cast, object after a failed one) is not tracked.
- DataProcessor.FinishEngagement: "stores each row's sum" is the exact sum; the int64 wrap-around of line 40 is not modelled (see EngagementColumn).
- DataProcessor.NormalizeEngagement: the stored sums are exact; the int64 wrap-around of line 40 is not modelled (see EngagementColumn).
- DataProcessor.NormalizeEngagementSums: engagement_score equals likes + comments + shares as unbounded integers; in the source this holds only while that sum fits in 64 bits.
- DataProcessor.IntegerRowsSum: the integer sums are unbounded; the int64 wrap-around of line 40 is not modelled (see EngagementColumn).
- AnalyticsEngine.DailyMetricsTotals: the group sums are exact integers; pandas sums int64 columns with wrap-around past 2^63 - 1, which is not modelled.
- AnalyticsEngine.NLargestStable: the model takes rows of equal score in input order whatever `n` is. pandas promises that order only when `n` is below the row count; for `n` at or above it, `nlargest` sorts with the default unstable sort, and the order among ties is not promised. Through `BlocksKeepGroups`, that tie order also decides which case of `apply` builds `top_per_platform`.
- `AnalyticsEngine.ComputeDailyMetrics`: the analytics take typed rows (`Post`) of a normalised table, not raw tables. A table whose counts failed to cast is outside their input type.
- That `compute_daily_metrics` works on a copy (line 10) holds by construction, since every analytics operation is a function of its input.
- `DataProcessor.ValidateAfterNormalize` holds only when `normalize_data` completes. When line 40 raises, no table is returned to validate.
- `FacebookClient.TransformResponse` takes the response as a dict. A non-dict `raw_data` is outside its input type.
- FacebookClient.Get: a JSON dict is a sequence of entries, which could repeat a key; `Get` then takes the first entry. A decoded Python dict never repeats a key, so such inputs do not arise from the source.
