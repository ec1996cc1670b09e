# Event analytics pipeline, modelled in Dafny

`process.py` is a linear PySpark batch script. It inner-joins user events to
devices and computes three things from the joined table:

- the number of `APP_OPENED` events;
- the cent total of `ADD_TO_CART` prices, after `$` signs are stripped and the price is cast to integer cents;
- a per-session report of session length and spend for sessions with at least two events.

It also writes an enriched projection of the joined table.

This project models that relational core as pure functions over immutable
tables, with one function per DataFrame transformation. It proves what each
stage keeps, drops and computes.

- Rows are datatypes. `Schema.Event<P>` is a row of events.csv. `P` is the
  type of `totalPrice`: the raw string before cleaning and `Option<int>` cents
  after. `Schema.Row<P>` pairs an event with its device.
- Tables are `seq`s. NULL cells are `Wrappers.Option.None`.
- `groupBy("session")` results are `map`s from session key to aggregate, so each
  session has exactly one row. The maps are built by folding over the rows. The
  lemmas then connect each fold to the declarative aggregate: the count, max,
  min or null-skipping sum of the group's rows.
- Spark's `sum` is `Metrics.NullSkippingSum`. It skips NULL cells and returns
  NULL when no cell has a value.
- The numeric part of price cleaning is the cast to double, then
  `round(x * 100)` cast to int. It is the parameter `toCents: string -> Option<int>`
  of `Cleaning.CleanPrices` and `Process.Run`. `None` stands for the NULL that a
  failed cast produces. The `$` stripping that comes before the cast is modelled
  exactly.
- Spark gives no row order, so every stage's result is proved to depend only on
  the multisets of the input tables (`Process.RunIgnoresOrder`).

Modules: `Wrappers`, `Schema`, `Tables` (column maps), `Join` (line 11),
`Cleaning` (lines 18-19), `Metrics` (lines 14 and 22), `Sessions` (lines 27-36
and 58-62), `Enrich` (line 54) and `Process` (the whole run).

Four points where the code's behaviour is easy to misread:

- Line 18 uses `regexp_replace` with the pattern `\$`. It removes every `$` in
  the price, not only a leading one.
- With no non-NULL `ADD_TO_CART` price, the sum at line 22 is NULL and line 23
  raises on `None/100`. The run then writes nothing. `Process.Run` returns
  `Failure(AddToCartSumIsNull)` and does not invent a `$0` default.
- With no session of two or more events, `session_lengths` is empty and the
  `avg` at lines 38-40 is NULL. A tuple whose only value in that column is
  NULL gives `createDataFrame` at line 47 no type to infer, so the run stops
  there, before any file is written. `Process.Run` returns
  `Failure(AverageIsNull)` and does not invent a default average.
- The inner join at line 61 matches on `session` only. A qualifying session
  whose prices are all NULL keeps its bonus row, with a NULL
  `sum_price_per_session`. It is not dropped.

## Model

| member | source | states |
|---|---|---|
| `Join.InnerJoin` | process.py:11 | every joined row pairs an input event with an input device whose `ID` equals the event's `deviceId` |
| `Join.JoinMultiplicity` | process.py:11 | the pair (e, d) occurs (copies of e) × (copies of d) times when the keys agree, and 0 times otherwise |
| `Join.JoinMembership` | process.py:11 | a row is in the join if and only if its event and device are inputs and their keys agree |
| `Join.UnmatchedEventDropped` | process.py:11 | an event whose `deviceId` matches no device contributes no row |
| `Join.JoinIgnoresOrder` | process.py:11 | permuting either input only permutes the joined table |
| `Metrics.Where` | process.py:14 | the type filter keeps exactly the rows of that type |
| `Metrics.WhereMultiplicity` | process.py:14 | the filter keeps every copy of a row of that type and no copy of any other row |
| `Metrics.WhereCountBounds` | process.py:14 | the filtered count is at most the table size; it is 0 if and only if no row has the type, and equals the table size if and only if every row has it |
| `Metrics.AppOpenedCount` | process.py:14 | `app_opened_count` is at most the number of joined rows, and is 0 if and only if no joined row is an `APP_OPENED` event |
| `Metrics.AppOpenedCountIgnoresOrder` | process.py:14 | `app_opened_count` depends only on the multiset of joined rows |
| `Cleaning.StripDollars` | process.py:18 | no `$` is left, and every other character keeps its multiplicity |
| `Cleaning.StripDollarsAppend` | process.py:18 | stripping works piecewise, so the remaining characters keep their order |
| `Cleaning.CleanPrice` | process.py:18-19 | a NULL price stays NULL, and a price without `$` goes to the cast unchanged |
| `Cleaning.CleanPriceIgnoresDollar` | process.py:18-19 | a `$` anywhere in the price, not only at its head, does not change the cleaned value |
| `Cleaning.StripDollarsKeepsPlain` | process.py:18 | a price without `$` is unchanged, so stripping is idempotent |
| `Cleaning.CleanPrices` | process.py:18-19 | cleaning changes only `totalPrice` (the tables agree on all other columns, row by row); the new price is the cast of the stripped string, and NULL stays NULL |
| `Cleaning.CleanPricesAt` | process.py:18-19 | row i of `cleaned_price` is row i of `joined` with its price cleaned, and the row count is unchanged |
| `Cleaning.CleanPricesMembership` | process.py:18-19 | a row is in `cleaned_price` if and only if it is the cleaning of some joined row |
| `Cleaning.CleanPricesIgnoresOrder` | process.py:18-19 | permuting the joined rows only permutes the cleaned rows |
| `Metrics.WhereCommutesWithCleaning` | process.py:22 | filtering `cleaned_price` on `joined['type']` equals cleaning the filtered joined rows |
| `Metrics.NullSkippingSum` | process.py:22 | the sum is NULL if and only if every cell is NULL |
| `Metrics.NullSkippingSumIsSumOfPresent` | process.py:22 | the null-skipping sum is NULL when no cell has a value, and otherwise the plain sum of the non-NULL values |
| `Metrics.NullSkippingSumAppend` | process.py:22 | summing a concatenation combines the sums of its parts |
| `Metrics.NullSkippingSumIgnoresOrder` | process.py:22 | the null-skipping sum does not depend on the order of the cells |
| `Metrics.AddToCartCents` | process.py:22 | the add-to-cart total is NULL if and only if no `ADD_TO_CART` row has a cleaned price |
| `Metrics.AddToCartCentsSpec` | process.py:22 | the add-to-cart total is NULL if and only if no `ADD_TO_CART` row has a cleaned price; otherwise it is the sum of their non-NULL cents |
| `Metrics.PriceSumIgnoresOrder` | process.py:22 | the price sum of a table depends only on its multiset of rows |
| `Metrics.WhereIgnoresOrder` | process.py:22 | permuting a table only permutes its type filter |
| `Process.RunFailsExactlyWhen` | process.py:22-47 | the run fails if and only if every joined `ADD_TO_CART` event's cleaned price is NULL (line 23) or no session has two events (line 47); the line-23 failure is the one reported when both hold |
| `Sessions.InSession` | process.py:27 | a session group holds exactly the rows carrying that session |
| `Sessions.InSessionMultiplicity` | process.py:27 | a group keeps every copy of its rows and nothing else |
| `Sessions.InSessionEmpty` | process.py:27 | a key's group is empty if and only if no row has that session |
| `Sessions.GroupSessionStats` | process.py:27-30 | the grouped table has exactly one row per distinct session of the cleaned rows |
| `Sessions.GroupSessionStatsSpec` | process.py:27-30 | each session's `event_count` is the number of its rows; `latest_timestamp` and `earliest_timestamp` are the max and min of their timestamps |
| `Sessions.MaxOf` | process.py:29 | `max` is a value of the column and bounds every value from above |
| `Sessions.MinOf` | process.py:30 | `min` is a value of the column and bounds every value from below |
| `Sessions.GroupSessionStatsIgnoresOrder` | process.py:27-30 | the grouped table depends only on the multiset of cleaned rows |
| `Sessions.SessionCounts` | process.py:27-31 | exactly the sessions with at least 2 rows remain, each with earliest ≤ latest |
| `Sessions.SessionLengths` | process.py:33-36 | `session_lengths` has exactly the qualifying sessions, and every `session_length` is ≥ 0 |
| `Sessions.SessionLengthSpec` | process.py:27-36 | a session's length is the max minus the min of its timestamps; it is 0 if and only if all its events share one timestamp |
| `Sessions.GroupSessionSums` | process.py:58 | the per-session sum table has one row per distinct session, with no ≥ 2 gate |
| `Sessions.GroupSessionSumsSpec` | process.py:58 | each session's sum is the null-skipping sum of its rows' cents |
| `Sessions.GroupSessionSumsIgnoresOrder` | process.py:58 | the per-session sums depend only on the multiset of cleaned rows |
| `Sessions.JoinOnSession` | process.py:61-62 | the join keeps the sessions present on both sides, and takes its length from one side and its sum from the other |
| `Sessions.BonusReport` | process.py:58-62 | the bonus report has exactly one row per session with at least 2 events, and every `session_length` is ≥ 0 |
| `Sessions.BonusReportSpec` | process.py:58-62 | the bonus report has exactly one row per session with at least 2 events, holding its timestamp spread and its null-skipping cent sum |
| `Sessions.BonusReportIgnoresOrder` | process.py:58-62 | the bonus report depends only on the multiset of cleaned rows |
| `Enrich.ToEvent` | process.py:54 | selecting the enriched columns of the rebuilt event gives back the enriched row (`Project(ToEvent(x)) == x`), so no enriched row is lost by reading it as an event |
| `Enrich.EnrichedData` | process.py:54 | one enriched row per joined row, carrying exactly that row's event columns, with `totalPrice` as read (`$` included) |
| `Enrich.EnrichedDataOfJoin` | process.py:54 | an enriched row is output if and only if its event is an input event and some device has its `deviceId` as `ID` |
| `Enrich.EnrichedDataIgnoresOrder` | process.py:54 | the enriched rows depend only on the multiset of joined rows |
| `Process.Run` | process.py:11-62 | a successful run reports at most one APP_OPENED per joined row, one enriched row per joined row, and bonus rows for exactly the qualifying sessions, of which there is at least one |
| `Process.RunSpec` | process.py:11-62 | a successful run reports the APP_OPENED count of the join, the add-to-cart cent sum, one enriched row per joined row, and bonus rows for exactly the qualifying sessions |
| `Process.RunIgnoresOrder` | process.py:11-62 | permuting events or devices changes neither the outcome, the scalars nor the bonus report, and only reorders the enriched rows |
| `Process.LoneEventSession` | process.py:38-47 | worked failure: a priced ADD_TO_CART alone in its session stops the run with `AverageIsNull` although the cart total exists |
| `Process.TwoEventSession` | process.py:11-62 | worked case: an ADD_TO_CART at 100 for `$10.00` and an APP_OPENED at 150 in session s1 give count 1, total 1000 cents and bonus {s1: length 50, 1000 cents} |

## Left out

- SparkSession start and stop, CSV reading with schema inference, `coalesce(1)`, CSV writing in overwrite mode and the `print` calls (lines 4, 7-8, 15, 24, 42, 45-50, 53, 55, 64-67) are engine plumbing and I/O. The model starts from the two tables as values.
- Lines 18-19: the cast to double and `round(x * 100)` cast to int are floating point. They are the `toCents` parameter, so their rounding and 32-bit range are not modelled.
- Lines 38-40: the value of the average session length is a floating-point `avg` and is not modelled, so `Process.Report` has no average column. Only whether it is NULL is modelled, as the `AverageIsNull` failure.
- Line 23: the f-string formatting of `total / 100` is a floating-point division. `Process.Report` holds the integer cent total.
- Line 59: `round(sum / 100, 2)` is floating point. The bonus report holds the per-session sum in integer cents.
- The sum at line 22 is a 64-bit long in Spark. The model uses unbounded integers, so overflow is not modelled.
- NULL cells are modelled only in `totalPrice`. The CSV reader reads an empty field as NULL, but `deviceId`, `ID`, `session`, `timestamp`, `timstamp_iso`, `type` and `User` are plain strings and integers here. So the model does not capture that Spark's inner join never matches a NULL `deviceId` or `ID`, that `groupBy` puts NULL sessions in one group of their own, or that `max`/`min` skip NULL timestamps.
- Device columns other than `ID` are an uninterpreted `seq<string>`. The `deviceId == ID` comparison is exact string equality, with no type coercion between inferred column types.
- Distributed execution and output row order are not modelled. The joined table is built in event-major order, and every result is proved independent of input order.
