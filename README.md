# COVID-19 testing dashboard: the cleaning pipeline, verified

`app.py` fetches the per-state testing records of India, cleans them in one
pass at start-up and draws an animated bubble chart of test positivity
against tests per million, one frame per day. This project models the
cleaning pass (lines 31-119) in Dafny and proves what each stage promises.

- **Normalisation** (`Normalise`, lines 31-48). It drops records with an empty or missing count. It then keeps the first record of each (state, date text) key and parses the `dd/mm/yyyy` dates and the integer counts. Last, it drops days on or before 2020-04-09.
- **State filter** (`StateFilter`, lines 54-63). A state stays when the confirmed count of its first row on its latest day is at least 500. Every row of every other state goes.
- **Gap filler** (`GapFill`, lines 70-98). The daily window runs from the earliest day to the latest day, capped at today. Each state is reindexed onto the window, forward filled, then backward filled. The state frames are concatenated in order of first appearance.
- **Metrics** (`Metrics`, lines 107-119). This stage covers the left join with the auxiliary state table. It also covers the two ratio columns under numpy's division rules (infinities and NaN included) and the `YYYY/MM/DD` animation key. Finally it covers the two axis bounds, computed with Python's builtin `max` and `math.ceil`.
- **Pipeline** (`Pipeline`). The stages chained in order, where the first exception raised ends the run.

Supporting modules:

- `Frames` states the pandas operations the stages use, over sequences:
  - boolean-mask selection;
  - `drop_duplicates(keep='first')` and `unique()`;
  - `concat`;
  - `fillna(method='ffill' | 'bfill')`.
- `Calendar` numbers dates as Python ordinals (0001-01-01 is day 1) and holds the range of pandas `Timestamp` (1677-09-22 to 2262-04-11).
- `DateText` reads dates as `pd.to_datetime(format='%d/%m/%Y')` does. It also reads counts as `astype(int)` does, and writes dates as `strftime('%Y/%m/%d')` does.

Every uncaught exception the source raises from line 38 on is a `Failure` value. The `KeyError` that line 35 raises on a feed without one of the four columns is not one of them (see `Run` under "## Left out"):

| `Failure` value | raised by |
|---|---|
| `DateParseError` | `to_datetime` on a cell that is neither a `dd/mm/yyyy` date in the Timestamp range nor one of pandas' NaT spellings |
| `CountParseError` | `astype(int)` |
| `EmptyTable` | `max`/`min` of an empty column |
| `DuplicateDates` | `reindex` onto a non-empty window, for a state with two rows on one day |
| `CeilOfNaN` | `math.ceil` of a NaN |
| `CeilOfInfinity` | `math.ceil` of an infinity |

The two loops of the source are methods proved against the functions that specify them:
- `StateFilter.PassingStates` is the loop of lines 57-61.
- `GapFill.FrameStates` is the loop of lines 79-96.

Behaviour of `app.py` worth noting:

- `to_datetime` turns the cells `NaT`, `nat`, `NAT`, `nan`, `NaN` and `NAN` into NaT instead of raising. The comparison at line 48 is false for NaT, so those records are dropped there (`DateText.ToDatetime`, `Normalise.AfterCutoff`).
- De-duplication keys on the raw date text, because line 41 runs before line 44 parses the dates. So `1/05/2020` and `01/05/2020` both survive for one state. If that state also survives the cutoff at line 48 and the filter at line 60, `reindex` raises on its duplicate day, which `FillGaps` returns as `DuplicateDates`. With dates always spelled `dd/mm/yyyy`, this cannot happen (`Pipeline.CanonicalRunHasNoDuplicateDates`). `reindex` checks for duplicates only when the target window is non-empty, so when the earliest day is after `today` no state raises and every frame is empty.
- Several rows of a state on its latest day are not an error. The filter reads the first of them (`.values[0]`).
- A NaN ratio does not always propagate harmlessly. Python's `max` returns NaN when the column's first item is NaN, and `math.ceil` then raises `ValueError`. An infinite maximum (tests with population 0, or positives with 0 tests) makes `math.ceil` raise `OverflowError`.
- Tests per million is NaN in three cases: the counts are missing (a state with no record in the window), 0 tests over a population of 0, or a state missing from the auxiliary table. Non-zero tests over a population of 0 give an infinity with the sign of the tests. Positivity is NaN for missing counts or 0 / 0, and an infinity for non-zero positives over 0 tests.
- `astype(int)` converts to numpy's default integer type, taken here as int64 (the 64-bit Linux and macOS width; numpy 1.x on Windows uses int32, which the model does not cover). A count outside the int64 range raises, which the model reports as `CountParseError`.

## Model

| member | source | states |
|---|---|---|
| Normalise.DropMissing | app.py:38-40 | a record is kept exactly when it is in the input and both count cells are present and non-empty |
| Normalise.MissingNeverShadows | app.py:38-41 | for every complete record, the cleaned table holds the first complete record with its (state, date) key; an incomplete record never hides it |
| Normalise.DedupUnique | app.py:41 | after de-duplication no (state, date text) key appears twice |
| Normalise.DedupKeepsFirst | app.py:41 | every kept record is the first of its key, and every key of the input survives |
| Normalise.DedupOrder | app.py:41 | surviving records keep their input order: the a-th kept record is the input record at the a-th first occurrence of a key |
| Frames.DropDuplicatesUnique | app.py:41 | `drop_duplicates(keep='first')` leaves no key twice |
| Calendar.OrdinalOrder | app.py:44 | day numbers order dates as the calendar does and are injective |
| Calendar.FromOrdinalOfOrdinal | app.py:44 | a date is recovered from its day number |
| Calendar.TimestampYears | app.py:44 | a Timestamp day lies in the years 1677 to 2262 |
| DateText.ParseDate | app.py:44 | a parsed day is an ordinal of a real calendar date inside the Timestamp range |
| DateText.ToDatetime | app.py:44 | a date cell gives NaT exactly for the six NaT spellings, fails exactly when it is neither one of them nor a parsable date, and otherwise gives the parsed Timestamp day |
| DateText.ParseOfTokens | app.py:44 | a `%d`, a `%m` and a `%Y` token joined by two slashes and naming a valid Timestamp date parse to that date |
| DateText.ParsedTextIsTokens | app.py:44 | conversely, every accepted cell is such a day, month and year token triple naming a valid Timestamp date, and it parses to that date; every other cell is rejected |
| DateText.FeedTextRoundTrip | app.py:44 | the zero-padded `dd/mm/yyyy` text of every Timestamp date parses back to that date |
| DateText.CanonicalInjective | app.py:41-44 | two `dd/mm/yyyy`-shaped cells name the same day exactly when they are the same text |
| DateText.UnpaddedDaySameDate | app.py:41-44 | a day below 10 written without its leading zero is a different text that parses to the same day |
| DateText.ParseCount | app.py:45-46 | a count cell converts exactly when it is an optional sign followed by at least one ASCII digit and its value fits in int64; the result is that signed value |
| DateText.CountRoundTrip | app.py:45-46 | the decimal text of an integer converts back to it exactly when the integer is in the int64 range, and is rejected otherwise |
| Normalise.ParseRows | app.py:44-46 | the table converts exactly when every cell does; the date column converts first, so a bad date anywhere is reported before any bad count; converted rows keep their state and carry the converted values (a date or NaT), row for row |
| Normalise.AfterCutoff | app.py:48 | a record is kept exactly when it is in the input, is dated (not NaT) and its day is after 2020-04-09; kept records are the mask's `true` positions, in order |
| Normalise.NormalisedRow | app.py:31-48 | each cleaned row is the parse of a complete raw record that survived de-duplication |
| Normalise.Normalise | app.py:31-48 | the stage fails only with a date or a count error and never adds rows |
| Normalise.DateErrorIff | app.py:38-48 | the stage fails on a date exactly when some complete record has a date cell that is neither parsable nor NaT |
| Normalise.NaTNeverStops | app.py:44-48 | records dated with a NaT spelling never stop the stage, and every cleaned row comes from a complete record with a real date that parses to its day |
| Normalise.NormalisedAfterCutoff | app.py:48 | every cleaned row is dated after 2020-04-09 |
| Normalise.NormaliseOutput | app.py:31-48 | each cleaned row is dated after the cutoff, inside the Timestamp range, and parsed from a complete raw record |
| Normalise.CanonicalDatesUnique | app.py:41-48 | with every date spelled `dd/mm/yyyy`, the cleaned table has at most one row per state and day |
| StateFilter.States | app.py:54 | `unique()`: each state once, every state of the table, nothing else |
| StateFilter.StatesOrder | app.py:54 | states are listed in the order of their first rows |
| StateFilter.LatestDay | app.py:59 | the latest day among the state's rows, attained by one of them |
| StateFilter.FirstRowOn | app.py:60 | the first row of the state on that day |
| StateFilter.LatestConfirmedIs | app.py:59-60 | the count read is that of the first row on a day no row of the state passes |
| StateFilter.PassingStates | app.py:57-61 | the loop appends exactly the states that pass, in order |
| StateFilter.SelectStates | app.py:54-61 | the loop over the table's states yields the passing states |
| StateFilter.RowsOfStates | app.py:63 | `isin`: a row is kept exactly when it is in the table and its state is listed |
| StateFilter.KeptStatesIff | app.py:54-61 | a state is selected exactly when its latest confirmed count is at least 500 |
| StateFilter.FilterStates | app.py:54-63 | the filter only removes rows: the result is no longer than the table and holds only its rows |
| StateFilter.FilterStatesIff | app.py:54-63 | a row survives exactly when it is an input row of a passing state |
| StateFilter.FilterStatesOrder | app.py:63 | surviving rows keep their input order: the a-th kept row is the input row at the a-th position of a passing state |
| StateFilter.ThresholdExample | app.py:54-63 | a state whose latest count is 499 goes, even after an earlier 700; one at 500 stays |
| GapFill.EarliestDay | app.py:75 | `min(date)`: attained and below every row |
| GapFill.LatestDayOfAll | app.py:74 | `max(date)`: attained and above every row |
| GapFill.WindowOf | app.py:74-76 | the window starts on the earliest day, ends at the smaller of the latest day and today, and is non-empty exactly when the earliest day is not after today |
| GapFill.WindowHoldsRows | app.py:74-76 | the window starts at or before every row and holds every row dated up to today |
| GapFill.WindowInTimestampRange | app.py:74-76 | every day of the window is a Timestamp when the rows' days are |
| GapFill.StateFrame | app.py:83-94 | a state's frame has one row per window day, row k on day start + k, all labelled with the state |
| GapFill.FillGaps | app.py:70-98 | the stage fails with `EmptyTable` exactly on an empty table, and otherwise can fail only with `DuplicateDates` |
| GapFill.FillGapsDuplicates | app.py:74-84 | the stage stops on duplicate dates exactly when the table is non-empty, the window is non-empty and some state has two rows on one day |
| GapFill.FrameStates | app.py:79-96 | the loop yields one frame per state exactly when the window is empty or no state has two rows on one day, and stops with `DuplicateDates` otherwise |
| GapFill.FillGapsLoop | app.py:70-98 | the procedure computes the stage's result, errors included |
| GapFill.Filled | app.py:98 | the output has one row per state and window day |
| GapFill.FilledAt | app.py:79-98 | every output row is state i's filled column on window day k, at position i * length + k |
| GapFill.FilledCovers | app.py:76-98 | every surviving state has a row for every window day |
| GapFill.FilledRowsInWindow | app.py:76-98 | no output row lies outside the window or belongs to another state |
| GapFill.FilledDaysAscend | app.py:79-98 | a state's rows are on distinct days in increasing order |
| GapFill.FilledRecorded | app.py:83-89 | a day with a record of the state keeps that record's counts |
| GapFill.FilledFromEarlier | app.py:88 | a gap takes the counts of the state's nearest earlier record in the window |
| GapFill.FilledFromLater | app.py:89 | a gap before the state's first record in the window takes that record's counts |
| GapFill.FilledNothing | app.py:84-89 | a state with no record in the window stays missing on every day |
| GapFill.UniqueStatesFill | app.py:79-98 | with no duplicate day in any state, the stage concatenates every state's frame |
| Frames.Where | app.py:48 | a mask selection is as long as the mask has `true` entries |
| Frames.WhereSelects | app.py:48 | the k-th selected row is the input row at the k-th `true` position of the mask |
| Frames.WhereKeeps | app.py:48 | every row at a `true` position is selected, at the place its position ranks among the `true` ones |
| Frames.FFill | app.py:88 | forward fill keeps the length and every present value |
| Frames.BFill | app.py:89 | backward fill keeps the length and every present value |
| Frames.FFillAt | app.py:88 | forward fill carries the last present value at or before each position |
| Frames.BFillAt | app.py:89 | backward fill carries the first present value at or after each position |
| Frames.FillKeeps | app.py:88-89 | ffill then bfill keeps a present value |
| Frames.FillFromEarlier | app.py:88 | ffill then bfill puts the nearest earlier present value into a gap |
| Frames.FillFromLater | app.py:88-89 | with nothing present before a gap, the nearest later present value fills it |
| Frames.FillNothing | app.py:88-89 | an all-missing column stays missing |
| Frames.Concat | app.py:98 | every row of every frame is in the concatenation |
| Frames.ConcatAt | app.py:98 | row k of frame i sits at position i * n + k of the concatenation |
| Frames.ConcatSplit | app.py:98 | every position of the concatenation is row k of some frame i |
| Metrics.Enrich | app.py:107-117 | the left join keeps the number of rows |
| Metrics.EnrichLeftJoin | app.py:107-117 | every filled row is kept in place with its own fields, its state's auxiliary row or none, and its two ratios |
| Metrics.Quotient | app.py:115-116 | integer division under numpy: exact where the divisor is non-zero, an infinity with the numerator's sign or NaN for 0 / 0 otherwise |
| Metrics.PosRate | app.py:115 | confirmed / tested * 100: a number exactly when counts are present and tests non-zero, NaN exactly for missing counts or 0 / 0 |
| Metrics.Per1M | app.py:116 | tested / population * 1000000: a number exactly when counts and a non-zero population are present |
| Metrics.DateStringsSortByDay | app.py:117 | date strings sort as text exactly as their days sort, and differ for different days |
| DateText.DateString | app.py:117 | `strftime('%Y/%m/%d')` gives ten characters, zero-padded ASCII digits everywhere except the slashes at places 4 and 7, and reordering its fields to `dd/mm/yyyy` parses back to the same day |
| DateText.DateStringOrder | app.py:117 | `strftime('%Y/%m/%d')` is order-preserving and injective on Timestamp days |
| DateText.SlashedTextOrder | app.py:117 | fixed-width year/month/day text sorts as the dates sort |
| Metrics.PyMax | app.py:118-119 | Python's `max` returns one of the items |
| Metrics.PyMaxFirst | app.py:118-119 | `max` is NaN exactly when the first item is; otherwise no item compares greater than it |
| Metrics.PyMaxOfNumbers | app.py:118-119 | over numbers, `max` is the largest |
| Metrics.PyCeil | app.py:118-119 | `math.ceil` gives the least integer at or above a number and raises on NaN and on infinities |
| Metrics.PosRateBound | app.py:118 | the positivity axis end fails with `EmptyTable` exactly on an empty column, and exists exactly when the column's maximum is a finite number |
| Metrics.Per1MBound | app.py:119 | the same for the tests axis end |
| Metrics.PosRateBoundRange | app.py:118 | the positivity axis end is 1 to 2 above the maximum rate, so every finite rate lies at least 1 below it |
| Metrics.Per1MBoundRange | app.py:119 | the tests axis end is a multiple of 500, at least 500 and under 1000 above the maximum; every finite value lies at least 500 below it |
| Metrics.BoundFailures | app.py:118-119 | the bounds fail on NaN exactly when the first item is NaN, and on an infinity when some item is +inf and the first item is not NaN |
| Metrics.MetricExamples | app.py:115-119 | 50 positives in 1000 tests is 5.0; 1000 tests for 2000000 people is 500.0 per million; a maximum of 1230 gives the axis end 2000 |
| Pipeline.Finish | app.py:107-119 | the finishing stage fails only on an empty table, NaN or an infinity, fails on an empty table for sure, and otherwise returns the joined table |
| Pipeline.Run | app.py:31-119 | a successful run charts at least one row; a run over no records fails, with `EmptyTable` in the model where the source raises `KeyError` at line 35 |
| Pipeline.RunRowsPassFilters | app.py:48-63 | every charted row belongs to a state whose latest confirmed count reached 500 and lies after the cutoff |
| Pipeline.RunAxesHoldPoints | app.py:118-119 | every finite point of the chart lies inside both axes, with the tests axis ending on a multiple of 500 |
| Pipeline.RunDuplicateDates | app.py:44-84 | a run stops on duplicate dates exactly when normalising succeeds and the gap filler stops on them |
| Pipeline.CanonicalRunHasNoDuplicateDates | app.py:41-84 | with every date spelled `dd/mm/yyyy`, a run never stops on duplicate dates |
| Pipeline.FilledRowsPass | app.py:63-98 | every filled row belongs to a passing state and lies no earlier than some cleaned row |

## Left out

- The HTTP fetch and JSON decoding (lines 25-28) are network I/O. The model starts from the records, already projected to the four columns of lines 31-35. A record missing `state` or `updatedon` is not modelled.
- Reading `auxiliary.csv` (line 106) is file I/O. The table is a parameter, a map from state name to its row. Several rows for one state, which a pandas merge would multiply, cannot occur in that form.
- The plotly figure (lines 124-148) and the Dash page and server (lines 18-19, 155-200) are a foreign library and UI.
- `np.datetime64('today')` (line 74) reads the wall clock. It is the `today` parameter, a day number.
- The pandas option toggles (lines 68, 100) change no values. The counts become float64 once `reindex` inserts a missing day; the model keeps them as exact integers, with None where pandas has NaN, so the rounding of counts above 2^53 is not modelled.
- PosRate, Per1M: values are exact rationals. float64 rounding, and rounding effects at the `math.ceil` boundary, are not modelled.
- ParseCount: Python `int()` also accepts surrounding whitespace, underscores between digits and non-ASCII digits. The model rejects those.
- ParseDate: the regular expression's `\d` also matches non-ASCII decimal digits. The model accepts ASCII digits only and reports other dates as `DateParseError`.
- ToDatetime: a date cell missing from the record (a JSON record without `updatedon`) is not modelled. An empty date text is treated as unparsable; pandas releases differ on whether `to_datetime` reads it as NaT instead.
- ParseDate: day precision only. Timestamps are midnight, the cutoff comparison at line 48 is made on days, and the nanosecond edges of the Timestamp range are not modelled.
- Failure: exceptions carry no message or payload.
- Run: the exception text of a failed run, and what a later stage would have done.
- Run: a feed in which no record has one of the keys `state`, `updatedon`, `totaltested` or `positive` (the empty feed included) has no such column after `json_normalize`, so line 35 raises `KeyError`. The model has no such failure: its records always carry the four fields. It reports `EmptyTable` for the empty feed, and treats a column absent from every record as all-missing cells, which line 40 drops.
- Strings are sequences of characters, with no Unicode normalisation.
