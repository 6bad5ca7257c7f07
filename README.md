# Bikeshare trip explorer: verified model of its selection logic

`bikeshare.py` is a console script. It asks for a filter mode, a city, and
optionally a month and a weekday. It then loads that city's trip table,
narrows it to the chosen month and/or weekday, prints the busiest month,
weekday and start hour, and pages through the raw rows five at a time. This
project models the plain selection logic under that glue, and proves what it
promises:

- **Filter prompts** (`get_filters`), module `Filters` in `filters.dfy`. Each
  prompt is a loop that lowers the typed answer and stops at the first answer
  in its allowed list. The console is a finite sequence of answers.
- **Month/day filtering** (`load_data`), module `Loader` in `loader.dfy`. A
  table is a sequence of `Trip` records whose derived columns `month`,
  `dayOfWeek` and `hour` are already filled in. pandas' boolean selection
  `df[mask]` is `Common.Select` in `common.dfy`.
- **Busiest times** (`time_stats`), module `TimeStats` in `time_stats.dfy`.
  Counting loops build per-key counts, then the first key with the largest
  count is picked. Python's `max(d, key=d.get)` over a dict filled with keys
  1..6 in order, and `lst.index(max(lst))`, both pick that first key. The dict
  is held as a sequence whose position k is key k + 1.
- **Raw-row pager** (`view_raw_data`), module `RawView` in `raw_view.dfy`. A
  cursor that moves five rows per page shown.
- **Hand-over in `main`**, module `Session` in `session.dfy`. A selection from
  the prompts always loads.

Python's `str.lower()` and `str.title()` are modelled on ASCII letters
(`Common.Lower`, `Common.Title`).

The filter-type prompt (bikeshare.py:24) offers `month`, `day`, `both` or
`without filter`; its check (bikeshare.py:25) also accepts `without`. The
day scan in `time_stats` is modelled as written and then corrected (see
Findings).

## Model

| member | source | states |
|---|---|---|
| `Common.Lower` | bikeshare.py:24 | `.lower()` keeps the length. Each upper-case letter becomes the lower-case letter it is the capital of; every other character stays as it is. No upper-case letter is left. |
| `Common.LowerIsIdempotent` | bikeshare.py:24 | `.lower()` is idempotent: lowering an answer that is already lowered changes nothing. |
| `Common.TitleFrom` | bikeshare.py:87 | `.title()` from a given point, character by character: a non-letter stays, a letter right after a letter is lowered, and any other letter is raised; at position 0 the flag tells whether a letter came just before. |
| `Common.Title` | bikeshare.py:87 | `.title()`, character by character: a non-letter stays, a letter right after a letter is lowered, and the first letter of each word is raised. |
| `Common.Select` | bikeshare.py:81 | Boolean selection keeps only rows satisfying the mask. Every row value that satisfies it is kept exactly as often as it occurs in the input, and one that fails it is dropped; the result is never longer. |
| `Common.SelectIsSubsequence` | bikeshare.py:87 | A selection is an order-preserving subsequence of its input: no row is added or reordered. |
| `Filters.FirstValid` | bikeshare.py:23-27 | A prompt loop accepts the lowered form of the first answer that is in the allowed list, every earlier answer having been rejected. It yields nothing only when no answer at all is valid. |
| `Filters.ReadValid` | bikeshare.py:28-32 | The `while True` prompt loop returns exactly what `FirstValid` specifies. |
| `Filters.FirstValidAcceptsAtOnce` | bikeshare.py:45-47 | An answer is accepted at once, whatever its letter case, when its lowered form is allowed. |
| `Filters.ResolveFilters` | bikeshare.py:19-51 | The filter type is in {month, day, both, without filter, without}, the city is in {chicago, new york city, washington}, the month is in {all, january..june} and the day is in {monday..sunday, all}. The month stays 'all' unless the filter type is month or both. The day stays 'all' unless it is day or both. |
| `Filters.GetFilters` | bikeshare.py:10-51 | The four prompt loops in order (filter type, city, month when asked, day when asked) return exactly `ResolveFilters` of the answers. |
| `Filters.ResolveFiltersOnValidAnswers` | bikeshare.py:35-48 | One valid answer per prompt shown yields exactly the selection those answers name, lowered. Prompts that are not shown leave month and day at 'all'. |
| `Loader.IndexOf` | bikeshare.py:78 | `list.index` gives the first position of the name; it gives nothing (Python raises ValueError) exactly when the name is absent. |
| `Loader.MonthNumber` | bikeshare.py:77-78 | A month name maps to its 1-based position in [january..june], between 1 and 6. It maps to nothing exactly when the name is not in the list. |
| `Loader.LoadData` | bikeshare.py:74-88 | Filtering fails exactly when the month is neither 'all' nor one of the six names (the ValueError of `months.index`). Otherwise the result is no longer than the table. |
| `Loader.LoadDataExact` | bikeshare.py:75-87 | Soundness: every kept row has the selected month number and the title-cased day (each unless 'all'). Completeness: every matching row of the table is kept as often as it occurs, and no other row is kept. |
| `Loader.LoadDataIsSelect` | bikeshare.py:79-87 | The month filter followed by the day filter is one selection whose mask requires both. |
| `Loader.LoadDataIsSubsequence` | bikeshare.py:81-87 | The filtered table is an order-preserving subsequence of the loaded table. |
| `Loader.LoadDataAllIsIdentity` | bikeshare.py:75-85 | 'all' for both month and day returns the table unchanged. |
| `Loader.TitleOfLowerWord` | bikeshare.py:87 | `.title()` of a lower-case word raises its first letter and keeps the rest. |
| `Loader.TitleOfDayAnswer` | bikeshare.py:87 | Each accepted day answer, title-cased, is the weekday name in the `day_of_week` column. |
| `Session.ResolvedSelectionLoads` | bikeshare.py:211-212 | A selection from `get_filters` never makes `load_data` fail. |
| `Session.ResolvedDayIsWeekday` | bikeshare.py:211-212 | A day chosen through `get_filters`, title-cased, is one of the seven weekday names. |
| `Loader.TitleOfDayAnswerIsWeekday` | bikeshare.py:87 | Every day answer other than 'all', title-cased, is a weekday name. |
| `TimeStats.FirstMax` | bikeshare.py:122 | Returns the first key whose count is at least every other count and strictly above every earlier count. This is the tie rule of `max(dict, key=...)` at :104 and :114 and of `list.index(max(...))`. |
| `TimeStats.FirstMaxIsUnique` | bikeshare.py:104 | At most one key satisfies the first-max rule. |
| `TimeStats.CountMonths` | bikeshare.py:100-103 | The month loop yields, for each of the months 1..6 in order, the number of rows in that month. |
| `TimeStats.CountDays` | bikeshare.py:110-113 | Corrected day loop: for each of the seven weekdays in order, the number of rows with that weekday name. |
| `TimeStats.CountHours` | bikeshare.py:118-121 | The hour loop yields, for each of the hours 0..23 in order, the number of rows starting in that hour. |
| `TimeStats.KeyCountsCoverTable` | bikeshare.py:101-103 | When every row's key lies in the scanned range, the per-key counts add up to the number of rows: each row is counted under exactly one key. |
| `TimeStats.MonthCountsCoverTable` | bikeshare.py:101-103 | When every trip is in months 1..6, the six month counts add up to the number of trips. |
| `TimeStats.HourCountsCoverTable` | bikeshare.py:119-121 | When every trip starts in hours 0..23, the 24 hour counts add up to the number of trips. |
| `TimeStats.ReportTimes` | bikeshare.py:91-125 | The busiest month is reported exactly when the filter type is neither month nor both: it lies in 1..6 and is the first month with the largest count. The busiest weekday (corrected scan) is reported exactly when the filter type is neither day nor both. The busiest hour is always reported: the smallest hour whose count reaches the maximum. |
| `TimeStats.CountDaysAsWritten` | bikeshare.py:109-113 | As written, the day loop yields six counts, each of rows whose weekday name equals an integer key 0..5. |
| `TimeStats.DayCountAsWrittenIsZero` | bikeshare.py:112 | A weekday-name cell never equals an integer, so every count of the as-written day loop is 0. |
| `TimeStats.MostCommonDayAsWritten` | bikeshare.py:107-115 | As written, the day report is key 0 (Monday) whatever the table holds. |
| `TimeStats.SundayTableCounterexample` | bikeshare.py:109-114 | For a table of one Sunday trip, the corrected scan reports Sunday (6). The as-written scan finds no row for any of its keys 0..5. |
| `RawView.Page` | bikeshare.py:203 | `df.iloc[i:i+5]` holds at most five rows, is empty exactly when i is past the end, and otherwise is the rows i..i+4 that exist. |
| `RawView.ViewRawData` | bikeshare.py:199-207 | Page p is the slice starting at row 5p. Every page shown is non-empty and was asked for with "yes". Together the pages are the table's first rows, in order. A table of N rows gives at most ceil(N/5) pages. The pager stops on a non-"yes" answer or on an empty slice. Answering "yes" throughout shows the whole table in exactly ceil(N/5) pages and stops at the end of the table. |

## Findings

| source | as written | input that shows it | evidently intended | confidence | as-written member | corrected member |
|---|---|---|---|---|---|---|
| bikeshare.py:109-114 | Each day count filters on `df['day_of_week'] == i`: a column of weekday names compared with the integer i. The scan also covers only i in 0..5. Every count is therefore 0, and `max` reports key 0, printed "Monday". | A table whose trips all start on a Sunday (or all on a Tuesday): the report says Monday. | Count the rows for each of the seven weekday names, and report the first weekday with the largest count. | not executed; high (follows from Python comparing str with int as unequal) | `TimeStats.MostCommonDayAsWritten` | `TimeStats.ReportTimes` |

## Left out

- Reading the city's CSV file and the city-to-file lookup (bikeshare.py:6-8, 65) are file I/O. The model takes the loaded table as a parameter.
- Parsing `Start Time` and deriving `month`, `day_of_week` and `hour` (bikeshare.py:68-72, 120) are library calls. They are given fields of `Trip`; weekday names are taken to be the seven English names pandas writes.
- pandas' `.count()` counts non-missing cells. The model counts rows, because the derived columns have no missing values.
- Console input: the answers are a finite sequence. When the answers run out, the model returns `None` (`Filters`) or stops with `InputExhausted` (`RawView`). This one outcome stands both for the script waiting for more input at an interactive console and for an input stream that has ended, where Python's `input()` raises `EOFError`.
- `print`, `tabulate` and the elapsed-time reports (`time.time()`) are output and wall-clock time. So are the display-name dicts of `time_stats`, which only feed `print`.
- Common.Lower: does not model Unicode case mapping; only ASCII letters change case. `Common.Title` likewise.
- `station_stats`, `user_stats` (pandas `groupby(...).nunique()` ordering and label indexing) and `trip_duration_stats` (floating-point sum and mean) are left out. Their results depend on library ordering or floating point.
- `main`'s restart loop (bikeshare.py:209-221) is a console session loop. Only its hand-over from `get_filters` to `load_data` is modelled.
