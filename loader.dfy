/** The month and day filtering of bikeshare.py (`load_data`). The table is
    handed over already read and with its derived columns present: each trip
    carries the calendar month (1-12), the weekday name pandas gives it
    ("Monday" ... "Sunday") and the start hour. */
module Loader {
  import opened Common

  /** One row of a city's table. `id` stands for the row identifier and the
      columns the filtering does not look at. */
  datatype Trip = Trip(id: int, month: int, dayOfWeek: string, hour: int)

  /** The month list `load_data` indexes into. */
  const MONTH_NAMES: seq<string> := ["january", "february", "march", "april", "may", "june"]

  /** The weekday names pandas writes into the `day_of_week` column. */
  const WEEKDAY_NAMES: seq<string> := ["Monday", "Tuesday", "Wednesday", "Thursday", "Friday", "Saturday", "Sunday"]

  /** The day answers `get_filters` accepts, other than 'all', in week order. */
  const DAY_ANSWERS: seq<string> := ["monday", "tuesday", "wednesday", "thursday", "friday", "saturday", "sunday"]

  /** `months.index(month)` raises ValueError for a name outside the list. */
  datatype LoadError = UnknownMonth(name: string)

  datatype Result<+T> = Ok(value: T) | Err(error: LoadError)

  /** Python's `list.index`: the first position of `x`, or None where
      Python raises ValueError. */
  function IndexOf(s: seq<string>, x: string): (r: Option<nat>)
    ensures r.Some? ==> r.value < |s| && s[r.value] == x && x !in s[..r.value]
    ensures r.None? <==> x !in s
  {
    if s == [] then None
    else if s[0] == x then Some(0)
    else
      match IndexOf(s[1..], x)
      case None => None
      case Some(i) =>
        assert s[..i + 1] == [s[0]] + s[1..][..i];
        Some(i + 1)
  }

  /** `months.index(month) + 1`: the 1-based month number of a month name. */
  function MonthNumber(month: string): (r: Option<int>)
    ensures r.Some? <==> month in MONTH_NAMES
    ensures r.Some? ==> 1 <= r.value <= 6 && MONTH_NAMES[r.value - 1] == month
  {
    match IndexOf(MONTH_NAMES, month)
    case None => None
    case Some(i) => Some(i + 1)
  }

  /** `df[df['month'] == month]` */
  function InMonth(rows: seq<Trip>, month: int): (r: seq<Trip>)
  {
    Select(rows, (t: Trip) => t.month == month)
  }

  /** `df[df['day_of_week'] == day.title()]` */
  function OnDay(rows: seq<Trip>, day: string): (r: seq<Trip>)
  {
    Select(rows, (t: Trip) => t.dayOfWeek == Title(day))
  }

  /** `load_data` after the table is read: narrow to the month unless it is
      'all', then to the day unless it is 'all'. */
  function LoadData(table: seq<Trip>, month: string, day: string): (r: Result<seq<Trip>>)
    ensures r.Err? <==> month != "all" && month !in MONTH_NAMES
    ensures r.Ok? ==> |r.value| <= |table|
  {
    if month != "all" && MonthNumber(month).None? then Err(UnknownMonth(month))
    else
      var byMonth := if month == "all" then table else InMonth(table, MonthNumber(month).value);
      Ok(if day == "all" then byMonth else OnDay(byMonth, day))
  }

  /** The month half of the `load_data` mask. */
  predicate InSelectedMonth(t: Trip, month: string)
    requires month == "all" || month in MONTH_NAMES
  {
    month != "all" ==> t.month == MonthNumber(month).value
  }

  /** The day half of the `load_data` mask. */
  predicate OnSelectedDay(t: Trip, day: string)
  {
    day != "all" ==> t.dayOfWeek == Title(day)
  }

  /** Whether `load_data` keeps a row: its month is the selected month's number
      and its weekday name is the title-cased day, each unless 'all'. */
  predicate Kept(t: Trip, month: string, day: string)
    requires month == "all" || month in MONTH_NAMES
  {
    InSelectedMonth(t, month) && OnSelectedDay(t, day)
  }

  /** Filter soundness and completeness: every row `load_data` keeps matches
      the filters, and every row of the table that matches them is kept, as
      many times as it occurs. */
  lemma LoadDataExact(table: seq<Trip>, month: string, day: string)
    requires month == "all" || month in MONTH_NAMES
    ensures LoadData(table, month, day).Ok?
    ensures forall i :: 0 <= i < |LoadData(table, month, day).value| ==>
              Kept(LoadData(table, month, day).value[i], month, day)
    ensures forall t :: multiset(LoadData(table, month, day).value)[t] ==
              if Kept(t, month, day) then multiset(table)[t] else 0
  {
  }

  lemma {:induction false} MonthStepIsSelect(table: seq<Trip>, month: string)
    requires month == "all" || month in MONTH_NAMES
    ensures (if month == "all" then table else InMonth(table, MonthNumber(month).value))
            == Select(table, (t: Trip) => InSelectedMonth(t, month))
  {
    if month == "all" {
      SelectAll(table, (t: Trip) => InSelectedMonth(t, month));
    } else {
      SelectSameMask(table, (t: Trip) => t.month == MonthNumber(month).value, (t: Trip) => InSelectedMonth(t, month));
    }
  }

  lemma {:induction false} DayStepIsSelect(rows: seq<Trip>, day: string)
    ensures (if day == "all" then rows else OnDay(rows, day)) == Select(rows, (t: Trip) => OnSelectedDay(t, day))
  {
    if day == "all" {
      SelectAll(rows, (t: Trip) => OnSelectedDay(t, day));
    } else {
      SelectSameMask(rows, (t: Trip) => t.dayOfWeek == Title(day), (t: Trip) => OnSelectedDay(t, day));
    }
  }

  /** `load_data` is one selection over the table with the `Kept` mask. */
  lemma {:induction false} LoadDataIsSelect(table: seq<Trip>, month: string, day: string)
    requires month == "all" || month in MONTH_NAMES
    ensures LoadData(table, month, day) == Ok(Select(table, (t: Trip) => Kept(t, month, day)))
  {
    var inMonth := (t: Trip) => InSelectedMonth(t, month);
    var onDay := (t: Trip) => OnSelectedDay(t, day);
    var byMonth := if month == "all" then table else InMonth(table, MonthNumber(month).value);
    assert LoadData(table, month, day) == Ok(if day == "all" then byMonth else OnDay(byMonth, day));
    MonthStepIsSelect(table, month);
    assert byMonth == Select(table, inMonth);
    DayStepIsSelect(byMonth, day);
    assert LoadData(table, month, day) == Ok(Select(byMonth, onDay));
    SelectSelect(table, inMonth, onDay, (t: Trip) => Kept(t, month, day));
  }

  /** Filtering never adds or reorders rows: the result is an order-preserving
      subsequence of the table. */
  lemma {:induction false} LoadDataIsSubsequence(table: seq<Trip>, month: string, day: string)
    requires month == "all" || month in MONTH_NAMES
    ensures IsSubsequence(LoadData(table, month, day).value, table)
  {
    LoadDataIsSelect(table, month, day);
    SelectIsSubsequence(table, (t: Trip) => Kept(t, month, day));
  }

  /** With 'all' for both the month and the day the table comes back as it is. */
  lemma {:induction false} LoadDataAllIsIdentity(table: seq<Trip>)
    ensures LoadData(table, "all", "all") == Ok(table)
  {
  }

  /** A word of lower-case letters, title-cased, has its first letter raised
      and the rest kept. */
  lemma {:induction false} TitleOfLowerWord(w: string)
    requires w != []
    requires forall i :: 0 <= i < |w| ==> IsLower(w[i])
    ensures Title(w) == [UpperChar(w[0])] + w[1..]
  {
    LowerLettersStayAfterLetter(w[1..]);
  }

  lemma {:induction false} LowerLettersStayAfterLetter(w: string)
    requires forall i :: 0 <= i < |w| ==> IsLower(w[i])
    ensures TitleFrom(w, true) == w
    decreases |w|
  {
    if w != [] {
      LowerLettersStayAfterLetter(w[1..]);
      assert w == [w[0]] + w[1..];
    }
  }

  /** `day.title()` turns each lower-case day answer into the weekday name
      pandas writes, so the day filter compares like with like. */
  lemma {:induction false} TitleOfDayAnswer(k: int)
    requires 0 <= k < 7
    ensures Title(DAY_ANSWERS[k]) == WEEKDAY_NAMES[k]
  {
    var w := DAY_ANSWERS[k];
    DayAnswerIsLowerWord(k);
    TitleOfLowerWord(w);
  }

  /** Every accepted day answer other than 'all', title-cased, is a weekday
      name. */
  lemma {:induction false} TitleOfDayAnswerIsWeekday(day: string)
    requires day in DAY_ANSWERS
    ensures Title(day) in WEEKDAY_NAMES
  {
    var k :| 0 <= k < |DAY_ANSWERS| && DAY_ANSWERS[k] == day;
    TitleOfDayAnswer(k);
  }

  lemma {:induction false} DayAnswerIsLowerWord(k: int)
    requires 0 <= k < 7
    ensures DAY_ANSWERS[k] != []
    ensures forall i :: 0 <= i < |DAY_ANSWERS[k]| ==> IsLower(DAY_ANSWERS[k][i])
    ensures WEEKDAY_NAMES[k] == [UpperChar(DAY_ANSWERS[k][0])] + DAY_ANSWERS[k][1..]
  {
  }
}
