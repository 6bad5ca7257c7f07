/** The busiest-time report of bikeshare.py (`time_stats`): per-key row
    counts filled in by `for` loops, then the first key with the largest
    count. Python's `max(d, key=d.get)` over a dict whose keys were inserted
    in order, and `lst.index(max(lst))`, both give that first key; a dict
    with keys 1..6 is held as a sequence whose position k is key k + 1. */
module TimeStats {
  import opened Common
  import opened Loader

  // ---------------------------------------------------------------------------
  // Counts
  // ---------------------------------------------------------------------------

  /** The rows whose key is `v`, counted. */
  function KeyCount(rows: seq<Trip>, key: Trip -> int, v: int): nat
  {
    |Select(rows, (t: Trip) => key(t) == v)|
  }

  /** The counts for the keys lo, lo + 1, ..., lo + n - 1, in that order. */
  function KeyCounts(rows: seq<Trip>, key: Trip -> int, lo: int, n: nat): (c: seq<int>)
    ensures |c| == n
  {
    seq(n, k => KeyCount(rows, key, lo + k))
  }

  function MonthOf(t: Trip): int { t.month }

  function HourOf(t: Trip): int { t.hour }

  /** `df[df['month'] == m].count()['month']` */
  function MonthCount(rows: seq<Trip>, m: int): nat
  {
    KeyCount(rows, MonthOf, m)
  }

  /** Rows whose weekday name is the k-th weekday (0 is Monday). */
  function DayCount(rows: seq<Trip>, k: nat): nat
    requires k < 7
  {
    |Select(rows, (t: Trip) => t.dayOfWeek == WEEKDAY_NAMES[k])|
  }

  /** `df[df['Start Time'].dt.hour == h].count()['Start Time']` */
  function HourCount(rows: seq<Trip>, h: int): nat
  {
    KeyCount(rows, HourOf, h)
  }

  /** The month counts keyed 1..6, at positions 0..5. */
  function MonthCounts(rows: seq<Trip>): (c: seq<int>)
    ensures |c| == 6
  {
    KeyCounts(rows, MonthOf, 1, 6)
  }

  /** The day counts keyed 0..6 (Monday..Sunday). */
  function DayCounts(rows: seq<Trip>): (c: seq<int>)
    ensures |c| == 7
  {
    seq(7, k requires 0 <= k < 7 => DayCount(rows, k))
  }

  /** The hour counts keyed 0..23. */
  function HourCounts(rows: seq<Trip>): (c: seq<int>)
    ensures |c| == 24
  {
    KeyCounts(rows, HourOf, 0, 24)
  }

  function Sum(s: seq<int>): int
  {
    if s == [] then 0 else s[0] + Sum(s[1..])
  }

  lemma {:induction false} SumOfZeros(s: seq<int>)
    requires forall k :: 0 <= k < |s| ==> s[k] == 0
    ensures Sum(s) == 0
    decreases |s|
  {
    if s != [] {
      SumOfZeros(s[1..]);
    }
  }

  /** Adding one at a single position adds one to the sum. */
  lemma {:induction false} SumBump(a: seq<int>, b: seq<int>, j: int)
    requires |a| == |b| && 0 <= j < |a|
    requires forall k :: 0 <= k < |a| ==> b[k] == a[k] + (if k == j then 1 else 0)
    ensures Sum(b) == Sum(a) + 1
    decreases |a|
  {
    if j == 0 {
      assert a[1..] == b[1..];
    } else {
      SumBump(a[1..], b[1..], j - 1);
    }
  }

  /** The first row adds one to its own key's count and nothing elsewhere. */
  lemma {:induction false} KeyCountOfCons(rows: seq<Trip>, key: Trip -> int, v: int)
    requires rows != []
    ensures KeyCount(rows, key, v) == KeyCount(rows[1..], key, v) + (if key(rows[0]) == v then 1 else 0)
  {
    var keep := (t: Trip) => key(t) == v;
    assert Select(rows, keep) == if keep(rows[0]) then [rows[0]] + Select(rows[1..], keep) else Select(rows[1..], keep);
  }

  /** Every row whose key lies in lo..lo+n-1 is counted under exactly one
      key: the counts add up to the number of rows. */
  lemma {:induction false} KeyCountsCoverTable(rows: seq<Trip>, key: Trip -> int, lo: int, n: nat)
    requires forall i :: 0 <= i < |rows| ==> lo <= key(rows[i]) < lo + n
    ensures Sum(KeyCounts(rows, key, lo, n)) == |rows|
    decreases |rows|
  {
    if rows == [] {
      KeyCountsOfEmptyTable(key, lo, n);
    } else {
      KeyCountsCoverTable(rows[1..], key, lo, n);
      KeyCountsOfCons(rows, key, lo, n);
    }
  }

  lemma {:induction false} KeyCountsOfEmptyTable(key: Trip -> int, lo: int, n: nat)
    ensures Sum(KeyCounts([], key, lo, n)) == 0
  {
    var b := KeyCounts([], key, lo, n);
    forall k | 0 <= k < n
      ensures b[k] == 0
    {
      assert b[k] == KeyCount([], key, lo + k);
    }
    SumOfZeros(b);
  }

  /** Prepending a row whose key is in range adds one to the total. */
  lemma {:induction false} KeyCountsOfCons(rows: seq<Trip>, key: Trip -> int, lo: int, n: nat)
    requires rows != [] && lo <= key(rows[0]) < lo + n
    ensures Sum(KeyCounts(rows, key, lo, n)) == Sum(KeyCounts(rows[1..], key, lo, n)) + 1
  {
    var a := KeyCounts(rows[1..], key, lo, n);
    var b := KeyCounts(rows, key, lo, n);
    forall k | 0 <= k < n
      ensures b[k] == a[k] + (if k == key(rows[0]) - lo then 1 else 0)
    {
      KeyCountOfCons(rows, key, lo + k);
    }
    SumBump(a, b, key(rows[0]) - lo);
  }

  /** When every trip starts in one of the six months, each is counted under
      exactly one month. */
  lemma MonthCountsCoverTable(rows: seq<Trip>)
    requires forall i :: 0 <= i < |rows| ==> 1 <= rows[i].month <= 6
    ensures Sum(MonthCounts(rows)) == |rows|
  {
    KeyCountsCoverTable(rows, MonthOf, 1, 6);
  }

  /** Every trip starts in one of the 24 hours, so each is counted under
      exactly one hour. */
  lemma HourCountsCoverTable(rows: seq<Trip>)
    requires forall i :: 0 <= i < |rows| ==> 0 <= rows[i].hour < 24
    ensures Sum(HourCounts(rows)) == |rows|
  {
    KeyCountsCoverTable(rows, HourOf, 0, 24);
  }

  /** `k` is the first position holding the largest count. */
  predicate IsFirstMax(counts: seq<int>, k: int)
  {
    && 0 <= k < |counts|
    && (forall j :: 0 <= j < |counts| ==> counts[j] <= counts[k])
    && (forall j :: 0 <= j < k ==> counts[j] < counts[k])
  }

  /** The first-max tie rule picks one key at most. */
  lemma FirstMaxIsUnique(counts: seq<int>, k1: int, k2: int)
    requires IsFirstMax(counts, k1) && IsFirstMax(counts, k2)
    ensures k1 == k2
  {
    assert counts[k1] == counts[k2];
  }

  // ---------------------------------------------------------------------------
  // The loops of time_stats
  // ---------------------------------------------------------------------------

  /** `max(month_count, key=month_count.get)` and
      `hour_count.index(max(hour_count))`: scan the counts in key order and
      move only on a strictly larger count. */
  method FirstMax(counts: seq<int>) returns (k: nat)
    requires counts != []
    ensures IsFirstMax(counts, k)
  {
    k := 0;
    for i := 1 to |counts|
      invariant k < i
      invariant forall j :: 0 <= j < i ==> counts[j] <= counts[k]
      invariant forall j :: 0 <= j < k ==> counts[j] < counts[k]
    {
      if counts[i] > counts[k] {
        k := i;
      }
    }
  }

  /** The `for i in range(1, 7)` loop filling `month_count`. */
  method CountMonths(rows: seq<Trip>) returns (counts: seq<int>)
    ensures counts == MonthCounts(rows)
  {
    counts := [];
    for i := 0 to 6
      invariant |counts| == i
      invariant forall k :: 0 <= k < i ==> counts[k] == MonthCount(rows, k + 1)
    {
      counts := counts + [MonthCount(rows, i + 1)];
    }
  }

  /** The corrected day loop: compare the weekday-name column with each of the
      seven weekday names. */
  method CountDays(rows: seq<Trip>) returns (counts: seq<int>)
    ensures counts == DayCounts(rows)
  {
    counts := [];
    for i := 0 to 7
      invariant |counts| == i
      invariant forall k :: 0 <= k < i ==> counts[k] == DayCount(rows, k)
    {
      counts := counts + [DayCount(rows, i)];
    }
  }

  /** The `for i in range(24)` loop appending to `hour_count`. */
  method CountHours(rows: seq<Trip>) returns (counts: seq<int>)
    ensures counts == HourCounts(rows)
  {
    counts := [];
    for i := 0 to 24
      invariant |counts| == i
      invariant forall k :: 0 <= k < i ==> counts[k] == HourCount(rows, k)
    {
      counts := counts + [HourCount(rows, i)];
    }
  }

  /** What `time_stats` reports: the busiest month (1..6) unless the filter
      type fixed the month, the busiest weekday (0 is Monday) unless it fixed
      the day, and always the busiest start hour. */
  datatype TimeReport = TimeReport(month: Option<int>, day: Option<int>, hour: int)

  /** `time_stats`, with the day scan corrected. Each reported key is the first
      one whose count is the largest of its kind. */
  method ReportTimes(rows: seq<Trip>, filterType: string) returns (report: TimeReport)
    ensures report.month.Some? <==> filterType != "month" && filterType != "both"
    ensures report.month.Some? ==>
      1 <= report.month.value <= 6 && IsFirstMax(MonthCounts(rows), report.month.value - 1)
    ensures report.day.Some? <==> filterType != "day" && filterType != "both"
    ensures report.day.Some? ==> IsFirstMax(DayCounts(rows), report.day.value)
    ensures IsFirstMax(HourCounts(rows), report.hour)
  {
    var month: Option<int> := None;
    if filterType != "month" && filterType != "both" {
      var counts := CountMonths(rows);
      var k := FirstMax(counts);
      month := Some(k + 1);
    }
    var day: Option<int> := None;
    if filterType != "day" && filterType != "both" {
      var counts := CountDays(rows);
      var k := FirstMax(counts);
      day := Some(k);
    }
    var hours := CountHours(rows);
    var hour := FirstMax(hours);
    report := TimeReport(month, day, hour);
  }

  // ---------------------------------------------------------------------------
  // The day scan as written
  // ---------------------------------------------------------------------------

  /** Python's `==` between a string cell and an int: never equal. */
  function StrEqualsInt(s: string, i: int): bool
  {
    false
  }

  /** `df[df['day_of_week'] == i].count()['day_of_week']` as written: the
      weekday-name column compared with the integer `i`. */
  function DayCountAsWritten(rows: seq<Trip>, i: int): nat
  {
    |Select(rows, (t: Trip) => StrEqualsInt(t.dayOfWeek, i))|
  }

  /** The `for i in range(6)` loop filling `day_count`, as written. */
  method CountDaysAsWritten(rows: seq<Trip>) returns (counts: seq<int>)
    ensures |counts| == 6
    ensures forall k :: 0 <= k < 6 ==> counts[k] == DayCountAsWritten(rows, k)
  {
    counts := [];
    for i := 0 to 6
      invariant |counts| == i
      invariant forall k :: 0 <= k < i ==> counts[k] == DayCountAsWritten(rows, k)
    {
      counts := counts + [DayCountAsWritten(rows, i)];
    }
  }

  /** No row's weekday name equals an integer, so every count is zero. */
  lemma {:induction false} DayCountAsWrittenIsZero(rows: seq<Trip>, i: int)
    ensures DayCountAsWritten(rows, i) == 0
  {
    SelectNone(rows, (t: Trip) => StrEqualsInt(t.dayOfWeek, i));
  }

  /** The day report of `time_stats` as written: whatever the table holds, it
      is key 0, printed as Monday. */
  method MostCommonDayAsWritten(rows: seq<Trip>) returns (day: int)
    ensures day == 0
  {
    var counts := CountDaysAsWritten(rows);
    var k := FirstMax(counts);
    if k > 0 {
      DayCountAsWrittenIsZero(rows, 0);
      DayCountAsWrittenIsZero(rows, k);
      assert false;
    }
    day := k;
  }

  /** A table whose trips all start on a Sunday: the corrected scan reports
      Sunday (6), while the scan as written finds no row for any key and
      reports Monday (0); it never looks at key 6 at all. */
  lemma SundayTableCounterexample()
    ensures var rows := [Trip(0, 1, "Sunday", 8)];
      && IsFirstMax(DayCounts(rows), 6)
      && (forall i :: 0 <= i < 6 ==> DayCountAsWritten(rows, i) == 0)
  {
    var rows := [Trip(0, 1, "Sunday", 8)];
    forall k | 0 <= k < 7
      ensures DayCount(rows, k) == if k == 6 then 1 else 0
    {
      assert rows == [rows[0]] + [];
    }
    forall i | 0 <= i < 6
      ensures DayCountAsWritten(rows, i) == 0
    {
      DayCountAsWrittenIsZero(rows, i);
    }
  }
}
