/** How `main` in bikeshare.py hands the answers of `get_filters` to
    `load_data`. */
module Session {
  import opened Common
  import opened Filters
  import opened Loader

  /** A selection `get_filters` returns never makes `load_data` raise: its
      month is 'all' or one of the six month names. */
  lemma {:induction false} ResolvedSelectionLoads(answers: seq<string>, table: seq<Trip>)
    requires ResolveFilters(answers).Some?
    ensures LoadData(table, ResolveFilters(answers).value.month, ResolveFilters(answers).value.day).Ok?
  {
    var sel := ResolveFilters(answers).value;
    assert MONTH_CHOICES == ["all"] + MONTH_NAMES;
    assert sel.month == "all" || sel.month in MONTH_NAMES;
  }

  /** A day chosen through `get_filters`, title-cased, is one of the weekday
      names pandas writes, so the day filter of `load_data` can match rows. */
  lemma {:induction false} ResolvedDayIsWeekday(answers: seq<string>)
    requires ResolveFilters(answers).Some?
    ensures ResolveFilters(answers).value.day != "all" ==>
              Title(ResolveFilters(answers).value.day) in WEEKDAY_NAMES
  {
    var sel := ResolveFilters(answers).value;
    if sel.day != "all" {
      assert DAY_CHOICES == DAY_ANSWERS + ["all"];
      assert sel.day in DAY_ANSWERS;
      TitleOfDayAnswerIsWeekday(sel.day);
    }
  }
}
