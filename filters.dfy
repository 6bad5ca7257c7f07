/** The filter prompts of bikeshare.py (`get_filters`). Each prompt is a
    `while True` loop that lowers the typed answer and stops at the first one
    in its allowed list. The console is a finite sequence of answers; the
    loops read from it in order. */
module Filters {
  import opened Common

  const FILTER_TYPES: seq<string> := ["month", "day", "both", "without filter", "without"]
  const CITIES: seq<string> := ["chicago", "new york city", "washington"]
  const MONTH_CHOICES: seq<string> := ["all", "january", "february", "march", "april", "may", "june"]
  const DAY_CHOICES: seq<string> := ["monday", "tuesday", "wednesday", "thursday", "friday", "saturday", "sunday", "all"]

  /** The value a prompt loop accepted and how many answers it used up. */
  datatype Answer = Answer(value: string, used: nat)

  /** The selection `get_filters` returns: (city, month, day, filter_type). */
  datatype Selection = Selection(city: string, month: string, day: string, filterType: string)

  predicate AsksMonth(filterType: string) { filterType == "month" || filterType == "both" }

  predicate AsksDay(filterType: string) { filterType == "day" || filterType == "both" }

  /** What one prompt loop accepts: the lowered form of the first answer in
      `allowed`; every earlier answer was rejected. None: the answers ran out
      before a valid one was typed. */
  function FirstValid(answers: seq<string>, allowed: seq<string>): (r: Option<Answer>)
    ensures r.Some? ==>
      && 0 < r.value.used <= |answers|
      && r.value.value == Lower(answers[r.value.used - 1])
      && r.value.value in allowed
      && forall j :: 0 <= j < r.value.used - 1 ==> Lower(answers[j]) !in allowed
    ensures r.None? ==> forall j :: 0 <= j < |answers| ==> Lower(answers[j]) !in allowed
  {
    if answers == [] then None
    else if Lower(answers[0]) in allowed then Some(Answer(Lower(answers[0]), 1))
    else
      match FirstValid(answers[1..], allowed)
      case None => None
      case Some(a) => Some(Answer(a.value, a.used + 1))
  }

  /** One `while True` prompt loop of `get_filters`. */
  method ReadValid(answers: seq<string>, allowed: seq<string>) returns (r: Option<Answer>)
    ensures r == FirstValid(answers, allowed)
  {
    var k := 0;
    while k < |answers|
      invariant 0 <= k <= |answers|
      invariant forall j :: 0 <= j < k ==> Lower(answers[j]) !in allowed
    {
      var a := Lower(answers[k]);
      if a in allowed {
        return Some(Answer(a, k + 1));
      }
      k := k + 1;
    }
    return None;
  }

  /** A prompt that `get_filters` only shows for some filter types: when it
      is not shown, the value keeps its default 'all' and no answer is used. */
  function AskIf(ask: bool, answers: seq<string>, allowed: seq<string>): (r: Option<Answer>)
    ensures !ask ==> r == Some(Answer("all", 0))
    ensures ask ==> r == FirstValid(answers, allowed)
  {
    if ask then FirstValid(answers, allowed) else Some(Answer("all", 0))
  }

  /** The whole of `get_filters`: filter type, then city, then the month when
      the filter type asks for it, then the day when it asks for it. Every
      returned field lies in its allowed list, and month and day stay 'all'
      unless the filter type asks for them. */
  function ResolveFilters(answers: seq<string>): (r: Option<Selection>)
    ensures r.Some? ==>
      && r.value.filterType in FILTER_TYPES
      && r.value.city in CITIES
      && r.value.month in MONTH_CHOICES
      && r.value.day in DAY_CHOICES
    ensures r.Some? && !AsksMonth(r.value.filterType) ==> r.value.month == "all"
    ensures r.Some? && !AsksDay(r.value.filterType) ==> r.value.day == "all"
  {
    match FirstValid(answers, FILTER_TYPES)
    case None => None
    case Some(f) =>
      var afterFilter := answers[f.used..];
      match FirstValid(afterFilter, CITIES)
      case None => None
      case Some(c) =>
        var afterCity := afterFilter[c.used..];
        match AskIf(AsksMonth(f.value), afterCity, MONTH_CHOICES)
        case None => None
        case Some(m) =>
          var afterMonth := afterCity[m.used..];
          match AskIf(AsksDay(f.value), afterMonth, DAY_CHOICES)
          case None => None
          case Some(d) => Some(Selection(c.value, m.value, d.value, f.value))
  }

  /** `get_filters`, with its four prompt loops. */
  method GetFilters(answers: seq<string>) returns (r: Option<Selection>)
    ensures r == ResolveFilters(answers)
  {
    var f := ReadValid(answers, FILTER_TYPES);
    if f.None? { return None; }
    var rest := answers[f.value.used..];
    var c := ReadValid(rest, CITIES);
    if c.None? { return None; }
    rest := rest[c.value.used..];
    var month := "all";
    if f.value.value == "month" || f.value.value == "both" {
      var m := ReadValid(rest, MONTH_CHOICES);
      if m.None? { return None; }
      month := m.value.value;
      rest := rest[m.value.used..];
    }
    var day := "all";
    if f.value.value == "day" || f.value.value == "both" {
      var d := ReadValid(rest, DAY_CHOICES);
      if d.None? { return None; }
      day := d.value.value;
    }
    return Some(Selection(c.value.value, month, day, f.value.value));
  }

  /** The prompts accept an answer in any letter case: an allowed value typed
      as is, or with some letters raised, is accepted at once. */
  lemma {:induction false} FirstValidAcceptsAtOnce(answer: string, rest: seq<string>, allowed: seq<string>)
    requires Lower(answer) in allowed
    ensures FirstValid([answer] + rest, allowed) == Some(Answer(Lower(answer), 1))
  {
    assert ([answer] + rest)[0] == answer;
  }

  /** Completeness: one valid answer per prompt that is shown yields exactly
      the selection those answers name, lowered. */
  lemma {:induction false} ResolveFiltersOnValidAnswers(filterType: string, city: string, month: string, day: string)
    requires Lower(filterType) in FILTER_TYPES
    requires Lower(city) in CITIES
    requires AsksMonth(Lower(filterType)) ==> Lower(month) in MONTH_CHOICES
    requires AsksDay(Lower(filterType)) ==> Lower(day) in DAY_CHOICES
    ensures ResolveFilters([filterType, city]
                           + (if AsksMonth(Lower(filterType)) then [month] else [])
                           + (if AsksDay(Lower(filterType)) then [day] else []))
            == Some(Selection(Lower(city),
                              if AsksMonth(Lower(filterType)) then Lower(month) else "all",
                              if AsksDay(Lower(filterType)) then Lower(day) else "all",
                              Lower(filterType)))
  {
    var ft := Lower(filterType);
    var ms: seq<string> := if AsksMonth(ft) then [month] else [];
    var ds: seq<string> := if AsksDay(ft) then [day] else [];
    var answers := [filterType, city] + ms + ds;
    FirstValidAcceptsAtOnce(filterType, [city] + ms + ds, FILTER_TYPES);
    assert answers == [filterType] + ([city] + ms + ds);
    assert answers[1..] == [city] + (ms + ds);
    FirstValidAcceptsAtOnce(city, ms + ds, CITIES);
    assert answers[1..][1..] == ms + ds;
    if AsksMonth(ft) {
      FirstValidAcceptsAtOnce(month, ds, MONTH_CHOICES);
      assert (ms + ds)[1..] == ds;
    } else {
      assert ms + ds == ds;
    }
    if AsksDay(ft) {
      FirstValidAcceptsAtOnce(day, [], DAY_CHOICES);
      assert [day] + [] == [day];
    }
  }
}
