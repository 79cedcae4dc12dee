/** The date handling of the static dashboard (web/js/app.js): the sorted
    list of available dates, clamping an input into their span, the dates
    of a range, the default range and the guard before a range is shown.
    Dates are the "YYYY-MM-DD" keys of the metrics JSON, compared as
    strings. */
module Dashboard {
  import opened Wrappers
  import opened Text
  import opened Seqs
  import opened StableSort
  import OrderedMap

  datatype StationTotal = StationTotal(station: string, total: Option<int>)
  datatype RouteCount = RouteCount(startStation: string, endStation: string, rides: Option<int>)

  /** One entry of the `days` object, reduced to the fields the range view
      aggregates: `bike_rentals_histogram`, `busiest_stations_top5` and
      `top_routes_top5`, each possibly missing. */
  datatype DayMetrics = DayMetrics(
    histogram: Option<map<string, int>>,
    busiestStations: Option<seq<StationTotal>>,
    topRoutes: Option<seq<RouteCount>>)

  /** The `days` object: a JSON object, so its keys are distinct and keep
      their order. */
  type Days = OrderedMap.OMap<string, DayMetrics>

  /** Every date of the list has an entry in `days`: the dates the view
      works on are always keys of the `days` object. */
  ghost predicate AllKnown(days: map<string, DayMetrics>, dates: seq<string>)
  {
    forall i :: 0 <= i < |dates| ==> dates[i] in days
  }

  lemma LexLeTotalPreorder()
    ensures TotalPreorder(LexLe)
  {
    forall a, b ensures LexLe(a, b) || LexLe(b, a) {
      LexLeTotal(a, b);
    }
    forall a, b, c | LexLe(a, b) && LexLe(b, c) ensures LexLe(a, c) {
      LexLeTransitive(a, b, c);
    }
  }

  /** `state.dates = Object.keys(json.days || {}).sort()`. */
  function LoadDates(days: Option<Days>): seq<string>
  {
    match days
    case None => []
    case Some(d) => SortBy(d.keys, LexLe)
  }

  /** The stored dates are exactly the days' keys, in strictly increasing
      order. */
  lemma LoadedDatesAscending(days: Option<Days>)
    requires days.Some? ==> days.value.Valid()
    ensures SortedBy(LoadDates(days), LexLt)
    ensures forall d :: d in LoadDates(days) <==> days.Some? && d in days.value.vals
  {
    if days.Some? {
      var keys := days.value.keys;
      var r := LoadDates(days);
      LexLeTotalPreorder();
      SortBySorted(keys, LexLe);
      SortByDistinct(keys, LexLe);
      forall i, j | 0 <= i < j < |r| ensures LexLt(r[i], r[j]) {
        LexLtIsStrict(r[i], r[j]);
      }
      forall d ensures d in r <==> d in days.value.vals {
        assert d in r <==> d in multiset(r);
        assert d in keys <==> d in multiset(keys);
      }
    }
  }

  /** `clampDate(s, min, max)`. */
  function ClampDate(s: string, min: string, max: string): (r: string)
    ensures r == s || r == min || r == max
  {
    if LexLt(s, min) then min else if LexLt(max, s) then max else s
  }

  /** A clamped date lies in [min, max] whenever that span is not empty, a
      date already inside is left alone, a date before the span becomes
      `min` and a date after it becomes `max`. */
  lemma {:induction false} ClampDateWithin(s: string, min: string, max: string)
    ensures LexLe(min, max) ==> LexLe(min, ClampDate(s, min, max)) && LexLe(ClampDate(s, min, max), max)
    ensures LexLe(min, s) && LexLe(s, max) ==> ClampDate(s, min, max) == s
    ensures LexLt(s, min) ==> ClampDate(s, min, max) == min
    ensures LexLe(min, s) && LexLt(max, s) ==> ClampDate(s, min, max) == max
  {
    LexLeReflexive(min);
    LexLeReflexive(max);
  }

  predicate InWindow(start: string, end: string, d: string)
  {
    LexLe(start, d) && LexLe(d, end)
  }

  function Window(start: string, end: string): string -> bool
  {
    d => InWindow(start, end, d)
  }

  /** `filterDatesInRange(start, end)` over the stored dates. */
  function FilterDatesInRange(dates: seq<string>, start: string, end: string): seq<string>
  {
    Filter(dates, Window(start, end))
  }

  /** The dates of a range are exactly the stored dates between its ends,
      both included, in the stored order. */
  lemma FilterDatesInRangeSpec(dates: seq<string>, start: string, end: string)
    ensures forall d :: d in FilterDatesInRange(dates, start, end) <==> d in dates && LexLe(start, d) && LexLe(d, end)
    ensures IsSubsequence(FilterDatesInRange(dates, start, end), dates)
    ensures SortedBy(dates, LexLt) ==> SortedBy(FilterDatesInRange(dates, start, end), LexLt)
  {
    forall d ensures d in FilterDatesInRange(dates, start, end) <==> d in dates && InWindow(start, end, d) {
      FilterMembers(dates, Window(start, end), d);
    }
    FilterIsSubsequence(dates, Window(start, end));
    if SortedBy(dates, LexLt) {
      FilterKeepsSorted(dates, Window(start, end), LexLt);
    }
  }

  /** The range inputs' initial values: the date seven entries from the end
      (or the first) and the last date; nothing when there are no dates. */
  function DefaultRange(dates: seq<string>): Option<(string, string)>
  {
    if dates == [] then None
    else Some((dates[if |dates| > 7 then |dates| - 7 else 0], dates[|dates| - 1]))
  }

  /** Over strictly increasing dates the default range covers exactly the
      last seven dates, or all of them when there are fewer. */
  lemma {:induction false} DefaultRangeIsLastWeek(dates: seq<string>)
    requires dates != [] && SortedBy(dates, LexLt)
    ensures var (start, end) := DefaultRange(dates).value;
      FilterDatesInRange(dates, start, end) == dates[if |dates| > 7 then |dates| - 7 else 0..]
  {
    var k := if |dates| > 7 then |dates| - 7 else 0;
    var keep := Window(dates[k], dates[|dates| - 1]);
    assert dates == dates[..k] + dates[k..];
    FilterAppend(dates[..k], dates[k..], keep);
    EarlierOutside(dates, k);
    WeekInside(dates, k);
  }

  lemma {:induction false} EarlierOutside(dates: seq<string>, k: nat)
    requires k < |dates| && SortedBy(dates, LexLt)
    ensures Filter(dates[..k], Window(dates[k], dates[|dates| - 1])) == []
  {
    var keep := Window(dates[k], dates[|dates| - 1]);
    var before := dates[..k];
    forall i | 0 <= i < |before| ensures !keep(before[i]) {
      assert LexLt(dates[i], dates[k]);
    }
    FilterNone(before, keep);
  }

  lemma {:induction false} WeekInside(dates: seq<string>, k: nat)
    requires k < |dates| && SortedBy(dates, LexLt)
    ensures Filter(dates[k..], Window(dates[k], dates[|dates| - 1])) == dates[k..]
  {
    var keep := Window(dates[k], dates[|dates| - 1]);
    var week := dates[k..];
    forall i | 0 <= i < |week| ensures keep(week[i]) {
      WeekDayInWindow(dates, k, k + i);
    }
    FilterAll(week, keep);
  }

  lemma {:induction false} WeekDayInWindow(dates: seq<string>, k: nat, j: nat)
    requires k <= j < |dates| && SortedBy(dates, LexLt)
    ensures InWindow(dates[k], dates[|dates| - 1], dates[j])
  {
    var d := dates[j];
    if k < j {
      LexLtIsStrict(dates[k], d);
    } else {
      LexLeReflexive(d);
    }
    if j < |dates| - 1 {
      LexLtIsStrict(d, dates[|dates| - 1]);
    } else {
      LexLeReflexive(d);
    }
  }

  /** The range inputs' `change` handler: both values are clamped into the
      stored dates' span, and the view is updated with them only when both
      are non-empty and the start is not after the end. */
  function RangeUpdate(startValue: string, endValue: string, min: string, max: string): Option<(string, string)>
  {
    var s := ClampDate(startValue, min, max);
    var e := ClampDate(endValue, min, max);
    if s != "" && e != "" && LexLe(s, e) then Some((s, e)) else None
  }

  /** An update is always for an ordered range inside the stored span, and
      a non-empty ordered range inside the span is shown as chosen. */
  lemma {:induction false} RangeUpdateSpec(startValue: string, endValue: string, min: string, max: string)
    requires LexLe(min, max)
    ensures RangeUpdate(startValue, endValue, min, max).Some? ==>
              var (s, e) := RangeUpdate(startValue, endValue, min, max).value;
              LexLe(min, s) && LexLe(s, e) && LexLe(e, max)
    ensures startValue != "" && LexLe(min, startValue) && LexLe(startValue, endValue) && LexLe(endValue, max) ==>
              RangeUpdate(startValue, endValue, min, max) == Some((startValue, endValue))
  {
    ClampDateWithin(startValue, min, max);
    ClampDateWithin(endValue, min, max);
    if startValue != "" && LexLe(min, startValue) && LexLe(startValue, endValue) && LexLe(endValue, max) {
      assert endValue != "";
      LexLeTransitive(min, startValue, endValue);
      LexLeTransitive(startValue, endValue, max);
      ClampDateWithin(startValue, min, max);
      ClampDateWithin(endValue, min, max);
    }
  }

  /** On load the default range is shown at once: it passes the guard. */
  lemma {:induction false} DefaultRangeIsShown(dates: seq<string>)
    requires dates != [] && dates[0] != "" && SortedBy(dates, LexLt)
    ensures var (start, end) := DefaultRange(dates).value;
      RangeUpdate(start, end, dates[0], dates[|dates| - 1]) == Some((start, end))
  {
    var k := if |dates| > 7 then |dates| - 7 else 0;
    var n := |dates| - 1;
    var (start, end) := DefaultRange(dates).value;
    LexLeReflexive(dates[0]);
    LexLeReflexive(dates[n]);
    if 0 < k {
      LexLtIsStrict(dates[0], dates[k]);
    }
    if k < n {
      LexLtIsStrict(dates[k], dates[n]);
    }
    assert LexLe(dates[0], dates[n]) by {
      if 0 < n {
        LexLtIsStrict(dates[0], dates[n]);
      }
    }
    RangeUpdateSpec(start, end, dates[0], dates[n]);
  }
}
