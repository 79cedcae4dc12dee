/** `aggregateBusiestStations` and `aggregateTopRoutes` of web/js/app.js:
    per-day top lists summed over the dates of a range into a `Map`, then
    ordered by total, largest first, and cut to the first `topN`. */
module DashboardTop {
  import opened Wrappers
  import opened Seqs
  import opened StableSort
  import OrderedMap
  import opened Dashboard

  /** One contribution to a total: a station or route key and an amount. */
  datatype Tally = Tally(key: string, amount: int)

  /** The `Map` from key to running total, in first-insertion order. */
  type Totals = OrderedMap.OMap<string, int>

  /** A station entry adds its `total`, a missing one counting as 0. */
  function StationTally(s: StationTotal): Tally
  {
    Tally(s.station, if s.total.Some? then s.total.value else 0)
  }

  /** `keyOf`: a route is keyed by "<start> → <end>". */
  function RouteKey(r: RouteCount): string
  {
    r.startStation + " → " + r.endStation
  }

  /** A route entry adds its `rides`, a missing one counting as 0. */
  function RouteTally(r: RouteCount): Tally
  {
    Tally(RouteKey(r), if r.rides.Some? then r.rides.value else 0)
  }

  function StationTallies(list: seq<StationTotal>): (ts: seq<Tally>)
    ensures |ts| == |list|
  {
    if list == [] then [] else StationTallies(list[..|list| - 1]) + [StationTally(list[|list| - 1])]
  }

  function RouteTallies(list: seq<RouteCount>): (ts: seq<Tally>)
    ensures |ts| == |list|
  {
    if list == [] then [] else RouteTallies(list[..|list| - 1]) + [RouteTally(list[|list| - 1])]
  }

  /** A day's `busiest_stations_top5`, or nothing when it is missing. */
  function StationTalliesOf(day: DayMetrics): seq<Tally>
  {
    StationTallies(if day.busiestStations.Some? then day.busiestStations.value else [])
  }

  /** A day's `top_routes_top5`, or nothing when it is missing. */
  function RouteTalliesOf(day: DayMetrics): seq<Tally>
  {
    RouteTallies(if day.topRoutes.Some? then day.topRoutes.value else [])
  }

  /** The contributions of all dates of the range, date by date. */
  function RangeTallies(days: map<string, DayMetrics>, dates: seq<string>, of: DayMetrics -> seq<Tally>): seq<Tally>
    requires AllKnown(days, dates)
  {
    if dates == [] then []
    else RangeTallies(days, dates[..|dates| - 1], of) + of(days[dates[|dates| - 1]])
  }

  /** `map.set(key, (map.get(key) || 0) + amount)`. */
  function Add(m: Totals, t: Tally): Totals
  {
    OrderedMap.Put(m, t.key, (if t.key in m.vals then m.vals[t.key] else 0) + t.amount)
  }

  /** `m` after adding the contributions in order. */
  function AddAll(m: Totals, ts: seq<Tally>): Totals
  {
    if ts == [] then m else Add(AddAll(m, ts[..|ts| - 1]), ts[|ts| - 1])
  }

  /** Adding keeps every key once. */
  lemma {:induction false} AddAllValid(m: Totals, ts: seq<Tally>)
    requires m.Valid()
    ensures AddAll(m, ts).Valid()
  {
    if ts != [] {
      var m0, t := AddAll(m, ts[..|ts| - 1]), ts[|ts| - 1];
      AddAllValid(m, ts[..|ts| - 1]);
      OrderedMap.PutValid(m0, t.key, (if t.key in m0.vals then m0.vals[t.key] else 0) + t.amount);
    }
  }

  /** The `Map` after all contributions, starting from `new Map()`. */
  function Accumulate(ts: seq<Tally>): (m: Totals)
    ensures m.Valid()
  {
    AddAllValid(OrderedMap.Empty(), ts);
    AddAll(OrderedMap.Empty(), ts)
  }

  /** The sum of the amounts contributed to `key`. */
  function SumFor(ts: seq<Tally>, key: string): int
  {
    if ts == [] then 0
    else SumFor(ts[..|ts| - 1], key) + (if ts[|ts| - 1].key == key then ts[|ts| - 1].amount else 0)
  }

  ghost predicate Mentions(ts: seq<Tally>, key: string)
  {
    exists i :: 0 <= i < |ts| && ts[i].key == key
  }

  /** The order of `sort((a, b) => b[1] - a[1])`: `a` may come before `b`
      when its total is at least `b`'s. The sort is stable. */
  predicate AtLeast(a: (string, int), b: (string, int))
  {
    b.1 <= a.1
  }

  /** `[...map.entries()].sort((a, b) => b[1] - a[1])`. */
  function Ranked(m: Totals): seq<(string, int)>
    requires m.Valid()
  {
    SortBy(OrderedMap.Items(m), AtLeast)
  }

  /** The ranked entries followed by `.slice(0, topN)`. */
  function TopOf(ts: seq<Tally>, topN: nat): seq<(string, int)>
  {
    var sorted := Ranked(Accumulate(ts));
    sorted[..if topN < |sorted| then topN else |sorted|]
  }

  /** The inner `forEach` of `aggregateBusiestStations`: one day's station entries added
      to the running totals. */
  method AddStationTotals(totals: Totals, list: seq<StationTotal>) returns (m: Totals)
    ensures m == AddAll(totals, StationTallies(list))
  {
    m := totals;
    ghost var ts := StationTallies(list);
    for j := 0 to |list|
      invariant m == AddAll(totals, ts[..j])
    {
      var s := list[j];
      var key := s.station;
      var cur := if key in m.vals then m.vals[key] else 0;
      StationTallyAt(list, j);
      AddAllStep(totals, ts, j);
      m := OrderedMap.Put(m, key, cur + (if s.total.Some? then s.total.value else 0));
    }
    assert ts[..|list|] == ts;
  }

  method AggregateBusiestStations(days: map<string, DayMetrics>, dates: seq<string>, topN: nat) returns (top: seq<(string, int)>)
    requires AllKnown(days, dates)
    ensures top == TopOf(RangeTallies(days, dates, StationTalliesOf), topN)
  {
    var totals: Totals := OrderedMap.Empty();
    ghost var seen: seq<Tally> := [];
    for k := 0 to |dates|
      invariant seen == RangeTallies(days, dates[..k], StationTalliesOf)
      invariant totals == AddAll(OrderedMap.Empty(), seen)
    {
      var day := days[dates[k]];
      var list := if day.busiestStations.Some? then day.busiestStations.value else [];
      RangeTalliesStep(days, dates, k, StationTalliesOf);
      assert StationTalliesOf(day) == StationTallies(list);
      AddAllAppend(OrderedMap.Empty(), seen, StationTallies(list));
      totals := AddStationTotals(totals, list);
      seen := seen + StationTallies(list);
    }
    assert dates[..|dates|] == dates;
    assert totals == Accumulate(seen);
    var sorted := Ranked(totals);
    top := sorted[..if topN < |sorted| then topN else |sorted|];
  }

  /** The inner `forEach` of `aggregateTopRoutes`: one day's route entries added
      to the running totals. */
  method AddRouteCounts(totals: Totals, list: seq<RouteCount>) returns (m: Totals)
    ensures m == AddAll(totals, RouteTallies(list))
  {
    m := totals;
    ghost var ts := RouteTallies(list);
    for j := 0 to |list|
      invariant m == AddAll(totals, ts[..j])
    {
      var r := list[j];
      var key := r.startStation + " → " + r.endStation;
      var cur := if key in m.vals then m.vals[key] else 0;
      RouteTallyAt(list, j);
      AddAllStep(totals, ts, j);
      m := OrderedMap.Put(m, key, cur + (if r.rides.Some? then r.rides.value else 0));
    }
    assert ts[..|list|] == ts;
  }

  method AggregateTopRoutes(days: map<string, DayMetrics>, dates: seq<string>, topN: nat) returns (top: seq<(string, int)>)
    requires AllKnown(days, dates)
    ensures top == TopOf(RangeTallies(days, dates, RouteTalliesOf), topN)
  {
    var totals: Totals := OrderedMap.Empty();
    ghost var seen: seq<Tally> := [];
    for k := 0 to |dates|
      invariant seen == RangeTallies(days, dates[..k], RouteTalliesOf)
      invariant totals == AddAll(OrderedMap.Empty(), seen)
    {
      var day := days[dates[k]];
      var list := if day.topRoutes.Some? then day.topRoutes.value else [];
      RangeTalliesStep(days, dates, k, RouteTalliesOf);
      assert RouteTalliesOf(day) == RouteTallies(list);
      AddAllAppend(OrderedMap.Empty(), seen, RouteTallies(list));
      totals := AddRouteCounts(totals, list);
      seen := seen + RouteTallies(list);
    }
    assert dates[..|dates|] == dates;
    assert totals == Accumulate(seen);
    var sorted := Ranked(totals);
    top := sorted[..if topN < |sorted| then topN else |sorted|];
  }

  lemma RangeTalliesStep(days: map<string, DayMetrics>, dates: seq<string>, k: nat, of: DayMetrics -> seq<Tally>)
    requires AllKnown(days, dates) && k < |dates|
    ensures RangeTallies(days, dates[..k + 1], of) == RangeTallies(days, dates[..k], of) + of(days[dates[k]])
  {
    assert dates[..k + 1][..k] == dates[..k];
  }

  lemma {:induction false} AddAllAppend(m: Totals, a: seq<Tally>, b: seq<Tally>)
    ensures AddAll(m, a + b) == AddAll(AddAll(m, a), b)
  {
    if b == [] {
      assert a + b == a;
    } else {
      var init := b[..|b| - 1];
      AddAllAppend(m, a, init);
      assert (a + b)[..|a + b| - 1] == a + init;
    }
  }

  lemma AddAllStep(m: Totals, ts: seq<Tally>, j: nat)
    requires j < |ts|
    ensures AddAll(m, ts[..j + 1]) == Add(AddAll(m, ts[..j]), ts[j])
  {
    assert ts[..j + 1][..j] == ts[..j];
  }

  lemma {:induction false} StationTallyAt(list: seq<StationTotal>, j: nat)
    requires j < |list|
    ensures StationTallies(list)[j] == StationTally(list[j])
  {
    if j < |list| - 1 {
      StationTallyAt(list[..|list| - 1], j);
    }
  }

  lemma {:induction false} RouteTallyAt(list: seq<RouteCount>, j: nat)
    requires j < |list|
    ensures RouteTallies(list)[j] == RouteTally(list[j])
  {
    if j < |list| - 1 {
      RouteTallyAt(list[..|list| - 1], j);
    }
  }

  /** The `Map` holds exactly the mentioned keys, each with the sum of its
      amounts (`map.get(key) || 0` is that sum for every key). */
  lemma {:induction false} AccumulateIsSums(ts: seq<Tally>, key: string)
    ensures key in Accumulate(ts).vals <==> Mentions(ts, key)
    ensures (if key in Accumulate(ts).vals then Accumulate(ts).vals[key] else 0) == SumFor(ts, key)
  {
    if ts != [] {
      var init, t := ts[..|ts| - 1], ts[|ts| - 1];
      AccumulateIsSums(init, key);
      if Mentions(ts, key) && t.key != key {
        var i :| 0 <= i < |ts| && ts[i].key == key;
        assert init[i].key == key;
      }
      if Mentions(init, key) {
        var i :| 0 <= i < |init| && init[i].key == key;
        assert ts[i].key == key;
      }
    }
  }

  lemma AtLeastTotalPreorder()
    ensures TotalPreorder(AtLeast)
  {
  }

  lemma ItemsDistinctKeys(m: Totals)
    requires m.Valid()
    ensures forall i, j :: 0 <= i < j < |OrderedMap.Items(m)| ==> OrderedMap.Items(m)[i].0 != OrderedMap.Items(m)[j].0
  {
  }

  lemma {:induction false} RankedFromItems(m: Totals, i: nat)
    requires m.Valid() && i < |Ranked(m)|
    ensures exists p :: 0 <= p < |m.keys| && Ranked(m)[i] == OrderedMap.Items(m)[p]
  {
    var entries := OrderedMap.Items(m);
    assert Ranked(m)[i] in multiset(Ranked(m));
    assert Ranked(m)[i] in multiset(entries);
    assert Ranked(m)[i] in entries;
  }

  /** The ranked entries are the `Map`'s entries, each key once, largest
      total first. */
  lemma {:induction false} RankedEntries(m: Totals)
    requires m.Valid()
    ensures |Ranked(m)| == |m.keys|
    ensures SortedBy(Ranked(m), AtLeast)
    ensures forall i :: 0 <= i < |Ranked(m)| ==> Ranked(m)[i].0 in m.vals && Ranked(m)[i].1 == m.vals[Ranked(m)[i].0]
    ensures forall i, j :: 0 <= i < j < |Ranked(m)| ==> Ranked(m)[i].0 != Ranked(m)[j].0
    ensures forall key :: key in m.vals ==> (key, m.vals[key]) in multiset(Ranked(m))
  {
    var entries := OrderedMap.Items(m);
    var sorted := Ranked(m);
    AtLeastTotalPreorder();
    SortBySorted(entries, AtLeast);
    ItemsDistinctKeys(m);
    forall i | 0 <= i < |sorted|
      ensures sorted[i].0 in m.vals && sorted[i].1 == m.vals[sorted[i].0]
    {
      RankedFromItems(m, i);
    }
    forall i, j | 0 <= i < j < |sorted| ensures sorted[i].0 != sorted[j].0 {
      RankedDistinctKeys(m, i, j);
    }
    forall key | key in m.vals ensures (key, m.vals[key]) in multiset(sorted) {
      var p :| 0 <= p < |m.keys| && m.keys[p] == key;
      assert entries[p] in multiset(entries);
    }
  }

  lemma {:induction false} RankedDistinctKeys(m: Totals, i: nat, j: nat)
    requires m.Valid() && i < j < |Ranked(m)|
    ensures Ranked(m)[i].0 != Ranked(m)[j].0
  {
    var entries := OrderedMap.Items(m);
    ItemsDistinctKeys(m);
    assert Distinct(entries);
    SortByDistinct(entries, AtLeast);
    RankedFromItems(m, i);
    RankedFromItems(m, j);
  }

  /** A key left out of the first `k` ranked entries has a total no larger
      than any of theirs. */
  lemma {:induction false} RankedPrefixIsTop(m: Totals, k: nat, key: string)
    requires m.Valid() && k <= |Ranked(m)| && key in m.vals
    requires forall i :: 0 <= i < k ==> Ranked(m)[i].0 != key
    ensures forall i :: 0 <= i < k ==> m.vals[key] <= Ranked(m)[i].1
  {
    var sorted := Ranked(m);
    var top := sorted[..k];
    RankedEntries(m);
    SortedPrefixIsTop(sorted, k, AtLeast);
    var e := (key, m.vals[key]);
    assert e !in top;
    assert e in multiset(sorted) - multiset(top);
    forall i | 0 <= i < k ensures m.vals[key] <= sorted[i].1 {
      assert top[i] in top;
    }
  }

  /** The top list holds `min(topN, number of keys)` entries. */
  lemma {:induction false} TopOfSize(ts: seq<Tally>, topN: nat)
    ensures var top, keys := TopOf(ts, topN), Accumulate(ts).keys;
      |top| == if topN < |keys| then topN else |keys|
  {
    RankedEntries(Accumulate(ts));
  }

  /** The top list names each key at most once, largest total first. */
  lemma {:induction false} TopOfOrdered(ts: seq<Tally>, topN: nat)
    ensures var top := TopOf(ts, topN);
      forall i, j :: 0 <= i < j < |top| ==> top[j].1 <= top[i].1 && top[i].0 != top[j].0
  {
    RankedEntries(Accumulate(ts));
  }

  /** Each listed key was mentioned, and is listed with the sum of all its
      amounts. */
  lemma {:induction false} TopOfSums(ts: seq<Tally>, topN: nat)
    ensures var top := TopOf(ts, topN);
      forall i :: 0 <= i < |top| ==> Mentions(ts, top[i].0) && top[i].1 == SumFor(ts, top[i].0)
  {
    var m := Accumulate(ts);
    var sorted := Ranked(m);
    var top := sorted[..if topN < |sorted| then topN else |sorted|];
    RankedEntries(m);
    forall i | 0 <= i < |top|
      ensures Mentions(ts, top[i].0) && top[i].1 == SumFor(ts, top[i].0)
    {
      AccumulateIsSums(ts, top[i].0);
    }
  }

  /** No mentioned key left off the top list has a larger sum than any key
      on it. */
  lemma {:induction false} TopOfOmitsSmaller(ts: seq<Tally>, topN: nat, key: string)
    requires Mentions(ts, key)
    requires forall i :: 0 <= i < |TopOf(ts, topN)| ==> TopOf(ts, topN)[i].0 != key
    ensures forall i :: 0 <= i < |TopOf(ts, topN)| ==> SumFor(ts, key) <= TopOf(ts, topN)[i].1
  {
    var m := Accumulate(ts);
    var sorted := Ranked(m);
    var k := if topN < |sorted| then topN else |sorted|;
    var top := TopOf(ts, topN);
    assert top == sorted[..k];
    AccumulateIsSums(ts, key);
    assert forall i :: 0 <= i < k ==> sorted[i] == top[i];
    RankedPrefixIsTop(m, k, key);
  }
}
