/** `aggregateHistogramAvg` of web/js/app.js: the rentals per hour of the
    day, summed over the dates of a range and averaged per date. */
module DashboardHistogram {
  import opened Wrappers
  import opened Text
  import opened Dashboard

  /** One bar of the chart: the hour as text and the average. */
  datatype Bar = Bar(x: string, y: int)

  /** `h[String(hour)] || 0`, where `h` is the day's histogram or `{}`. */
  function HourCount(day: DayMetrics, hour: nat): int
  {
    match day.histogram
    case None => 0
    case Some(h) => if NatToString(hour) in h then h[NatToString(hour)] else 0
  }

  /** The rentals in one hour of the day, summed over the dates. */
  function HourTotal(days: map<string, DayMetrics>, dates: seq<string>, hour: nat): int
    requires AllKnown(days, dates)
  {
    if dates == [] then 0
    else HourTotal(days, dates[..|dates| - 1], hour) + HourCount(days[dates[|dates| - 1]], hour)
  }

  /** `Math.max(1, dates.length)`. */
  function Divisor(dates: seq<string>): nat
  {
    if |dates| > 1 then |dates| else 1
  }

  /** `Math.round(v / n)` for a positive `n`: the integer nearest to the
      quotient, halves rounded up. */
  function RoundDiv(v: int, n: int): (r: int)
    requires n > 0
    ensures n * (2 * r - 1) <= 2 * v < n * (2 * r + 1)
  {
    var r := (2 * v + n) / (2 * n);
    assert 2 * n * r <= 2 * v + n < 2 * n * r + 2 * n;
    r
  }

  /** The chart data: 24 bars, one per hour. */
  function HistogramAvg(days: map<string, DayMetrics>, dates: seq<string>): seq<Bar>
    requires AllKnown(days, dates)
  {
    seq(24, hour requires 0 <= hour < 24 => Bar(NatToString(hour), RoundDiv(HourTotal(days, dates, hour), Divisor(dates))))
  }

  method AggregateHistogramAvg(days: map<string, DayMetrics>, dates: seq<string>) returns (bars: seq<Bar>)
    requires AllKnown(days, dates)
    ensures bars == HistogramAvg(days, dates)
  {
    var sums := new int[24](_ => 0);
    for k := 0 to |dates|
      invariant forall hour :: 0 <= hour < 24 ==> sums[hour] == HourTotal(days, dates[..k], hour)
    {
      assert dates[..k + 1][..k] == dates[..k];
      var day := days[dates[k]];
      var h := if day.histogram.Some? then day.histogram.value else map[];
      for hour := 0 to 24
        invariant forall j :: 0 <= j < hour ==> sums[j] == HourTotal(days, dates[..k + 1], j)
        invariant forall j :: hour <= j < 24 ==> sums[j] == HourTotal(days, dates[..k], j)
      {
        var key := NatToString(hour);
        sums[hour] := sums[hour] + (if key in h then h[key] else 0);
      }
    }
    assert dates[..|dates|] == dates;
    var n := if |dates| > 1 then |dates| else 1;
    var totals := sums[..];
    bars := seq(24, i requires 0 <= i < 24 => Bar(NatToString(i), RoundDiv(totals[i], n)));
  }

  /** The bars are labelled "0" to "23" in order: each label is the
      canonical decimal text of its hour. */
  lemma {:induction false} HistogramLabels(days: map<string, DayMetrics>, dates: seq<string>)
    requires AllKnown(days, dates)
    ensures |HistogramAvg(days, dates)| == 24
    ensures forall hour :: 0 <= hour < 24 ==>
              var name := HistogramAvg(days, dates)[hour].x;
              AllDigits(name) && DigitsValue(name) == hour && (|name| > 1 ==> name[0] != '0')
  {
    forall hour | 0 <= hour < 24 ensures DigitsValue(NatToString(hour)) == hour {
      NatToStringRoundTrip(hour);
    }
  }

  /** With no dates every bar is zero, and a single date's bars are that
      day's own counts. */
  lemma {:induction false} HistogramOfFewDates(days: map<string, DayMetrics>, dates: seq<string>)
    requires AllKnown(days, dates) && |dates| <= 1
    ensures forall hour :: 0 <= hour < 24 ==>
              HistogramAvg(days, dates)[hour].y == if dates == [] then 0 else HourCount(days[dates[0]], hour)
  {
    forall hour | 0 <= hour < 24
      ensures HistogramAvg(days, dates)[hour].y == if dates == [] then 0 else HourCount(days[dates[0]], hour)
    {
      var v := HourTotal(days, dates, hour);
      if dates != [] {
        assert dates[..0] == [];
        assert HourTotal(days, dates[..0], hour) == 0;
        assert v == HourCount(days[dates[0]], hour);
      }
      var r := RoundDiv(v, 1);
      assert 2 * r - 1 <= 2 * v < 2 * r + 1;
    }
  }

  lemma {:induction false} HourTotalBounds(days: map<string, DayMetrics>, dates: seq<string>, hour: nat, lo: int, hi: int)
    requires AllKnown(days, dates)
    requires forall i :: 0 <= i < |dates| ==> lo <= HourCount(days[dates[i]], hour) <= hi
    ensures |dates| * lo <= HourTotal(days, dates, hour) <= |dates| * hi
  {
    if dates != [] {
      var init := dates[..|dates| - 1];
      assert forall i :: 0 <= i < |init| ==> init[i] == dates[i];
      HourTotalBounds(days, init, hour, lo, hi);
      MulSucc(|init|, lo);
      MulSucc(|init|, hi);
    }
  }

  /** Each bar of a non-empty range lies between the smallest and the
      largest count any of its dates has for that hour. */
  lemma {:induction false} AverageWithinDailyBounds(days: map<string, DayMetrics>, dates: seq<string>, hour: nat, lo: int, hi: int)
    requires AllKnown(days, dates) && dates != [] && hour < 24
    requires forall i :: 0 <= i < |dates| ==> lo <= HourCount(days[dates[i]], hour) <= hi
    ensures lo <= HistogramAvg(days, dates)[hour].y <= hi
  {
    var n := |dates|;
    var v := HourTotal(days, dates, hour);
    HourTotalBounds(days, dates, hour, lo, hi);
    var r := RoundDiv(v, n);
    assert HistogramAvg(days, dates)[hour].y == r;
    RoundedWithin(v, n, lo, hi, r);
  }

  lemma RoundedWithin(v: int, n: nat, lo: int, hi: int, r: int)
    requires n > 0 && n * lo <= v <= n * hi
    requires n * (2 * r - 1) <= 2 * v < n * (2 * r + 1)
    ensures lo <= r <= hi
  {
    if r > hi {
      MulMonotone(n, 2 * hi + 1, 2 * r - 1);
    }
    if r < lo {
      MulMonotone(n, 2 * r + 1, 2 * lo);
    }
  }

  lemma MulSucc(m: nat, x: int)
    ensures (m + 1) * x == m * x + x
  {
  }

  lemma MulMonotone(n: nat, a: int, b: int)
    requires a <= b
    ensures n * a <= n * b
  {
    assert n * b - n * a == n * (b - a);
  }
}
