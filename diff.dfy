/** The diff engine of src/bike_status_changes.py (`diff_snapshots`):
    departures and moves while walking the previous index, then arrivals of
    bikes new in the current one. Every event carries the timestamp it is
    given. */
module Diff {
  import opened Wrappers
  import OrderedMap
  import Seqs
  import opened Snapshot

  datatype EventType = Departed | Arrived

  /** One row of `bike_status_changes`; `info` holds the station name and
      id, coordinates, bike type and battery. */
  datatype Event = Event(timestamp: Option<string>, bikeId: string, eventType: EventType, info: BikeInfo)

  /** The events for one bike of the previous index. */
  function PrevStep(id: string, prev: BikeIndex, curr: BikeIndex, ts: Option<string>): seq<Event>
    requires id in prev.vals
  {
    if id !in curr.vals then [Event(ts, id, Departed, prev.vals[id])]
    else if prev.vals[id].stationId != curr.vals[id].stationId then
      [Event(ts, id, Departed, prev.vals[id]), Event(ts, id, Arrived, curr.vals[id])]
    else []
  }

  /** The events for one bike of the current index. */
  function CurrStep(id: string, prev: BikeIndex, curr: BikeIndex, ts: Option<string>): seq<Event>
    requires id in curr.vals
  {
    if id !in prev.vals then [Event(ts, id, Arrived, curr.vals[id])] else []
  }

  /** The first loop's events over the bikes `ids` of the previous index. */
  function Departures(ids: seq<string>, prev: BikeIndex, curr: BikeIndex, ts: Option<string>): seq<Event>
    requires forall i :: 0 <= i < |ids| ==> ids[i] in prev.vals
  {
    if ids == [] then []
    else Departures(ids[..|ids| - 1], prev, curr, ts) + PrevStep(ids[|ids| - 1], prev, curr, ts)
  }

  /** The second loop's events over the bikes `ids` of the current index. */
  function Arrivals(ids: seq<string>, prev: BikeIndex, curr: BikeIndex, ts: Option<string>): seq<Event>
    requires forall i :: 0 <= i < |ids| ==> ids[i] in curr.vals
  {
    if ids == [] then []
    else Arrivals(ids[..|ids| - 1], prev, curr, ts) + CurrStep(ids[|ids| - 1], prev, curr, ts)
  }

  function DiffEvents(prev: BikeIndex, curr: BikeIndex, ts: Option<string>): seq<Event>
    requires OrderedMap.KeysHaveValues(prev) && OrderedMap.KeysHaveValues(curr)
  {
    Departures(prev.keys, prev, curr, ts) + Arrivals(curr.keys, prev, curr, ts)
  }

  lemma DeparturesStep(ids: seq<string>, k: nat, prev: BikeIndex, curr: BikeIndex, ts: Option<string>)
    requires k < |ids| && forall i :: 0 <= i < |ids| ==> ids[i] in prev.vals
    ensures Departures(ids[..k + 1], prev, curr, ts) == Departures(ids[..k], prev, curr, ts) + PrevStep(ids[k], prev, curr, ts)
  {
    assert ids[..k + 1][..k] == ids[..k];
  }

  lemma ArrivalsStep(ids: seq<string>, k: nat, prev: BikeIndex, curr: BikeIndex, ts: Option<string>)
    requires k < |ids| && forall i :: 0 <= i < |ids| ==> ids[i] in curr.vals
    ensures Arrivals(ids[..k + 1], prev, curr, ts) == Arrivals(ids[..k], prev, curr, ts) + CurrStep(ids[k], prev, curr, ts)
  {
    assert ids[..k + 1][..k] == ids[..k];
  }

  /** `diff_snapshots`: builds the event list by appending in two loops. */
  method DiffSnapshots(prev: BikeIndex, curr: BikeIndex, ts: Option<string>) returns (events: seq<Event>)
    requires OrderedMap.KeysHaveValues(prev) && OrderedMap.KeysHaveValues(curr)
    ensures events == DiffEvents(prev, curr, ts)
  {
    events := DepartureEvents(prev, curr, ts);
    events := AppendArrivals(events, prev, curr, ts);
  }

  /** The first loop of `diff_snapshots`, over the previous index. */
  method DepartureEvents(prev: BikeIndex, curr: BikeIndex, ts: Option<string>) returns (events: seq<Event>)
    requires OrderedMap.KeysHaveValues(prev)
    ensures events == Departures(prev.keys, prev, curr, ts)
  {
    events := [];
    for i := 0 to |prev.keys|
      invariant events == Departures(prev.keys[..i], prev, curr, ts)
    {
      var id := prev.keys[i];
      var info := prev.vals[id];
      DeparturesStep(prev.keys, i, prev, curr, ts);
      ghost var before := events;
      if id !in curr.vals {
        events := events + [Event(ts, id, Departed, info)];
      } else {
        var newInfo := curr.vals[id];
        if info.stationId != newInfo.stationId {
          events := events + [Event(ts, id, Departed, info)];
          events := events + [Event(ts, id, Arrived, newInfo)];
        }
      }
      assert events == before + PrevStep(id, prev, curr, ts);
    }
    assert prev.keys[..|prev.keys|] == prev.keys;
  }

  /** The second loop of `diff_snapshots`, over the current index,
      appending to the events of the first. */
  method AppendArrivals(departures: seq<Event>, prev: BikeIndex, curr: BikeIndex, ts: Option<string>) returns (events: seq<Event>)
    requires OrderedMap.KeysHaveValues(curr)
    ensures events == departures + Arrivals(curr.keys, prev, curr, ts)
  {
    events := departures;
    for j := 0 to |curr.keys|
      invariant events == departures + Arrivals(curr.keys[..j], prev, curr, ts)
    {
      var id := curr.keys[j];
      ArrivalsStep(curr.keys, j, prev, curr, ts);
      ghost var before := events;
      if id !in prev.vals {
        events := events + [Event(ts, id, Arrived, curr.vals[id])];
      }
      assert events == before + CurrStep(id, prev, curr, ts);
    }
    assert curr.keys[..|curr.keys|] == curr.keys;
  }

  /** The events that concern one bike, in order. */
  function EventsOf(events: seq<Event>, id: string): seq<Event>
  {
    if events == [] then []
    else EventsOf(events[..|events| - 1], id) + (if events[|events| - 1].bikeId == id then [events[|events| - 1]] else [])
  }

  lemma {:induction false} EventsOfAppend(a: seq<Event>, b: seq<Event>, id: string)
    ensures EventsOf(a + b, id) == EventsOf(a, id) + EventsOf(b, id)
  {
    if b == [] {
      assert a + b == a;
    } else {
      var b' := b[..|b| - 1];
      EventsOfAppend(a, b', id);
      assert (a + b)[..|a + b| - 1] == a + b';
    }
  }

  lemma {:induction false} EventsOfOneBike(events: seq<Event>, id: string, other: string)
    requires forall i :: 0 <= i < |events| ==> events[i].bikeId == other
    ensures EventsOf(events, id) == if id == other then events else []
  {
    if events != [] {
      EventsOfOneBike(events[..|events| - 1], id, other);
    }
  }

  lemma EventsOfPrevStep(last: string, prev: BikeIndex, curr: BikeIndex, ts: Option<string>, id: string)
    requires last in prev.vals
    ensures EventsOf(PrevStep(last, prev, curr, ts), id) == if id == last then PrevStep(last, prev, curr, ts) else []
  {
    EventsOfOneBike(PrevStep(last, prev, curr, ts), id, last);
  }

  lemma DeparturesSnoc(ids: seq<string>, prev: BikeIndex, curr: BikeIndex, ts: Option<string>)
    requires ids != [] && forall i :: 0 <= i < |ids| ==> ids[i] in prev.vals
    ensures var init := ids[..|ids| - 1]; forall i :: 0 <= i < |init| ==> init[i] in prev.vals
    ensures Departures(ids, prev, curr, ts) == Departures(ids[..|ids| - 1], prev, curr, ts) + PrevStep(ids[|ids| - 1], prev, curr, ts)
  {
  }

  lemma ArrivalsSnoc(ids: seq<string>, prev: BikeIndex, curr: BikeIndex, ts: Option<string>)
    requires ids != [] && forall i :: 0 <= i < |ids| ==> ids[i] in curr.vals
    ensures var init := ids[..|ids| - 1]; forall i :: 0 <= i < |init| ==> init[i] in curr.vals
    ensures Arrivals(ids, prev, curr, ts) == Arrivals(ids[..|ids| - 1], prev, curr, ts) + CurrStep(ids[|ids| - 1], prev, curr, ts)
  {
  }

  lemma {:induction false} DeparturesOf(ids: seq<string>, prev: BikeIndex, curr: BikeIndex, ts: Option<string>, id: string)
    requires forall i :: 0 <= i < |ids| ==> ids[i] in prev.vals
    requires Seqs.Distinct(ids)
    ensures EventsOf(Departures(ids, prev, curr, ts), id) == if id in ids then PrevStep(id, prev, curr, ts) else []
  {
    if ids != [] {
      var init, last := ids[..|ids| - 1], ids[|ids| - 1];
      DeparturesSnoc(ids, prev, curr, ts);
      Seqs.DistinctInit(ids);
      var d0, step := Departures(init, prev, curr, ts), PrevStep(last, prev, curr, ts);
      DeparturesOf(init, prev, curr, ts, id);
      EventsOfAppend(d0, step, id);
      EventsOfPrevStep(last, prev, curr, ts, id);
      Seqs.InInitOrLast(ids, id);
      var x := if id in ids then PrevStep(id, prev, curr, ts) else [];
      assert last !in init;
      assert EventsOf(d0, id) == (if id in init then x else []);
      assert EventsOf(step, id) == (if id == last then x else []);
      Seqs.AtMostOnePart(EventsOf(Departures(ids, prev, curr, ts), id), EventsOf(d0, id), EventsOf(step, id), id in init, id == last, x);
      assert EventsOf(Departures(ids, prev, curr, ts), id) == x;
    }
  }

  lemma {:induction false} ArrivalsOf(ids: seq<string>, prev: BikeIndex, curr: BikeIndex, ts: Option<string>, id: string)
    requires forall i :: 0 <= i < |ids| ==> ids[i] in curr.vals
    requires Seqs.Distinct(ids)
    ensures EventsOf(Arrivals(ids, prev, curr, ts), id) == if id in ids then CurrStep(id, prev, curr, ts) else []
  {
    if ids != [] {
      var init, last := ids[..|ids| - 1], ids[|ids| - 1];
      ArrivalsSnoc(ids, prev, curr, ts);
      Seqs.DistinctInit(ids);
      var a0, step := Arrivals(init, prev, curr, ts), CurrStep(last, prev, curr, ts);
      ArrivalsOf(init, prev, curr, ts, id);
      EventsOfAppend(a0, step, id);
      EventsOfOneBike(step, id, last);
      Seqs.InInitOrLast(ids, id);
      var x := if id in ids then CurrStep(id, prev, curr, ts) else [];
      assert last !in init;
      assert EventsOf(a0, id) == (if id in init then x else []);
      assert EventsOf(step, id) == (if id == last then x else []);
      Seqs.AtMostOnePart(EventsOf(Arrivals(ids, prev, curr, ts), id), EventsOf(a0, id), EventsOf(step, id), id in init, id == last, x);
      assert EventsOf(Arrivals(ids, prev, curr, ts), id) == x;
    }
  }

  /** What the diff says about one bike, by where it appears:
      only in `prev`: one departure with its previous record;
      in both at different station ids: a departure with the previous
      record, then an arrival with the current one;
      in both at the same station id: nothing, whatever else changed;
      only in `curr`: one arrival with its current record. */
  lemma EventsOfBike(prev: BikeIndex, curr: BikeIndex, ts: Option<string>, id: string)
    requires prev.Valid() && curr.Valid()
    ensures var es := EventsOf(DiffEvents(prev, curr, ts), id);
      && (id in prev.vals && id !in curr.vals ==> es == [Event(ts, id, Departed, prev.vals[id])])
      && (id in prev.vals && id in curr.vals && prev.vals[id].stationId != curr.vals[id].stationId ==>
            es == [Event(ts, id, Departed, prev.vals[id]), Event(ts, id, Arrived, curr.vals[id])])
      && (id in prev.vals && id in curr.vals && prev.vals[id].stationId == curr.vals[id].stationId ==> es == [])
      && (id !in prev.vals && id in curr.vals ==> es == [Event(ts, id, Arrived, curr.vals[id])])
      && (id !in prev.vals && id !in curr.vals ==> es == [])
  {
    OrderedMap.ValidKeysHaveValues(prev);
    OrderedMap.ValidKeysHaveValues(curr);
    DeparturesOf(prev.keys, prev, curr, ts, id);
    ArrivalsOf(curr.keys, prev, curr, ts, id);
    EventsOfAppend(Departures(prev.keys, prev, curr, ts), Arrivals(curr.keys, prev, curr, ts), id);
  }

  lemma {:induction false} DeparturesTimestamps(ids: seq<string>, prev: BikeIndex, curr: BikeIndex, ts: Option<string>)
    requires forall i :: 0 <= i < |ids| ==> ids[i] in prev.vals
    ensures forall e :: e in Departures(ids, prev, curr, ts) ==> e.timestamp == ts && e.bikeId in prev.vals
  {
    if ids != [] { DeparturesTimestamps(ids[..|ids| - 1], prev, curr, ts); }
  }

  lemma {:induction false} ArrivalsShape(ids: seq<string>, prev: BikeIndex, curr: BikeIndex, ts: Option<string>)
    requires forall i :: 0 <= i < |ids| ==> ids[i] in curr.vals
    ensures forall e :: e in Arrivals(ids, prev, curr, ts) ==>
              e.timestamp == ts && e.eventType == Arrived && e.bikeId !in prev.vals && e.bikeId in curr.vals
  {
    if ids != [] { ArrivalsShape(ids[..|ids| - 1], prev, curr, ts); }
  }

  /** Every event carries the given timestamp; the events of the first loop
      (bikes of `prev`) all come before the arrivals of new bikes. */
  lemma DiffPhases(prev: BikeIndex, curr: BikeIndex, ts: Option<string>)
    requires OrderedMap.KeysHaveValues(prev) && OrderedMap.KeysHaveValues(curr)
    ensures var es, k := DiffEvents(prev, curr, ts), |Departures(prev.keys, prev, curr, ts)|;
      && (forall i :: 0 <= i < |es| ==> es[i].timestamp == ts)
      && (forall i :: 0 <= i < k ==> es[i].bikeId in prev.vals)
      && (forall i :: k <= i < |es| ==> es[i].eventType == Arrived && es[i].bikeId !in prev.vals)
  {
    var d, a := Departures(prev.keys, prev, curr, ts), Arrivals(curr.keys, prev, curr, ts);
    DeparturesTimestamps(prev.keys, prev, curr, ts);
    ArrivalsShape(curr.keys, prev, curr, ts);
    var es := d + a;
    forall i | 0 <= i < |es| ensures es[i].timestamp == ts {
      if i < |d| { assert es[i] == d[i]; } else { assert es[i] == a[i - |d|]; }
    }
    forall i | |d| <= i < |es| ensures es[i].eventType == Arrived && es[i].bikeId !in prev.vals {
      assert es[i] == a[i - |d|];
    }
  }

  /** Where the events of the `k`-th bike sit in the first loop's output. */
  lemma {:induction false} DeparturesContainStep(ids: seq<string>, prev: BikeIndex, curr: BikeIndex, ts: Option<string>, k: nat)
    returns (n: nat)
    requires forall i :: 0 <= i < |ids| ==> ids[i] in prev.vals
    requires k < |ids|
    ensures n + |PrevStep(ids[k], prev, curr, ts)| <= |Departures(ids, prev, curr, ts)|
    ensures forall j :: 0 <= j < |PrevStep(ids[k], prev, curr, ts)| ==>
              Departures(ids, prev, curr, ts)[n + j] == PrevStep(ids[k], prev, curr, ts)[j]
  {
    var init, last := ids[..|ids| - 1], ids[|ids| - 1];
    DeparturesSnoc(ids, prev, curr, ts);
    var d0 := Departures(init, prev, curr, ts);
    var d := d0 + PrevStep(last, prev, curr, ts);
    if k == |ids| - 1 {
      n := |d0|;
    } else {
      assert init[k] == ids[k];
      n := DeparturesContainStep(init, prev, curr, ts, k);
    }
  }

  /** A moved bike's departure is immediately followed by its arrival. */
  lemma {:induction false} MoveIsAdjacentPair(prev: BikeIndex, curr: BikeIndex, ts: Option<string>, id: string) returns (n: nat)
    requires prev.Valid() && curr.Valid()
    requires id in prev.vals && id in curr.vals && prev.vals[id].stationId != curr.vals[id].stationId
    ensures n + 1 < |DiffEvents(prev, curr, ts)|
    ensures DiffEvents(prev, curr, ts)[n] == Event(ts, id, Departed, prev.vals[id])
    ensures DiffEvents(prev, curr, ts)[n + 1] == Event(ts, id, Arrived, curr.vals[id])
  {
    OrderedMap.ValidKeysHaveValues(prev);
    OrderedMap.ValidKeysHaveValues(curr);
    assert id in prev.keys;
    var k :| 0 <= k < |prev.keys| && prev.keys[k] == id;
    n := DeparturesContainStep(prev.keys, prev, curr, ts, k);
    var d := Departures(prev.keys, prev, curr, ts);
    var step := PrevStep(id, prev, curr, ts);
    assert step == [Event(ts, id, Departed, prev.vals[id]), Event(ts, id, Arrived, curr.vals[id])];
    assert d[n + 0] == step[0] && d[n + 1] == step[1];
    var es := DiffEvents(prev, curr, ts);
    assert es[n] == d[n] && es[n + 1] == d[n + 1];
  }

  lemma {:induction false} DeparturesSelf(ids: seq<string>, x: BikeIndex, ts: Option<string>)
    requires forall i :: 0 <= i < |ids| ==> ids[i] in x.vals
    ensures Departures(ids, x, x, ts) == []
  {
    if ids != [] { DeparturesSelf(ids[..|ids| - 1], x, ts); }
  }

  lemma {:induction false} ArrivalsSelf(ids: seq<string>, x: BikeIndex, ts: Option<string>)
    requires forall i :: 0 <= i < |ids| ==> ids[i] in x.vals
    ensures Arrivals(ids, x, x, ts) == []
  {
    if ids != [] { ArrivalsSelf(ids[..|ids| - 1], x, ts); }
  }

  /** Comparing a snapshot with itself records nothing. */
  lemma DiffOfSelfIsEmpty(x: BikeIndex, ts: Option<string>)
    requires OrderedMap.KeysHaveValues(x)
    ensures DiffEvents(x, x, ts) == []
  {
    DeparturesSelf(x.keys, x, ts);
    ArrivalsSelf(x.keys, x, ts);
  }
}
