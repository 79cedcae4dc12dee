/** `main` of src/bike_status_changes.py: select the two newest snapshots,
    load both, diff them with the newer one's timestamp and store the
    events. The selected files' contents are the documents already parsed
    during selection; the warning and the summary it prints become the
    outcome returned here. */
module StatusChanges {
  import opened Wrappers
  import opened Text
  import opened StableSort
  import opened Snapshot
  import opened Selector
  import opened Diff
  import opened EventSink

  datatype RunOutcome = NotEnoughFiles | LoadFailed(error: LoadError) | Recorded(events: seq<Event>)

  function RunResult(files: seq<Candidate>): RunOutcome
  {
    var latest := Latest(files, 2);
    if |latest| < 2 then NotEnoughFiles
    else
      match Load(latest[0].1.doc)
      case Err(e) => LoadFailed(e)
      case Ok(older) =>
        match Load(latest[1].1.doc)
        case Err(e) => LoadFailed(e)
        case Ok(newer) => Recorded(DiffEvents(older.1, newer.1, newer.0))
  }

  method Run(files: seq<Candidate>, store: EventStore) returns (outcome: RunOutcome)
    modifies store
    ensures outcome == RunResult(files)
    ensures outcome.Recorded? && outcome.events != [] ==>
              store.created && store.rows == old(store.rows) + outcome.events
    ensures !outcome.Recorded? || outcome.events == [] ==>
              store.created == old(store.created) && store.rows == old(store.rows)
  {
    var latest := GetLatestFiles(files, 2);
    if |latest| < 2 {
      return NotEnoughFiles;
    }
    var first := LoadSnapshot(latest[0].doc);
    if first.Err? {
      return LoadFailed(first.error);
    }
    var second := LoadSnapshot(latest[1].doc);
    if second.Err? {
      return LoadFailed(second.error);
    }
    var events := DiffSnapshots(first.value.1, second.value.1, second.value.0);
    store.SaveEvents(events);
    outcome := Recorded(events);
  }

  /** Nothing is diffed or written unless at least two files are readable. */
  lemma NotEnoughIffFewerThanTwo(files: seq<Candidate>)
    ensures RunResult(files) == NotEnoughFiles <==> |Readable(files)| < 2
  {
  }

  /** A recorded run compares the two newest readable snapshots, older
      first, and stamps every event with the newer one's `_fetched_at`. */
  lemma {:induction false} RecordedRunUsesNewestPair(files: seq<Candidate>)
    requires RunResult(files).Recorded?
    ensures var latest := Latest(files, 2);
      && |latest| == 2
      && LexLe(latest[0].0, latest[1].0)
      && (forall m :: m in Readable(files) ==> LexLe(m.0, latest[1].0))
      && forall e :: e in RunResult(files).events ==> e.timestamp == latest[1].1.doc.fetchedAt
  {
    var latest := Latest(files, 2);
    NewerIsNewest(files);
    var older, newer := Load(latest[0].1.doc).value, Load(latest[1].1.doc).value;
    DiffPhases(older.1, newer.1, newer.0);
  }

  lemma {:induction false} NewerIsNewest(files: seq<Candidate>)
    requires |Readable(files)| >= 2
    ensures var latest := Latest(files, 2);
      && |latest| == 2
      && LexLe(latest[0].0, latest[1].0)
      && forall m :: m in Readable(files) ==> LexLe(m.0, latest[1].0)
  {
    var latest := Latest(files, 2);
    var all := Readable(files);
    LatestAreNewest(files, 2);
    forall m | m in all ensures LexLe(m.0, latest[1].0) {
      if m in multiset(all) - multiset(latest) {
      } else {
        assert m in latest;
        LexLeReflexive(latest[1].0);
      }
    }
  }
}
