/** The event sink of src/bike_status_changes.py (`save_events_to_db`):
    appends events to the `bike_status_changes` table. */
module EventSink {
  import opened Diff

  /** The SQLite database: whether its file and table exist yet, and the
      rows of `bike_status_changes` in insertion order (a row's
      AUTOINCREMENT uid is its position plus one, since nothing here deletes
      rows). */
  class EventStore {
    var created: bool
    var rows: seq<Event>

    /** A database path where nothing exists yet. */
    constructor ()
      ensures !created && rows == []
    {
      created := false;
      rows := [];
    }

    /** `save_events_to_db`: an empty batch returns before the database is
        even opened; otherwise the table is created if absent and one row
        per event is appended, in list order, with no deduplication. */
    method SaveEvents(events: seq<Event>)
      modifies this
      ensures events == [] ==> created == old(created) && rows == old(rows)
      ensures events != [] ==> created && rows == old(rows) + events
    {
      if events == [] {
        return;
      }
      created := true;
      var i := 0;
      while i < |events|
        invariant 0 <= i <= |events|
        invariant created && rows == old(rows) + events[..i]
      {
        rows := rows + [events[i]];
        assert events[..i + 1] == events[..i] + [events[i]];
        i := i + 1;
      }
      assert events[..i] == events;
    }
  }
}
