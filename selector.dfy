/** The snapshot selector of src/bike_status_changes.py
    (`get_latest_files`): the `count` newest snapshots by their embedded
    `_fetched_at` string, oldest first, whatever the file names say. */
module Selector {
  import opened Wrappers
  import opened Text
  import opened StableSort
  import Snapshot

  /** A file matched by `bike_rides_*.json`, with its parsed content, or
      None when opening or JSON decoding it failed. */
  datatype Candidate = Candidate(path: string, content: Option<Snapshot.Document>)

  /** A readable snapshot file. */
  datatype Snap = Snap(path: string, doc: Snapshot.Document)

  /** The sort key `payload.get("_fetched_at", "")` and the file. */
  type Meta = (string, Snap)

  function FetchedAt(doc: Snapshot.Document): string
  {
    if doc.fetchedAt.Some? then doc.fetchedAt.value else ""
  }

  function Entry(f: Candidate): Meta
    requires f.content.Some?
  {
    (FetchedAt(f.content.value), Snap(f.path, f.content.value))
  }

  /** The `meta` list: one entry per readable file, in discovery order. */
  function Readable(files: seq<Candidate>): (meta: seq<Meta>)
    ensures |meta| <= |files|
  {
    if files == [] then []
    else
      var f := files[|files| - 1];
      Readable(files[..|files| - 1]) + (if f.content.Some? then [Entry(f)] else [])
  }

  /** The sort order of `meta.sort(key=lambda x: x[0])`. */
  predicate KeyLe(a: Meta, b: Meta)
  {
    LexLe(a.0, b.0)
  }

  lemma KeyLeTotalPreorder()
    ensures TotalPreorder(KeyLe)
  {
    forall a: Meta, b: Meta ensures KeyLe(a, b) || KeyLe(b, a) { LexLeTotal(a.0, b.0); }
    forall a: Meta, b: Meta, c: Meta | KeyLe(a, b) && KeyLe(b, c) ensures KeyLe(a, c) {
      LexLeTransitive(a.0, b.0, c.0);
    }
  }

  /** Where Python's `s[-count:]` starts, for a list of length `n` and any
      integer `count`. */
  function PyTailStart(n: nat, count: int): (k: nat)
    ensures k <= n
    ensures count > 0 ==> n - k == if count < n then count else n
    ensures count == 0 ==> k == 0
  {
    var start := -count;
    if start < 0 then (if n + start < 0 then 0 else n + start)
    else if start < n then start else n
  }

  function PyTail<T>(s: seq<T>, count: int): seq<T>
  {
    s[PyTailStart(|s|, count)..]
  }

  /** The entries `get_latest_files` keeps. */
  function Latest(files: seq<Candidate>, count: int): seq<Meta>
  {
    PyTail(SortBy(Readable(files), KeyLe), count)
  }

  /** `get_latest_files`: collects the readable files with their keys, sorts
      them in place by key and keeps the last `count`. Returns the chosen
      files (with their content) rather than bare paths. */
  method GetLatestFiles(files: seq<Candidate>, count: int) returns (latest: seq<Snap>)
    ensures |latest| == |Latest(files, count)|
    ensures forall i :: 0 <= i < |latest| ==> latest[i] == Latest(files, count)[i].1
  {
    var meta: seq<Meta> := [];
    var i := 0;
    while i < |files|
      invariant 0 <= i <= |files|
      invariant meta == Readable(files[..i])
    {
      var f := files[i];
      assert files[..i + 1][..i] == files[..i];
      if f.content.Some? {
        meta := meta + [Entry(f)];
      }
      i := i + 1;
    }
    assert files[..i] == files;
    meta := SortBy(meta, KeyLe);
    var kept := PyTail(meta, count);
    latest := seq(|kept|, j requires 0 <= j < |kept| => kept[j].1);
  }

  /** The meta list holds exactly the readable files, keyed by `_fetched_at`
      or "" when it is missing. */
  lemma {:induction false} ReadableMembers(files: seq<Candidate>, m: Meta)
    ensures m in Readable(files) <==>
              exists i :: 0 <= i < |files| && files[i].content.Some? && m == Entry(files[i])
  {
    if files != [] {
      var init := files[..|files| - 1];
      ReadableMembers(init, m);
      if exists i :: 0 <= i < |init| && init[i].content.Some? && m == Entry(init[i]) {
        var i :| 0 <= i < |init| && init[i].content.Some? && m == Entry(init[i]);
        assert files[i] == init[i];
      }
      if exists i :: 0 <= i < |files| && files[i].content.Some? && m == Entry(files[i]) {
        var i :| 0 <= i < |files| && files[i].content.Some? && m == Entry(files[i]);
        if i < |init| { assert init[i] == files[i]; }
      }
    }
  }

  /** For a positive count: the selection holds min(count, readable) files,
      in non-decreasing `_fetched_at` order, drawn from the readable files,
      and every readable file left out is no newer than any file kept. */
  lemma LatestAreNewest(files: seq<Candidate>, count: int)
    requires count > 0
    ensures var all, sel := Readable(files), Latest(files, count);
      && |sel| == (if count < |all| then count else |all|)
      && SortedBy(sel, KeyLe)
      && multiset(sel) <= multiset(all)
      && forall m: Meta, x: Meta :: m in multiset(all) - multiset(sel) && x in sel ==> LexLe(m.0, x.0)
  {
    var all := Readable(files);
    KeyLeTotalPreorder();
    SortBySorted(all, KeyLe);
    var sorted := SortBy(all, KeyLe);
    SortedSuffixIsTop(sorted, PyTailStart(|sorted|, count), KeyLe);
  }

  /** Python's `meta[-0:]` is the whole list: a count of zero keeps every
      readable file. */
  lemma ZeroCountKeepsAll(files: seq<Candidate>)
    ensures |Latest(files, 0)| == |Readable(files)|
  {
  }

  /** A snapshot without `_fetched_at` sorts before every other. */
  lemma MissingTimestampSortsFirst(d: Snapshot.Document, e: Snapshot.Document)
    requires d.fetchedAt.None?
    ensures LexLe(FetchedAt(d), FetchedAt(e))
  {
  }
}
