/** `pick_latest_csv` of src/data_load_sqlite.py: among the listed CSV
    URLs, the one whose file name carries the newest datetime. */
module LatestCsv {
  import opened Wrappers
  import opened StableSort
  import opened Paths
  import opened FilenameDates

  /** A listed URL, its file name `os.path.basename(urlparse(u).path)` and
      the datetime `extract_dt_from_filename` reads from that name. */
  datatype Listed = Listed(url: string, name: string, dt: Option<DateTime>)

  /** An entry of the `dated` list: the datetime, the URL and its file name. */
  datatype Dated = Dated(dt: DateTime, url: string, name: string)

  function FileName(u: string): string
  {
    Basename(UrlPath(u))
  }

  /** Each listed URL with its file name and datetime, in listing order. */
  function Named(urls: seq<string>): (listed: seq<Listed>)
    ensures |listed| == |urls|
  {
    if urls == [] then [] else Named(urls[..|urls| - 1]) + [Scan(urls[|urls| - 1])]
  }

  lemma {:induction false} NamedAt(urls: seq<string>, j: nat)
    requires j < |urls|
    ensures Named(urls)[j] == Scan(urls[j])
  {
    var init := urls[..|urls| - 1];
    if j < |init| {
      NamedAt(init, j);
      assert init[j] == urls[j];
    } else {
      assert j == |urls| - 1;
    }
  }

  function Scan(u: string): Listed
  {
    Listed(u, FileName(u), ExtractDt(FileName(u)))
  }

  /** The `dated` list: the listed URLs whose file names carry a datetime,
      in listing order. */
  function DatedOf(listed: seq<Listed>): (d: seq<Dated>)
    ensures |d| <= |listed|
  {
    if listed == [] then []
    else
      var l := listed[|listed| - 1];
      DatedOf(listed[..|listed| - 1]) + (if l.dt.Some? then [Dated(l.dt.value, l.url, l.name)] else [])
  }

  /** The order of `sort(key=lambda x: x[0], reverse=True)`: `a` may come
      before `b` when it is at least as new. Python's reverse sort is still
      stable, so entries with equal datetimes keep their listing order. */
  predicate NewerFirst(a: Dated, b: Dated)
  {
    DateTimeLe(b.dt, a.dt)
  }

  /** The head of the sorted `dated` list as `(url, filename)`, or None
      (Python's `(None, None)`) when no name is dated. */
  function Pick(listed: seq<Listed>): Option<(string, string)>
  {
    var dated := DatedOf(listed);
    if dated == [] then None
    else
      var sorted := SortBy(dated, NewerFirst);
      Some((sorted[0].url, sorted[0].name))
  }

  /** The result of `pick_latest_csv`. */
  function LatestCsvOf(urls: seq<string>): Option<(string, string)>
  {
    Pick(Named(urls))
  }

  method PickLatestCsv(urls: seq<string>) returns (r: Option<(string, string)>)
    ensures r == LatestCsvOf(urls)
  {
    var dated: seq<Dated> := [];
    for i := 0 to |urls|
      invariant dated == DatedOf(Named(urls[..i]))
    {
      var u := urls[i];
      var name := Basename(UrlPath(u));
      var dtv := ExtractDt(name);
      DatedStep(urls, i);
      if dtv.Some? {
        dated := dated + [Dated(dtv.value, u, name)];
      }
    }
    assert urls[..|urls|] == urls;
    if dated == [] {
      return None;
    }
    var sorted := SortBy(dated, NewerFirst);
    r := Some((sorted[0].url, sorted[0].name));
  }

  lemma DatedStep(urls: seq<string>, i: nat)
    requires i < |urls|
    ensures var l := Scan(urls[i]);
      DatedOf(Named(urls[..i + 1])) == DatedOf(Named(urls[..i])) + (if l.dt.Some? then [Dated(l.dt.value, l.url, l.name)] else [])
  {
    assert urls[..i + 1][..i] == urls[..i];
  }

  /** Index `k` holds the first listed entry with the newest datetime, and
      the sorted `dated` list starts with that entry. */
  ghost predicate FirstNewestAt(listed: seq<Listed>, k: nat)
  {
    && k < |listed|
    && listed[k].dt.Some?
    && DatedOf(listed) != []
    && SortBy(DatedOf(listed), NewerFirst)[0] == Dated(listed[k].dt.value, listed[k].url, listed[k].name)
    && (forall j :: 0 <= j < |listed| && listed[j].dt.Some? ==> DateTimeLe(listed[j].dt.value, listed[k].dt.value))
    && (forall j :: 0 <= j < k ==> listed[j].dt != listed[k].dt)
  }

  /** The picked entry is the first listed one among those carrying the
      newest datetime, and nothing is picked exactly when no file name
      carries a datetime. */
  lemma {:induction false} PickIsFirstNewest(listed: seq<Listed>) returns (k: nat)
    ensures Pick(listed).None? <==> forall j :: 0 <= j < |listed| ==> listed[j].dt.None?
    ensures Pick(listed).Some? ==> FirstNewestAt(listed, k) && Pick(listed) == Some((listed[k].url, listed[k].name))
  {
    k := 0;
    DatedNoneIff(listed);
    if listed == [] {
      return;
    }
    var init, l := listed[..|listed| - 1], listed[|listed| - 1];
    assert listed == init + [l];
    var k0 := PickIsFirstNewest(init);
    DatedNoneIff(init);
    if l.dt.None? {
      if DatedOf(init) != [] {
        UndatedKeepsPick(init, l, k0);
      }
      k := k0;
    } else if DatedOf(init) == [] {
      FirstDated(init, l);
      k := |init|;
    } else if DateTimeLe(l.dt.value, init[k0].dt.value) {
      OlderKeepsPick(init, l, k0);
      k := k0;
    } else {
      NewerTakesPick(init, l, k0);
      k := |init|;
    }
  }

  lemma {:induction false} UndatedKeepsPick(init: seq<Listed>, l: Listed, k: nat)
    requires l.dt.None? && FirstNewestAt(init, k)
    ensures FirstNewestAt(init + [l], k)
  {
    var listed := init + [l];
    assert listed[..|listed| - 1] == init;
    assert DatedOf(listed) == DatedOf(init);
    assert forall j :: 0 <= j < |init| ==> listed[j] == init[j];
  }

  lemma {:induction false} FirstDated(init: seq<Listed>, l: Listed)
    requires l.dt.Some? && DatedOf(init) == []
    ensures FirstNewestAt(init + [l], |init|)
  {
    var listed := init + [l];
    var e := Dated(l.dt.value, l.url, l.name);
    assert listed[..|listed| - 1] == init;
    assert DatedOf(listed) == [e];
    SortByHead(DatedOf(init), e, NewerFirst);
    DatedNoneIff(init);
    assert forall j :: 0 <= j < |init| ==> listed[j] == init[j];
    DateTimeLeTotalOrder(l.dt.value, l.dt.value, l.dt.value);
  }

  lemma {:induction false} OlderKeepsPick(init: seq<Listed>, l: Listed, k: nat)
    requires l.dt.Some? && FirstNewestAt(init, k) && DateTimeLe(l.dt.value, init[k].dt.value)
    ensures FirstNewestAt(init + [l], k)
  {
    var e := Dated(l.dt.value, l.url, l.name);
    DatedSnoc(init, l);
    SortByHead(DatedOf(init), e, NewerFirst);
    assert forall j :: 0 <= j < |init| ==> (init + [l])[j] == init[j];
  }

  lemma {:induction false} NewerTakesPick(init: seq<Listed>, l: Listed, k: nat)
    requires l.dt.Some? && FirstNewestAt(init, k) && !DateTimeLe(l.dt.value, init[k].dt.value)
    ensures FirstNewestAt(init + [l], |init|)
  {
    var listed := init + [l];
    var t, t0 := l.dt.value, init[k].dt.value;
    var e := Dated(t, l.url, l.name);
    DatedSnoc(init, l);
    SortByHead(DatedOf(init), e, NewerFirst);
    assert forall j :: 0 <= j < |init| ==> listed[j] == init[j];
    DateTimeLeTotalOrder(t, t, t);
    forall j | 0 <= j < |init| && init[j].dt.Some?
      ensures DateTimeLe(init[j].dt.value, t) && init[j].dt != l.dt
    {
      DateTimeLeTotalOrder(init[j].dt.value, t0, t);
    }
  }

  lemma DatedSnoc(init: seq<Listed>, l: Listed)
    ensures l.dt.Some? ==> DatedOf(init + [l]) == DatedOf(init) + [Dated(l.dt.value, l.url, l.name)]
    ensures l.dt.None? ==> DatedOf(init + [l]) == DatedOf(init)
  {
    var listed := init + [l];
    assert listed[..|listed| - 1] == init;
  }

  lemma {:induction false} DatedNoneIff(listed: seq<Listed>)
    ensures DatedOf(listed) == [] <==> forall j :: 0 <= j < |listed| ==> listed[j].dt.None?
  {
    if listed != [] {
      var init := listed[..|listed| - 1];
      DatedNoneIff(init);
      assert forall j :: 0 <= j < |init| ==> listed[j] == init[j];
    }
  }

  /** `pick_latest_csv` in the listing's own terms: the URL at index `k`
      with its file name, where `k` is the first URL whose file name carries
      the newest datetime of the listing. */
  lemma {:induction false} LatestCsvIsFirstNewest(urls: seq<string>) returns (k: nat)
    ensures LatestCsvOf(urls).None? <==> forall j :: 0 <= j < |urls| ==> ExtractDt(FileName(urls[j])).None?
    ensures LatestCsvOf(urls).Some? ==>
              && k < |urls|
              && LatestCsvOf(urls) == Some((urls[k], FileName(urls[k])))
              && ExtractDt(FileName(urls[k])).Some?
              && (forall j :: 0 <= j < |urls| && ExtractDt(FileName(urls[j])).Some? ==>
                    DateTimeLe(ExtractDt(FileName(urls[j])).value, ExtractDt(FileName(urls[k])).value))
              && (forall j :: 0 <= j < k ==> ExtractDt(FileName(urls[j])) != ExtractDt(FileName(urls[k])))
  {
    k := PickIsFirstNewest(Named(urls));
    forall j | 0 <= j < |urls| ensures Named(urls)[j] == Scan(urls[j]) {
      NamedAt(urls, j);
    }
  }
}
