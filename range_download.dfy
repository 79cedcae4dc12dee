/** `filter_csvs_in_range` of src/download_2025_data.py: the listed URLs
    that end in ".csv" (ignoring case) and whose file name carries a date
    inside the download window. The window's ends are the module constants
    START_DATE and END_DATE (the latter read from the clock), so they are
    parameters here. */
module RangeDownload {
  import opened Wrappers
  import opened Text
  import opened Seqs
  import opened Paths
  import opened FilenameDates

  /** `in_range`: START_DATE <= d <= END_DATE, both ends included. */
  predicate InRange(d: Date, start: Date, end: Date)
  {
    DateLe(start, d) && DateLe(d, end)
  }

  /** `u.lower().endswith('.csv')`. */
  predicate IsCsvUrl(u: string)
  {
    EndsWith(Lower(u), ".csv")
  }

  /** The ".csv" test ignores case: it holds exactly when the URL ends in a
      dot followed by "csv" with each letter in either case. */
  lemma IsCsvUrlIgnoresCase(u: string)
    ensures IsCsvUrl(u) <==>
              && |u| >= 4
              && u[|u| - 4] == '.'
              && (u[|u| - 3] == 'c' || u[|u| - 3] == 'C')
              && (u[|u| - 2] == 's' || u[|u| - 2] == 'S')
              && (u[|u| - 1] == 'v' || u[|u| - 1] == 'V')
  {
    if |u| >= 4 {
      var n := |u|;
      var t := Lower(u)[n - 4..];
      assert t == [AsciiLower(u[n - 4]), AsciiLower(u[n - 3]), AsciiLower(u[n - 2]), AsciiLower(u[n - 1])];
    }
  }

  /** The test applied to each URL; the file name is `os.path.basename(u)`
      of the URL as listed, query string included. */
  predicate Wanted(start: Date, end: Date, u: string)
  {
    && IsCsvUrl(u)
    && ExtractDate(Basename(u)).Some?
    && InRange(ExtractDate(Basename(u)).value, start, end)
  }

  function WantedIn(start: Date, end: Date): string -> bool
  {
    u => Wanted(start, end, u)
  }

  function CsvsInRange(urls: seq<string>, start: Date, end: Date): seq<string>
  {
    Filter(urls, WantedIn(start, end))
  }

  method FilterCsvsInRange(urls: seq<string>, start: Date, end: Date) returns (filtered: seq<string>)
    ensures filtered == CsvsInRange(urls, start, end)
  {
    filtered := [];
    for i := 0 to |urls|
      invariant filtered == Filter(urls[..i], WantedIn(start, end))
    {
      FilterPrefixStep(urls, i, WantedIn(start, end));
      var u := urls[i];
      if !EndsWith(Lower(u), ".csv") {
        assert !WantedIn(start, end)(u);
        continue;
      }
      var d := ExtractDate(Basename(u));
      if d.Some? && InRange(d.value, start, end) {
        assert WantedIn(start, end)(u);
        filtered := filtered + [u];
      } else {
        assert !WantedIn(start, end)(u);
      }
    }
    assert urls[..|urls|] == urls;
  }

  /** A URL is downloaded exactly when it is listed, names a CSV file and
      its file name carries a date inside the window. */
  lemma CsvsInRangeMembers(urls: seq<string>, start: Date, end: Date, u: string)
    ensures u in CsvsInRange(urls, start, end) <==>
              && u in urls
              && IsCsvUrl(u)
              && ExtractDate(Basename(u)).Some?
              && DateLe(start, ExtractDate(Basename(u)).value)
              && DateLe(ExtractDate(Basename(u)).value, end)
  {
    FilterMembers(urls, WantedIn(start, end), u);
  }

  /** The downloads happen in listing order, each listed URL at most as
      often as it is listed. */
  lemma CsvsInRangeKeepsOrder(urls: seq<string>, start: Date, end: Date)
    ensures IsSubsequence(CsvsInRange(urls, start, end), urls)
  {
    FilterIsSubsequence(urls, WantedIn(start, end));
  }

  /** A window whose end comes before its start selects nothing. */
  lemma EmptyWindowSelectsNothing(urls: seq<string>, start: Date, end: Date)
    requires !DateLe(start, end)
    ensures CsvsInRange(urls, start, end) == []
  {
    var r := CsvsInRange(urls, start, end);
    if r != [] {
      CsvsInRangeMembers(urls, start, end, r[0]);
      DateLeTotalOrder(start, ExtractDate(Basename(r[0])).value, end);
    }
  }

  /** A single-day window selects exactly the CSV URLs dated that day. */
  lemma SingleDayWindow(urls: seq<string>, day: Date, u: string)
    ensures u in CsvsInRange(urls, day, day) <==>
              u in urls && IsCsvUrl(u) && ExtractDate(Basename(u)) == Some(day)
  {
    CsvsInRangeMembers(urls, day, day, u);
    if ExtractDate(Basename(u)).Some? {
      DateLeTotalOrder(day, ExtractDate(Basename(u)).value, day);
    }
  }
}
