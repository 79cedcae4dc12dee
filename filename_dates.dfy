/** Dates read out of CSV file names. src/data_load_sqlite.py searches a
    name for `(\d{4})-(\d{1,2})-(\d{1,2})(?:_(\d{1,2})_(\d{1,2})_(\d{1,2}))?`
    and src/download_2025_data.py for the date part alone; both then hand
    the numbers to Python's `datetime`, which refuses impossible dates.
    The pattern is matched position by position the way `re.search` does:
    the first index where it matches wins, and the backtracking of
    `\d{1,2}` before a separator is written out. */
module FilenameDates {
  import opened Wrappers
  import opened Text

  datatype Date = Date(year: int, month: int, day: int)
  datatype DateTime = DateTime(date: Date, hour: int, minute: int, second: int)

  predicate IsLeapYear(year: int)
  {
    year % 4 == 0 && (year % 100 != 0 || year % 400 == 0)
  }

  function DaysInMonth(year: int, month: int): int
    requires 1 <= month <= 12
  {
    if month == 2 then (if IsLeapYear(year) then 29 else 28)
    else if month == 4 || month == 6 || month == 9 || month == 11 then 30
    else 31
  }

  /** What `datetime.date(year, month, day)` accepts (years 1 to 9999). */
  predicate ValidDate(d: Date)
  {
    1 <= d.year <= 9999 && 1 <= d.month <= 12 && 1 <= d.day <= DaysInMonth(d.year, d.month)
  }

  predicate ValidTime(hour: int, minute: int, second: int)
  {
    0 <= hour < 24 && 0 <= minute < 60 && 0 <= second < 60
  }

  predicate ValidDateTime(t: DateTime)
  {
    ValidDate(t.date) && ValidTime(t.hour, t.minute, t.second)
  }

  /** Python's ordering of `date` values. */
  predicate DateLe(a: Date, b: Date)
  {
    if a.year != b.year then a.year < b.year
    else if a.month != b.month then a.month < b.month
    else a.day <= b.day
  }

  /** Python's ordering of `datetime` values (no microseconds occur here). */
  predicate DateTimeLe(a: DateTime, b: DateTime)
  {
    if a.date != b.date then DateLe(a.date, b.date)
    else if a.hour != b.hour then a.hour < b.hour
    else if a.minute != b.minute then a.minute < b.minute
    else a.second <= b.second
  }

  lemma DateLeTotalOrder(a: Date, b: Date, c: Date)
    ensures DateLe(a, a)
    ensures DateLe(a, b) || DateLe(b, a)
    ensures DateLe(a, b) && DateLe(b, a) ==> a == b
    ensures DateLe(a, b) && DateLe(b, c) ==> DateLe(a, c)
  {
  }

  lemma DateTimeLeTotalOrder(a: DateTime, b: DateTime, c: DateTime)
    ensures DateTimeLe(a, a)
    ensures DateTimeLe(a, b) || DateTimeLe(b, a)
    ensures DateTimeLe(a, b) && DateTimeLe(b, a) ==> a == b
    ensures DateTimeLe(a, b) && DateTimeLe(b, c) ==> DateTimeLe(a, c)
  {
    DateLeTotalOrder(a.date, b.date, c.date);
  }

  // ---------------------------------------------------------------------
  // The pattern, matched at one index

  /** `(\d{1,2})` followed by `sep`: two digits when the separator follows
      them, otherwise one (the regex engine backtracks to a single digit).
      Gives the value and the index just after the separator. */
  function DigitsThen(s: string, i: nat, sep: char): (r: Option<(nat, nat)>)
    ensures r.Some? ==> i + 2 <= r.value.1 <= |s|
  {
    if i + 2 < |s| && IsDigit(s[i]) && IsDigit(s[i + 1]) && s[i + 2] == sep then
      Some((DigitValue(s[i]) * 10 + DigitValue(s[i + 1]), i + 3))
    else if i + 1 < |s| && IsDigit(s[i]) && s[i + 1] == sep then
      Some((DigitValue(s[i]), i + 2))
    else
      None
  }

  /** `(\d{1,2})` with nothing required after it: as many digits as there
      are, up to two. Gives the value and the index after the digits. */
  function GreedyDigits(s: string, i: nat): (r: Option<(nat, nat)>)
    ensures r.Some? ==> i < r.value.1 <= |s|
  {
    if i + 1 < |s| && IsDigit(s[i]) && IsDigit(s[i + 1]) then
      Some((DigitValue(s[i]) * 10 + DigitValue(s[i + 1]), i + 2))
    else if i < |s| && IsDigit(s[i]) then
      Some((DigitValue(s[i]), i + 1))
    else
      None
  }

  /** `(\d{4})-(\d{1,2})-(\d{1,2})` at index `i`: the fields as written
      (not yet checked by `datetime`) and the index after the match. */
  function DatePart(s: string, i: nat): (r: Option<(Date, nat)>)
    ensures r.Some? ==> i < r.value.1 <= |s|
  {
    if i + 4 < |s| && AllDigits(s[i..i + 4]) && s[i + 4] == '-' then
      match DigitsThen(s, i + 5, '-')
      case None => None
      case Some((month, j)) =>
        match GreedyDigits(s, j)
        case None => None
        case Some((day, k)) => Some((Date(DigitsValue(s[i..i + 4]), month, day), k))
    else
      None
  }

  /** The optional group `(?:_(\d{1,2})_(\d{1,2})_(\d{1,2}))?` at index
      `i`: the hour, minute and second when the group matches there. */
  function TimePart(s: string, i: nat): Option<(nat, nat, nat)>
  {
    if i < |s| && s[i] == '_' then
      match DigitsThen(s, i + 1, '_')
      case None => None
      case Some((hour, j)) =>
        match DigitsThen(s, j, '_')
        case None => None
        case Some((minute, k)) =>
          match GreedyDigits(s, k)
          case None => None
          case Some((second, _)) => Some((hour, minute, second))
    else
      None
  }

  /** `re.search`: the first index from `from` on where the pattern matches.
      The optional time group never decides whether there is a match, so
      both patterns are found at the same index. */
  function FindDate(s: string, from: nat): (r: Option<nat>)
    ensures r.Some? ==> from <= r.value < |s| && DatePart(s, r.value).Some?
    ensures forall j :: from <= j && (r.None? || j < r.value) ==> DatePart(s, j).None?
    decreases |s| - from
  {
    if from >= |s| then None
    else if DatePart(s, from).Some? then Some(from)
    else FindDate(s, from + 1)
  }

  // ---------------------------------------------------------------------
  // The two extractors

  /** `extract_dt_from_filename`: the first match, read as a datetime (at
      midnight when the time group is absent); None when nothing matches or
      `datetime` refuses the fields. */
  function ExtractDt(name: string): (r: Option<DateTime>)
    ensures r.Some? ==> ValidDateTime(r.value)
  {
    match FindDate(name, 0)
    case None => None
    case Some(i) =>
      var (date, j) := DatePart(name, i).value;
      match TimePart(name, j)
      case Some((hour, minute, second)) =>
        if ValidDate(date) && ValidTime(hour, minute, second) then
          Some(DateTime(date, hour, minute, second))
        else
          None
      case None =>
        if ValidDate(date) then Some(DateTime(date, 0, 0, 0)) else None
  }

  /** `extract_date_from_filename`: the first match of the date part, read
      as a date; None when nothing matches or the date is impossible. */
  function ExtractDate(name: string): (r: Option<Date>)
    ensures r.Some? ==> ValidDate(r.value)
  {
    match FindDate(name, 0)
    case None => None
    case Some(i) =>
      var date := DatePart(name, i).value.0;
      if ValidDate(date) then Some(date) else None
  }

  /** Whenever the full pattern yields a datetime, the date-only pattern
      yields its date: the two scripts agree on every name the loader
      accepts. (The converse fails: "x_2025-1-1_25_00_00" has a date but an
      impossible hour.) */
  lemma {:induction false} ExtractDateAgrees(name: string)
    ensures ExtractDt(name).Some? ==> ExtractDate(name) == Some(ExtractDt(name).value.date)
    ensures ExtractDate(name).None? ==> ExtractDt(name).None?
  {
  }

  /** A name in which the pattern matches nowhere reads as None in both
      scripts. */
  lemma NoMatchReadsNothing(name: string)
    requires forall j :: 0 <= j < |name| ==> DatePart(name, j).None?
    ensures ExtractDt(name).None? && ExtractDate(name).None?
  {
  }

  /** The first index where the pattern matches decides both readers: the
      fields written there are taken when `datetime` accepts them, and
      otherwise the result is None, even when a later match would be a
      valid date. Without a time group the datetime is at midnight. */
  lemma FirstMatchDecides(name: string, i: nat)
    requires i < |name| && DatePart(name, i).Some?
    requires forall j :: 0 <= j < i ==> DatePart(name, j).None?
    ensures var (date, k) := DatePart(name, i).value;
      && ExtractDate(name) == (if ValidDate(date) then Some(date) else None)
      && (TimePart(name, k).None? ==>
            ExtractDt(name) == if ValidDate(date) then Some(DateTime(date, 0, 0, 0)) else None)
      && (TimePart(name, k).Some? ==>
            var (hour, minute, second) := TimePart(name, k).value;
            ExtractDt(name) == if ValidDate(date) && ValidTime(hour, minute, second)
                               then Some(DateTime(date, hour, minute, second)) else None)
  {
    assert FindDate(name, 0) == Some(i);
  }

  // ---------------------------------------------------------------------
  // Names written in the publisher's format are read back exactly

  predicate NoDigits(s: string)
  {
    forall k :: 0 <= k < |s| ==> !IsDigit(s[k])
  }

  /** A date written the way the published file names write it: four-digit
      year, month and day without leading zeros. */
  function DateText(d: Date): string
    requires ValidDate(d) && 1000 <= d.year
  {
    NatToString(d.year) + "-" + NatToString(d.month) + "-" + NatToString(d.day)
  }

  /** `_H_M_S` without leading zeros. */
  function TimeText(t: DateTime): string
    requires ValidTime(t.hour, t.minute, t.second)
  {
    "_" + NatToString(t.hour) + "_" + NatToString(t.minute) + "_" + NatToString(t.second)
  }

  lemma SmallNumberText(n: nat)
    requires n < 100
    ensures n < 10 ==> NatToString(n) == [DigitChar(n)]
    ensures 10 <= n ==> NatToString(n) == [DigitChar(n / 10), DigitChar(n % 10)]
  {
  }

  /** `t` is written in `s` from index `i` on. */
  ghost predicate At(s: string, i: nat, t: string)
  {
    i + |t| <= |s| && forall k :: 0 <= k < |t| ==> s[i + k] == t[k]
  }

  lemma AtSplit(s: string, i: nat, a: string, b: string)
    requires At(s, i, a + b)
    ensures At(s, i, a) && At(s, i + |a|, b)
  {
    forall k | 0 <= k < |a| ensures s[i + k] == a[k] {
      assert (a + b)[k] == a[k];
    }
    forall k | 0 <= k < |b| ensures s[i + |a| + k] == b[k] {
      assert (a + b)[|a| + k] == b[k];
    }
  }

  lemma AtChar(s: string, i: nat, c: char)
    requires At(s, i, [c])
    ensures i < |s| && s[i] == c
  {
    assert s[i + 0] == [c][0];
  }

  lemma AtParts(a: string, b: string, c: string, d: string)
    ensures At(a + b + c + d, 0, a) && At(a + b + c + d, |a|, b) && At(a + b + c + d, |a| + |b|, c)
  {
  }

  /** A number below 100 written without leading zero and followed by
      `sep` is read back by `DigitsThen`. */
  lemma {:induction false} DigitsThenAt(s: string, i: nat, n: nat, sep: char)
    requires n < 100 && !IsDigit(sep)
    requires At(s, i, NatToString(n)) && i + |NatToString(n)| < |s| && s[i + |NatToString(n)|] == sep
    ensures DigitsThen(s, i, sep) == Some((n, i + |NatToString(n)| + 1))
  {
    SmallNumberText(n);
    var t := NatToString(n);
    assert s[i] == t[0];
    if |t| == 2 {
      assert s[i + 1] == t[1];
    }
  }

  /** The same number followed by a non-digit or the end is read back by
      `GreedyDigits`. */
  lemma {:induction false} GreedyDigitsAt(s: string, i: nat, n: nat)
    requires n < 100 && At(s, i, NatToString(n))
    requires i + |NatToString(n)| == |s| || !IsDigit(s[i + |NatToString(n)|])
    ensures GreedyDigits(s, i) == Some((n, i + |NatToString(n)|))
  {
    SmallNumberText(n);
    var t := NatToString(n);
    assert s[i] == t[0];
    if |t| == 2 {
      assert s[i + 1] == t[1];
    }
  }

  lemma {:induction false} YearAt(s: string, i: nat, year: nat)
    requires 1000 <= year < 10000 && At(s, i, NatToString(year))
    ensures |NatToString(year)| == 4
    ensures i + 4 <= |s| && AllDigits(s[i..i + 4]) && DigitsValue(s[i..i + 4]) == year
  {
    assert s[i..i + 4] == NatToString(year);
    NatToStringRoundTrip(year);
  }

  /** A date written in the publisher's format is read back by the date
      part of the pattern, when no digit follows it. */
  lemma {:induction false} DatePartAt(s: string, i: nat, d: Date)
    requires ValidDate(d) && 1000 <= d.year && At(s, i, DateText(d))
    requires i + |DateText(d)| == |s| || !IsDigit(s[i + |DateText(d)|])
    ensures DatePart(s, i) == Some((d, i + |DateText(d)|))
  {
    var y, m, dd := NatToString(d.year), NatToString(d.month), NatToString(d.day);
    AtSplit(s, i, y + "-" + m + "-", dd);
    AtSplit(s, i, y + "-" + m, "-");
    AtSplit(s, i, y + "-", m);
    AtSplit(s, i, y, "-");
    YearAt(s, i, d.year);
    AtChar(s, i + 4, '-');
    AtChar(s, i + 5 + |m|, '-');
    DigitsThenAt(s, i + 5, d.month, '-');
    GreedyDigitsAt(s, i + 6 + |m|, d.day);
    DatePartOf(s, i, d.month, i + 6 + |m|, d.day, i + 6 + |m| + |dd|);
  }

  lemma DatePartOf(s: string, i: nat, month: nat, j: nat, day: nat, k: nat)
    requires i + 4 < |s| && AllDigits(s[i..i + 4]) && s[i + 4] == '-'
    requires DigitsThen(s, i + 5, '-') == Some((month, j)) && GreedyDigits(s, j) == Some((day, k))
    ensures DatePart(s, i) == Some((Date(DigitsValue(s[i..i + 4]), month, day), k))
  {
  }

  lemma TimePartOf(s: string, i: nat, hour: nat, j: nat, minute: nat, k: nat, second: nat, l: nat)
    requires i < |s| && s[i] == '_'
    requires DigitsThen(s, i + 1, '_') == Some((hour, j)) && DigitsThen(s, j, '_') == Some((minute, k))
    requires GreedyDigits(s, k) == Some((second, l))
    ensures TimePart(s, i) == Some((hour, minute, second))
  {
  }

  /** A `_H_M_S` time is read back by the optional group, when no digit
      follows it. */
  lemma {:induction false} TimePartAt(s: string, i: nat, t: DateTime)
    requires ValidTime(t.hour, t.minute, t.second) && At(s, i, TimeText(t))
    requires i + |TimeText(t)| == |s| || !IsDigit(s[i + |TimeText(t)|])
    ensures TimePart(s, i) == Some((t.hour, t.minute, t.second))
  {
    var h, m, sec := NatToString(t.hour), NatToString(t.minute), NatToString(t.second);
    AtSplit(s, i, "_" + h + "_" + m + "_", sec);
    AtSplit(s, i, "_" + h + "_" + m, "_");
    AtSplit(s, i, "_" + h + "_", m);
    AtSplit(s, i, "_" + h, "_");
    AtSplit(s, i, "_", h);
    var j := i + 1 + |h| + 1;
    var k := j + |m| + 1;
    AtChar(s, i, '_');
    AtChar(s, j - 1, '_');
    AtChar(s, k - 1, '_');
    DigitsThenAt(s, i + 1, t.hour, '_');
    DigitsThenAt(s, j, t.minute, '_');
    GreedyDigitsAt(s, k, t.second);
    TimePartOf(s, i, t.hour, j, t.minute, k, t.second, k + |sec|);
  }

  /** The search stops at the first index where the date part matches. */
  lemma FindDateAt(s: string, p: nat)
    requires DatePart(s, p).Some?
    requires forall j :: 0 <= j < p ==> DatePart(s, j).None?
    ensures FindDate(s, 0) == Some(p)
  {
  }

  lemma {:induction false} ExtractDtFrom(s: string, p: nat, t: DateTime, q: nat)
    requires ValidDateTime(t) && DatePart(s, p) == Some((t.date, q))
    requires forall j :: 0 <= j < p ==> DatePart(s, j).None?
    requires TimePart(s, q) == Some((t.hour, t.minute, t.second)) || (TimePart(s, q).None? && t.hour == t.minute == t.second == 0)
    ensures ExtractDt(s) == Some(t)
  {
    FindDateAt(s, p);
  }

  lemma {:induction false} ExtractDateFrom(s: string, p: nat, d: Date, q: nat)
    requires ValidDate(d) && DatePart(s, p) == Some((d, q))
    requires forall j :: 0 <= j < p ==> DatePart(s, j).None?
    ensures ExtractDate(s) == Some(d)
  {
    FindDateAt(s, p);
  }

  /** No match can start inside a prefix without digits. */
  lemma {:induction false} NoMatchInPrefix(prefix: string, s: string)
    requires NoDigits(prefix) && At(s, 0, prefix)
    ensures forall j :: 0 <= j < |prefix| ==> DatePart(s, j).None?
  {
    forall j | 0 <= j < |prefix|
      ensures DatePart(s, j).None?
    {
      assert s[0 + j] == prefix[j];
      if j + 4 < |s| {
        assert s[j..j + 4][0] == s[j];
      }
    }
  }

  /** After a digit-free prefix, the first match is a date written there. */
  lemma {:induction false} FirstDateAt(s: string, prefix: string, d: Date)
    requires NoDigits(prefix) && ValidDate(d) && 1000 <= d.year
    requires At(s, 0, prefix) && At(s, |prefix|, DateText(d))
    requires |prefix| + |DateText(d)| == |s| || !IsDigit(s[|prefix| + |DateText(d)|])
    ensures DatePart(s, |prefix|) == Some((d, |prefix| + |DateText(d)|))
    ensures forall j :: 0 <= j < |prefix| ==> DatePart(s, j).None?
  {
    DatePartAt(s, |prefix|, d);
    NoMatchInPrefix(prefix, s);
  }

  /** A name made of a digit-free prefix, a date and a rest that does not
      start with a digit yields exactly that date. */
  lemma {:induction false} ExtractDateRoundTrip(prefix: string, d: Date, rest: string)
    requires NoDigits(prefix) && ValidDate(d) && 1000 <= d.year
    requires rest == [] || !IsDigit(rest[0])
    ensures ExtractDate(prefix + DateText(d) + rest) == Some(d)
  {
    var s := prefix + DateText(d) + rest;
    AtParts(prefix, DateText(d), rest, []);
    assert s + [] == s;
    if rest != [] {
      assert s[|prefix| + |DateText(d)|] == rest[0];
    }
    FirstDateAt(s, prefix, d);
    ExtractDateFrom(s, |prefix|, d, |prefix| + |DateText(d)|);
  }

  /** A name made of a digit-free prefix, a date, a `_H_M_S` time and a rest
      that does not start with a digit yields exactly that datetime; this
      is the shape of the publisher's `Historia_przejazdow_2025-8-18_18_29_14.csv`. */
  lemma {:induction false} ExtractDtRoundTrip(prefix: string, t: DateTime, rest: string)
    requires NoDigits(prefix) && ValidDateTime(t) && 1000 <= t.date.year
    requires rest == [] || !IsDigit(rest[0])
    ensures ExtractDt(prefix + DateText(t.date) + TimeText(t) + rest) == Some(t)
  {
    var s := prefix + DateText(t.date) + TimeText(t) + rest;
    var j := |prefix| + |DateText(t.date)|;
    AtParts(prefix, DateText(t.date), TimeText(t), rest);
    if rest != [] {
      assert s[j + |TimeText(t)|] == rest[0];
    }
    DateThenTime(s, prefix, t);
  }

  lemma {:induction false} DateThenTime(s: string, prefix: string, t: DateTime)
    requires NoDigits(prefix) && ValidDateTime(t) && 1000 <= t.date.year
    requires At(s, 0, prefix) && At(s, |prefix|, DateText(t.date))
    requires At(s, |prefix| + |DateText(t.date)|, TimeText(t))
    requires var k := |prefix| + |DateText(t.date)| + |TimeText(t)|; k == |s| || !IsDigit(s[k])
    ensures ExtractDt(s) == Some(t)
  {
    var j := |prefix| + |DateText(t.date)|;
    assert s[j + 0] == TimeText(t)[0];
    FirstDateAt(s, prefix, t.date);
    TimePartAt(s, j, t);
    ExtractDtFrom(s, |prefix|, t, j);
  }

  /** Without a time group the datetime is midnight of the date. */
  lemma {:induction false} ExtractDtMidnight(prefix: string, d: Date, rest: string)
    requires NoDigits(prefix) && ValidDate(d) && 1000 <= d.year
    requires rest == [] || (!IsDigit(rest[0]) && rest[0] != '_')
    ensures ExtractDt(prefix + DateText(d) + rest) == Some(DateTime(d, 0, 0, 0))
  {
    var s := prefix + DateText(d) + rest;
    var j := |prefix| + |DateText(d)|;
    AtParts(prefix, DateText(d), rest, []);
    assert s + [] == s;
    if j < |s| {
      assert s[j] == rest[0];
    }
    DateAlone(s, prefix, d);
  }

  lemma {:induction false} DateAlone(s: string, prefix: string, d: Date)
    requires NoDigits(prefix) && ValidDate(d) && 1000 <= d.year
    requires At(s, 0, prefix) && At(s, |prefix|, DateText(d))
    requires var j := |prefix| + |DateText(d)|; j == |s| || (!IsDigit(s[j]) && s[j] != '_')
    ensures ExtractDt(s) == Some(DateTime(d, 0, 0, 0))
  {
    FirstDateAt(s, prefix, d);
    ExtractDtFrom(s, |prefix|, DateTime(d, 0, 0, 0), |prefix| + |DateText(d)|);
  }

  lemma Year2025Text()
    ensures NatToString(2025) == "2025"
  {
    assert NatToString(2) == "2";
    assert NatToString(20) == "20";
    assert NatToString(202) == "202";
  }

  /** The documented example names read as documented. */
  lemma {:induction false} DocumentedDtName(name: string)
    requires name == "Historia_przejazdow_" + "2025-8-18" + "_18_29_14" + ".csv"
    ensures ExtractDt(name) == Some(DateTime(Date(2025, 8, 18), 18, 29, 14))
  {
    var t := DateTime(Date(2025, 8, 18), 18, 29, 14);
    Year2025Text();
    assert NatToString(8) == "8";
    assert NatToString(18) == "18";
    assert NatToString(29) == "29";
    assert NatToString(14) == "14";
    assert DateText(t.date) == "2025-8-18";
    assert TimeText(t) == "_18_29_14";
    ExtractDtRoundTrip("Historia_przejazdow_", t, ".csv");
  }

  lemma {:induction false} DocumentedDateName(name: string)
    requires name == "Historia_przejazdow_" + "2025-4-2" + "_16_19_13.csv"
    ensures ExtractDate(name) == Some(Date(2025, 4, 2))
  {
    Year2025Text();
    assert NatToString(4) == "4";
    assert NatToString(2) == "2";
    assert DateText(Date(2025, 4, 2)) == "2025-4-2";
    ExtractDateRoundTrip("Historia_przejazdow_", Date(2025, 4, 2), "_16_19_13.csv");
  }
}
