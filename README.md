# Wrocław bike statistics: a verified model of the core

This project models the core of the Wrocław city-bike statistics
repository and proves properties of that model. The core has two halves.

The first half is the Python tooling:

- the bike status-change recorder (`src/bike_status_changes.py`):
  - it picks the two newest Nextbike snapshots by their `_fetched_at`
    stamp;
  - it loads each one into an index from bike number to station record;
  - it diffs the two indexes into "departed" and "arrived" events;
  - it appends the events to the `bike_status_changes` table.
- the CSV pickers of the ride-history downloaders
  (`src/data_load_sqlite.py`, `src/download_2025_data.py`):
  - they read a date or a datetime out of a file name such as
    `Historia_przejazdow_2025-8-18_18_29_14.csv`;
  - they pick the newest listed file;
  - they keep the files whose date falls inside the download window.

The second half is the static dashboard (`web/js/app.js`):

- it sorts the day keys;
- it clamps the chosen dates into the known span;
- it opens on the last seven days;
- over a date range it computes:
  - the average rentals per hour;
  - the busiest stations;
  - the most frequent routes.

## Modules

| module | models |
|---|---|
| `Wrappers` | `Option` and `Result`, for Python's `None` and for raised errors |
| `Text` | digits and `str()` of integers, ASCII upper/lower case, and the character-by-character string ordering of `<` in Python and JavaScript |
| `Seqs` | list filtering (comprehensions, `Array.prototype.filter`) and subsequences |
| `StableSort` | the stable sorts of `list.sort` and `Array.prototype.sort`, as insertion sort over a total preorder |
| `OrderedMap` | Python `dict` and JavaScript `Map`: keys kept in first-insertion order, and a later assignment to a key replaces its value in place |
| `Paths` | `os.path.basename` and the path part of `urllib.parse.urlparse` |
| `FilenameDates` | `extract_dt_from_filename` and `extract_date_from_filename`; each matches its regular expression position by position, as `re.search` does, and then applies `datetime`'s validity rules |
| `LatestCsv` | `pick_latest_csv` |
| `RangeDownload` | `in_range` and `filter_csvs_in_range` |
| `Snapshot` | `load_snapshot` |
| `Selector` | `get_latest_files` |
| `Diff` | `diff_snapshots` |
| `EventSink` | `save_events_to_db`, as a class whose state is the table's rows |
| `StatusChanges` | `main` of the recorder |
| `Dashboard` | `loadData`'s date sort, `clampDate`, `filterDatesInRange`, and the default range and change handler of `initDates` |
| `DashboardHistogram` | `aggregateHistogramAvg` |
| `DashboardTop` | `aggregateBusiestStations` and `aggregateTopRoutes` |

Some source operations mutate state. Each of them is a method:

- the loops of `load_snapshot`, `diff_snapshots`, `get_latest_files`,
  `pick_latest_csv`, `filter_csvs_in_range`, `aggregateHistogramAvg` and
  the two top-N aggregations;
- the database insert.

Each such method is proved equal to a function. Lemmas then state what that
function means.

A place counts as freestanding only when its `placeType` is exactly
`"FREESTANDING_BIKE"` (src/bike_status_changes.py:46). Its bikes are then
recorded at station "freestanding". Any other `placeType` is recorded under
the place's name and `str(uid)`.

## Model

| member | source | states |
|---|---|---|
| `FilenameDates.DateLeTotalOrder` | src/download_2025_data.py:45-46 | date comparison is a total order: reflexive, total, antisymmetric and transitive |
| `FilenameDates.DateTimeLeTotalOrder` | src/data_load_sqlite.py:80 | datetime comparison, the sort key of `pick_latest_csv`, is a total order |
| `FilenameDates.FindDate` | src/data_load_sqlite.py:49 | `re.search` semantics: the returned index is the first position at or after `from` where the date pattern matches; no earlier position matches, and None means no position matches |
| `FilenameDates.NoMatchReadsNothing` | src/data_load_sqlite.py:49-51 | when the pattern matches at no index of the name, both readers give None (also src/download_2025_data.py:35-37) |
| `FilenameDates.FirstMatchDecides` | src/data_load_sqlite.py:49-58 | the first index where the pattern matches decides. The date reader gives the date written there when `date` accepts it, and None otherwise, even when a later match is a valid date (src/download_2025_data.py:35-42). The datetime reader gives midnight of that date when no time group follows, and the written time when one does, provided `datetime` accepts every field; otherwise it gives None |
| `FilenameDates.ExtractDateAgrees` | src/download_2025_data.py:35-42 | whenever the datetime reader finds a datetime, the date reader finds its date; when the date reader finds nothing, neither does the datetime reader |
| `FilenameDates.ExtractDtRoundTrip` | src/data_load_sqlite.py:49-55 | a name made of a digit-free prefix, `Y-M-D_h_m_s` written without padding, and a suffix that does not start with a digit reads back as exactly that datetime |
| `FilenameDates.ExtractDtMidnight` | src/data_load_sqlite.py:54-56 | with no time part after the date (the next character is neither a digit nor '_'), the datetime read is midnight of that date |
| `FilenameDates.ExtractDateRoundTrip` | src/download_2025_data.py:35-40 | a digit-free prefix, then `Y-M-D`, then a suffix not starting with a digit reads back as exactly that date |
| `FilenameDates.DocumentedDtName` | src/data_load_sqlite.py:48 | example, one name only: the documented example name gives 2025-08-18 18:29:14 |
| `FilenameDates.DocumentedDateName` | src/download_2025_data.py:32 | example, one name only: the documented example name gives 2025-04-02 |
| `Paths.Basename` | src/download_2025_data.py:84 | the result is the suffix of the path after its last '/', contains no '/', and is preceded by '/' whenever it is shorter than the path |
| `Paths.BasenameOfSlashName` | src/download_2025_data.py:84 | for every directory text and every file name without '/', the basename of `dir/file` is `file` |
| `Paths.UrlPath` | src/data_load_sqlite.py:74 | the path part never contains the query or the fragment |
| `Paths.UrlFileNameIsLastSegment` | src/data_load_sqlite.py:74 | the file name taken from a URL contains no '/', '?' or '#' |
| `Paths.UrlPathOfPlainUrl` | src/data_load_sqlite.py:74 | for `scheme://host/path` without query or fragment, the path part is exactly `/path` |
| `LatestCsv.PickLatestCsv` | src/data_load_sqlite.py:71-82 | the loop that builds `dated`, followed by the reverse sort and the head, returns `LatestCsvOf(urls)` |
| `LatestCsv.PickIsFirstNewest` | src/data_load_sqlite.py:78-82 | nothing is picked exactly when no entry is dated; otherwise the pick is the first listed entry with the newest datetime, because the reverse sort is stable |
| `LatestCsv.LatestCsvIsFirstNewest` | src/data_load_sqlite.py:71-82 | in terms of the URL list: `(None, None)` exactly when no file name yields a datetime; otherwise the URL at some index `k` with its file name, where `k` has the newest datetime and no earlier URL has that same datetime |
| `RangeDownload.FilterCsvsInRange` | src/download_2025_data.py:79-88 | the loop returns `CsvsInRange(urls, start, end)` |
| `RangeDownload.CsvsInRangeMembers` | src/download_2025_data.py:79-88 | a URL is selected exactly when it is listed, ends in ".csv" ignoring case, and its basename yields a date with START_DATE <= date <= END_DATE |
| `RangeDownload.IsCsvUrlIgnoresCase` | src/download_2025_data.py:82 | `u.lower().endswith('.csv')` holds exactly when the URL ends in '.' followed by c, s, v, each in either case |
| `RangeDownload.CsvsInRangeKeepsOrder` | src/download_2025_data.py:80-88 | the selection is a subsequence of the listing |
| `RangeDownload.EmptyWindowSelectsNothing` | src/download_2025_data.py:45-46 | a window whose end precedes its start selects nothing |
| `RangeDownload.SingleDayWindow` | src/download_2025_data.py:45-46 | a one-day window selects exactly the CSV URLs dated that day |
| `Snapshot.PlaceLocation` | src/bike_status_changes.py:45-53 | it fails exactly when `geoCoords`, `lat` or `lng` is missing; a `FREESTANDING_BIKE` place is recorded as station "freestanding"/"freestanding"; any other place is recorded under its name and `str(uid)` |
| `Snapshot.TypeOf` | src/bike_status_changes.py:56-57 | a bike is electric exactly when its upper-cased `bikeType` text starts with "ELECTRIC" |
| `Snapshot.ElectricIgnoresCase` | src/bike_status_changes.py:56-57 | a bike is electric exactly when its `bikeType` text starts with the eight letters of "electric", each in either case |
| `Snapshot.Load` | src/bike_status_changes.py:25-66 | a loaded index has each bike number once, and every key has a record |
| `Snapshot.LoadSnapshot` | src/bike_status_changes.py:25-66 | the loop over places and bikes, filling the index in place, returns `Load(doc)`, including the first error raised |
| `Snapshot.IndexBikes` | src/bike_status_changes.py:54-65 | entering one place's bikes either raises that list's error or extends the index by the list's assignments |
| `Snapshot.BikeRecordsErrorPersists` | src/bike_status_changes.py:54-55 | once a bike without `number` is reached, the whole place raises that error |
| `Snapshot.RecordsErrorPersists` | src/bike_status_changes.py:41-55 | once a place raises, loading raises that same error |
| `Snapshot.BikeRecordsOkIff` | src/bike_status_changes.py:54-55 | a place's bikes load exactly when every bike has a `number` |
| `Snapshot.BikeRecordsMatch` | src/bike_status_changes.py:54-65 | one assignment per bike, in list order, keyed by `str(number)`, with the place's location, the bike's type and the bike's battery |
| `Snapshot.RecordsOkIff` | src/bike_status_changes.py:41-55 | the places load exactly when every place either has no bikes, or has coordinates and only numbered bikes |
| `Snapshot.RecordsMatchOccurrences` | src/bike_status_changes.py:41-65 | the assignments are exactly one per bike of every place with bikes, in visiting order |
| `Snapshot.LoadOkIff` | src/bike_status_changes.py:37-55 | loading succeeds exactly when the `data[0].cities[0].places` path exists and every place is loadable |
| `Snapshot.LoadedKeys` | src/bike_status_changes.py:37-65 | the timestamp is `_fetched_at`; a number is in the index exactly when some bike listed at a place has it |
| `Snapshot.LoadedLastOccurrenceWins` | src/bike_status_changes.py:58-65 | a number's record is the one from its last occurrence: that place's location, that bike's type and battery |
| `Selector.PyTailStart` | src/bike_status_changes.py:84 | Python's `[-count:]` keeps min(count, n) items for a positive count, and everything for a count of 0 |
| `Selector.Readable` | src/bike_status_changes.py:75-82 | the meta list is no longer than the candidate list |
| `Selector.GetLatestFiles` | src/bike_status_changes.py:69-84 | the method (collect the readable files, sort in place, take the tail) returns the files of `Latest(files, count)` in order |
| `Selector.KeyLeTotalPreorder` | src/bike_status_changes.py:83 | ordering by `_fetched_at` is a total preorder |
| `Selector.ReadableMembers` | src/bike_status_changes.py:75-82 | the meta entries are exactly the readable files, each keyed by `_fetched_at`, or "" when it is missing |
| `Selector.LatestAreNewest` | src/bike_status_changes.py:83-84 | for a positive count: min(count, readable) entries, in ascending stamp order, drawn from the readable files; every readable file left out is no newer than any file kept |
| `Selector.ZeroCountKeepsAll` | src/bike_status_changes.py:84 | a count of 0 keeps every readable file (`meta[-0:]`) |
| `Selector.MissingTimestampSortsFirst` | src/bike_status_changes.py:80 | a snapshot without `_fetched_at` sorts before every other |
| `Diff.DiffSnapshots` | src/bike_status_changes.py:87-138 | the two loops return `DiffEvents(prev, curr, ts)` |
| `Diff.DepartureEvents` | src/bike_status_changes.py:96-124 | the first loop emits the per-bike departures and moves in the previous index's insertion order |
| `Diff.AppendArrivals` | src/bike_status_changes.py:127-136 | the second loop appends the new bikes in the current index's insertion order |
| `Diff.EventsOfBike` | src/bike_status_changes.py:96-136 | per bike: a vanished bike gets one departure with its old record; a bike whose station id changed gets a departure then an arrival; a bike at the same station gets nothing; a new bike gets one arrival with its new record; an absent bike gets nothing |
| `Diff.DeparturesOf` | src/bike_status_changes.py:96-124 | the first loop's events for a bike are exactly that bike's step |
| `Diff.ArrivalsOf` | src/bike_status_changes.py:127-136 | the second loop's events for a bike are exactly that bike's step |
| `Diff.DeparturesTimestamps` | src/bike_status_changes.py:96-124 | every first-loop event carries the given timestamp and a bike of the previous index |
| `Diff.ArrivalsShape` | src/bike_status_changes.py:127-136 | every second-loop event is an arrival of a bike absent from the previous index, with the given timestamp |
| `Diff.DiffPhases` | src/bike_status_changes.py:96-136 | all events carry the timestamp; the departures and moves come first, and the arrivals of new bikes follow |
| `Diff.MoveIsAdjacentPair` | src/bike_status_changes.py:107-124 | a moved bike's departure is immediately followed by its arrival |
| `Diff.DiffOfSelfIsEmpty` | src/bike_status_changes.py:96-136 | diffing a snapshot against itself yields no events |
| `EventSink.EventStore.SaveEvents` | src/bike_status_changes.py:141-188 | an empty batch returns before the database is touched; otherwise the table exists afterwards and the batch is appended, in order, after the rows already there |
| `StatusChanges.Run` | src/bike_status_changes.py:191-200 | the run returns `RunResult(files)`; the store gains exactly the events of a recorded run and is untouched otherwise |
| `StatusChanges.NotEnoughIffFewerThanTwo` | src/bike_status_changes.py:192-195 | the run stops with the warning exactly when fewer than two snapshot files are readable |
| `StatusChanges.NewerIsNewest` | src/bike_status_changes.py:83-84 | with two or more readable files, the two selected are in stamp order and the second is at least as new as every readable file |
| `StatusChanges.RecordedRunUsesNewestPair` | src/bike_status_changes.py:192-198 | a recorded run diffs the two newest snapshots, older first, and stamps every event with the newer one's `_fetched_at` |
| `Dashboard.LexLeTotalPreorder` | web/js/app.js:22 | JavaScript's default string order is a total preorder |
| `Dashboard.LoadedDatesAscending` | web/js/app.js:22 | the stored dates are strictly increasing and are exactly the keys of `days` (none when `days` is missing) |
| `Dashboard.ClampDate` | web/js/app.js:56-58 | the result is the input, `min` or `max` |
| `Dashboard.ClampDateWithin` | web/js/app.js:56-58 | for `min <= max` the result lies in [min, max]; an input already inside is returned unchanged; an input before `min` becomes `min`, and one after `max` (and not before `min`) becomes `max` |
| `Dashboard.FilterDatesInRangeSpec` | web/js/app.js:99-101 | a date is kept exactly when it is stored and start <= date <= end; the kept dates keep their order; sorted input gives sorted output |
| `Dashboard.DefaultRangeIsLastWeek` | web/js/app.js:183-186 | over the sorted dates the default range covers exactly the last seven dates, or all of them when there are fewer |
| `Dashboard.RangeUpdateSpec` | web/js/app.js:187-191 | the view is updated only for an ordered range inside [min, max]; a non-empty ordered range inside the span is shown unchanged |
| `Dashboard.DefaultRangeIsShown` | web/js/app.js:183-194 | the default range passes the change handler's guard, so it is shown on load |
| `DashboardHistogram.RoundDiv` | web/js/app.js:110 | `Math.round(v / n)`: the integer nearest to v/n, with halves rounded up |
| `DashboardHistogram.AggregateHistogramAvg` | web/js/app.js:103-111 | the nested loops over an array of 24 sums return `HistogramAvg(days, dates)` |
| `DashboardHistogram.HistogramLabels` | web/js/app.js:110 | 24 bars, labelled with the decimal text of hours 0 to 23 in order |
| `DashboardHistogram.HistogramOfFewDates` | web/js/app.js:105-110 | with no dates every bar is 0, because the divisor is `max(1, 0)`; with one date the bars are that day's counts |
| `DashboardHistogram.HourTotalBounds` | web/js/app.js:105-108 | an hour's sum over n dates lies between n times the smallest and n times the largest daily count |
| `DashboardHistogram.AverageWithinDailyBounds` | web/js/app.js:105-110 | each bar of a non-empty range lies between the smallest and the largest daily count of that hour |
| `DashboardTop.AddStationTotals` | web/js/app.js:116-119 | one day's station entries are added to the `Map` in list order |
| `DashboardTop.AddRouteCounts` | web/js/app.js:126-132 | one day's route entries are added to the `Map` under their "start → end" key, in list order |
| `DashboardTop.AggregateBusiestStations` | web/js/app.js:113-122 | the loops over the dates, the sort and the slice return `TopOf` of the range's station contributions |
| `DashboardTop.AggregateTopRoutes` | web/js/app.js:124-135 | the same for the route contributions |
| `DashboardTop.AddAllValid` | web/js/app.js:117-118 | adding to the `Map` keeps each key once |
| `DashboardTop.Accumulate` | web/js/app.js:114-120 | the `Map` built from `new Map()` keeps each key once |
| `DashboardTop.AccumulateIsSums` | web/js/app.js:114-120 | the `Map` holds exactly the mentioned keys, each with the sum of its amounts (a missing amount counts as 0) |
| `DashboardTop.AtLeastTotalPreorder` | web/js/app.js:121 | the comparator `b[1] - a[1]` orders entries by a total preorder |
| `DashboardTop.RankedEntries` | web/js/app.js:121 | the ranked entries are the `Map`'s entries, each key once with its total, largest total first |
| `DashboardTop.RankedPrefixIsTop` | web/js/app.js:121 | any key outside the first k ranked entries has a total no larger than any of them |
| `DashboardTop.TopOfSize` | web/js/app.js:121 | the top list has min(topN, number of keys) entries |
| `DashboardTop.TopOfOrdered` | web/js/app.js:121 | the top list names each key at most once, in non-increasing total order |
| `DashboardTop.TopOfSums` | web/js/app.js:114-121 | each listed key was mentioned in the range and is listed with the sum of all its amounts |
| `DashboardTop.TopOfOmitsSmaller` | web/js/app.js:121 | no mentioned key left off the top list has a larger sum than any listed key |
| `OrderedMap.PutValid` | src/bike_status_changes.py:58 | assignment keeps each key once |
| `OrderedMap.FromPairsKeys` | src/bike_status_changes.py:54-65 | a dict built by assignments has exactly the assigned keys |
| `OrderedMap.FromPairsLastWins` | src/bike_status_changes.py:58 | the last assignment to a key decides its value |
| `StableSort.SortBy` | src/bike_status_changes.py:83 | sorting returns a permutation of its input |
| `StableSort.SortBySorted` | src/bike_status_changes.py:83 | the result is sorted under any total preorder, and is a permutation |
| `StableSort.SortByHead` | src/data_load_sqlite.py:80-81 | the head after appending an item is that item exactly when the previous head does not come before it; among equals the earlier item stays first |
| `StableSort.SortedSuffixIsTop` | src/bike_status_changes.py:84 | the tail of a sorted list is sorted, drawn from the list, and at least as large as everything dropped |
| `StableSort.SortedPrefixIsTop` | web/js/app.js:121 | supporting fact, used by the lemmas above: the head of a sorted list is at least as early in the order as everything dropped |
| `StableSort.SortByDistinct` | web/js/app.js:121 | supporting fact, used by the lemmas above: sorting keeps distinct items distinct |
| `StableSort.FilterKeepsSorted` | web/js/app.js:100 | filtering a sorted list keeps it sorted |
| `Seqs.FilterMembers` | web/js/app.js:100 | an item is kept exactly when it is in the list and passes the test |
| `Seqs.FilterIsSubsequence` | src/download_2025_data.py:80-88 | the kept items are a subsequence of the list |
| `Text.NatToStringRoundTrip` | web/js/app.js:107 | `String(n)` of a natural number reads back as n |
| `Text.NatToStringInjective` | web/js/app.js:107 | supporting fact: distinct numbers have distinct decimal texts, so the 24 bar labels are distinct |
| `Text.LexLeTotal` | web/js/app.js:22 | supporting fact, used by the lemmas above: any two strings are comparable |
| `Text.LexLeAntisymmetric` | web/js/app.js:22 | supporting fact, used by the lemmas above: strings that compare both ways are equal |
| `Text.LexLeTransitive` | web/js/app.js:22 | supporting fact, used by the lemmas above: string comparison is transitive |
| `Text.LexLtIsStrict` | web/js/app.js:57 | supporting fact, used by the lemmas above: `<` is `<=` without equality |

## Left out

- JSON decoding, globbing `bike_rides_*.json` and file reading are not modelled. A snapshot arrives as a parsed `Document`. A file whose opening raises `OSError`, or whose decoding raises `json.JSONDecodeError`, is a candidate without content; these are the two errors `get_latest_files` catches.
- Selector.Readable: some files make `get_latest_files` raise instead of being skipped, and the model skips them or reads them. A file that is not valid UTF-8 raises `UnicodeDecodeError`, which is not caught. A JSON payload that is not an object, such as `[]`, raises `AttributeError` at `payload.get`. The model cannot express either file: a candidate either has a parsed object or has no content. So `StatusChanges.Run` returns `NotEnoughFiles` or `Recorded` where the program stops with an exception.
- Selector.FetchedAt: a `_fetched_at` of `null` is read as missing, so its key is "". Its type alone decides its place in the sort. The source sort key is `None` instead, and `meta.sort` raises `TypeError` when it compares that key with a string or with another `None`. A numeric `_fetched_at` cannot be expressed in the `Document` type. The model does not capture these crashes.
- The snapshot document only holds the fields the loader reads. Other malformed shapes are not modelled; for example, `data` being a string raises a TypeError in Python.
- `str()` of scalar JSON values covers integers, strings and null. `str()` of floats and booleans (as bike numbers, uids or bike types) is not modelled.
- Coordinates and battery levels are opaque reals that are copied through. The SQLite REAL conversion is not modelled.
- SQLite itself is not modelled: the autoincrement `uid`, `mkdir`, connection errors and transactions. `EventSink.EventStore` holds whether the table exists and its rows in order.
- The messages `main` prints become `StatusChanges.RunOutcome` values. An exception raised by `load_snapshot` becomes `LoadFailed`.
- `END_DATE` is `date.today()` in the source. It is a parameter here, and so is `START_DATE`.
- Network listing, `urljoin` and downloading are not modelled. The pickers receive the URL list.
- Paths.UrlPath: does not model `urlparse`'s `;params` split, IPv6 brackets, or schemes without `//`. It covers the `scheme://netloc/path?query#fragment` shape the listings use.
- Regular-expression `\d` matches only ASCII digits here; Python also accepts other Unicode decimal digits. Upper and lower case are ASCII only.
- `Text.LexLe` compares characters by code point. JavaScript compares UTF-16 code units. The two agree on the ISO date keys the dashboard uses.
- `Dashboard`: only the values passed to rendering are modelled. The DOM, the charts, `updateSingle` and the rendering in `updateRange` are not.
- `DashboardTop.AggregateBusiestStations`: `topN` is a natural number; `slice` with a negative `topN` is not modelled.
- `DashboardTop.AggregateTopRoutes`: `topN` is a natural number; `slice` with a negative `topN` is not modelled.
- Dashboard amounts are integers. Fractional JSON numbers, and the `|| 0` of values such as NaN or "", are not modelled; a missing value counts as 0.
- `DashboardTop.TopOfOrdered`: states the non-increasing order but not the order among equal totals, which the stable sort takes from the `Map`'s insertion order.
- `Selector.LatestAreNewest`: states the order, the size and which files are kept, but not the order among files with equal `_fetched_at`, which follows discovery order.
- `DashboardTop.RouteKey`: routes are keyed by the text "start → end" as in the source, so two pairs of station names that give the same text share a total. The model keeps this behaviour and states nothing more about it.
