/** The snapshot loader of src/bike_status_changes.py (`load_snapshot`):
    one parsed Nextbike document becomes a per-bike index from bike number
    to where the bike stands and what it is. JSON decoding itself is not
    modelled; a document arrives already parsed, with `Option` for every
    field the code reads with `.get` or that may be absent. */
module Snapshot {
  import opened Wrappers
  import opened Text
  import OrderedMap

  /** A JSON scalar, as far as Python's `str()` distinguishes them. */
  datatype Scalar = JInt(i: int) | JStr(s: string) | JNull

  /** Python's `str()` of a scalar; `str(None)` is "None". */
  function PyStr(v: Scalar): string
  {
    match v
    case JInt(i) => IntToString(i)
    case JStr(s) => s
    case JNull => "None"
  }

  datatype BikeJson = BikeJson(number: Option<Scalar>, bikeType: Option<Scalar>, battery: Option<real>)

  datatype Coords = Coords(lat: Option<real>, lng: Option<real>)

  /** One place of the document. `bikes` is `[]` when the field is missing
      or null, as `place.get("bikes") or []` reads it. */
  datatype PlaceJson = PlaceJson(
    name: Option<string>,
    uid: Option<Scalar>,
    placeType: Option<string>,
    geoCoords: Option<Coords>,
    bikes: seq<BikeJson>)

  datatype CityJson = CityJson(places: Option<seq<PlaceJson>>)

  datatype CountryJson = CountryJson(cities: Option<seq<CityJson>>)

  /** A parsed snapshot document: `_fetched_at` and the `data` array. */
  datatype Document = Document(fetchedAt: Option<string>, data: Option<seq<CountryJson>>)

  datatype BikeType = Standard | Electric

  /** The record kept per bike. */
  datatype BikeInfo = BikeInfo(
    stationName: Option<string>,
    stationId: string,
    lat: real,
    lon: real,
    bikeType: BikeType,
    battery: Option<real>)

  /** Bike number to record, in insertion order. */
  type BikeIndex = OrderedMap.OMap<string, BikeInfo>

  /** The lookups that raise KeyError or IndexError in the source. */
  datatype LoadError = NoPlaces | NoCoordinates | NoBikeNumber

  const Freestanding: string := "freestanding"
  const FreestandingPlaceType: string := "FREESTANDING_BIKE"
  const ElectricPrefix: string := "ELECTRIC"

  /** `payload["data"][0]["cities"][0]["places"]`. */
  function Places(doc: Document): Result<seq<PlaceJson>, LoadError>
  {
    if doc.data.None? || |doc.data.value| == 0 then Err(NoPlaces)
    else
      var cities := doc.data.value[0].cities;
      if cities.None? || |cities.value| == 0 then Err(NoPlaces)
      else
        var places := cities.value[0].places;
        if places.None? then Err(NoPlaces) else Ok(places.value)
  }

  /** Where the bikes of a place are recorded. */
  datatype Location = Location(name: Option<string>, id: string, lat: real, lon: real)

  /** The location of a place with bikes, or the missing-coordinates error. */
  function PlaceLocation(p: PlaceJson): (r: Result<Location, LoadError>)
    ensures r.Err? <==> p.geoCoords.None? || p.geoCoords.value.lat.None? || p.geoCoords.value.lng.None?
    ensures r.Ok? && p.placeType == Some(FreestandingPlaceType) ==>
              r.value.name == Some(Freestanding) && r.value.id == Freestanding
    ensures r.Ok? && p.placeType != Some(FreestandingPlaceType) ==>
              r.value.name == p.name && r.value.id == PyStr(if p.uid.Some? then p.uid.value else JNull)
  {
    if p.geoCoords.None? || p.geoCoords.value.lat.None? || p.geoCoords.value.lng.None? then Err(NoCoordinates)
    else
      var lat, lon := p.geoCoords.value.lat.value, p.geoCoords.value.lng.value;
      if p.placeType == Some(FreestandingPlaceType) then
        Ok(Location(Some(Freestanding), Freestanding, lat, lon))
      else
        Ok(Location(p.name, PyStr(if p.uid.Some? then p.uid.value else JNull), lat, lon))
  }

  /** `str(bike.get("bikeType", ""))`. */
  function TypeText(b: BikeJson): string
  {
    if b.bikeType.Some? then PyStr(b.bikeType.value) else ""
  }

  function TypeOf(b: BikeJson): (t: BikeType)
    ensures t == Electric <==> StartsWith(Upper(TypeText(b)), ElectricPrefix)
  {
    if StartsWith(Upper(TypeText(b)), ElectricPrefix) then Electric else Standard
  }

  /** The type test ignores case: a bike is electric exactly when its
      `bikeType` text starts with "electric" with each letter in either case. */
  lemma ElectricIgnoresCase(b: BikeJson)
    ensures var t := TypeText(b);
      TypeOf(b) == Electric <==>
        |t| >= 8 && forall k :: 0 <= k < 8 ==> t[k] == "ELECTRIC"[k] || t[k] == "electric"[k]
  {
    var t := TypeText(b);
    if |t| >= 8 {
      var u := Upper(t)[..8];
      assert u == seq(8, k requires 0 <= k < 8 => AsciiUpper(t[k]));
      forall k | 0 <= k < 8
        ensures AsciiUpper(t[k]) == "ELECTRIC"[k] <==> t[k] == "ELECTRIC"[k] || t[k] == "electric"[k]
      {
      }
    }
  }

  function RecordOf(loc: Location, b: BikeJson): BikeInfo
  {
    BikeInfo(loc.name, loc.id, loc.lat, loc.lon, TypeOf(b), b.battery)
  }

  /** The (number, record) assignments of a place's bikes, in list order. */
  function BikeRecords(bikes: seq<BikeJson>, loc: Location): Result<seq<(string, BikeInfo)>, LoadError>
  {
    if bikes == [] then Ok([])
    else
      var last := bikes[|bikes| - 1];
      match BikeRecords(bikes[..|bikes| - 1], loc)
      case Err(e) => Err(e)
      case Ok(rs) =>
        if last.number.None? then Err(NoBikeNumber)
        else Ok(rs + [(PyStr(last.number.value), RecordOf(loc, last))])
  }

  function PlaceRecords(p: PlaceJson): Result<seq<(string, BikeInfo)>, LoadError>
  {
    if p.bikes == [] then Ok([])
    else
      match PlaceLocation(p)
      case Err(e) => Err(e)
      case Ok(loc) => BikeRecords(p.bikes, loc)
  }

  /** Every assignment the loader makes, place by place, bike by bike. */
  function Records(places: seq<PlaceJson>): Result<seq<(string, BikeInfo)>, LoadError>
  {
    if places == [] then Ok([])
    else
      match Records(places[..|places| - 1])
      case Err(e) => Err(e)
      case Ok(rs) =>
        match PlaceRecords(places[|places| - 1])
        case Err(e) => Err(e)
        case Ok(more) => Ok(rs + more)
  }

  /** What `load_snapshot` returns: the timestamp (None when `_fetched_at`
      is missing) and the bike index, or the error it raises. */
  function Load(doc: Document): (r: Result<(Option<string>, BikeIndex), LoadError>)
    ensures r.Ok? ==> r.value.1.Valid() && OrderedMap.KeysHaveValues(r.value.1)
  {
    match Places(doc)
    case Err(e) => Err(e)
    case Ok(places) =>
      match Records(places)
      case Err(e) => Err(e)
      case Ok(rs) =>
        var bikes := OrderedMap.FromPairs(rs);
        OrderedMap.FromPairsValid(rs);
        OrderedMap.ValidKeysHaveValues(bikes);
        Ok((doc.fetchedAt, bikes))
  }

  /** `load_snapshot`: fills the bike index in place while walking the
      places and, for each place with bikes, its bikes. */
  method LoadSnapshot(doc: Document) returns (r: Result<(Option<string>, BikeIndex), LoadError>)
    ensures r == Load(doc)
  {
    var found := Places(doc);
    if found.Err? {
      return Err(found.error);
    }
    var places := found.value;
    var bikes: BikeIndex := OrderedMap.Empty();
    ghost var recs: seq<(string, BikeInfo)> := [];
    for i := 0 to |places|
      invariant Records(places[..i]) == Ok(recs)
      invariant bikes == OrderedMap.FromPairs(recs)
    {
      var place := places[i];
      RecordsStep(places, i, recs);
      if place.bikes != [] {
        var at := PlaceLocation(place);
        if at.Err? {
          RecordsErrorPersists(places, i + 1);
          return Err(at.error);
        }
        var added := IndexBikes(bikes, recs, place.bikes, at.value);
        if added.Err? {
          RecordsErrorPersists(places, i + 1);
          return Err(added.error);
        }
        bikes := added.value;
        recs := recs + BikeRecords(place.bikes, at.value).value;
      } else {
        assert recs + [] == recs;
      }
    }
    assert places[..|places|] == places;
    r := Ok((doc.fetchedAt, bikes));
  }

  /** The inner loop of `load_snapshot`: the bikes of one place entered
      into the index, or the error for a bike without a number. */
  method IndexBikes(bikes: BikeIndex, ghost recs: seq<(string, BikeInfo)>, list: seq<BikeJson>, loc: Location)
    returns (r: Result<BikeIndex, LoadError>)
    requires bikes == OrderedMap.FromPairs(recs)
    ensures BikeRecords(list, loc).Err? ==> r == Err(BikeRecords(list, loc).error)
    ensures BikeRecords(list, loc).Ok? ==> r == Ok(OrderedMap.FromPairs(recs + BikeRecords(list, loc).value))
  {
    var index := bikes;
    ghost var more: seq<(string, BikeInfo)> := [];
    assert recs + more == recs;
    for j := 0 to |list|
      invariant BikeRecords(list[..j], loc) == Ok(more)
      invariant index == OrderedMap.FromPairs(recs + more)
    {
      var bike := list[j];
      assert list[..j + 1][..j] == list[..j];
      if bike.number.None? {
        BikeRecordsErrorPersists(list, loc, j + 1);
        return Err(NoBikeNumber);
      }
      var id := PyStr(bike.number.value);
      var info := RecordOf(loc, bike);
      OrderedMap.FromPairsAppend(recs + more, (id, info));
      assert recs + more + [(id, info)] == recs + (more + [(id, info)]);
      index := OrderedMap.Put(index, id, info);
      more := more + [(id, info)];
    }
    assert list[..|list|] == list;
    r := Ok(index);
  }

  lemma RecordsStep(places: seq<PlaceJson>, i: nat, recs: seq<(string, BikeInfo)>)
    requires i < |places| && Records(places[..i]) == Ok(recs)
    ensures Records(places[..i + 1]) ==
      match PlaceRecords(places[i])
      case Err(e) => Err(e)
      case Ok(more) => Ok(recs + more)
  {
    assert places[..i + 1][..i] == places[..i];
  }

  /** Once a prefix of the bike list raises, the whole list raises the same error. */
  lemma {:induction false} BikeRecordsErrorPersists(bikes: seq<BikeJson>, loc: Location, k: nat)
    requires k <= |bikes| && BikeRecords(bikes[..k], loc).Err?
    ensures BikeRecords(bikes, loc) == BikeRecords(bikes[..k], loc)
    decreases |bikes|
  {
    if k < |bikes| {
      var init := bikes[..|bikes| - 1];
      assert init[..k] == bikes[..k];
      BikeRecordsErrorPersists(init, loc, k);
    } else {
      assert bikes[..k] == bikes;
    }
  }

  /** Once a prefix of the places raises, loading the whole list raises the same error. */
  lemma {:induction false} RecordsErrorPersists(places: seq<PlaceJson>, k: nat)
    requires k <= |places| && Records(places[..k]).Err?
    ensures Records(places) == Records(places[..k])
    decreases |places|
  {
    if k < |places| {
      var init := places[..|places| - 1];
      assert init[..k] == places[..k];
      RecordsErrorPersists(init, k);
    } else {
      assert places[..k] == places;
    }
  }

  /** A place the loader gets through: no bikes, or coordinates and a
      number on every bike. */
  predicate Loadable(p: PlaceJson)
  {
    p.bikes == [] || (PlaceLocation(p).Ok? && forall j :: 0 <= j < |p.bikes| ==> p.bikes[j].number.Some?)
  }

  /** Every bike of every place with bikes, in the order the loader visits them. */
  function Occurrences(places: seq<PlaceJson>): seq<(PlaceJson, BikeJson)>
  {
    if places == [] then []
    else
      var p := places[|places| - 1];
      Occurrences(places[..|places| - 1]) + seq(|p.bikes|, j requires 0 <= j < |p.bikes| => (p, p.bikes[j]))
  }

  /** The assignment the loader makes for one occurrence. */
  predicate Assigns(o: (PlaceJson, BikeJson), rec: (string, BikeInfo))
  {
    && o.1.number.Some?
    && PlaceLocation(o.0).Ok?
    && rec == (PyStr(o.1.number.value), RecordOf(PlaceLocation(o.0).value, o.1))
  }

  lemma {:induction false} BikeRecordsOkIff(bikes: seq<BikeJson>, loc: Location)
    ensures BikeRecords(bikes, loc).Ok? <==> forall j :: 0 <= j < |bikes| ==> bikes[j].number.Some?
  {
    if bikes != [] {
      var init := bikes[..|bikes| - 1];
      BikeRecordsOkIff(init, loc);
      assert forall j :: 0 <= j < |init| ==> init[j] == bikes[j];
    }
  }

  lemma {:induction false} BikeRecordsMatch(bikes: seq<BikeJson>, loc: Location)
    requires BikeRecords(bikes, loc).Ok?
    ensures var rs := BikeRecords(bikes, loc).value;
      && |rs| == |bikes|
      && forall j :: 0 <= j < |bikes| ==>
           bikes[j].number.Some? && rs[j] == (PyStr(bikes[j].number.value), RecordOf(loc, bikes[j]))
  {
    if bikes != [] {
      BikeRecordsMatch(bikes[..|bikes| - 1], loc);
    }
  }

  /** Loading fails exactly when a place with bikes lacks coordinates or
      one of its bikes lacks a number. */
  lemma {:induction false} RecordsOkIff(places: seq<PlaceJson>)
    ensures Records(places).Ok? <==> forall i :: 0 <= i < |places| ==> Loadable(places[i])
  {
    if places != [] {
      var init := places[..|places| - 1];
      var p := places[|places| - 1];
      RecordsOkIff(init);
      assert forall i :: 0 <= i < |init| ==> init[i] == places[i];
      if p.bikes != [] && PlaceLocation(p).Ok? {
        BikeRecordsOkIff(p.bikes, PlaceLocation(p).value);
      }
    }
  }

  /** The loader's assignments are exactly one per occurrence, in order. */
  lemma {:induction false} RecordsMatchOccurrences(places: seq<PlaceJson>)
    requires Records(places).Ok?
    ensures var rs := Records(places).value;
      && |rs| == |Occurrences(places)|
      && forall n :: 0 <= n < |rs| ==> Assigns(Occurrences(places)[n], rs[n])
  {
    if places != [] {
      var init := places[..|places| - 1];
      var p := places[|places| - 1];
      RecordsMatchOccurrences(init);
      var rs0 := Records(init).value;
      var more := PlaceRecords(p).value;
      var occ := seq(|p.bikes|, j requires 0 <= j < |p.bikes| => (p, p.bikes[j]));
      if p.bikes != [] {
        BikeRecordsMatch(p.bikes, PlaceLocation(p).value);
      }
      assert |more| == |occ|;
      forall j | 0 <= j < |more| ensures Assigns(occ[j], more[j]) { }
    }
  }

  lemma LoadOkIff(doc: Document)
    ensures Load(doc).Ok? <==>
              Places(doc).Ok? && forall i :: 0 <= i < |Places(doc).value| ==> Loadable(Places(doc).value[i])
  {
    if Places(doc).Ok? { RecordsOkIff(Places(doc).value); }
  }

  /** The loaded index holds a bike exactly when some place with bikes
      lists a bike with that number; the timestamp is `_fetched_at`. */
  lemma LoadedKeys(doc: Document, k: string)
    requires Load(doc).Ok?
    ensures Load(doc).value.0 == doc.fetchedAt
    ensures var occ := Occurrences(Places(doc).value);
      k in Load(doc).value.1.vals <==>
        exists n :: 0 <= n < |occ| && occ[n].1.number.Some? && PyStr(occ[n].1.number.value) == k
  {
    var places := Places(doc).value;
    var rs := Records(places).value;
    var occ := Occurrences(places);
    RecordsMatchOccurrences(places);
    OrderedMap.FromPairsKeys(rs, k);
    if exists n :: 0 <= n < |occ| && occ[n].1.number.Some? && PyStr(occ[n].1.number.value) == k {
      var n :| 0 <= n < |occ| && occ[n].1.number.Some? && PyStr(occ[n].1.number.value) == k;
      assert rs[n].0 == k;
    }
    if exists i :: 0 <= i < |rs| && rs[i].0 == k {
      var i :| 0 <= i < |rs| && rs[i].0 == k;
      assert Assigns(occ[i], rs[i]);
    }
  }

  /** A bike number that occurs several times keeps the record of its last
      occurrence: that place's location and that bike's type and battery. */
  lemma LoadedLastOccurrenceWins(doc: Document, n: nat)
    requires Load(doc).Ok?
    requires n < |Occurrences(Places(doc).value)|
    requires var occ := Occurrences(Places(doc).value);
      forall m :: n < m < |occ| ==> occ[m].1.number.Some? && occ[n].1.number.Some? ==>
        PyStr(occ[m].1.number.value) != PyStr(occ[n].1.number.value)
    ensures var occ := Occurrences(Places(doc).value);
      && occ[n].1.number.Some?
      && PlaceLocation(occ[n].0).Ok?
      && var k := PyStr(occ[n].1.number.value);
      && k in Load(doc).value.1.vals
      && Load(doc).value.1.vals[k] == RecordOf(PlaceLocation(occ[n].0).value, occ[n].1)
  {
    var places := Places(doc).value;
    var rs := Records(places).value;
    var occ := Occurrences(places);
    RecordsMatchOccurrences(places);
    assert Assigns(occ[n], rs[n]);
    forall m | n < m < |rs| ensures rs[m].0 != rs[n].0 {
      assert Assigns(occ[m], rs[m]);
    }
    OrderedMap.FromPairsLastWins(rs, n);
  }
}
