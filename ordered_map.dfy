/** A dictionary that remembers insertion order, as Python's `dict` and
    JavaScript's `Map` do: re-assigning an existing key replaces its value
    but keeps its original position. */
module OrderedMap {

  datatype OMap<K(!new), V> = OMap(keys: seq<K>, vals: map<K, V>)
  {
    ghost predicate Valid()
    {
      && (forall i, j :: 0 <= i < j < |keys| ==> keys[i] != keys[j])
      && (forall k :: k in vals <==> k in keys)
    }
  }

  /** Every listed key has a value: all a loop over `keys` needs. */
  predicate KeysHaveValues<K(!new), V>(m: OMap<K, V>)
  {
    forall i :: 0 <= i < |m.keys| ==> m.keys[i] in m.vals
  }

  lemma ValidKeysHaveValues<K(!new), V>(m: OMap<K, V>)
    requires m.Valid()
    ensures KeysHaveValues(m)
  {
    forall i | 0 <= i < |m.keys| ensures m.keys[i] in m.vals {
      assert m.keys[i] in m.keys;
    }
  }

  function Empty<K(!new), V>(): (m: OMap<K, V>)
    ensures m.Valid() && m.keys == [] && m.vals == map[]
  {
    OMap([], map[])
  }

  /** `m[k] = v`: a new key goes to the end, an existing one keeps its
      place. */
  function Put<K(!new), V>(m: OMap<K, V>, k: K, v: V): (r: OMap<K, V>)
    ensures r.vals == m.vals[k := v]
    ensures k in m.vals ==> r.keys == m.keys
    ensures k !in m.vals ==> r.keys == m.keys + [k]
  {
    if k in m.vals then OMap(m.keys, m.vals[k := v]) else OMap(m.keys + [k], m.vals[k := v])
  }

  /** Assignment keeps every key listed once and in step with the values. */
  lemma PutValid<K(!new), V>(m: OMap<K, V>, k: K, v: V)
    requires m.Valid()
    ensures Put(m, k, v).Valid()
  {
    var r := Put(m, k, v);
    if k !in m.vals {
      forall i, j | 0 <= i < j < |r.keys| ensures r.keys[i] != r.keys[j] {
        if j == |m.keys| {
          assert r.keys[i] == m.keys[i] && m.keys[i] in m.keys;
        }
      }
    }
  }

  /** The dictionary built by assigning the pairs in order. */
  function FromPairs<K(!new), V>(ps: seq<(K, V)>): OMap<K, V>
  {
    if ps == [] then Empty() else Put(FromPairs(ps[..|ps| - 1]), ps[|ps| - 1].0, ps[|ps| - 1].1)
  }

  /** The built dictionary lists each key once, every key with its value. */
  lemma {:induction false} FromPairsValid<K(!new), V>(ps: seq<(K, V)>)
    ensures FromPairs(ps).Valid()
  {
    if ps != [] {
      FromPairsValid(ps[..|ps| - 1]);
      PutValid(FromPairs(ps[..|ps| - 1]), ps[|ps| - 1].0, ps[|ps| - 1].1);
    }
  }

  lemma FromPairsAppend<K(!new), V>(ps: seq<(K, V)>, p: (K, V))
    ensures FromPairs(ps + [p]) == Put(FromPairs(ps), p.0, p.1)
  {
    assert (ps + [p])[..|ps|] == ps;
  }

  /** A key is present exactly when some pair assigned it. */
  lemma {:induction false} FromPairsKeys<K(!new), V>(ps: seq<(K, V)>, k: K)
    ensures k in FromPairs(ps).vals <==> exists i :: 0 <= i < |ps| && ps[i].0 == k
  {
    if ps != [] {
      var init := ps[..|ps| - 1];
      FromPairsKeys(init, k);
      if exists i :: 0 <= i < |init| && init[i].0 == k {
        var i :| 0 <= i < |init| && init[i].0 == k;
        assert ps[i].0 == k;
      }
      if exists i :: 0 <= i < |ps| && ps[i].0 == k {
        var i :| 0 <= i < |ps| && ps[i].0 == k;
        if i < |init| { assert init[i].0 == k; }
      }
    }
  }

  /** A repeated key keeps the value of its last assignment. */
  lemma {:induction false} FromPairsLastWins<K(!new), V>(ps: seq<(K, V)>, i: nat)
    requires i < |ps|
    requires forall j :: i < j < |ps| ==> ps[j].0 != ps[i].0
    ensures ps[i].0 in FromPairs(ps).vals && FromPairs(ps).vals[ps[i].0] == ps[i].1
  {
    if i < |ps| - 1 {
      var init := ps[..|ps| - 1];
      FromPairsLastWins(init, i);
    }
  }

  /** The keys in insertion order, each paired with its current value. */
  function Items<K(!new), V>(m: OMap<K, V>): (r: seq<(K, V)>)
    requires m.Valid()
    ensures |r| == |m.keys|
    ensures forall i :: 0 <= i < |r| ==> r[i].0 == m.keys[i] && r[i].0 in m.vals && r[i].1 == m.vals[r[i].0]
  {
    seq(|m.keys|, i requires 0 <= i < |m.keys| => (m.keys[i], m.vals[m.keys[i]]))
  }
}
