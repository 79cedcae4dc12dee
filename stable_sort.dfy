/** The stable sort both runtimes provide (Python's `list.sort`, JavaScript's
    `Array.prototype.sort`), modelled as an insertion sort: each element is
    placed after every element already placed that may come before it, so
    elements that compare equal keep their input order. `le(a, b)` means
    "a may come before b". */
module StableSort {
  import opened Seqs

  ghost predicate TotalPreorder<T(!new)>(le: (T, T) -> bool)
  {
    && (forall a, b :: le(a, b) || le(b, a))
    && (forall a, b, c :: le(a, b) && le(b, c) ==> le(a, c))
  }

  ghost predicate SortedBy<T>(s: seq<T>, le: (T, T) -> bool)
  {
    forall i, j :: 0 <= i < j < |s| ==> le(s[i], s[j])
  }

  /** Place `x` after the leading elements of `s` that may come before it. */
  function Insert<T>(x: T, s: seq<T>, le: (T, T) -> bool): (r: seq<T>)
    ensures |r| == |s| + 1
    ensures multiset(r) == multiset(s) + multiset{x}
  {
    if s == [] || !le(s[0], x) then [x] + s
    else
      assert s == [s[0]] + s[1..];
      [s[0]] + Insert(x, s[1..], le)
  }

  function SortBy<T>(s: seq<T>, le: (T, T) -> bool): (r: seq<T>)
    ensures |r| == |s|
    ensures multiset(r) == multiset(s)
  {
    if s == [] then []
    else
      assert s == s[..|s| - 1] + [s[|s| - 1]];
      Insert(s[|s| - 1], SortBy(s[..|s| - 1], le), le)
  }

  lemma SortByAppend<T>(s: seq<T>, x: T, le: (T, T) -> bool)
    ensures SortBy(s + [x], le) == Insert(x, SortBy(s, le), le)
  {
    assert (s + [x])[..|s|] == s;
  }

  lemma {:induction false} InsertSorted<T(!new)>(x: T, s: seq<T>, le: (T, T) -> bool)
    requires TotalPreorder(le) && SortedBy(s, le)
    ensures SortedBy(Insert(x, s, le), le)
  {
    if s == [] || !le(s[0], x) {
      var r := [x] + s;
      forall i, j | 0 <= i < j < |r| ensures le(r[i], r[j]) {
        if i == 0 {
          assert le(x, s[0]);
          if j > 1 { assert le(s[0], s[j - 1]); }
        }
      }
    } else {
      InsertSorted(x, s[1..], le);
      var t := Insert(x, s[1..], le);
      var r := [s[0]] + t;
      assert multiset(t) == multiset(s[1..]) + multiset{x};
      forall i, j | 0 <= i < j < |r| ensures le(r[i], r[j]) {
        if i == 0 {
          assert r[j] in multiset(t);
          if r[j] == x {
          } else {
            assert r[j] in multiset(s[1..]);
            var k :| 0 <= k < |s[1..]| && s[1..][k] == r[j];
            assert s[k + 1] == r[j];
          }
        }
      }
    }
  }

  /** The library sort returns its input reordered, in non-decreasing order. */
  lemma {:induction false} SortBySorted<T(!new)>(s: seq<T>, le: (T, T) -> bool)
    requires TotalPreorder(le)
    ensures SortedBy(SortBy(s, le), le)
    ensures multiset(SortBy(s, le)) == multiset(s)
  {
    if s != [] {
      SortBySorted(s[..|s| - 1], le);
      InsertSorted(s[|s| - 1], SortBy(s[..|s| - 1], le), le);
    }
  }

  /** The first element after inserting `x`: `x` only when it must come
      strictly before the old first element. */
  lemma InsertHead<T>(x: T, s: seq<T>, le: (T, T) -> bool)
    ensures Insert(x, s, le)[0] == if s == [] || !le(s[0], x) then x else s[0]
  {
  }

  /** The first element of a sorted list grown by one element at its end:
      the new element only when it must come strictly before the old first. */
  lemma SortByHead<T>(s: seq<T>, x: T, le: (T, T) -> bool)
    ensures SortBy(s + [x], le)[0] == if s == [] || !le(SortBy(s, le)[0], x) then x else SortBy(s, le)[0]
  {
    SortByAppend(s, x, le);
    InsertHead(x, SortBy(s, le), le);
  }

  /** A suffix of a sorted list is its top part: everything before the
      suffix may come before everything in it. */
  lemma SortedSuffixIsTop<T>(s: seq<T>, k: nat, le: (T, T) -> bool)
    requires k <= |s| && SortedBy(s, le)
    ensures SortedBy(s[k..], le)
    ensures multiset(s[k..]) <= multiset(s)
    ensures forall m, x :: m in multiset(s) - multiset(s[k..]) && x in s[k..] ==> le(m, x)
  {
    assert s == s[..k] + s[k..];
    assert multiset(s) == multiset(s[..k]) + multiset(s[k..]);
    forall m, x | m in multiset(s) - multiset(s[k..]) && x in s[k..] ensures le(m, x) {
      assert m in multiset(s[..k]);
      var a :| 0 <= a < k && s[a] == m;
      var b :| k <= b < |s| && s[b] == x;
    }
  }

  /** A prefix of a sorted list is its top part: everything in it may come
      before everything left out. */
  lemma SortedPrefixIsTop<T>(s: seq<T>, k: nat, le: (T, T) -> bool)
    requires k <= |s| && SortedBy(s, le)
    ensures multiset(s[..k]) <= multiset(s)
    ensures forall x, m :: x in s[..k] && m in multiset(s) - multiset(s[..k]) ==> le(x, m)
  {
    assert s == s[..k] + s[k..];
    assert multiset(s) == multiset(s[..k]) + multiset(s[k..]);
    forall x, m | x in s[..k] && m in multiset(s) - multiset(s[..k]) ensures le(x, m) {
      assert m in multiset(s[k..]);
      var a :| 0 <= a < k && s[a] == x;
      var b :| k <= b < |s| && s[b] == m;
    }
  }

  lemma {:induction false} InsertDistinct<T>(x: T, s: seq<T>, le: (T, T) -> bool)
    requires Distinct(s) && x !in s
    ensures Distinct(Insert(x, s, le))
  {
    if s != [] && le(s[0], x) {
      InsertDistinct(x, s[1..], le);
      var t := Insert(x, s[1..], le);
      assert s[0] !in multiset(t) by {
        assert multiset(t) == multiset(s[1..]) + multiset{x};
        assert s[0] !in s[1..];
      }
    }
  }

  /** Sorting keeps a list free of duplicates. */
  lemma {:induction false} SortByDistinct<T>(s: seq<T>, le: (T, T) -> bool)
    requires Distinct(s)
    ensures Distinct(SortBy(s, le))
  {
    if s != [] {
      var init, x := s[..|s| - 1], s[|s| - 1];
      SortByDistinct(init, le);
      assert x !in multiset(SortBy(init, le)) by {
        assert x !in init;
      }
      InsertDistinct(x, SortBy(init, le), le);
    }
  }

  /** Filtering a sorted list leaves it sorted. */
  lemma {:induction false} FilterKeepsSorted<T>(s: seq<T>, keep: T -> bool, le: (T, T) -> bool)
    requires SortedBy(s, le)
    ensures SortedBy(Filter(s, keep), le)
  {
    if s != [] {
      var init, x := s[..|s| - 1], s[|s| - 1];
      FilterKeepsSorted(init, keep, le);
      var f := Filter(init, keep);
      if keep(x) {
        forall i, j | 0 <= i < j < |f| + 1 ensures le((f + [x])[i], (f + [x])[j]) {
          if j == |f| {
            FilterMembers(init, keep, f[i]);
            var a :| 0 <= a < |init| && init[a] == f[i];
          }
        }
      }
    }
  }
}
