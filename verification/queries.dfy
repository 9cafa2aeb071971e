/**
 * The building blocks of the visibility queries: selecting records of the
 * store in id order, filtering, and a stable sort by a numeric key (the
 * array sort the queries use is stable).
 */
module Queries {

  /** A stored record together with its id (its position in the store). */
  datatype Entry<T> = Entry(id: nat, value: T)

  function IdKey<T>(e: Entry<T>): real {
    e.id as real
  }

  ghost predicate SortedBy<T>(s: seq<T>, key: T -> real) {
    forall i, j | 0 <= i < j < |s| :: key(s[i]) <= key(s[j])
  }

  /** No two elements of `s` share a key: with an id key, no record is listed twice. */
  ghost predicate DistinctBy<T>(s: seq<T>, key: T -> real) {
    forall i, j | 0 <= i < j < |s| :: key(s[i]) != key(s[j])
  }

  /** `a` comes no later than `b` when ordered by `k1`, ties broken by `k2`. */
  ghost predicate LexLe<T>(a: T, b: T, k1: T -> real, k2: T -> real) {
    k1(a) < k1(b) || (k1(a) == k1(b) && k2(a) <= k2(b))
  }

  ghost predicate SortedLex<T>(s: seq<T>, k1: T -> real, k2: T -> real) {
    forall i, j | 0 <= i < j < |s| :: LexLe(s[i], s[j], k1, k2)
  }

  /** The records of `s` that satisfy `keep`, with their ids, in id order. */
  function Select<T(!new)>(s: seq<T>, keep: T -> bool): (r: seq<Entry<T>>)
    ensures forall e :: e in r <==> e.id < |s| && e.value == s[e.id] && keep(s[e.id])
    ensures forall i, j | 0 <= i < j < |r| :: r[i].id < r[j].id
    ensures forall i | 0 <= i < |r| :: r[i].id < |s|
  {
    if s == [] then []
    else
      var n := |s| - 1;
      var prev := Select(s[..n], keep);
      if keep(s[n]) then prev + [Entry(n, s[n])] else prev
  }

  lemma {:induction false} SelectSortedById<T(!new)>(s: seq<T>, keep: T -> bool)
    ensures SortedBy(Select(s, keep), IdKey)
  {
  }

  function Filter<T(!new)>(s: seq<T>, p: T -> bool): (r: seq<T>)
    ensures forall x :: x in r <==> x in s && p(x)
    ensures |r| <= |s|
  {
    if s == [] then []
    else
      var n := |s| - 1;
      assert s == s[..n] + [s[n]];
      Filter(s[..n], p) + (if p(s[n]) then [s[n]] else [])
  }

  /** Filtering keeps each element satisfying the predicate as often as it occurs, and drops the others. */
  lemma {:induction false} FilterCounts<T(!new)>(s: seq<T>, p: T -> bool)
    ensures forall x :: multiset(Filter(s, p))[x] == if p(x) then multiset(s)[x] else 0
  {
    if s != [] {
      var n := |s| - 1;
      FilterCounts(s[..n], p);
      assert s == s[..n] + [s[n]];
      assert multiset(s) == multiset(s[..n]) + multiset{s[n]};
    }
  }

  /** Filtering keeps keys distinct. */
  lemma {:induction false} FilterKeepsDistinct<T(!new)>(s: seq<T>, p: T -> bool, key: T -> real)
    requires DistinctBy(s, key)
    ensures DistinctBy(Filter(s, p), key)
  {
    if s != [] {
      var n := |s| - 1;
      var prefix := s[..n];
      assert DistinctBy(prefix, key);
      FilterKeepsDistinct(prefix, p, key);
      var f := Filter(prefix, p);
      forall y | y in f ensures key(y) != key(s[n]) {
        var i :| 0 <= i < n && prefix[i] == y;
      }
    }
  }

  /** Filtering keeps the relative order of what it keeps. */
  lemma {:induction false} FilterKeepsLex<T(!new)>(s: seq<T>, p: T -> bool, k1: T -> real, k2: T -> real)
    requires SortedLex(s, k1, k2)
    ensures SortedLex(Filter(s, p), k1, k2)
  {
    if s != [] {
      var n := |s| - 1;
      var prefix := s[..n];
      assert SortedLex(prefix, k1, k2);
      FilterKeepsLex(prefix, p, k1, k2);
      var f := Filter(prefix, p);
      if p(s[n]) {
        forall y | y in f ensures LexLe(y, s[n], k1, k2) {
          var i :| 0 <= i < n && prefix[i] == y;
        }
      }
    }
  }

  /** Inserts `x` after every element whose key is at most its own. */
  function Insert<T>(t: seq<T>, x: T, key: T -> real): (r: seq<T>)
    ensures multiset(r) == multiset(t) + multiset{x}
  {
    if t == [] then [x]
    else if key(x) < key(t[0]) then [x] + t
    else
      assert t == [t[0]] + t[1..];
      [t[0]] + Insert(t[1..], x, key)
  }

  lemma {:induction false} InsertSorted<T>(t: seq<T>, x: T, key: T -> real)
    requires SortedBy(t, key)
    ensures SortedBy(Insert(t, x, key), key)
  {
    if t != [] && key(t[0]) <= key(x) {
      var rest := Insert(t[1..], x, key);
      InsertSorted(t[1..], x, key);
      forall y | y in rest ensures key(t[0]) <= key(y) {
        assert y in multiset(rest);
        if y != x {
          assert y in multiset(t[1..]);
        }
      }
    }
  }

  /** Stable insertion sort by `key`: the result is a sorted permutation. */
  function SortBy<T>(s: seq<T>, key: T -> real): (r: seq<T>)
    ensures multiset(r) == multiset(s)
    ensures SortedBy(r, key)
  {
    if s == [] then []
    else
      var n := |s| - 1;
      var p := SortBy(s[..n], key);
      assert s == s[..n] + [s[n]];
      InsertSorted(p, s[n], key);
      Insert(p, s[n], key)
  }

  lemma {:induction false} InsertLex<T>(t: seq<T>, x: T, k1: T -> real, k2: T -> real)
    requires SortedLex(t, k1, k2)
    requires forall y | y in t :: k2(y) <= k2(x)
    ensures SortedLex(Insert(t, x, k1), k1, k2)
  {
    if t != [] && k1(t[0]) <= k1(x) {
      var rest := Insert(t[1..], x, k1);
      InsertLex(t[1..], x, k1, k2);
      forall y | y in rest ensures LexLe(t[0], y, k1, k2) {
        assert y in multiset(rest);
        if y != x {
          assert y in multiset(t[1..]);
        }
      }
    }
  }

  /**
   * Stability: sorting by `k1` a sequence already ordered by `k2` leaves
   * elements with equal `k1` in their `k2` order.
   */
  lemma {:induction false} StableSortIsLex<T>(s: seq<T>, k1: T -> real, k2: T -> real)
    requires SortedBy(s, k2)
    ensures SortedLex(SortBy(s, k1), k1, k2)
  {
    if s != [] {
      var n := |s| - 1;
      var prefix := s[..n];
      StableSortIsLex(prefix, k1, k2);
      var p := SortBy(prefix, k1);
      forall y | y in p ensures k2(y) <= k2(s[n]) {
        assert y in multiset(prefix);
        var i :| 0 <= i < n && prefix[i] == y;
      }
      InsertLex(p, s[n], k1, k2);
    }
  }

  /** Removing the element at `k` removes one occurrence of it and keeps the other keys distinct from its own. */
  lemma RemoveAt<T>(b: seq<T>, k: nat, key: T -> real)
    requires k < |b| && DistinctBy(b, key)
    ensures multiset(b[..k] + b[k + 1..]) == multiset(b) - multiset{b[k]}
    ensures DistinctBy(b[..k] + b[k + 1..], key)
    ensures forall y | y in b[..k] + b[k + 1..] :: key(y) != key(b[k])
  {
    var rest := b[..k] + b[k + 1..];
    assert b == b[..k] + [b[k]] + b[k + 1..];
    assert forall i | 0 <= i < |rest| :: rest[i] == b[if i < k then i else i + 1];
  }

  /** A permutation of a sequence whose keys are distinct has distinct keys too. */
  lemma {:induction false} PermutationKeepsDistinct<T>(a: seq<T>, b: seq<T>, key: T -> real)
    requires multiset(a) == multiset(b)
    requires DistinctBy(b, key)
    ensures DistinctBy(a, key)
  {
    if a != [] {
      var x := a[0];
      assert x in multiset(b);
      var k :| 0 <= k < |b| && b[k] == x;
      var rest := b[..k] + b[k + 1..];
      RemoveAt(b, k, key);
      assert a == [x] + a[1..];
      assert multiset(a[1..]) == multiset(rest);
      PermutationKeepsDistinct(a[1..], rest, key);
      forall j | 1 <= j < |a| ensures key(a[0]) != key(a[j]) {
        assert a[j] in multiset(rest);
      }
      forall i, j | 0 <= i < j < |a| ensures key(a[i]) != key(a[j]) {
        if i > 0 {
          assert a[i] == a[1..][i - 1] && a[j] == a[1..][j - 1];
        }
      }
    }
  }

  /** Sorting keeps exactly the elements it is given. */
  lemma SortKeepsMembers<T>(s: seq<T>, key: T -> real)
    ensures forall x :: x in SortBy(s, key) <==> x in s
  {
    var r := SortBy(s, key);
    forall x ensures x in r <==> x in s {
      assert x in r <==> x in multiset(r);
      assert x in s <==> x in multiset(s);
    }
  }

  /** The records of `s` that satisfy `keep`, ordered by `key`, ties in id order. */
  function SelectOrdered<T(!new)>(s: seq<T>, keep: T -> bool, key: Entry<T> -> real): (r: seq<Entry<T>>)
    ensures forall e :: e in r <==> e.id < |s| && e.value == s[e.id] && keep(s[e.id])
    ensures SortedLex(r, key, IdKey)
    ensures multiset(r) == multiset(Select(s, keep))
    ensures DistinctBy(r, IdKey)
  {
    SelectSortedById(s, keep);
    PermutationKeepsDistinct(SortBy(Select(s, keep), key), Select(s, keep), IdKey);
    StableSortIsLex(Select(s, keep), key, IdKey);
    SortKeepsMembers(Select(s, keep), key);
    SortBy(Select(s, keep), key)
  }

  lemma LexIsSorted<T>(s: seq<T>, k1: T -> real, k2: T -> real)
    requires SortedLex(s, k1, k2)
    ensures SortedBy(s, k1)
  {
  }
}
