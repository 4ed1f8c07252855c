/**
 * `Array.prototype.sort` with a comparator that orders by a numeric key,
 * largest first.  The JavaScript sort is stable, so the model is a stable
 * insertion sort: elements with equal keys stay in their input order.
 */
module Sorting {
  import opened Wrappers
  import opened Ints
  import opened Sequences

  ghost predicate SortedDesc<T>(s: seq<T>, key: T -> real) {
    forall i, j :: 0 <= i < j < |s| ==> key(s[i]) >= key(s[j])
  }

  /** The predicate "has key `k`", named so that every use denotes the same function. */
  function HasKey<T>(key: T -> real, k: real): T -> bool {
    x => key(x) == k
  }

  /** The elements of `s` whose key is `k`, in their order in `s`. */
  function WithKey<T(!new)>(s: seq<T>, key: T -> real, k: real): seq<T> {
    Filter(s, HasKey(key, k))
  }

  /** An element no smaller than every element of a sorted sequence can go in front of it. */
  lemma SortedCons<T>(x: T, s: seq<T>, key: T -> real)
    requires SortedDesc(s, key)
    requires forall y :: y in s ==> key(y) <= key(x)
    ensures SortedDesc([x] + s, key)
  {
    forall i, j | 0 <= i < j < |[x] + s| ensures key(([x] + s)[i]) >= key(([x] + s)[j]) {
      assert ([x] + s)[j] == s[j - 1];
      if i > 0 {
        assert ([x] + s)[i] == s[i - 1];
      }
    }
  }

  /** Puts `x` in front of the first element whose key is not larger than its own. */
  function Insert<T>(x: T, s: seq<T>, key: T -> real): (r: seq<T>)
    ensures multiset(r) == multiset{x} + multiset(s)
  {
    if s == [] || key(x) >= key(s[0]) then [x] + s
    else
      assert s == [s[0]] + s[1..];
      [s[0]] + Insert(x, s[1..], key)
  }

  lemma {:induction false} InsertSorted<T>(x: T, s: seq<T>, key: T -> real)
    requires SortedDesc(s, key)
    ensures SortedDesc(Insert(x, s, key), key)
  {
    if s != [] && key(x) < key(s[0]) {
      var t := Insert(x, s[1..], key);
      InsertSorted(x, s[1..], key);
      forall y | y in t ensures key(s[0]) >= key(y) {
        assert y in multiset(t);
        assert y == x || y in s[1..];
      }
      assert Insert(x, s, key) == [s[0]] + t;
    }
  }

  /** A stable sort, largest key first. */
  function SortDesc<T>(s: seq<T>, key: T -> real): (r: seq<T>)
    ensures multiset(r) == multiset(s)
    ensures SortedDesc(r, key)
  {
    if s == [] then []
    else
      assert s == [s[0]] + s[1..];
      InsertSorted(s[0], SortDesc(s[1..], key), key);
      Insert(s[0], SortDesc(s[1..], key), key)
  }

  /** Sorting two elements inserts the first into the second alone. */
  lemma SortPair<T>(x: T, y: T, key: T -> real)
    ensures SortDesc([x, y], key) == Insert(x, [y], key)
  {
    assert [x, y][1..] == [y];
    assert SortDesc([y], key) == [y] by {
      assert [y][1..] == [];
    }
  }

  /** Two elements come out larger key first, whichever order they come in. */
  lemma SortTwo<T>(x: T, y: T, key: T -> real)
    requires key(x) < key(y)
    ensures SortDesc([x, y], key) == [y, x]
    ensures SortDesc([y, x], key) == [y, x]
  {
    SortPair(x, y, key);
    SortPair(y, x, key);
    assert Insert(x, [y], key) == [y, x] by {
      assert [y][1..] == [];
    }
  }

  lemma {:induction false} InsertStable<T(!new)>(x: T, s: seq<T>, key: T -> real, k: real)
    ensures WithKey(Insert(x, s, key), key, k) == WithKey([x] + s, key, k)
  {
    if s != [] && key(x) < key(s[0]) {
      var p := HasKey(key, k);
      var t := Insert(x, s[1..], key);
      var fx, fy, rest := Filter([x], p), Filter([s[0]], p), Filter(s[1..], p);
      assert fx == [] || fy == [] by {
        assert [x][1..] == [] && [s[0]][1..] == [];
      }
      calc {
        WithKey(Insert(x, s, key), key, k);
        { assert Insert(x, s, key) == [s[0]] + t; }
        Filter([s[0]] + t, p);
        { FilterConcat([s[0]], t, p); }
        fy + Filter(t, p);
        { InsertStable(x, s[1..], key, k); FilterConcat([x], s[1..], p); }
        fy + (fx + rest);
        fx + (fy + rest);
        { FilterConcat([s[0]], s[1..], p); assert [s[0]] + s[1..] == s; }
        fx + Filter(s, p);
        { FilterConcat([x], s, p); }
        WithKey([x] + s, key, k);
      }
    }
  }

  /**
   * When the elements of `r` with key `k` are a prefix of those of `s`, and
   * `s` is sorted by a second key, two elements of `r` with key `k` are in
   * the order of that second key.
   */
  lemma TiesFollowOrder<T(!new)>(r: seq<T>, s: seq<T>, key: T -> real, key2: T -> real, i: nat, j: nat)
    requires i < j < |r| && key(r[i]) == key(r[j])
    requires IsPrefix(WithKey(r, key, key(r[i])), WithKey(s, key, key(r[i])))
    requires SortedDesc(s, key2)
    ensures key2(r[i]) >= key2(r[j])
  {
    var k := key(r[i]);
    var p := HasKey(key, k);
    FilterKeepsPairOrder(r, p, i, j);
    var tied := WithKey(r, key, k);
    var i', j' :| 0 <= i' < j' < |tied| && tied[i'] == r[i] && tied[j'] == r[j];
    var all := WithKey(s, key, k);
    FilterKeepsSorted(s, key2, p);
    assert tied[i'] == all[i'] && tied[j'] == all[j'];
  }

  /** Sorting keeps, for every key, the elements with that key in their input order. */
  lemma {:induction false} SortStable<T(!new)>(s: seq<T>, key: T -> real, k: real)
    ensures WithKey(SortDesc(s, key), key, k) == WithKey(s, key, k)
  {
    if s != [] {
      var t := SortDesc(s[1..], key);
      var p := HasKey(key, k);
      calc {
        WithKey(SortDesc(s, key), key, k);
        { assert SortDesc(s, key) == Insert(s[0], t, key); }
        WithKey(Insert(s[0], t, key), key, k);
        { InsertStable(s[0], t, key, k); }
        Filter([s[0]] + t, p);
        { FilterConcat([s[0]], t, p); }
        Filter([s[0]], p) + Filter(t, p);
        { SortStable(s[1..], key, k); }
        Filter([s[0]], p) + Filter(s[1..], p);
        { FilterConcat([s[0]], s[1..], p); }
        Filter([s[0]] + s[1..], p);
        { assert s == [s[0]] + s[1..]; }
        WithKey(s, key, k);
      }
    }
  }

  lemma {:induction false} FilterKeepsSorted<T(!new)>(s: seq<T>, key: T -> real, p: T -> bool)
    requires SortedDesc(s, key)
    ensures SortedDesc(Filter(s, p), key)
  {
    if s != [] {
      FilterKeepsSorted(s[1..], key, p);
      var rest := Filter(s[1..], p);
      assert forall y :: y in rest ==> key(s[0]) >= key(y);
    }
  }

  /** A prefix of a sorted sequence is sorted and takes nothing the sequence does not hold. */
  lemma TakeOfSorted<T>(sorted: seq<T>, end: int, key: T -> real)
    requires SortedDesc(sorted, key)
    ensures var r := Take(sorted, end);
      && SortedDesc(r, key)
      && multiset(r) <= multiset(sorted)
      && (|r| == |sorted| ==> r == sorted)
  {
    var r := Take(sorted, end);
    assert sorted == r + sorted[|r|..];
    assert multiset(sorted) == multiset(r) + multiset(sorted[|r|..]);
  }

  /**
   * Sorting and then taking a prefix: the result has the length `slice`
   * gives, is sorted, and is drawn from the input; all of it when as long.
   */
  lemma SortThenTake<T>(s: seq<T>, end: int, key: T -> real)
    ensures var r := Take(SortDesc(s, key), end);
      && (0 <= end ==> |r| == Min(end, |s|))
      && (end < 0 ==> |r| == Max(0, |s| + end))
      && SortedDesc(r, key)
      && multiset(r) <= multiset(s)
      && (forall x :: x in r ==> x in s)
      && (|r| == |s| ==> multiset(r) == multiset(s))
  {
    var sorted := SortDesc(s, key);
    var r := Take(sorted, end);
    assert |sorted| == |s| by {
      assert |multiset(sorted)| == |multiset(s)|;
    }
    assert SortedDesc(r, key) && multiset(r) <= multiset(s) && (|r| == |s| ==> r == sorted) by {
      TakeOfSorted(sorted, end, key);
    }
    assert forall x :: x in r ==> x in s by {
      forall x | x in r
        ensures x in s
      {
        assert x in multiset(r);
      }
    }
  }

  /** One element of `s` whose key beats the last one kept after sorting is kept. */
  lemma SortThenTakeTop<T>(s: seq<T>, end: int, key: T -> real, r: seq<T>, x: T)
    requires r == Take(SortDesc(s, key), end)
    requires x in s && |r| > 0 && key(x) > key(r[|r| - 1])
    ensures x in r
  {
    var sorted := SortDesc(s, key);
    assert x in sorted by {
      assert x in multiset(s);
    }
    assert |sorted| == |s| by {
      assert |multiset(sorted)| == |multiset(s)|;
    }
    assert r == sorted[..|r|];
    PrefixOfSortedIsTop(sorted, |r|, key, x);
  }

  /** A sorted prefix holds every element whose key beats the prefix's last one. */
  lemma PrefixOfSortedIsTop<T>(sorted: seq<T>, n: nat, key: T -> real, x: T)
    requires SortedDesc(sorted, key) && 0 < n <= |sorted|
    requires x in sorted && key(x) > key(sorted[n - 1])
    ensures x in sorted[..n]
  {
    var j :| 0 <= j < |sorted| && sorted[j] == x;
    assert !(n - 1 < j);
    assert sorted[..n][j] == x;
  }
}
