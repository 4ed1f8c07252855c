/** Array operations of JavaScript used by the stores: `filter` and `slice(0, end)`. */
module Sequences {
  import opened Wrappers
  import opened Ints

  /** `r` is `s` with some elements left out, the rest in their original order. */
  ghost predicate IsSubsequence<T>(r: seq<T>, s: seq<T>)
    decreases |s|
  {
    if r == [] then true
    else if s == [] then false
    else if r[0] == s[0] then IsSubsequence(r[1..], s[1..])
    else IsSubsequence(r, s[1..])
  }

  ghost predicate IsPrefix<T>(r: seq<T>, s: seq<T>) {
    |r| <= |s| && s[..|r|] == r
  }

  /** `Array.prototype.filter`: the elements of `s` that satisfy `p`, in order. */
  function Filter<T(!new)>(s: seq<T>, p: T -> bool): (r: seq<T>)
    ensures forall x :: x in r <==> x in s && p(x)
    ensures IsSubsequence(r, s)
    ensures |r| <= |s|
  {
    if s == [] then []
    else
      assert s == [s[0]] + s[1..];
      var rest := Filter(s[1..], p);
      if p(s[0]) then [s[0]] + rest
      else
        assert rest != [] ==> rest[0] != s[0];
        rest
  }

  /**
   * `filter` keeps every occurrence of a kept element: each element occurs
   * in the result as often as in the input when it satisfies `p`, and not
   * at all otherwise.  With `IsSubsequence` this fixes the result exactly.
   */
  lemma {:induction false} FilterMultiplicity<T(!new)>(s: seq<T>, p: T -> bool)
    ensures forall x :: multiset(Filter(s, p))[x] == if p(x) then multiset(s)[x] else 0
  {
    if s != [] {
      FilterMultiplicity(s[1..], p);
      assert s == [s[0]] + s[1..];
    }
  }

  lemma {:induction false} FilterConcat<T(!new)>(a: seq<T>, b: seq<T>, p: T -> bool)
    ensures Filter(a + b, p) == Filter(a, p) + Filter(b, p)
  {
    if a == [] {
      assert a + b == b;
    } else {
      assert (a + b)[1..] == a[1..] + b;
      FilterConcat(a[1..], b, p);
    }
  }

  /** Filtering twice by the same predicate is filtering once. */
  lemma {:induction false} FilterIdempotent<T(!new)>(s: seq<T>, p: T -> bool)
    ensures Filter(Filter(s, p), p) == Filter(s, p)
  {
    if s != [] {
      FilterIdempotent(s[1..], p);
    }
  }

  /** A filter that rejects nothing returns its input. */
  lemma {:induction false} FilterKeepsAll<T(!new)>(s: seq<T>, p: T -> bool)
    requires forall x :: x in s ==> p(x)
    ensures Filter(s, p) == s
  {
    if s != [] {
      FilterKeepsAll(s[1..], p);
    }
  }

  /** Two kept elements keep their relative order in the filtered sequence. */
  lemma {:induction false} FilterKeepsPairOrder<T(!new)>(s: seq<T>, p: T -> bool, i: nat, j: nat)
    requires i < j < |s| && p(s[i]) && p(s[j])
    ensures exists i', j' :: 0 <= i' < j' < |Filter(s, p)| && Filter(s, p)[i'] == s[i] && Filter(s, p)[j'] == s[j]
  {
    var rest := Filter(s[1..], p);
    if i == 0 {
      assert s[j] == s[1..][j - 1];
      assert s[j] in rest;
      var k :| 0 <= k < |rest| && rest[k] == s[j];
      assert Filter(s, p) == [s[0]] + rest;
      assert Filter(s, p)[0] == s[i] && Filter(s, p)[k + 1] == s[j];
    } else {
      FilterKeepsPairOrder(s[1..], p, i - 1, j - 1);
      var i', j' :| 0 <= i' < j' < |rest| && rest[i'] == s[1..][i - 1] && rest[j'] == s[1..][j - 1];
      if p(s[0]) {
        assert Filter(s, p) == [s[0]] + rest;
        assert Filter(s, p)[i' + 1] == s[i] && Filter(s, p)[j' + 1] == s[j];
      } else {
        assert Filter(s, p) == rest;
      }
    }
  }

  /**
   * `Array.prototype.slice(0, end)`: a non-negative `end` keeps at most `end`
   * leading elements; a negative one drops `-end` elements from the back.
   */
  function Take<T>(s: seq<T>, end: int): (r: seq<T>)
    ensures IsPrefix(r, s)
    ensures 0 <= end ==> |r| == Min(end, |s|)
    ensures end < 0 ==> |r| == Max(0, |s| + end)
  {
    if 0 <= end then s[..Min(end, |s|)]
    else s[..Max(0, |s| + end)]
  }
}
