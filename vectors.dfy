/**
 * The arithmetic behind cosine similarity: the dot product and the squared
 * norms that the similarity loop accumulates, over exact reals.
 */
module Vectors {

  /**
   * `Math.sqrt`, injected.  The model assumes of it only what a square root
   * guarantees and the guards rely on: the root of 0 is 0 and the root of a
   * positive number is positive.
   */
  type Root = f: real -> real | f(0.0) == 0.0 && (forall x :: x > 0.0 ==> f(x) > 0.0)
    witness (x: real) => x

  /** The sum of `a[i] * b[i]`, added up from index 0 upwards. */
  function Dot(a: seq<real>, b: seq<real>): real
    requires |a| == |b|
    decreases |a|
  {
    if |a| == 0 then 0.0
    else Dot(a[..|a| - 1], b[..|b| - 1]) + a[|a| - 1] * b[|b| - 1]
  }

  /** The sum of `a[i] * a[i]`. */
  function SqNorm(a: seq<real>): real {
    Dot(a, a)
  }

  predicate IsZero(a: seq<real>) {
    forall i :: 0 <= i < |a| ==> a[i] == 0.0
  }

  /**
   * The loop of `cosineSimilarity`: one pass over both vectors that updates
   * the dot product and the two squared norms.
   */
  method Accumulate(a: seq<real>, b: seq<real>) returns (dotProduct: real, normA: real, normB: real)
    requires |a| == |b|
    ensures dotProduct == Dot(a, b)
    ensures normA == SqNorm(a) && normB == SqNorm(b)
  {
    dotProduct, normA, normB := 0.0, 0.0, 0.0;
    var i := 0;
    while i < |a|
      invariant 0 <= i <= |a|
      invariant dotProduct == Dot(a[..i], b[..i])
      invariant normA == Dot(a[..i], a[..i]) && normB == Dot(b[..i], b[..i])
    {
      assert a[..i + 1][..i] == a[..i] && b[..i + 1][..i] == b[..i];
      dotProduct := dotProduct + a[i] * b[i];
      normA := normA + a[i] * a[i];
      normB := normB + b[i] * b[i];
      i := i + 1;
    }
    assert a[..i] == a && b[..i] == b;
  }

  lemma {:induction false} DotSymmetric(a: seq<real>, b: seq<real>)
    requires |a| == |b|
    ensures Dot(a, b) == Dot(b, a)
  {
    if |a| > 0 {
      DotSymmetric(a[..|a| - 1], b[..|b| - 1]);
    }
  }

  lemma {:induction false} SqNormNonNegative(a: seq<real>)
    ensures SqNorm(a) >= 0.0
  {
    if |a| > 0 {
      SqNormNonNegative(a[..|a| - 1]);
      var x := a[|a| - 1];
      assert x * x >= 0.0;
    }
  }

  /** The vector of zeros has squared norm 0. */
  lemma {:induction false} ZeroVectorSqNorm(a: seq<real>)
    requires IsZero(a)
    ensures SqNorm(a) == 0.0
  {
    if |a| > 0 {
      var init := a[..|a| - 1];
      assert IsZero(init) by {
        assert forall i :: 0 <= i < |init| ==> init[i] == a[i];
      }
      ZeroVectorSqNorm(init);
    }
  }
}
