/**
 * The ranking of the SQLite variant: its own `cosineSimilarity`, whose guard
 * is on the squared norms, and a `findSimilarMemories` that skips embeddings
 * it cannot parse and applies no threshold.  The rows come from the query
 * `SELECT * FROM memories WHERE embedding IS NOT NULL ORDER BY created_at DESC`,
 * which the model takes as its input.
 */
module NativeRanking {
  import opened Wrappers
  import opened Ints
  import opened Records
  import opened Sequences
  import opened Sorting
  import opened Vectors
  import opened Ranking
  import WebStore

  /** The last step of the native `cosineSimilarity`: 0 when either squared norm is 0. */
  function NativeQuotient(dotProduct: real, normA: real, normB: real, sqrt: Root): real
    requires normA >= 0.0 && normB >= 0.0
  {
    if normA == 0.0 || normB == 0.0 then 0.0
    else
      assert sqrt(normA) > 0.0 && sqrt(normB) > 0.0;
      PositiveProduct(sqrt(normA), sqrt(normB));
      dotProduct / (sqrt(normA) * sqrt(normB))
  }

  lemma PositiveProduct(x: real, y: real)
    requires x > 0.0 && y > 0.0
    ensures x * y > 0.0
  {
  }

  /** `cosineSimilarity` of the native store: 0 for different lengths or a zero vector. */
  function NativeSimilarity(a: seq<real>, b: seq<real>, sqrt: Root): (r: real)
    ensures |a| != |b| ==> r == 0.0
    ensures |a| == |b| && (SqNorm(a) == 0.0 || SqNorm(b) == 0.0) ==> r == 0.0
    ensures |a| == |b| && (IsZero(a) || IsZero(b)) ==> r == 0.0
  {
    if |a| != |b| then 0.0
    else
      SqNormNonNegative(a);
      SqNormNonNegative(b);
      assert IsZero(a) || IsZero(b) ==> SqNorm(a) == 0.0 || SqNorm(b) == 0.0 by {
        if IsZero(a) { ZeroVectorSqNorm(a); }
        if IsZero(b) { ZeroVectorSqNorm(b); }
      }
      NativeQuotient(Dot(a, b), SqNorm(a), SqNorm(b), sqrt)
  }

  method CosineSimilarity(a: seq<real>, b: seq<real>, sqrt: Root) returns (r: real)
    ensures r == NativeSimilarity(a, b, sqrt)
  {
    if |a| != |b| {
      return 0.0;
    }
    var dotProduct, normA, normB := Accumulate(a, b);
    SqNormNonNegative(a);
    SqNormNonNegative(b);
    r := NativeQuotient(dotProduct, normA, normB, sqrt);
  }

  lemma NativeSimilaritySymmetric(a: seq<real>, b: seq<real>, sqrt: Root)
    ensures NativeSimilarity(a, b, sqrt) == NativeSimilarity(b, a, sqrt)
  {
    if |a| == |b| {
      DotSymmetric(a, b);
      SqNormNonNegative(a);
      SqNormNonNegative(b);
      var x, y := SqNorm(a), SqNorm(b);
      assert NativeSimilarity(a, b, sqrt) == NativeQuotient(Dot(a, b), x, y, sqrt);
      assert NativeSimilarity(b, a, sqrt) == NativeQuotient(Dot(a, b), y, x, sqrt);
      if x != 0.0 && y != 0.0 {
        assert sqrt(x) * sqrt(y) == sqrt(y) * sqrt(x);
      }
    }
  }

  /**
   * Over exact reals the two guards agree: the web store's zero denominator
   * happens exactly when a squared norm is zero.
   */
  lemma SimilaritiesAgree(a: seq<real>, b: seq<real>, sqrt: Root)
    ensures WebStore.WebSimilarity(a, b, sqrt) == NativeSimilarity(a, b, sqrt)
  {
    if |a| == |b| {
      SqNormNonNegative(a);
      SqNormNonNegative(b);
      QuotientsAgree(Dot(a, b), SqNorm(a), SqNorm(b), sqrt);
    }
  }

  /** The two final steps agree on non-negative squared norms. */
  lemma QuotientsAgree(dotProduct: real, normA: real, normB: real, sqrt: Root)
    requires normA >= 0.0 && normB >= 0.0
    ensures WebStore.WebQuotient(dotProduct, normA, normB, sqrt) == NativeQuotient(dotProduct, normA, normB, sqrt)
  {
    if normA != 0.0 && normB != 0.0 {
      PositiveProduct(sqrt(normA), sqrt(normB));
    }
  }

  /** A vector is perfectly similar to itself, when `sqrt` is exact at its squared norm. */
  lemma SelfSimilarity(a: seq<real>, sqrt: Root)
    requires SqNorm(a) > 0.0
    requires sqrt(SqNorm(a)) * sqrt(SqNorm(a)) == SqNorm(a)
    ensures NativeSimilarity(a, a, sqrt) == 1.0
  {
    var n := SqNorm(a);
    SqNormNonNegative(a);
    assert NativeSimilarity(a, a, sqrt) == NativeQuotient(n, n, n, sqrt);
    assert NativeQuotient(n, n, n, sqrt) == n / (sqrt(n) * sqrt(n));
    DivideBySelf(n);
  }

  lemma DivideBySelf(x: real)
    requires x != 0.0
    ensures x / x == 1.0
  {
  }

  function NativeMeasure(sqrt: Root): Measure {
    (a, b) => NativeSimilarity(a, b, sqrt)
  }

  /**
   * `findSimilarMemories`: the rows whose embedding parses, best first, at
   * most `topK` of them; rows whose embedding is missing or does not parse
   * are skipped, and no threshold applies.
   */
  function FindSimilarMemories(rows: seq<Memory>, query: seq<real>, topK: int, sqrt: Root): (r: seq<Ranked>)
    ensures 0 <= topK ==> |r| == Min(topK, |Filter(rows, HasVector)|)
    ensures multiset(r) <= multiset(Candidates(rows, query, NativeMeasure(sqrt)))
    ensures SortedDesc(r, SimilarityOf)
    ensures forall c :: c in r ==>
      && c.memory in rows && HasVector(c.memory)
      && c.similarity == NativeSimilarity(query, VectorOf(c.memory), sqrt)
    ensures |r| > 0 ==> forall m ::
      (m in rows && HasVector(m) && NativeSimilarity(query, VectorOf(m), sqrt) > r[|r| - 1].similarity) ==>
      Ranked(m, NativeSimilarity(query, VectorOf(m), sqrt)) in r
    ensures 0 <= topK && |r| < topK ==> forall m ::
      (m in rows && HasVector(m)) ==> Ranked(m, NativeSimilarity(query, VectorOf(m), sqrt)) in r
  {
    UnfilteredTopK(rows, query, NativeMeasure(sqrt), topK);
    TopK(Candidates(rows, query, NativeMeasure(sqrt)), topK)
  }

  /**
   * The stable sort keeps candidates of equal similarity in row order: the
   * results with similarity `k` are the first rows scoring `k`, in order.
   */
  lemma TiesKeepRowOrder(rows: seq<Memory>, query: seq<real>, topK: int, sqrt: Root, k: real)
    ensures IsPrefix(WithKey(FindSimilarMemories(rows, query, topK, sqrt), SimilarityOf, k),
                     WithKey(Candidates(rows, query, NativeMeasure(sqrt)), SimilarityOf, k))
  {
    TopKTies(Candidates(rows, query, NativeMeasure(sqrt)), topK, k);
  }

  /** Rows that arrive newest first give ties newest first. */
  lemma TiesNewestFirst(rows: seq<Memory>, query: seq<real>, topK: int, sqrt: Root)
    requires SortedDesc(rows, CreatedKey)
    ensures var r := FindSimilarMemories(rows, query, topK, sqrt);
      forall i, j :: 0 <= i < j < |r| && r[i].similarity == r[j].similarity ==>
        CreatedKey(r[i].memory) >= CreatedKey(r[j].memory)
  {
    TopKTiesNewestFirst(Candidates(rows, query, NativeMeasure(sqrt)), topK);
  }
}
