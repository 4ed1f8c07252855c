/**
 * The ranking pipeline shared by both stores: score every record whose
 * embedding parses, sort by similarity (largest first, stable) and keep the
 * first `topK` with `slice(0, topK)`.
 */
module Ranking {
  import opened Wrappers
  import opened Ints
  import opened Records
  import opened Sequences
  import opened Sorting

  /** A memory with its similarity to the query: `{ ...memory, similarity }`. */
  datatype Ranked = Ranked(memory: Memory, similarity: real)

  function SimilarityOf(c: Ranked): real {
    c.similarity
  }

  function MemoryCreated(c: Ranked): real {
    CreatedKey(c.memory)
  }

  /** A similarity measure between the query and a stored vector. */
  type Measure = (seq<real>, seq<real>) -> real

  /**
   * The `map` step followed by the filter that drops `null`: every record
   * whose embedding parses is scored against the query, in row order, one
   * candidate per such record; the others are dropped.
   */
  function Candidates(rows: seq<Memory>, query: seq<real>, sim: Measure): (r: seq<Ranked>)
    ensures forall c :: c in r ==> c.memory in rows && HasVector(c.memory) && c.similarity == sim(query, VectorOf(c.memory))
    ensures forall m :: m in rows && HasVector(m) ==> Ranked(m, sim(query, VectorOf(m))) in r
    ensures SortedDesc(rows, CreatedKey) ==> SortedDesc(r, MemoryCreated)
    ensures |r| <= |rows|
    ensures |r| == |Filter(rows, HasVector)|
  {
    if rows == [] then []
    else
      var rest := Candidates(rows[1..], query, sim);
      assert rows == [rows[0]] + rows[1..];
      assert SortedDesc(rows, CreatedKey) ==> SortedDesc(rows[1..], CreatedKey);
      if HasVector(rows[0]) then
        var head := Ranked(rows[0], sim(query, VectorOf(rows[0])));
        assert SortedDesc(rows, CreatedKey) ==> SortedDesc([head] + rest, MemoryCreated) by {
          if SortedDesc(rows, CreatedKey) {
            NewestCandidateFirst(rows, head, rest);
          }
        }
        [head] + rest
      else rest
  }

  /** A candidate for the newest row can go in front of candidates for the later rows. */
  lemma NewestCandidateFirst(rows: seq<Memory>, head: Ranked, rest: seq<Ranked>)
    requires rows != [] && SortedDesc(rows, CreatedKey) && head.memory == rows[0]
    requires SortedDesc(rest, MemoryCreated)
    requires forall c :: c in rest ==> c.memory in rows[1..]
    ensures SortedDesc([head] + rest, MemoryCreated)
  {
    forall c | c in rest ensures MemoryCreated(c) <= MemoryCreated(head) {
      var k :| 0 <= k < |rows[1..]| && rows[1..][k] == c.memory;
      assert rows[k + 1] == c.memory;
    }
    SortedCons(head, rest, MemoryCreated);
  }

  /**
   * One candidate per record with a vector, in row order: the `i`-th
   * candidate scores the `i`-th such record. Proved apart from `Candidates`
   * so that its callers do not carry this quantifier.
   */
  lemma {:induction false} CandidatesInRowOrder(rows: seq<Memory>, query: seq<real>, sim: Measure)
    ensures var r, ws := Candidates(rows, query, sim), Filter(rows, HasVector);
      && |r| == |ws|
      && forall i :: 0 <= i < |r| ==> r[i] == Ranked(ws[i], sim(query, VectorOf(ws[i])))
  {
    if rows != [] {
      var rest, wrest := Candidates(rows[1..], query, sim), Filter(rows[1..], HasVector);
      CandidatesInRowOrder(rows[1..], query, sim);
      if HasVector(rows[0]) {
        var head := Ranked(rows[0], sim(query, VectorOf(rows[0])));
        assert Candidates(rows, query, sim) == [head] + rest;
        assert Filter(rows, HasVector) == [rows[0]] + wrest;
      } else {
        assert Candidates(rows, query, sim) == rest;
        assert Filter(rows, HasVector) == wrest;
      }
    }
  }

  /**
   * `.sort((a, b) => b.similarity - a.similarity).slice(0, topK)`: the
   * candidates with the highest similarity, best first.
   */
  function TopK(cands: seq<Ranked>, topK: int): (r: seq<Ranked>)
    ensures 0 <= topK ==> |r| == Min(topK, |cands|)
    ensures topK < 0 ==> |r| == Max(0, |cands| + topK)
    ensures SortedDesc(r, SimilarityOf)
    ensures multiset(r) <= multiset(cands)
    ensures forall c :: c in r ==> c in cands
    ensures |r| == |cands| ==> multiset(r) == multiset(cands)
    ensures forall c :: c in cands && |r| > 0 && c.similarity > r[|r| - 1].similarity ==> c in r
  {
    TopKBest(cands, topK);
    TopKKeepsBest(cands, topK);
    Take(SortDesc(cands, SimilarityOf), topK)
  }

  /**
   * What sorting by similarity and slicing gives. `TopK` restates these
   * clauses; they are proved here, apart from it, so that each proof stays
   * small enough for the solver.
   */
  lemma TopKBest(cands: seq<Ranked>, topK: int)
    ensures var r := Take(SortDesc(cands, SimilarityOf), topK);
      && (0 <= topK ==> |r| == Min(topK, |cands|))
      && (topK < 0 ==> |r| == Max(0, |cands| + topK))
      && SortedDesc(r, SimilarityOf)
      && multiset(r) <= multiset(cands)
      && (forall c :: c in r ==> c in cands)
      && (|r| == |cands| ==> multiset(r) == multiset(cands))
  {
    SortThenTake(cands, topK, SimilarityOf);
  }

  /**
   * Sorting by similarity and slicing keeps every candidate that beats the
   * last one kept: the last clause of `TopK`, proved apart for the same reason.
   */
  lemma TopKKeepsBest(cands: seq<Ranked>, topK: int)
    ensures var r := Take(SortDesc(cands, SimilarityOf), topK);
      forall c :: c in cands && |r| > 0 && c.similarity > r[|r| - 1].similarity ==> c in r
  {
    var r := Take(SortDesc(cands, SimilarityOf), topK);
    forall c | c in cands && |r| > 0 && c.similarity > r[|r| - 1].similarity
      ensures c in r
    {
      assert SimilarityOf(c) > SimilarityOf(r[|r| - 1]);
      SortThenTakeTop(cands, topK, SimilarityOf, r, c);
    }
  }

  function Above(threshold: real): Ranked -> bool {
    (c: Ranked) => c.similarity > threshold
  }

  /**
   * Ranking after a threshold filter returns only candidates above the
   * threshold, and every candidate above both the threshold and the lowest
   * returned similarity; when fewer than `topK` come back, every candidate
   * above the threshold is among them.
   */
  lemma ThresholdedTopK(rows: seq<Memory>, query: seq<real>, sim: Measure, threshold: real, topK: int)
    ensures var r := TopK(Filter(Candidates(rows, query, sim), Above(threshold)), topK);
      && (forall c :: c in r ==> c.similarity > threshold && c.memory in rows && HasVector(c.memory) && c.similarity == sim(query, VectorOf(c.memory)))
      && (|r| > 0 ==> forall m :: m in rows && HasVector(m) && sim(query, VectorOf(m)) > r[|r| - 1].similarity ==> Ranked(m, sim(query, VectorOf(m))) in r)
      && (0 <= topK && |r| < topK ==> forall m :: m in rows && HasVector(m) && sim(query, VectorOf(m)) > threshold ==> Ranked(m, sim(query, VectorOf(m))) in r)
  {
    var kept := Filter(Candidates(rows, query, sim), Above(threshold));
    var r := TopK(kept, topK);
    if |r| > 0 {
      assert r[|r| - 1] in r;
      forall m | m in rows && HasVector(m) && sim(query, VectorOf(m)) > r[|r| - 1].similarity
        ensures Ranked(m, sim(query, VectorOf(m))) in r
      {
        assert Ranked(m, sim(query, VectorOf(m))) in kept;
      }
    }
    if 0 <= topK && |r| < topK {
      forall m | m in rows && HasVector(m) && sim(query, VectorOf(m)) > threshold
        ensures Ranked(m, sim(query, VectorOf(m))) in r
      {
        var c := Ranked(m, sim(query, VectorOf(m)));
        assert c in kept;
        assert c in multiset(kept);
      }
    }
  }

  /**
   * Ranking without a threshold returns only scored candidates, and every
   * candidate above the lowest returned similarity; when fewer than `topK`
   * come back, every record whose embedding parses is among them.
   */
  lemma UnfilteredTopK(rows: seq<Memory>, query: seq<real>, sim: Measure, topK: int)
    ensures var r := TopK(Candidates(rows, query, sim), topK);
      && (forall c :: c in r ==> c.memory in rows && HasVector(c.memory) && c.similarity == sim(query, VectorOf(c.memory)))
      && (|r| > 0 ==> forall m :: m in rows && HasVector(m) && sim(query, VectorOf(m)) > r[|r| - 1].similarity ==> Ranked(m, sim(query, VectorOf(m))) in r)
      && (0 <= topK && |r| < topK ==> forall m :: m in rows && HasVector(m) ==> Ranked(m, sim(query, VectorOf(m))) in r)
  {
    var cands := Candidates(rows, query, sim);
    var r := TopK(cands, topK);
    if 0 <= topK && |r| < topK {
      forall m | m in rows && HasVector(m)
        ensures Ranked(m, sim(query, VectorOf(m))) in r
      {
        var c := Ranked(m, sim(query, VectorOf(m)));
        assert c in multiset(cands);
      }
    }
  }

  /**
   * Among results of equal similarity, the ones returned are the first of
   * the candidates with that similarity, in the candidates' order.
   */
  lemma TopKTies(cands: seq<Ranked>, topK: int, k: real)
    ensures IsPrefix(WithKey(TopK(cands, topK), SimilarityOf, k), WithKey(cands, SimilarityOf, k))
  {
    var sorted := SortDesc(cands, SimilarityOf);
    var r := TopK(cands, topK);
    assert sorted == r + sorted[|r|..];
    FilterConcat(r, sorted[|r|..], HasKey(SimilarityOf, k));
    SortStable(cands, SimilarityOf, k);
  }

  /**
   * When the candidates arrive newest first, results of equal similarity
   * come out newest first.
   */
  lemma TopKTiesNewestFirst(cands: seq<Ranked>, topK: int)
    requires SortedDesc(cands, MemoryCreated)
    ensures var r := TopK(cands, topK);
      forall i, j :: 0 <= i < j < |r| && r[i].similarity == r[j].similarity ==> MemoryCreated(r[i]) >= MemoryCreated(r[j])
  {
    var r := TopK(cands, topK);
    forall i, j | 0 <= i < j < |r| && r[i].similarity == r[j].similarity
      ensures MemoryCreated(r[i]) >= MemoryCreated(r[j])
    {
      TopKTies(cands, topK, SimilarityOf(r[i]));
      TiesFollowOrder(r, cands, SimilarityOf, MemoryCreated, i, j);
    }
  }
}
