/**
 * The browser variant of the memory store: every record lives in one array,
 * which each operation reads, changes and writes back as a whole.  The model
 * keeps that array as the field `memories` of a `MemoryStore`; the queries
 * are functions of the array.
 */
module WebStore {
  import opened Wrappers
  import opened Ints
  import opened Records
  import opened Sequences
  import opened Sorting
  import opened Text
  import opened Vectors
  import opened Ranking

  /** Results must score strictly above this similarity. */
  const Threshold: real := 0.3

  /** `JSON.parse` rejected a stored embedding; the search promise rejects with it. */
  datatype RankError = MalformedEmbedding

  /**
   * A `Partial<Memory>` as spread by `updateMemory`: `None` leaves a field
   * alone; `Some(v)` overwrites it with `v`, where for an optional field `v`
   * may itself be `None` (a property present with the value `undefined`).
   * `updated_at` is left out because it is overwritten anyway.
   */
  datatype Patch = Patch(
    id: Option<Option<nat>>,
    itemName: Option<string>,
    location: Option<string>,
    notes: Option<Option<string>>,
    embedding: Option<Option<Embedding>>,
    createdAt: Option<Option<int>>)

  /** `{ ...m, ...p }`. */
  function Merge(m: Memory, p: Patch): Memory {
    Memory(
      p.id.GetOr(m.id),
      p.itemName.GetOr(m.itemName),
      p.location.GetOr(m.location),
      p.notes.GetOr(m.notes),
      p.embedding.GetOr(m.embedding),
      p.createdAt.GetOr(m.createdAt),
      m.updatedAt)
  }

  /** `Math.max(...ms.map(m => m.id || 0))`. */
  function MaxId(ms: seq<Memory>): (r: nat)
    requires |ms| > 0
    ensures forall m :: m in ms ==> IdOrZero(m) <= r
    ensures exists m :: m in ms && IdOrZero(m) == r
  {
    if |ms| == 1 then IdOrZero(ms[0])
    else
      assert ms == [ms[0]] + ms[1..];
      Max(IdOrZero(ms[0]), MaxId(ms[1..]))
  }

  /** The id `addMemory` hands out: 1 for an empty store, else one more than the largest id. */
  function NextId(ms: seq<Memory>): (r: nat)
    ensures |ms| == 0 ==> r == 1
    ensures |ms| > 0 ==> exists m :: m in ms && r == IdOrZero(m) + 1
    ensures forall m :: m in ms ==> IdOrZero(m) < r
    ensures forall m :: m in ms ==> m.id != Some(r)
  {
    if |ms| > 0 then MaxId(ms) + 1 else 1
  }

  /** `ms.findIndex(m => m.id === id)`: the first index holding `id`, or -1. */
  function FirstIndexOf(ms: seq<Memory>, id: int): (r: int)
    ensures -1 <= r < |ms|
    ensures r == -1 <==> forall i :: 0 <= i < |ms| ==> !HasId(ms[i], id)
    ensures 0 <= r ==> HasId(ms[r], id) && forall i :: 0 <= i < r ==> !HasId(ms[i], id)
  {
    if ms == [] then -1
    else if HasId(ms[0], id) then 0
    else
      var k := FirstIndexOf(ms[1..], id);
      if k == -1 then -1 else k + 1
  }

  /** `ms.filter(m => m.id !== id)`. */
  function Remaining(ms: seq<Memory>, id: int): (r: seq<Memory>)
    ensures forall m :: m in r <==> m in ms && !HasId(m, id)
    ensures forall m {:trigger multiset(r)[m]} :: multiset(r)[m] == if HasId(m, id) then 0 else multiset(ms)[m]
    ensures IsSubsequence(r, ms)
  {
    FilterMultiplicity(ms, m => !HasId(m, id));
    Filter(ms, m => !HasId(m, id))
  }

  /** Deleting twice is deleting once. */
  lemma {:induction false} RemainingIdempotent(ms: seq<Memory>, id: int)
    ensures Remaining(Remaining(ms, id), id) == Remaining(ms, id)
  {
    FilterIdempotent(ms, m => !HasId(m, id));
  }

  /** Deleting an id that is not stored changes nothing. */
  lemma {:induction false} RemainingAbsent(ms: seq<Memory>, id: int)
    requires forall m :: m in ms ==> !HasId(m, id)
    ensures Remaining(ms, id) == ms
  {
    FilterKeepsAll(ms, m => !HasId(m, id));
  }

  /** Deleting keeps the ids of what is left unique. */
  lemma {:induction false} RemainingKeepsIdsUnique(ms: seq<Memory>, id: int)
    requires UniqueIds(ms)
    ensures UniqueIds(Remaining(ms, id))
  {
    SubsequenceKeepsIdsUnique(Remaining(ms, id), ms);
  }

  lemma {:induction false} SubsequenceKeepsIdsUnique(r: seq<Memory>, s: seq<Memory>)
    requires UniqueIds(s) && IsSubsequence(r, s)
    ensures UniqueIds(r)
    decreases |s|
  {
    if r != [] {
      assert s != [];
      assert UniqueIds(s[1..]) by {
        forall i, j | 0 <= i < j < |s[1..]| && s[1..][i].id.Some? ensures s[1..][i].id != s[1..][j].id {
          assert s[1..][i] == s[i + 1] && s[1..][j] == s[j + 1];
        }
      }
      if r[0] == s[0] {
        SubsequenceKeepsIdsUnique(r[1..], s[1..]);
        SubsequenceMembers(r[1..], s[1..]);
        forall j | 0 < j < |r| && r[0].id.Some? ensures r[0].id != r[j].id {
          assert r[j] == r[1..][j - 1];
          assert r[j] in r[1..];
          var k :| 0 <= k < |s[1..]| && s[1..][k] == r[j];
          assert s[k + 1] == r[j];
        }
        forall i, j | 0 < i < j < |r| && r[i].id.Some? ensures r[i].id != r[j].id {
          assert r[i] == r[1..][i - 1] && r[j] == r[1..][j - 1];
        }
      } else {
        SubsequenceKeepsIdsUnique(r, s[1..]);
      }
    }
  }

  lemma {:induction false} SubsequenceMembers<T>(r: seq<T>, s: seq<T>)
    requires IsSubsequence(r, s)
    ensures forall x :: x in r ==> x in s
    decreases |s|
  {
    if r != [] {
      if r[0] == s[0] {
        SubsequenceMembers(r[1..], s[1..]);
        assert r == [r[0]] + r[1..];
      } else {
        SubsequenceMembers(r, s[1..]);
      }
    }
  }

  /** The filter of `searchMemories`, given the lower-cased query. */
  predicate Matches(m: Memory, query: string) {
    || Contains(Lower(m.itemName), query)
    || Contains(Lower(m.location), query)
    || (m.notes.Some? && Contains(Lower(m.notes.value), query))
  }

  /** `getAllMemories`: every stored record, newest first, equal creation times in stored order. */
  function GetAllMemories(ms: seq<Memory>): (r: seq<Memory>)
    ensures multiset(r) == multiset(ms)
    ensures SortedDesc(r, CreatedKey)
    ensures forall k :: WithKey(r, CreatedKey, k) == WithKey(ms, CreatedKey, k)
  {
    forall k ensures WithKey(SortDesc(ms, CreatedKey), CreatedKey, k) == WithKey(ms, CreatedKey, k) {
      SortStable(ms, CreatedKey, k);
    }
    SortDesc(ms, CreatedKey)
  }

  /** `searchMemories`: the records matching the query case-insensitively, in stored order. */
  function SearchMemories(ms: seq<Memory>, searchText: string): (r: seq<Memory>)
    ensures forall m :: m in r <==> m in ms && Matches(m, Lower(searchText))
    ensures forall m {:trigger multiset(r)[m]} :: multiset(r)[m] == if Matches(m, Lower(searchText)) then multiset(ms)[m] else 0
    ensures IsSubsequence(r, ms)
  {
    var query := Lower(searchText);
    FilterMultiplicity(ms, m => Matches(m, query));
    Filter(ms, m => Matches(m, query))
  }

  /** An empty query matches every record, since every string includes "". */
  lemma {:induction false} SearchEmptyReturnsAll(ms: seq<Memory>)
    ensures SearchMemories(ms, "") == ms
  {
    var query := Lower("");
    assert query == "";
    forall m | m in ms ensures Matches(m, query) {
      assert StartsWith(Lower(m.itemName), "");
    }
    FilterKeepsAll(ms, m => Matches(m, query));
  }

  /** The case of the query does not matter. */
  lemma SearchIgnoresQueryCase(ms: seq<Memory>, searchText: string)
    ensures SearchMemories(ms, searchText) == SearchMemories(ms, Lower(searchText))
  {
    LowerIdempotent(searchText);
  }

  /** `getMemoriesWithEmbeddings`: the records that carry an embedding, in stored order. */
  function GetMemoriesWithEmbeddings(ms: seq<Memory>): (r: seq<Memory>)
    ensures forall m :: m in r <==> m in ms && m.embedding.Some?
    ensures forall m {:trigger multiset(r)[m]} :: multiset(r)[m] == if m.embedding.Some? then multiset(ms)[m] else 0
    ensures IsSubsequence(r, ms)
  {
    FilterMultiplicity(ms, (m: Memory) => m.embedding.Some?);
    Filter(ms, (m: Memory) => m.embedding.Some?)
  }

  /** The last step of the web `cosineSimilarity`: 0 when the denominator is 0. */
  function WebQuotient(dotProduct: real, normA: real, normB: real, sqrt: Root): real {
    var denominator := sqrt(normA) * sqrt(normB);
    if denominator == 0.0 then 0.0 else dotProduct / denominator
  }

  /** `cosineSimilarity` of the web store: 0 for different lengths or a zero denominator. */
  function WebSimilarity(a: seq<real>, b: seq<real>, sqrt: Root): (r: real)
    ensures |a| != |b| ==> r == 0.0
    ensures |a| == |b| && sqrt(SqNorm(a)) * sqrt(SqNorm(b)) == 0.0 ==> r == 0.0
    ensures |a| == |b| && (IsZero(a) || IsZero(b)) ==> r == 0.0
  {
    if |a| != |b| then 0.0
    else
      assert IsZero(a) || IsZero(b) ==> sqrt(SqNorm(a)) * sqrt(SqNorm(b)) == 0.0 by {
        if IsZero(a) { ZeroVectorSqNorm(a); }
        if IsZero(b) { ZeroVectorSqNorm(b); }
      }
      WebQuotient(Dot(a, b), SqNorm(a), SqNorm(b), sqrt)
  }

  method CosineSimilarity(a: seq<real>, b: seq<real>, sqrt: Root) returns (r: real)
    ensures r == WebSimilarity(a, b, sqrt)
  {
    if |a| != |b| {
      return 0.0;
    }
    var dotProduct, normA, normB := Accumulate(a, b);
    r := WebQuotient(dotProduct, normA, normB, sqrt);
  }

  lemma WebSimilaritySymmetric(a: seq<real>, b: seq<real>, sqrt: Root)
    ensures WebSimilarity(a, b, sqrt) == WebSimilarity(b, a, sqrt)
  {
    if |a| == |b| {
      DotSymmetric(a, b);
      var x, y := SqNorm(a), SqNorm(b);
      assert WebSimilarity(a, b, sqrt) == WebQuotient(Dot(a, b), x, y, sqrt);
      assert WebSimilarity(b, a, sqrt) == WebQuotient(Dot(a, b), y, x, sqrt);
      assert sqrt(x) * sqrt(y) == sqrt(y) * sqrt(x);
    }
  }

  function WebMeasure(sqrt: Root): Measure {
    (a, b) => WebSimilarity(a, b, sqrt)
  }

  /**
   * `findSimilarMemories`: the stored records scoring above the threshold,
   * best first, at most `topK` of them; a stored embedding that does not
   * parse makes the whole search fail.  The `Ok` value is `RankStored`;
   * the clauses after the first two restate its contract, so that callers
   * see them directly.
   */
  function FindSimilarMemories(ms: seq<Memory>, query: seq<real>, topK: int, sqrt: Root): (r: Result<seq<Ranked>, RankError>)
    ensures r.Err? <==> exists m :: m in ms && m.embedding == Some(Malformed)
    ensures r.Ok? ==> r.value == RankStored(ms, query, topK, sqrt)
    ensures r.Ok? && 0 <= topK ==> |r.value| == Min(topK, |AboveThreshold(ms, query, sqrt)|)
    ensures r.Ok? ==> multiset(r.value) <= multiset(AboveThreshold(ms, query, sqrt))
    ensures r.Ok? ==> SortedDesc(r.value, SimilarityOf)
    ensures r.Ok? ==> forall c :: c in r.value ==>
      && c.similarity > Threshold
      && c.memory in ms && HasVector(c.memory)
      && c.similarity == WebSimilarity(query, VectorOf(c.memory), sqrt)
    ensures r.Ok? && |r.value| > 0 ==> forall m ::
      (m in ms && HasVector(m) && WebSimilarity(query, VectorOf(m), sqrt) > r.value[|r.value| - 1].similarity) ==>
      Ranked(m, WebSimilarity(query, VectorOf(m), sqrt)) in r.value
    ensures r.Ok? && 0 <= topK && |r.value| < topK ==> forall m ::
      (m in ms && HasVector(m) && WebSimilarity(query, VectorOf(m), sqrt) > Threshold) ==>
      Ranked(m, WebSimilarity(query, VectorOf(m), sqrt)) in r.value
  {
    var withEmbeddings := GetMemoriesWithEmbeddings(ms);
    if exists m :: m in withEmbeddings && m.embedding == Some(Malformed) then Err(MalformedEmbedding)
    else Ok(RankStored(ms, query, topK, sqrt))
  }

  /** The candidates that survive the threshold: the list that `findSimilarMemories` sorts and slices. */
  function AboveThreshold(ms: seq<Memory>, query: seq<real>, sqrt: Root): seq<Ranked> {
    Filter(Candidates(GetMemoriesWithEmbeddings(ms), query, WebMeasure(sqrt)), Above(Threshold))
  }

  /**
   * The value `findSimilarMemories` resolves to when every stored embedding
   * parses: the stored records with a vector, scored, kept above the
   * threshold, sorted best first and sliced to `topK`.
   */
  function RankStored(ms: seq<Memory>, query: seq<real>, topK: int, sqrt: Root): (r: seq<Ranked>)
    ensures 0 <= topK ==> |r| == Min(topK, |AboveThreshold(ms, query, sqrt)|)
    ensures multiset(r) <= multiset(AboveThreshold(ms, query, sqrt))
    ensures SortedDesc(r, SimilarityOf)
    ensures forall c :: c in r ==>
      && c.similarity > Threshold
      && c.memory in ms && HasVector(c.memory)
      && c.similarity == WebSimilarity(query, VectorOf(c.memory), sqrt)
    ensures |r| > 0 ==> forall m ::
      (m in ms && HasVector(m) && WebSimilarity(query, VectorOf(m), sqrt) > r[|r| - 1].similarity) ==>
      Ranked(m, WebSimilarity(query, VectorOf(m), sqrt)) in r
    ensures 0 <= topK && |r| < topK ==> forall m ::
      (m in ms && HasVector(m) && WebSimilarity(query, VectorOf(m), sqrt) > Threshold) ==>
      Ranked(m, WebSimilarity(query, VectorOf(m), sqrt)) in r
  {
    ThresholdedTopK(GetMemoriesWithEmbeddings(ms), query, WebMeasure(sqrt), Threshold, topK);
    TopK(AboveThreshold(ms, query, sqrt), topK)
  }

  /** The store: the array that the browser keeps under one storage key. */
  class MemoryStore {
    var memories: seq<Memory>

    /** A store holding the records read back from storage. */
    constructor (stored: seq<Memory>)
      ensures memories == stored
    {
      memories := stored;
    }

    /** `addMemory`: appends `memory` under a fresh id, stamped with `now` twice. */
    method AddMemory(memory: Memory, now: int) returns (newId: nat)
      modifies this
      ensures newId == NextId(old(memories))
      ensures forall m :: m in old(memories) ==> m.id != Some(newId)
      ensures memories == old(memories) + [memory.(id := Some(newId), createdAt := Some(now), updatedAt := Some(now))]
      ensures old(UniqueIds(memories)) ==> UniqueIds(memories)
    {
      newId := NextId(memories);
      var newMemory := memory.(id := Some(newId), createdAt := Some(now), updatedAt := Some(now));
      memories := memories + [newMemory];
      assert forall i :: 0 <= i < |memories| - 1 ==> memories[i] in old(memories);
    }

    /** The `findIndex` search of both update operations. */
    method FindIndex(id: int) returns (index: int)
      ensures index == FirstIndexOf(memories, id)
    {
      index := 0;
      while index < |memories|
        invariant 0 <= index <= |memories|
        invariant forall i :: 0 <= i < index ==> !HasId(memories[i], id)
      {
        if HasId(memories[index], id) {
          return;
        }
        index := index + 1;
      }
      index := -1;
    }

    /** `updateMemoryEmbedding`: sets the embedding and `updated_at` of the first record with `id`. */
    method UpdateMemoryEmbedding(id: int, embedding: Embedding, now: int)
      modifies this
      ensures var i := FirstIndexOf(old(memories), id);
        memories == if i == -1 then old(memories)
                    else old(memories)[i := old(memories)[i].(embedding := Some(embedding), updatedAt := Some(now))]
      ensures old(UniqueIds(memories)) ==> UniqueIds(memories)
    {
      var index := FindIndex(id);
      if index != -1 {
        memories := memories[index := memories[index].(embedding := Some(embedding), updatedAt := Some(now))];
      }
    }

    /** `updateMemory`: spreads `updates` over the first record with `id` and stamps `updated_at`. */
    method UpdateMemory(id: int, updates: Patch, now: int)
      modifies this
      ensures var i := FirstIndexOf(old(memories), id);
        memories == if i == -1 then old(memories)
                    else old(memories)[i := Merge(old(memories)[i], updates).(updatedAt := Some(now))]
      ensures updates.id.None? && old(UniqueIds(memories)) ==> UniqueIds(memories)
    {
      var index := FindIndex(id);
      if index != -1 {
        memories := memories[index := Merge(memories[index], updates).(updatedAt := Some(now))];
      }
    }

    /** `deleteMemory`: keeps exactly the records whose id differs from `id`. */
    method DeleteMemory(id: int)
      modifies this
      ensures memories == Remaining(old(memories), id)
      ensures old(UniqueIds(memories)) ==> UniqueIds(memories)
    {
      if UniqueIds(memories) {
        RemainingKeepsIdsUnique(memories, id);
      }
      memories := Remaining(memories, id);
    }

    /** `clearAllMemories`. */
    method ClearAllMemories()
      modifies this
      ensures memories == []
    {
      memories := [];
    }
  }

  /** Two records are listed newest first, whatever order they were stored in. */
  lemma NewerListedFirst(older: Memory, newer: Memory)
    requires CreatedKey(older) < CreatedKey(newer)
    ensures GetAllMemories([older, newer]) == [newer, older]
    ensures GetAllMemories([newer, older]) == [newer, older]
  {
    SortTwo(older, newer, CreatedKey);
    assert GetAllMemories([older, newer]) == SortDesc([older, newer], CreatedKey);
    assert GetAllMemories([newer, older]) == SortDesc([newer, older], CreatedKey);
  }

  /** A search with a record's own vector finds it with similarity 1. */
  lemma OwnVectorFoundFirst(m: Memory, sqrt: Root)
    requires HasVector(m) && SqNorm(VectorOf(m)) == 1.0 && sqrt(1.0) == 1.0
    ensures FindSimilarMemories([m], VectorOf(m), 5, sqrt) == Ok([Ranked(m, 1.0)])
  {
    var v := VectorOf(m);
    UnitSelfSimilarity(v, sqrt);
    var r := FindSimilarMemories([m], v, 5, sqrt);
    OnlyRecordFound(m, sqrt);
    var rs := r.value;
    assert rs == [rs[0]];
  }

  /** Searching a one-record store returns at most that record, and returns it when it scores above the threshold. */
  lemma OnlyRecordFound(m: Memory, sqrt: Root)
    requires HasVector(m)
    ensures var r := FindSimilarMemories([m], VectorOf(m), 5, sqrt);
      && r.Ok?
      && |r.value| <= 1
      && (forall c :: c in r.value ==> c == Ranked(m, WebSimilarity(VectorOf(m), VectorOf(m), sqrt)))
      && (WebSimilarity(VectorOf(m), VectorOf(m), sqrt) > Threshold ==> Ranked(m, WebSimilarity(VectorOf(m), VectorOf(m), sqrt)) in r.value)
  {
    var r := FindSimilarMemories([m], VectorOf(m), 5, sqrt);
    var rows := GetMemoriesWithEmbeddings([m]);
    var cands := Candidates(rows, VectorOf(m), WebMeasure(sqrt));
    assert r == Ok(TopK(Filter(cands, Above(Threshold)), 5));
  }

  /** A unit vector has similarity 1 with itself when the root of 1 is 1. */
  lemma UnitSelfSimilarity(v: seq<real>, sqrt: Root)
    requires SqNorm(v) == 1.0 && sqrt(1.0) == 1.0
    ensures WebSimilarity(v, v, sqrt) == 1.0
  {
    assert WebQuotient(SqNorm(v), SqNorm(v), SqNorm(v), sqrt) == 1.0;
  }

  /**
   * Adding "Passport" in "Blue bag", storing the embedding [1, 0, 0] and
   * searching with the same vector finds that record first, with similarity 1.
   */
  method PassportScenario(sqrt: Root)
    requires sqrt(1.0) == 1.0
  {
    var store := new MemoryStore([]);
    var passport := Memory(None, "Passport", "Blue bag", None, None, None, None);
    var id := store.AddMemory(passport, 1000);
    store.UpdateMemoryEmbedding(id, Vector([1.0, 0.0, 0.0]), 2000);
    var stored := store.memories;
    var query := [1.0, 0.0, 0.0];
    assert stored == [passport.(id := Some(1), embedding := Some(Vector(query)), createdAt := Some(1000), updatedAt := Some(2000))];
    assert SqNorm(query) == 1.0 by {
      assert query[..2] == [1.0, 0.0] && [1.0, 0.0][..1] == [1.0] && [1.0][..0] == [];
      assert Dot([1.0], [1.0]) == 1.0;
      assert Dot([1.0, 0.0], [1.0, 0.0]) == 1.0;
    }
    OwnVectorFoundFirst(stored[0], sqrt);
    var result := FindSimilarMemories(stored, query, 5, sqrt);
    assert result == Ok([Ranked(stored[0], 1.0)]);
  }

  /** Two records added one after the other are listed newest first. */
  method NewestFirstScenario(first: Memory, second: Memory)
  {
    var store := new MemoryStore([]);
    var id1 := store.AddMemory(first, 1000);
    var stored1 := first.(id := Some(1), createdAt := Some(1000), updatedAt := Some(1000));
    assert store.memories == [stored1];
    var id2 := store.AddMemory(second, 2000);
    var stored2 := second.(id := Some(2), createdAt := Some(2000), updatedAt := Some(2000));
    assert store.memories == [stored1, stored2];
    NewerListedFirst(stored1, stored2);
    var listed := GetAllMemories(store.memories);
    assert listed == [stored2, stored1];
  }
}
