/**
 * The `Memory` record shared by the web store and the native store.
 *
 * Every field that the TypeScript interface marks optional is an `Option`.
 * The `embedding` column holds JSON text in the source; the model keeps the
 * outcome of parsing that text instead: a vector of numbers, or text that
 * `JSON.parse` rejects.  `None` stands for an embedding that is absent, null or
 * the empty string, all of which JavaScript treats as false.
 * Timestamps are milliseconds from an injected clock, the value
 * `new Date(..).getTime()` would give for the stored ISO string.
 */
module Records {
  import opened Wrappers

  datatype Embedding = Vector(values: seq<real>) | Malformed

  datatype Memory = Memory(
    id: Option<nat>,
    itemName: string,
    location: string,
    notes: Option<string>,
    embedding: Option<Embedding>,
    createdAt: Option<int>,
    updatedAt: Option<int>)

  /** The id used when computing the next id: a missing id counts as 0. */
  function IdOrZero(m: Memory): nat {
    m.id.GetOr(0)
  }

  /** Does `m` carry exactly the id `id`?  A record without an id matches no number. */
  predicate HasId(m: Memory, id: int) {
    m.id.Some? && m.id.value == id
  }

  /** The sort key of "newest first": the creation time, with a missing one counting as 0. */
  function CreatedKey(m: Memory): real {
    m.createdAt.GetOr(0) as real
  }

  /** Does `m` carry an embedding that parses to a vector? */
  predicate HasVector(m: Memory) {
    m.embedding.Some? && m.embedding.value.Vector?
  }

  function VectorOf(m: Memory): seq<real>
    requires HasVector(m)
  {
    m.embedding.value.values
  }

  /** No two records share a defined id. */
  predicate UniqueIds(ms: seq<Memory>) {
    forall i, j :: 0 <= i < j < |ms| && ms[i].id.Some? ==> ms[i].id != ms[j].id
  }
}
