# Memory store and similarity search

A model of the persistence core of a "where did I put it" memories app. Each
memory is a record: an item name, a location, optional notes, an optional
embedding (a JSON-encoded vector of numbers) and two timestamps. The model
covers two files:

- `frontend/src/utils/database.web.ts`, the browser store. It keeps every
  record in one array in local storage and supports these operations:
  - add a record under a fresh id;
  - update a record's embedding, or patch its fields;
  - delete a record by id, or clear the whole store;
  - list all records newest first;
  - case-insensitive substring search;
  - list the records that have an embedding;
  - cosine similarity;
  - similarity search, which keeps the best `topK` records above the
    threshold 0.3.
- `frontend/src/utils/database.ts`, the native (SQLite) variant. Only its
  cosine similarity and similarity search are modelled. Here the rows arrive
  from `SELECT … ORDER BY created_at DESC`. There is no threshold, and a row
  whose embedding does not parse is skipped.

The model is split into modules:

- `Records`: the record type.
  - `Embedding` is either a parsed `Vector` or `Malformed` (text on which
    `JSON.parse` throws).
  - An absent, null or empty embedding is `None`.
  - Timestamps are milliseconds since the epoch.
- `Sequences` and `Sorting`: JavaScript's array semantics.
  - `filter` keeps a subsequence.
  - `slice(0, end)` follows its rules for negative ends.
  - `sort` is stable. It is modelled as a stable descending insertion sort,
    and its stability is stated as "the elements with key `k` keep their
    relative order".
- `Text`: ASCII `toLowerCase` and `includes`.
- `Vectors`: the dot product, the squared norms, and the one-pass loop that
  accumulates them.
- `Ranking`: the map / filter / sort / slice pipeline shared by both
  similarity searches. It is generic in the similarity measure.
- `WebStore`: the browser store.
  - `MemoryStore` is a class whose `memories` field is the stored array.
  - Its methods change that array.
  - The read-only queries are functions of the array.
- `NativeRanking`: the native cosine similarity and similarity search.

The threshold `0.3` is the exact rational 3/10, and JavaScript numbers are
modelled as exact reals. `Math.sqrt` is a parameter of type `Vectors.Root`, a
function that maps 0 to 0 and positive numbers to positive numbers. The clock
(`new Date().toISOString()`) is the `now` parameter.

### Behaviour worth noting

- `getAllMemories` sorts by `created_at` alone. The sort is stable, so
  records with equal timestamps stay in stored order.
- The browser similarity search ranks records in stored order, oldest first,
  so its ties come out oldest first.
  The native search ranks rows in `created_at DESC` order, so its ties come
  out newest first.
- The browser similarity search does not catch a `JSON.parse` failure. One
  malformed stored embedding makes the whole search fail (`Err`).
  The native search skips a row whose embedding does not parse.
- Only the browser search applies the threshold 0.3.
- `slice(0, topK)` with a negative `topK` drops `-topK` results from the
  end.
- Updating or deleting an id that no record has changes nothing and reports
  no error.

## Model

| member | source | states |
|---|---|---|
| Sequences.Filter | frontend/src/utils/database.web.ts:85-94 | `Array.prototype.filter`: an element is kept iff it is in the input and satisfies the predicate, and the kept elements stay in input order (a subsequence) |
| Sequences.FilterMultiplicity | frontend/src/utils/database.web.ts:85-94 | `filter` keeps every satisfying element exactly as often as the input holds it, and no other element |
| Sequences.Take | frontend/src/utils/database.web.ts:161 | `slice(0, end)`: the result is a prefix of the input of length `min(end, n)` for `end >= 0`, and `max(0, n + end)` for a negative `end` |
| Sorting.SortDesc | frontend/src/utils/database.web.ts:74-78 | the newest-first (descending key) sort returns a permutation of its input that is sorted by descending key |
| Sorting.SortStable | frontend/src/utils/database.web.ts:74-78 | the sort is stable: for every key value `k`, the elements with key `k` appear in the same order as in the input |
| Sorting.TakeOfSorted | frontend/src/utils/database.web.ts:160-161 | a `slice` prefix of a sorted sequence is sorted, takes no element more often than the sequence has it, and is the whole sequence when as long as it |
| Sorting.SortThenTake | frontend/src/utils/database.web.ts:160-161 | sorting then slicing gives the `slice` length, a sorted result drawn from the input, and a permutation of the input when as long as it |
| Sorting.SortThenTakeTop | frontend/src/utils/database.web.ts:160-161 | sorting then slicing keeps every input element whose key beats the last one kept |
| Sorting.SortTwo | frontend/src/utils/database.web.ts:74-78 | two elements come out larger key first, whichever order they come in |
| Sorting.TiesFollowOrder | frontend/src/utils/database.ts:119-173 | when the results with one key are the first inputs with that key, and the input is sorted by a second key, tied results are in the order of the second key |
| Text.ContainsAt | frontend/src/utils/database.web.ts:86-88 | `includes`: `Contains(s, q)` holds iff `q` occurs in `s` at some position |
| Text.LowerIdempotent | frontend/src/utils/database.web.ts:83 | lower-casing a lower-cased string changes nothing |
| Vectors.Accumulate | frontend/src/utils/database.web.ts:127-135 | the similarity loop ends with the dot product of the two vectors and the squared norm of each |
| Vectors.DotSymmetric | frontend/src/utils/database.ts:142-146 | the accumulated dot product does not depend on the order of the two vectors |
| Vectors.SqNormNonNegative | frontend/src/utils/database.ts:144-148 | an accumulated squared norm is never negative, so the square roots taken of it are defined |
| Vectors.ZeroVectorSqNorm | frontend/src/utils/database.ts:148 | the all-zeros vector has squared norm 0, which the guard catches |
| Ranking.Candidates | frontend/src/utils/database.ts:160-172 | scoring keeps exactly the rows with a parsed vector, each scored with its own vector, exactly as many candidates as rows with a parsed vector, and newest-first rows give newest-first candidates |
| Ranking.CandidatesInRowOrder | frontend/src/utils/database.ts:160-172 | there is one candidate per row with a parsed vector, in row order: the `i`-th candidate is the `i`-th such row with its similarity to the query |
| Ranking.TopK | frontend/src/utils/database.ts:173-174 | sort by similarity and `slice`: the result is sorted best first, drawn from the candidates, has the `slice` length, is all the candidates when it is as long as them, and keeps every candidate scoring above the last one kept |
| Ranking.TopKBest | frontend/src/utils/database.ts:173-174 | sorting candidates by similarity and slicing gives the `slice` length, a sorted result drawn from the candidates, and all of them when as long |
| Ranking.TopKKeepsBest | frontend/src/utils/database.ts:173-174 | sorting candidates by similarity and slicing keeps every candidate scoring above the last one kept |
| Ranking.ThresholdedTopK | frontend/src/utils/database.web.ts:147-161 | the thresholded pipeline returns at most `topK` results, sorted, each above the threshold and scored from a row with a vector; it keeps every row beating the last result, and every row above the threshold when fewer than `topK` come back |
| Ranking.UnfilteredTopK | frontend/src/utils/database.ts:160-174 | the unthresholded pipeline returns at most `topK` results, sorted and scored from vector rows; it keeps every vector row beating the last result, and every vector row when fewer than `topK` come back |
| Ranking.TopKTies | frontend/src/utils/database.ts:173 | results with equal similarity keep their candidate order: they are the first candidates with that similarity |
| Ranking.TopKTiesNewestFirst | frontend/src/utils/database.ts:119-173 | candidates in newest-first order give ties in newest-first order |
| WebStore.MaxId | frontend/src/utils/database.web.ts:45 | `Math.max(...ids)`: at least every id (an absent id counts as 0) and equal to one of them |
| WebStore.NextId | frontend/src/utils/database.web.ts:45 | the new id is 1 for an empty store, otherwise the largest id plus one; it is larger than every stored id and differs from all of them |
| WebStore.FirstIndexOf | frontend/src/utils/database.web.ts:63 | `findIndex`: -1 iff no record has the id, otherwise the first index whose record has it |
| WebStore.Remaining | frontend/src/utils/database.web.ts:99 | delete's filter keeps exactly the records whose id differs, each as often as it is stored, in stored order |
| WebStore.RemainingIdempotent | frontend/src/utils/database.web.ts:97-102 | deleting the same id twice leaves the same array as deleting it once |
| WebStore.RemainingAbsent | frontend/src/utils/database.web.ts:97-102 | deleting an id no record has leaves the array unchanged |
| WebStore.RemainingKeepsIdsUnique | frontend/src/utils/database.web.ts:99 | deletion keeps stored ids pairwise distinct |
| WebStore.GetAllMemories | frontend/src/utils/database.web.ts:73-79 | `getAllMemories` returns every stored record exactly once (a permutation), newest `created_at` first (absent counts as 0), with equal timestamps in stored order |
| WebStore.NewerListedFirst | frontend/src/utils/database.web.ts:73-79 | of two records, the one created later is listed first whichever order they were stored in |
| WebStore.SearchMemories | frontend/src/utils/database.web.ts:81-90 | a record is returned iff its lower-cased item name, location or notes contain the lower-cased query (the predicate `Matches`, lines 86-88); each match is returned as often as it is stored, in stored order |
| WebStore.SearchEmptyReturnsAll | frontend/src/utils/database.web.ts:85-89 | the empty query matches every record, so the search returns the whole store |
| WebStore.SearchIgnoresQueryCase | frontend/src/utils/database.web.ts:83 | the search gives the same result for a query and for its lower-cased form |
| WebStore.GetMemoriesWithEmbeddings | frontend/src/utils/database.web.ts:92-95 | exactly the records with a (truthy) embedding, each as often as it is stored, in stored order |
| WebStore.WebSimilarity | frontend/src/utils/database.web.ts:124-139 | the similarity is 0 for vectors of different lengths, whenever the denominator `sqrt(normA) * sqrt(normB)` is 0 (the guard of `WebQuotient`, lines 137-138), and so for a zero vector |
| WebStore.CosineSimilarity | frontend/src/utils/database.web.ts:124-139 | the loop-and-divide `cosineSimilarity` computes `WebSimilarity` |
| WebStore.WebSimilaritySymmetric | frontend/src/utils/database.web.ts:124-139 | the browser similarity is symmetric in its two arguments |
| WebStore.FindSimilarMemories | frontend/src/utils/database.web.ts:141-164 | the search fails iff some stored embedding is malformed; otherwise it returns `RankStored`: exactly `min(topK, n)` results for `topK >= 0`, where `n` counts the candidates above 0.3 (`AboveThreshold`), none more often than it is a candidate, best first, each above 0.3 and carrying its record's own similarity; it keeps every record beating the last result, and every record above 0.3 when fewer than `topK` come back |
| WebStore.RankStored | frontend/src/utils/database.web.ts:145-161 | scoring the stored records that have an embedding, keeping those above 0.3 (`AboveThreshold`, lines 147-159), sorting and slicing gives exactly `min(topK, n)` of the `n` kept candidates for `topK >= 0`, none more often than it is kept, best first, each a stored record with a vector above 0.3 with its own similarity, keeping every record beating the last result and every record above 0.3 when fewer than `topK` come back |
| WebStore.OwnVectorFoundFirst | frontend/src/utils/database.web.ts:141-164 | a store holding one record with a unit vector, queried with that vector, returns that record with similarity 1 |
| WebStore.UnitSelfSimilarity | frontend/src/utils/database.web.ts:137-138 | a vector of squared norm 1 has browser similarity 1 with itself when the root of 1 is 1 |
| WebStore.OnlyRecordFound | frontend/src/utils/database.web.ts:141-164 | searching a one-record store with that record's vector succeeds, returns at most that record with its own similarity, and returns it when it scores above 0.3 |
| WebStore.MemoryStore.constructor | frontend/src/utils/database.web.ts:16-24 | the store starts with the records read back from storage |
| WebStore.MemoryStore.AddMemory | frontend/src/utils/database.web.ts:43-59 | appends exactly one record, the input stamped with the fresh id and with `created_at == updated_at == now`; it returns that id and keeps ids distinct |
| WebStore.MemoryStore.FindIndex | frontend/src/utils/database.web.ts:63 | the `findIndex` scan returns `FirstIndexOf` of the stored array |
| WebStore.MemoryStore.UpdateMemoryEmbedding | frontend/src/utils/database.web.ts:61-71 | changes only the first record with the id, setting its embedding and `updated_at`; an absent id changes nothing; ids stay distinct |
| WebStore.MemoryStore.UpdateMemory | frontend/src/utils/database.web.ts:109-122 | replaces only the first record with the id by the record with the patch spread over it (`Merge`, lines 114-118) and `updated_at := now`; an absent id changes nothing; a patch without an id keeps ids distinct |
| WebStore.MemoryStore.DeleteMemory | frontend/src/utils/database.web.ts:97-102 | the store becomes `Remaining`: every record without the id, in order; ids stay distinct |
| WebStore.MemoryStore.ClearAllMemories | frontend/src/utils/database.web.ts:104-107 | the store becomes empty |
| NativeRanking.NativeSimilarity | frontend/src/utils/database.ts:135-151 | the native similarity is 0 for vectors of different lengths, whenever either squared norm is 0 (the guard of `NativeQuotient`, lines 148-150), and so for a zero vector |
| NativeRanking.CosineSimilarity | frontend/src/utils/database.ts:135-151 | the native loop-and-divide `cosineSimilarity` computes `NativeSimilarity` |
| NativeRanking.NativeSimilaritySymmetric | frontend/src/utils/database.ts:135-151 | the native similarity is symmetric in its two arguments |
| NativeRanking.SimilaritiesAgree | frontend/src/utils/database.ts:148-150 | over exact arithmetic the native guard (zero norm) and the browser guard (zero denominator) give the same similarity for all inputs |
| NativeRanking.QuotientsAgree | frontend/src/utils/database.ts:148-150 | for non-negative squared norms, dividing by a zero-checked root product and zero-checking the norms first give the same value |
| NativeRanking.SelfSimilarity | frontend/src/utils/database.ts:150 | a non-zero vector has similarity 1 with itself when the square root is exact there |
| NativeRanking.FindSimilarMemories | frontend/src/utils/database.ts:154-177 | returns exactly `min(topK, n)` results for `topK >= 0`, where `n` counts the rows with a parsed vector, none more often than it is a candidate, best first, each a row with a parsed vector carrying its own similarity; rows without a parsed vector are skipped; it keeps every row beating the last result, and every row with a parsed vector when fewer than `topK` come back |
| NativeRanking.TiesKeepRowOrder | frontend/src/utils/database.ts:173 | results with equal similarity keep the order of the rows |
| NativeRanking.TiesNewestFirst | frontend/src/utils/database.ts:119-174 | rows that arrive `ORDER BY created_at DESC` give ties with the newest first |

## Left out

- Local storage, `JSON.stringify` and the `try`/`catch` around storage
  access are not modelled. The store's array is the class field, and the
  constructor takes the records read back. A read or write failure, and the
  empty array a failed read yields, are not modelled.
- Console logging, and the `async`/`Promise` wrapping of every operation,
  are not modelled. Operations run one at a time.
- `initDatabase` and `getDatabase` (both files) do nothing that can be
  modelled.
- The native SQL operations in `database.ts` are not part of this model:
  add, update, delete, clear, list, search and the schema. Their results
  depend on SQLite. The native similarity search takes its `SELECT` rows as
  input. Only their order (`ORDER BY created_at DESC`) is used, as the
  premise of `NativeRanking.TiesNewestFirst`.
- `JSON.parse` of an embedding is modelled by the two cases `Vector` and
  `Malformed`. A string that parses to something other than an array of
  numbers is not modelled.
- Floating point is modelled as exact reals. Rounding, `NaN`, infinities and
  `0.3` as a double are not modelled. `Math.sqrt` is an injected `Root`, and
  only its behaviour at 0 and at positive numbers is assumed.
- Dates are modelled as integer milliseconds. The ISO string format and
  invalid dates (`getTime()` giving `NaN`) are not modelled.
- `toLowerCase` is modelled for ASCII letters only. Unicode case mapping is
  not modelled.
- A `topK` that is not an integer (a fraction, `NaN`, `Infinity`) is not
  modelled. The default of 5 is the caller's argument.
- Spreading a patch (`Patch`) covers every stored field except
  `updated_at`, which the update overwrites anyway. An explicit `undefined`
  for `item_name` or `location` is not modelled.
- Vectors.ZeroVectorSqNorm: only "a zero vector has norm 0" is proved, not
  the converse, "norm 0 only for the zero vector". The similarity functions
  state their guards on the norms themselves; the zero-vector clauses follow.
- Sequences.Filter: how often each element is kept is stated by the lemma
  `FilterMultiplicity`, not by `Filter`'s own contract. Every caller of
  `Filter` would otherwise carry that quantifier. The three store filters
  state it in their own contracts.
- Ranking.Candidates: "one candidate per row with a vector, in row order" is
  stated by the lemma `CandidatesInRowOrder`, not by `Candidates`' own
  contract, for the same reason.
- WebStore.MemoryStore.UpdateMemory: the guarantee that ids stay distinct
  is stated only for patches without an `id`. A patch that sets `id` can
  duplicate one, as in the source.
- WebStore.MemoryStore.AddMemory: `updated_at` increases across updates
  only if the supplied clock does. The model takes `now` as given and
  states nothing about monotonicity.
- Aliasing is not modelled: the arrays returned by `getAllMemories` (an
  in-place sort of a freshly parsed copy) and by the searches are values.
