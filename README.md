# Embedding retrieval: a verified Dafny model

This project models the two pieces of real logic in a set of retrieval-augmented
generation demos for a hosted prediction service.

The first is in-memory nearest-document retrieval (`rag/rag.go`).
- `cosineSimilarity` accumulates a dot product and two squared norms in one loop over the
  query's indices. It returns 0 instead of dividing when either squared norm is 0.
- `findMostSimilar` scans a map from document id to embedding. It starts from the score -1
  and the id `""`, and it keeps a document only when that document's score is strictly greater.

The second is the decoding of embedding responses.
- `getEmbedding` (`rag_pgsql/rag.go`) walks predictions[0] → `"embeddings"` → `"values"`
  with one error per structural mismatch. It refuses an empty list.
- `getDocumentEmbedding` and `getQueryEmbedding` (`rag/rag.go`) read predictions[0] directly
  as a list, with no shape checks.

The embedding requests are modelled as pure record constructors.

Modules, one file each:
- `Structpb` models the protocol-buffer `Value` tree and its nil-tolerant getters. A wrong
  kind yields 0 or nil.
- `Vertex` holds the shared endpoint constants, the request and response records, the error
  kinds and the loop that copies a list of numbers into a fresh slice.
- `Similarity` holds `cosineSimilarity` and its properties, including Cauchy–Schwarz.
- `Retrieval` holds `findMostSimilar`. Go's map order is a parameter: any sequence that lists
  every key once.
- `RagPgsql` holds the request and the checked decoding of `getEmbedding`.
- `RagEmbedding` holds the requests and the unchecked decoding of `rag/rag.go`.

Arithmetic is over exact reals. `math.Sqrt` is the parameter `sqrt`. Only its defining
property is assumed (`IsSqrt`): it is non-negative and squares back to its argument.

Behaviour of the code that the model keeps:
- `findMostSimilar` has no error case. An empty map gives `""`, and so does a map where every
  document scores exactly -1.
- `cosineSimilarity` has no length check.
  - A longer document's extra entries are ignored (`CosineIgnoresTail`).
  - A shorter document makes Go panic on an index. The model makes that case the
    precondition `Comparable`.
- With tied scores, the first document visited wins (`ScanFirstMaximum`).

## Model

| member | source | states |
|---|---|---|
| Similarity.CosineSimilarity | rag/rag.go:154-165 | the loop's result is the cosine score of the query prefix; it is exactly 0 when either accumulated squared norm is 0, and it lies in [-1, 1] |
| Similarity.CosineRange | rag/rag.go:155-164 | over exact reals every score lies in [-1, 1], so -1 is a floor for the scan's starting score |
| Similarity.CauchySchwarz | rag/rag.go:155-159 | the accumulated dot product squared never exceeds the product of the two accumulated squared norms |
| Similarity.ZeroVectorScoresZero | rag/rag.go:161-163 | an all-zero vector on either side scores exactly 0, without a division |
| Similarity.CosineSymmetric | rag/rag.go:155-164 | for vectors of equal length, swapping the arguments leaves the score unchanged |
| Similarity.CosineSelf | rag/rag.go:157-164 | a vector with a non-zero entry has similarity 1 with itself |
| Similarity.CosineIgnoresTail | rag/rag.go:156-160 | entries of the second vector past the first vector's length never change the score |
| Similarity.SelfDotPositive | rag/rag.go:158-161 | a non-zero entry makes the accumulated squared norm positive, so the zero-norm guard fires only on all-zero vectors |
| Similarity.DotSymmetric | rag/rag.go:157 | the accumulated dot product is the same with the vectors swapped |
| Retrieval.FindMostSimilar | rag/rag.go:168-179 | if some document scores above -1, the result is a key with a score above -1 and at least every document's score; if none does (an empty map included), the result is "" |
| Retrieval.ScanIsMaximal | rag/rag.go:171-177 | no visited document scores above the scan's best score, and that score never drops below -1 |
| Retrieval.ScanFirstMaximum | rag/rag.go:173-176 | unless nothing scores above -1, the result is the first visited document with the maximal score, so ties keep the earliest id |
| Retrieval.ScanStaysAtStart | rag/rag.go:169-178 | the result stays ("", -1) exactly when no visited document scores above -1 |
| Retrieval.UniqueMaximumWins | rag/rag.go:171-176 | a strict maximum above -1 among the visited documents is the result |
| Retrieval.UniqueMaximumIsOrderIndependent | rag/rag.go:171-176 | with a unique maximum above -1, every visiting order of the map gives the same result |
| Retrieval.EmptyQueryPicksFirstVisited | rag/rag.go:161-176 | with an empty query embedding every score is 0, so the first visited document is returned |
| Retrieval.NearerDirectionWins | rag/rag.go:168-179 | documents [1,0] and [0,1] against the query [0.9,0.1] give "d1" in every visiting order |
| Vertex.FillEmbedding | rag_pgsql/rag.go:221-224 | the filled slice has one element per list entry, and element i is that entry's number value (0 for a non-number) |
| RagPgsql.GetEmbeddingRequest | rag_pgsql/rag.go:164-179 | the request goes to endpointPrefix + embeddingModel and carries one instance with the text as content and the caller's task type; it asks for output dimensionality 256 |
| RagPgsql.EmbeddingValues | rag_pgsql/rag.go:186-219 | each error occurs exactly when its check is the first to fail, in the code's order: no predictions, not a struct, no "embeddings", "embeddings" not a struct, no "values", "values" not a list, and an empty list; success returns the values list |
| RagPgsql.DecodeEmbedding | rag_pgsql/rag.go:186-225 | a failure carries the validation error; a success is a non-empty vector of the list's number values |
| RagPgsql.GetEmbedding | rag_pgsql/rag.go:186-225 | the validate-then-copy procedure returns exactly the decoded embedding, and every success is non-empty |
| RagPgsql.OnlyFirstPredictionCounts | rag_pgsql/rag.go:191 | predictions after the first never change the outcome |
| RagPgsql.DecodeEmbeddingRoundTrip | rag_pgsql/rag.go:191-225 | decoding the model's nested response for a vector gives the vector back, or EmptyEmbedding for the empty vector |
| RagEmbedding.DocumentEmbeddingRequest | rag/rag.go:90-104 | the request carries the text as content and no task type, targets the embedding endpoint, and asks for dimensionality 256 |
| RagEmbedding.QueryEmbeddingRequest | rag/rag.go:122-137 | the request carries the query as content and task type RETRIEVAL_QUERY, targets the embedding endpoint, and asks for dimensionality 256 |
| RagEmbedding.DecodeListEmbedding | rag/rag.go:109-117 | no predictions is an error; a list prediction gives one number value per entry; any other first prediction gives an empty embedding and no error |
| RagEmbedding.DecodePredictions | rag/rag.go:142-150 | the decoding loop shared by both functions returns exactly DecodeListEmbedding's result |
| RagEmbedding.DecodeListEmbeddingRoundTrip | rag/rag.go:112-116 | a first prediction that is a list of numbers decodes to those numbers, whatever follows it |
| RagEmbedding.NestedResponseDecodesEmpty | rag/rag.go:112 | the nested response that getEmbedding decodes to a vector decodes here to an empty embedding, with no error |

## Findings

| source | as written | input that shows it | evidently intended | confidence | as-written member | corrected member |
|---|---|---|---|---|---|---|
| rag/rag.go:112 | reads predictions[0] as a list; a prediction of any other kind silently gives an empty embedding | a response whose predictions[0] is `{"embeddings": {"values": [0.6, 0.8]}}`, the shape that rag_pgsql/rag.go:191-216 reads for the same model | the embedding [0.6, 0.8], as the revised getEmbedding in rag_pgsql/rag.go:163-225 extracts it | medium: the service's response format is not in the source, and the nested shape is taken from the revised decoder; not executed | RagEmbedding.NestedResponseDecodesEmpty | RagPgsql.DecodeEmbeddingRoundTrip |

The consequence for retrieval: every document embedding and the query embedding then come back
empty. Every score is then 0 by the zero-norm guard, and `findMostSimilar` returns whichever
document the map visits first (`Retrieval.EmptyQueryPicksFirstVisited`). The `rag/rag.go`
functions are still modelled as written. `RagPgsql.DecodeEmbedding` is the corrected decoding.

## Left out

- The remote `Predict` call and its error return are not modelled. The decoders take the
  response as input. SDK client setup, `GenerateContent`, prompt formatting and printing are
  network I/O and foreign calls.
- The database work in `rag_pgsql/rag.go` is left out: extension and table creation, the
  `INSERT ... ON CONFLICT DO NOTHING`, the pgvector `ORDER BY embedding <=> $1 LIMIT 1` query,
  and the pool setup with its ignored `AfterConnect` error. All of it is behaviour of the
  database and its driver.
- IEEE float32 arithmetic is not modelled. This covers the `float32(...)` conversions of
  decoded numbers and `math.Sqrt`. The model computes over exact reals, and `sqrt` is a
  parameter constrained only by `IsSqrt`. NaN and infinities are not modelled.
- The concrete iteration order of Go maps is unspecified. It is a parameter, and the
  properties hold for every order.
- Nil pointers inside the protobuf tree are not modelled: a nil `*Value` stored in a field map
  or in the predictions, and a `Value` whose kind is unset. A missing map key is modelled (it is
  nil in Go).
- The index-out-of-range panic of `cosineSimilarity` is not modelled. The panic happens when a
  document is shorter than the query. The model makes that case a precondition.
- The other files are direct SDK glue with no logic of their own: `parallel/parallel.go`,
  `main.go` and `image2text/image2text.go`, and their tests, which need a live service.
- RagPgsql.GetEmbeddingRequest: the endpoint is not stated as one spelled-out string. It is
  stated as `EndpointPrefix + EmbeddingModel`, both built from the source's constants. The
  same holds for RagEmbedding.DocumentEmbeddingRequest and RagEmbedding.QueryEmbeddingRequest.
