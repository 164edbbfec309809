# Benchmark drivers: latency statistics, loading and reporting

This project models the logic of two benchmark drivers that compare the TMC
vector-memory service with other vector stores.

- `benchmark_comprehensive.py` runs TMC, FAISS, Qdrant and Elasticsearch over
  a sweep of dataset sizes.
- `benchmark_tmc.py` is a stress run of TMC against ChromaDB.

The model keeps what the drivers compute and leaves out what they measure.
Network calls, client SDKs and the clock become abstract inputs:

- `accepts: nat -> bool` says whether the k-th `/crystallize` post gets a 2xx
  status.
- `trip: nat -> RoundTrip` says what happens to the i-th query: it is answered
  after some milliseconds, or it raises.
- `attempt: (nat, nat) -> Attempt` gives what `setup` and `benchmark_queries`
  return, or that they raise, for each dataset size and adapter.

Each loader returns the calls it makes, in order. Those are the points passed
to `upsert`, the posts sent, and the `collection.add` batches.

Modules:

- `Errors`: the exceptions the drivers can hit, as a `Result` datatype.
- `Decimal`: `str(n)` formatting, its inverse and its injectivity.
- `Samples`: `sorted`, `list.sort()`, `statistics.mean`/`median`, `min`, `max`
  and the nearest-rank percentile. Latencies are exact reals.
- `Batching`: the `for i in range(0, n, B): xs[i:i+B]` slicing loop.
- `Dicts`: Python `dict` with insertion order kept, where assigning an
  existing key replaces its value in place.
- `Queries`: the shared test queries, round-robin query selection and the
  latency-collecting loop.
- `Comprehensive` and `Stress`: one module per driver.

`calculate_stats` works on a sorted copy, so it never changes its argument.
In the model it is a function over a `seq`, which is a value. `summarize`
sorts the caller's list in place, so it is a method that modifies an `array`.

Three consequences of the code that the contracts make explicit:

- p95 <= p99 holds for every non-empty list, because the index `int(p * n)`
  is monotone in `p` (`Samples.PercentileMonotone`).
- The stress driver always prints "TMC is Nx faster than ChromaDB". It does so
  even when the ratio is below 1: when ChromaDB's mean is below TMC's, the
  claimed factor is below 1 (`Stress.Headline`, `Stress.HeadlineWhenSlower`).
  Only the comprehensive driver picks the message from the ratio
  (`Comprehensive.SpeedVerdict`).
- The comprehensive verdict divides twice: `other / tmc`, then `1 / speedup`.
  Either division raises when a mean is 0. The model returns
  `Failure(ZeroDivision)` and stops the report there. The report is aborted
  exactly when some non-TMC system's verdict fails
  (`Comprehensive.CompareAllAborted`).

Every `setup` prints `len(dataset) / load_time` before returning, and that
division raises when the elapsed time is 0. The loaders take the elapsed
time `dt` as an input and return `Failure(ZeroDivision)` for `dt = 0`. They
also take whether each remote call returns (`accepts` for posts, `stores`
for `upsert` and `collection.add`), and stop at the first call that raises.

## Model

| member | source | states |
|---|---|---|
| `Samples.Sort` | benchmark_comprehensive.py:339 | `sorted(latencies)` is ascending and is a permutation of the samples, of the same length |
| `Samples.SortedPermutationUnique` | benchmark_tmc.py:125 | two ascending arrangements of the same multiset are equal, so any correct sort gives the list the model computes |
| `Samples.SortInPlace` | benchmark_tmc.py:125 | after `latencies.sort()` the caller's array holds exactly the sorted permutation of its old contents |
| `Samples.MinIndexFrom` | benchmark_tmc.py:125 | the index returned holds the least element of the unsorted suffix |
| `Samples.Min` | benchmark_comprehensive.py:345 | `min` returns one of the samples and no sample is smaller |
| `Samples.Max` | benchmark_comprehensive.py:346 | `max` returns one of the samples and no sample is larger |
| `Samples.SumPermutation` | benchmark_tmc.py:127 | reordering the samples does not change their sum |
| `Samples.Mean` | benchmark_comprehensive.py:341 | `statistics.mean`: the mean times the number of samples is their sum |
| `Samples.MeanBounds` | benchmark_comprehensive.py:341 | min <= mean <= max for every non-empty sample list |
| `Samples.Median` | benchmark_comprehensive.py:342 | `statistics.median`: lies between the two middle elements of the sorted samples, and is the middle one for an odd count |
| `Samples.MiddleBetween` | benchmark_tmc.py:128 | the middle of a sorted list lies between its elements at (n-1)/2 and n/2 |
| `Samples.MedianBounds` | benchmark_comprehensive.py:342 | min <= median <= max, for both odd and even lengths |
| `Samples.PercentileIndex` | benchmark_comprehensive.py:343-344 | for n > 0 and pct < 100 the index `int(pct/100 * n)` is a valid index (< n) |
| `Samples.PercentileIndexMonotone` | benchmark_comprehensive.py:343-344 | a higher percentile never reads an earlier index |
| `Samples.Percentile` | benchmark_comprehensive.py:343 | the nearest-rank percentile is one of the samples and lies between min and max |
| `Samples.PercentileMonotone` | benchmark_comprehensive.py:343-344 | p95 <= p99 for every non-empty sample list |
| `Samples.PermutationInvariant` | benchmark_tmc.py:125-130 | mean, median and every percentile depend only on the multiset of samples, so sorting first changes none of them |
| `Batching.Chunks` | benchmark_comprehensive.py:195-196 | the `range(0, n, B)` slices partition the list in order; none is empty, none exceeds B, all but the last hold exactly B |
| `Batching.ChunksCount` | benchmark_comprehensive.py:195 | the `range(0, n, B)` loop runs ceil(n / B) times |
| `Dicts.Put` | benchmark_comprehensive.py:472 | `d[k] = v` makes `d[k]` equal `v` and leaves other keys alone; a new key is appended to the iteration order, an existing one keeps its place |
| `Dicts.KeysAt` | benchmark_comprehensive.py:367 | iterating `d.items()` visits as many keys as entries, the i-th key being that of the i-th entry |
| `Dicts.PutSame` | benchmark_comprehensive.py:464 | after `d[k] = v`, `k` is a key and `d[k]` is `v` |
| `Dicts.PutOther` | benchmark_comprehensive.py:472 | `d[k] = v` keeps every other existing key with its old value |
| `Dicts.PutPut` | benchmark_comprehensive.py:464 | assigning a key twice leaves only the second value, which is how `results[size] = {}` followed by row updates behaves |
| `Decimal.FromNat` | benchmark_tmc.py:29 | `str(i)` is a non-empty string of decimal digits |
| `Decimal.ToNatFromNat` | benchmark_tmc.py:29 | parsing `str(i)` gives back `i` |
| `Decimal.TemplateInjective` | benchmark_comprehensive.py:59 | two texts built from one template around `str(i)` and `str(j)` are equal only if i = j |
| `Queries.QueryAt` | benchmark_comprehensive.py:98 | `TEST_QUERIES[i % len(TEST_QUERIES)]`: the first five iterations issue the test queries in list order |
| `Queries.QueryAtPeriodic` | benchmark_tmc.py:69 | iterations i and i + 5 issue the same query |
| `Queries.QueryAtCycle` | benchmark_tmc.py:69 | iteration c * 5 + i issues test query i |
| `Queries.CollectLatencies` | benchmark_comprehensive.py:96-106 | iteration i issues `TEST_QUERIES[i % 5]`; either every request is answered and latency i is round trip i, or the phase stops at the first request that raises, after issuing it |
| `Queries.CountAppend` | benchmark_tmc.py:68-69 | occurrences of a query in two runs of issued queries add up |
| `Queries.CountInQueries` | benchmark_tmc.py:32-38 | each test query occurs exactly once among the five |
| `Queries.CycleCount` | benchmark_tmc.py:68-69 | m full round-robin cycles issue every test query exactly m times |
| `Comprehensive.CalculateStats` | benchmark_comprehensive.py:337-347 | fails with StatisticsError exactly on an empty list; otherwise min <= p95 <= p99 <= max, mean and median lie between min and max, p95 and p99 are samples, and min and max are samples bounding every sample |
| `Comprehensive.CalculateStatsExample` | benchmark_comprehensive.py:337-347 | samples 10, 20, ..., 100 give mean 55, median 55, p95 = p99 = 100, min 10, max 100 |
| `Comprehensive.ExampleOrder` | benchmark_comprehensive.py:342-346 | in that example the sorted copy is the input, the percentile index is 9 and the median averages 50 and 60 |
| `Comprehensive.ExampleSum` | benchmark_comprehensive.py:341 | in that example the samples sum to 550 |
| `Comprehensive.ExampleSorted` | benchmark_comprehensive.py:339 | in that example `sorted` returns the list unchanged |
| `Comprehensive.DatasetTextsDistinct` | benchmark_comprehensive.py:58-61 | texts with different numbers `#i` differ |
| `Comprehensive.GenerateDataset` | benchmark_comprehensive.py:56-62 | exactly n entries with pairwise distinct texts; importance of entry i is 0.5 + (i mod 5) * 0.1 (in tenths, within 0.5..0.9); each embedding is that of the entry's own text |
| `Comprehensive.BatchPoints` | benchmark_comprehensive.py:196-204 | the points built from `dataset[i:i+100]` with ids `i + j` are that slice of the dataset numbered by position |
| `Comprehensive.UpsertsFromChunks` | benchmark_comprehensive.py:195-205 | the upserts made from offset i on are the 100-point chunks of the numbered dataset from i |
| `Comprehensive.QdrantCallsPoints` | benchmark_comprehensive.py:193-205 | a complete load upserts the 100-point chunks: every upsert holds 1 to 100 points; over all upserts point k has id k and carries entry k, so ids 0..n-1 are used once each, in order |
| `Comprehensive.FirstRaise` | benchmark_comprehensive.py:261-305 | the first call whose exception escapes: every earlier call returned or sits in `try: ... except: pass`, and this one raised outside such a block |
| `Comprehensive.RunSetup` | benchmark_comprehensive.py:261-309 | a straight-line setup makes a prefix of its calls; it returns `dt` iff no exception escapes and `dt` is non-zero; with no escape and `dt = 0` the rate print gives ZeroDivision; otherwise it stops right after the first call whose exception escapes |
| `Comprehensive.EsSetup` | benchmark_comprehensive.py:251-309 | the delete, create, bulk and refresh calls in order; the setup returns `dt` iff create, bulk and refresh all return and `dt` is non-zero; otherwise it stops right after the first of them that raises, the delete never being the one |
| `Comprehensive.EsDeleteSwallowed` | benchmark_comprehensive.py:261-265 | whether the index delete returns or raises changes neither the calls made nor the outcome |
| `Comprehensive.EsBulkUploadsDataset` | benchmark_comprehensive.py:291-304 | a complete load passes every entry to `bulk`, entry i as document `_id: i` |
| `Comprehensive.EsActions` | benchmark_comprehensive.py:291-302 | one action per entry: action i names the index `benchmark_test`, has `_id: i`, and its source is entry i's text, embedding and importance |
| `Comprehensive.EsActionsMatchQdrant` | benchmark_comprehensive.py:291-302 | the Elasticsearch documents are Qdrant's points: action i has id i and the text, embedding and importance of the point Qdrant upserts as point i |
| `Comprehensive.FaissSetup` | benchmark_comprehensive.py:124-140 | `self.texts` holds the dataset's texts in order; the setup returns `dt` iff `IndexFlatL2` and `index.add` return and `dt` is non-zero; a raising call gives RequestFailed and a zero `dt` gives ZeroDivision |
| `Comprehensive.FaissAligned` | benchmark_comprehensive.py:131-136 | after a complete load the index holds the embeddings in dataset order, so vector i belongs to `texts[i]` |
| `Comprehensive.QdrantUpload` | benchmark_comprehensive.py:191-209 | the upserts made are a prefix of the complete load's upserts; the setup returns `dt` iff every upsert returns and `dt` is non-zero; all upserts returning and `dt = 0` gives ZeroDivision; otherwise it stops right after the first upsert that raises |
| `Comprehensive.SweepUpsertCount` | benchmark_comprehensive.py:193-205 | over the sizes 1000, 10000 and 100000 a complete Qdrant load makes 10, 100 and 1000 upserts |
| `Comprehensive.BenchmarkQueries` | benchmark_comprehensive.py:94-108 | issues the round-robin queries; returns statistics iff all 100 requests are answered, equal to `calculate_stats` of the 100 round-trip latencies and ordered; otherwise RequestFailed |
| `Comprehensive.QueryMixBalanced` | benchmark_comprehensive.py:97-98 | over 100 iterations each of the five queries is issued exactly 20 times |
| `Comprehensive.RunMatrix` | benchmark_comprehensive.py:456-480 | the results after the nested size/adapter loop are the specified matrix, built row by row with dict assignment |
| `Comprehensive.RowExtend` | benchmark_comprehensive.py:466-475 | a failing adapter leaves the row as it was; a completing one stores its entry |
| `Comprehensive.MatrixExtend` | benchmark_comprehensive.py:458-464 | finishing the adapters of one size stores that size's row in the results |
| `Comprehensive.Row` | benchmark_comprehensive.py:466-475 | `results[size]` after the adapter loop, one dict assignment per adapter whose setup and queries both returned; its keys are adapter names |
| `Comprehensive.RowRecordsCompleted` | benchmark_comprehensive.py:466-480 | with distinct adapter names, an adapter is in a row iff both its setup and its queries returned, and its entry holds the load time and statistics they returned |
| `Comprehensive.Matrix` | benchmark_comprehensive.py:456-464 | `results` after the size loop, one row stored per size; its keys are exactly the sizes run |
| `Comprehensive.MatrixRow` | benchmark_comprehensive.py:458-464 | with distinct sizes, `results[size]` is the row built while that size ran |
| `Comprehensive.MatrixKeepsRow` | benchmark_comprehensive.py:464 | storing the row of a later, different size keeps an earlier size's row |
| `Comprehensive.RecordedIffCompleted` | benchmark_comprehensive.py:458-480 | for every size and every adapter, the result is recorded iff setup and queries both completed, whatever failed before it |
| `Comprehensive.SweepRecordedIffCompleted` | benchmark_comprehensive.py:458-480 | over the sizes `main` runs, each size has a row, and an adapter is recorded for that size iff it completed on it |
| `Comprehensive.OpsPerSecond` | benchmark_comprehensive.py:368-369 | 0 when load time <= 0; otherwise non-negative, and times the load time gives the size |
| `Comprehensive.SpeedVerdict` | benchmark_comprehensive.py:390-395 | fails with ZeroDivision iff a mean is 0; "TMC is faster" iff ratio >= 1; factor times the faster mean gives the slower mean; factor >= 1 when both means are positive |
| `Comprehensive.ReciprocalAtLeastOne` | benchmark_comprehensive.py:395 | `1/speedup` exceeds 1 when 0 < speedup < 1 |
| `Comprehensive.SpeedVerdictExamples` | benchmark_comprehensive.py:391-395 | TMC 2 ms against 8 ms gives "TMC is 4x faster"; the reverse gives "the other system is 4x faster" |
| `Comprehensive.Others` | benchmark_comprehensive.py:387-389 | the entries compared are exactly the row's entries other than TMC |
| `Comprehensive.OthersKeys` | benchmark_comprehensive.py:387-389 | their systems are the row's keys with TMC skipped, in row order |
| `Comprehensive.CompareAll` | benchmark_comprehensive.py:387-395 | line i names the i-th non-TMC system and holds exactly its `SpeedVerdict` against the TMC mean; when aborted, the next system's verdict is the division that raised; otherwise every non-TMC system has a line |
| `Comprehensive.CompareAllAborted` | benchmark_comprehensive.py:390-395 | the report aborts iff some non-TMC entry's verdict against the TMC mean fails |
| `Comprehensive.CompareAllNames` | benchmark_comprehensive.py:387-389 | the printed systems are the row's non-TMC keys in order, a prefix when aborted and all of them otherwise, each a key of the row other than TMC |
| `Comprehensive.CompareAllFactors` | benchmark_comprehensive.py:391-395 | with a positive TMC mean and non-negative means, every printed factor is >= 1 |
| `Comprehensive.LineNamesAt` | benchmark_comprehensive.py:387-388 | the names of the printed lines are the systems of those lines, in order |
| `Comprehensive.NonBaselineWithin` | benchmark_comprehensive.py:388-389 | the systems compared are in the row and are never TMC |
| `Comprehensive.SpeedComparisons` | benchmark_comprehensive.py:385-395 | nothing is printed without a TMC result; otherwise, with `tmc_mean` read from the TMC entry, line i names the i-th non-TMC system and holds its verdict against `tmc_mean`; the section aborts iff some such verdict fails, and otherwise covers every non-TMC system |
| `Stress.MemoryTextsDistinct` | benchmark_tmc.py:29 | memory texts with different numbers differ |
| `Stress.GenerateMemories` | benchmark_tmc.py:28-29 | exactly n memories with pairwise distinct texts, each of importance 0.8 |
| `Stress.TmcLoad` | benchmark_tmc.py:48-64 | the posts are a prefix of the memories in order; the setup returns `dt` iff every post is accepted and `dt` is non-zero; with every post accepted every memory is posted exactly once, and `dt = 0` gives ZeroDivision; otherwise it stops right after the first rejected post |
| `Stress.BatchAdd` | benchmark_tmc.py:96-99 | a batch's documents, metadatas and ids are the texts, importances and `mem_k` ids of that slice |
| `Stress.ChromaCallsColumns` | benchmark_tmc.py:95-105 | a complete load's adds each have equally long documents, metadatas and ids, 1 to 5000 of them (below the 5461 limit); the documents are the 5000-text chunks; over all adds the documents and metadatas are the memories in order and the ids are `mem_0..mem_{n-1}` |
| `Stress.CallsFromShape` | benchmark_tmc.py:95-105 | the adds from offset i on have equal column lengths within the batch bound, and their documents are the chunks of the texts from i |
| `Stress.CallsFromColumns` | benchmark_tmc.py:95-105 | over the adds from offset i on, the columns concatenate to the texts, importances and ids from i |
| `Stress.ColumnsCons` | benchmark_tmc.py:101-105 | one more add puts its columns in front of the later adds' columns |
| `Stress.ChromaLoad` | benchmark_tmc.py:91-109 | the adds made are a prefix of the complete load's adds; the setup returns `dt` iff every add returns and `dt` is non-zero; all adds returning and `dt = 0` gives ZeroDivision; otherwise it stops right after the first add that raises |
| `Stress.StressLoadCalls` | benchmark_tmc.py:161-167 | the stress run's load of 100000 memories makes exactly 20 `collection.add` calls |
| `Stress.ChromaIdsDistinct` | benchmark_tmc.py:99 | ids `mem_a` and `mem_b` differ when a != b |
| `Stress.LoadIdsUnique` | benchmark_tmc.py:99 | the ids sent over one load are pairwise distinct, so no add repeats an id |
| `Stress.Summarize` | benchmark_tmc.py:124-131 | sorts the caller's array in place; fails with StatisticsError iff it is empty; otherwise returns the mean, median, p95 and p99 of the original samples |
| `Stress.SummaryOrdered` | benchmark_tmc.py:127-130 | min <= p95 <= p99 <= max, and mean and median lie between min and max |
| `Stress.Benchmark` | benchmark_tmc.py:66-79 | issues the round-robin queries; returns a summary iff all 200 requests are answered, equal to the summary of the 200 round-trip latencies; otherwise RequestFailed |
| `Stress.QueriesBalanced` | benchmark_tmc.py:68-69 | over 200 iterations each of the five queries is issued exactly 40 times |
| `Stress.Speedup` | benchmark_tmc.py:144 | KeyError for a missing ChromaDB, checked first, then for a missing TMC; ZeroDivision when both are present and the TMC mean is 0; succeeds iff both keys are present and the TMC mean is non-zero, and then the ratio times the TMC mean gives the ChromaDB mean |
| `Stress.Headline` | benchmark_tmc.py:144-145 | the closing line always claims "TMC is faster", by the ratio of the ChromaDB mean to the TMC mean; it fails exactly where that ratio fails |
| `Stress.HeadlineWhenSlower` | benchmark_tmc.py:144-145 | when ChromaDB's mean is below TMC's, the line still claims TMC is faster, with a factor below 1 |
| `Stress.MainSpeedup` | benchmark_tmc.py:169-172 | the results `main` builds always have both keys, so the speedup fails only on a zero TMC mean |

## Left out

- HTTP traffic (`/clear`, `/crystallize`, `/retrieve`, `/health`) and the client SDK calls (FAISS, Qdrant, Elasticsearch, ChromaDB). They are outside this code. Their outcomes enter as the abstract `accepts`, `trip` and `attempt` inputs.
- The availability and health probes at the start of both `main` functions, and the early return when only TMC is available. They are network I/O.
- `time.time()`. Load times and latencies are inputs. The loaders take the elapsed time `dt` and model only whether it is 0, since that is the case in which the printed rate raises.
- `simple_hash_embed`. It depends on Python's per-process salted `hash` and on float32 normalisation. The embedding is a function parameter `embed` of `Comprehensive.GenerateDataset`.
- Floating point. Samples, means and ratios are exact reals, and `int(0.95 * n)` is modelled as `(95 * n) / 100`. This is an idealisation of IEEE rounding.
- Console table formatting, the per-size loop over `DATASET_SIZES` in `print_results`, and `json.dump`. Only the decisions behind the printed lines are modelled: ops/sec, the verdict and the speedup.
- The lines `print_results` prints before a division raises. `Comprehensive.CompareAll` records which verdict lines were produced and whether it stopped, but not the text.
- `TMCBenchmark.setup` in `benchmark_comprehensive.py` (lines 72-92) posts one memory at a time without batching, after a `/clear` post whose exception is swallowed. Apart from that `/clear`, the post sequence and failure behaviour are those of `Stress.TmcLoad`, so it is not modelled separately.
- The construction of the SDK clients (`Elasticsearch(...)`, `QdrantClient(url=...)`), the index mapping sent by `indices.create`, and the float32 conversion of the embeddings. They are SDK configuration, and the model keeps embeddings as exact reals.
- The setup outcomes are not fed into `Comprehensive.RunMatrix`. Its `attempt` input stands for whatever each adapter's `setup` (`Comprehensive.EsSetup`, `Comprehensive.FaissSetup`, `Comprehensive.QdrantUpload`, and TMC's post loop) returned.
- The collection reset in `QdrantBenchmark.setup` (`delete_collection`, whose failure is ignored, then `create_collection`). The model starts from the first `upsert`; a failing `create_collection` is a setup failure expressed by `attempt`.
- The query loops of FAISS, Qdrant and Elasticsearch. They are the same round-robin loop as TMC's and are covered by `Comprehensive.BenchmarkQueries`.
- The sequencing of the stress `main` (load TMC, load ChromaDB, benchmark both). Any failure there aborts the process. Only the shape of its results dictionary is modelled (`Stress.MainSpeedup`).
- The driver classes are not modelled as classes. Their fields, and where each is accounted for:
  - `name`, which `main` reads when it records a result (benchmark_comprehensive.py:468, 472). It is the `names` parameter of `Comprehensive.RunMatrix`.
  - FAISS's `index` and `texts` (benchmark_comprehensive.py:119-120, 131, 135-136). They are filled by `setup` and searched by the query loop, both SDK work.
  - Qdrant's `collection_name` and its SDK model classes (benchmark_comprehensive.py:164-169). `collection_name` is the constant `"benchmark_test"`, and the model classes only build SDK request objects.
  - Elasticsearch's `index_name` (benchmark_comprehensive.py:247). It is the constant `"benchmark_test"`, modelled as `Comprehensive.ES_INDEX`, the index every Elasticsearch call names.
  - The imported SDK module and class handles: FAISS's `faiss` (benchmark_comprehensive.py:118), Qdrant's `QdrantClient` (:164) and Elasticsearch's `Elasticsearch` (:245). They only construct SDK objects.
  - The SDK handles (`session`, `client`, `collection`).
