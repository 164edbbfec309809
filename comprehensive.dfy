/**
 * benchmark_comprehensive.py: TMC against FAISS, Qdrant and Elasticsearch
 * over a sweep of dataset sizes.  Timing, HTTP and the client SDKs are
 * abstract inputs; what remains is the dataset, the SDK call sequences of
 * the FAISS, Qdrant and Elasticsearch setups, the query phase, the
 * statistics, the result matrix and the verdicts printed from it.
 */
module Comprehensive {
  import opened Errors
  import opened Samples
  import opened Batching
  import opened Dicts
  import opened Queries
  import Decimal

  const DATASET_SIZES: seq<nat> := [1000, 10000, 100000]
  const QUERY_ITERATIONS: nat := 100
  const QDRANT_BATCH: nat := 100
  const BASELINE: string := "TMC"

  const TEXT_PREFIX: string := "Artificial intelligence and machine learning system #"
  const TEXT_SUFFIX: string := " with structured memory architecture"

  // ------------------------------------------------------------ statistics

  datatype Stats = Stats(mean: real, median: real, p95: real, p99: real, min: real, max: real)

  /** The order the summary of any non-empty sample list satisfies. */
  predicate Ordered(st: Stats) {
    && st.min <= st.p95 <= st.p99 <= st.max
    && st.min <= st.median <= st.max
    && st.min <= st.mean <= st.max
  }

  /**
   * `calculate_stats`: summarises a copy sorted by `sorted`, so the caller's
   * samples are untouched; `statistics.mean` raises on an empty list.
   */
  function CalculateStats(latencies: seq<real>): (r: Result<Stats>)
    ensures r.Failure? <==> |latencies| == 0
    ensures r.Failure? ==> r.error == StatisticsError
    ensures r.Success? ==> Ordered(r.value)
    ensures r.Success? ==> r.value.p95 in latencies && r.value.p99 in latencies
    ensures r.Success? ==> r.value.min in latencies && r.value.max in latencies
    ensures r.Success? ==> forall x :: x in latencies ==> r.value.min <= x <= r.value.max
  {
    if |latencies| == 0 then Failure(StatisticsError)
    else
      MeanBounds(latencies);
      MedianBounds(latencies);
      PercentileMonotone(latencies, 95, 99);
      Success(Stats(
        Mean(latencies), Median(latencies),
        Percentile(latencies, 95), Percentile(latencies, 99),
        Min(latencies), Max(latencies)))
  }

  /** Ten samples 10, 20, ..., 100 ms. */
  lemma CalculateStatsExample(xs: seq<real>)
    requires |xs| == 10 && forall i :: 0 <= i < 10 ==> xs[i] == 10.0 * (i + 1) as real
    ensures CalculateStats(xs) == Success(Stats(55.0, 55.0, 100.0, 100.0, 10.0, 100.0))
  {
    ExampleOrder(xs);
    ExampleSum(xs);
    assert Mean(xs) == 55.0;
  }

  lemma ExampleOrder(xs: seq<real>)
    requires |xs| == 10 && forall i :: 0 <= i < 10 ==> xs[i] == 10.0 * (i + 1) as real
    ensures Median(xs) == 55.0
    ensures Percentile(xs, 95) == 100.0 && Percentile(xs, 99) == 100.0
    ensures Min(xs) == 10.0 && Max(xs) == 100.0
  {
    ExampleSorted(xs);
    assert PercentileIndex(95, 10) == 9 && PercentileIndex(99, 10) == 9;
    assert Middle(xs) == (xs[4] + xs[5]) / 2.0;
    assert xs[0] in xs && xs[9] in xs;
  }

  lemma ExampleSorted(xs: seq<real>)
    requires |xs| == 10 && forall i :: 0 <= i < 10 ==> xs[i] == 10.0 * (i + 1) as real
    ensures Sort(xs) == xs
  {
    forall i, j | 0 <= i < j < 10
      ensures xs[i] <= xs[j]
    {
      assert (i + 1) as real <= (j + 1) as real;
    }
    SortOfSorted(xs);
  }

  lemma ExampleSum(xs: seq<real>)
    requires |xs| == 10 && forall i :: 0 <= i < 10 ==> xs[i] == 10.0 * (i + 1) as real
    ensures Sum(xs) == 550.0
  {
    assert Sum(xs[10..]) == 0.0;
    assert Sum(xs[9..]) == 100.0;
    assert Sum(xs[8..]) == 190.0;
    assert Sum(xs[7..]) == 270.0;
    assert Sum(xs[6..]) == 340.0;
    assert Sum(xs[5..]) == 400.0;
    assert Sum(xs[4..]) == 450.0;
    assert Sum(xs[3..]) == 490.0;
    assert Sum(xs[2..]) == 520.0;
    assert Sum(xs[1..]) == 540.0;
  }

  // ------------------------------------------------------------ dataset

  datatype Entry = Entry(text: string, embedding: seq<real>, importanceTenths: nat)

  function DatasetText(i: nat): string {
    TEXT_PREFIX + Decimal.FromNat(i) + TEXT_SUFFIX
  }

  lemma DatasetTextsDistinct()
    ensures forall i: nat, j: nat :: i != j ==> DatasetText(i) != DatasetText(j)
  {
    forall i: nat, j: nat | DatasetText(i) == DatasetText(j)
      ensures i == j
    {
      Decimal.TemplateInjective(TEXT_PREFIX, TEXT_SUFFIX, i, j);
    }
  }

  /**
   * `generate_dataset(n)`: n entries numbered in their text; the importance
   * cycles through 0.5, 0.6, 0.7, 0.8, 0.9 (kept here in tenths) and the
   * embedding is the one `embed` gives the entry's own text.
   */
  function GenerateDataset(n: nat, embed: string -> seq<real>): (r: seq<Entry>)
    ensures |r| == n
    ensures forall i, j :: 0 <= i < j < n ==> r[i].text != r[j].text
    ensures forall i :: 0 <= i < n ==> 5 <= r[i].importanceTenths <= 9
    ensures forall i :: 0 <= i < n ==> r[i].importanceTenths == 5 + i % 5
    ensures forall i :: 0 <= i < n ==> r[i].embedding == embed(r[i].text)
  {
    DatasetTextsDistinct();
    seq(n, i requires 0 <= i < n => Entry(DatasetText(i), embed(DatasetText(i)), 5 + i % 5))
  }

  // ------------------------------------------------------------ Qdrant upload

  datatype Point = Point(id: nat, vector: seq<real>, text: string, importanceTenths: nat)

  function PointOf(id: nat, e: Entry): Point {
    Point(id, e.embedding, e.text, e.importanceTenths)
  }

  /** The dataset numbered by position: point k carries entry k. */
  function Numbered(dataset: seq<Entry>): seq<Point> {
    seq(|dataset|, k requires 0 <= k < |dataset| => PointOf(k, dataset[k]))
  }

  /** The point lists the upload loop passes to `upsert` from offset `i` on when none raises. */
  function UpsertsFrom(dataset: seq<Entry>, i: nat): seq<seq<Point>>
    requires i <= |dataset|
    decreases |dataset| - i
  {
    if i == |dataset| then []
    else
      var end := SliceEnd(i + QDRANT_BATCH, |dataset|);
      [BatchPoints(dataset, i, end)] + UpsertsFrom(dataset, end)
  }

  /** The point lists of every `upsert` of a load that completes. */
  function QdrantCalls(dataset: seq<Entry>): seq<seq<Point>> {
    UpsertsFrom(dataset, 0)
  }

  lemma {:induction false} UpsertsFromChunks(dataset: seq<Entry>, i: nat)
    requires i <= |dataset|
    ensures UpsertsFrom(dataset, i) == Chunks(Numbered(dataset)[i..], QDRANT_BATCH)
    decreases |dataset| - i
  {
    if i < |dataset| {
      UpsertsFromChunks(dataset, SliceEnd(i + QDRANT_BATCH, |dataset|));
      ChunksStep(Numbered(dataset), QDRANT_BATCH, i);
    } else {
      assert Numbered(dataset)[i..] == [];
    }
  }

  /**
   * What a complete Qdrant load sends: the 100-point chunks of the numbered
   * dataset, so every upsert holds 1 to 100 points, and over all upserts
   * point k has id k and carries entry k: the ids 0 .. n-1 are each used
   * once, in order.
   */
  lemma QdrantCallsPoints(dataset: seq<Entry>)
    ensures QdrantCalls(dataset) == Chunks(Numbered(dataset), QDRANT_BATCH)
    ensures forall c :: 0 <= c < |QdrantCalls(dataset)| ==> 0 < |QdrantCalls(dataset)[c]| <= QDRANT_BATCH
    ensures |Flatten(QdrantCalls(dataset))| == |dataset|
    ensures forall k :: 0 <= k < |dataset| ==> Flatten(QdrantCalls(dataset))[k] == PointOf(k, dataset[k])
  {
    UpsertsFromChunks(dataset, 0);
    assert Numbered(dataset)[0..] == Numbered(dataset);
  }

  /**
   * The batching loop of `QdrantBenchmark.setup`: returns the point lists
   * passed to `upsert`, in call order, and the elapsed time.  `stores(c)`
   * is whether upsert `c` returns; the first that raises ends the load, and
   * the rate printed afterwards raises on a zero elapsed time `dt`.  The
   * upserts made are the first of `QdrantCalls`, all of them when none raises.
   */
  method QdrantUpload(dataset: seq<Entry>, stores: nat -> bool, dt: real) returns (upserts: seq<seq<Point>>, r: Result<real>)
    ensures |upserts| <= |QdrantCalls(dataset)| && upserts == QdrantCalls(dataset)[..|upserts|]
    ensures r.Success? <==> AllReturn(stores, |QdrantCalls(dataset)|) && dt != 0.0
    ensures r.Success? ==> r.value == dt
    ensures AllReturn(stores, |QdrantCalls(dataset)|) ==>
      upserts == QdrantCalls(dataset) && (dt == 0.0 ==> r == Failure(ZeroDivision))
    ensures !AllReturn(stores, |QdrantCalls(dataset)|) ==>
      && r == Failure(RequestFailed)
      && 0 < |upserts| && !stores(|upserts| - 1)
      && AllReturn(stores, |upserts| - 1)
  {
    var n := |dataset|;
    upserts := [];
    var i := 0;
    while i < n
      invariant 0 <= i <= n
      invariant upserts + UpsertsFrom(dataset, i) == QdrantCalls(dataset)
      invariant AllReturn(stores, |upserts|)
      decreases n - i
    {
      var end := SliceEnd(i + QDRANT_BATCH, n);
      var ps := BatchPoints(dataset, i, end);
      UpsertsFromStep(dataset, i, upserts);
      upserts := upserts + [ps];
      if !stores(|upserts| - 1) {
        PrefixOfWhole(upserts, UpsertsFrom(dataset, end), QdrantCalls(dataset));
        return upserts, Failure(RequestFailed);
      }
      i := end;
    }
    assert UpsertsFrom(dataset, n) == [];
    assert upserts == QdrantCalls(dataset);
    r := if dt == 0.0 then Failure(ZeroDivision) else Success(dt);
  }

  /** One iteration of the upload loop makes the next upsert of `QdrantCalls`. */
  lemma UpsertsFromStep(dataset: seq<Entry>, i: nat, upserts: seq<seq<Point>>)
    requires i < |dataset| && upserts + UpsertsFrom(dataset, i) == QdrantCalls(dataset)
    ensures var end := SliceEnd(i + QDRANT_BATCH, |dataset|);
      (upserts + [BatchPoints(dataset, i, end)]) + UpsertsFrom(dataset, end) == QdrantCalls(dataset)
  {
    var end := SliceEnd(i + QDRANT_BATCH, |dataset|);
    var ps := BatchPoints(dataset, i, end);
    assert UpsertsFrom(dataset, i) == [ps] + UpsertsFrom(dataset, end);
    assert (upserts + [ps]) + UpsertsFrom(dataset, end) == upserts + ([ps] + UpsertsFrom(dataset, end));
  }

  /** The `points` comprehension over `dataset[i:end]`: entry `i + j` with id `i + j`. */
  function BatchPoints(dataset: seq<Entry>, i: nat, end: nat): (ps: seq<Point>)
    requires i <= end <= |dataset|
    ensures ps == Numbered(dataset)[i..end]
  {
    var batch := dataset[i..end];
    seq(|batch|, j requires 0 <= j < |batch| => PointOf(i + j, batch[j]))
  }

  // ------------------------------------------------------------ FAISS and Elasticsearch setup

  const EMBEDDING_DIM: nat := 384
  const ES_INDEX: string := "benchmark_test"

  /** One document of the Elasticsearch bulk upload: `_index`, `_id` and `_source`. */
  datatype EsAction = EsAction(index: string, id: nat, text: string, embedding: seq<real>, importanceTenths: nat)

  /** The SDK calls the FAISS and Elasticsearch `setup` methods make. */
  datatype SdkCall =
    | IndexFlatL2(dim: nat)
    | IndexAdd(vectors: seq<seq<real>>)
    | IndicesDelete(index: string)
    | IndicesCreate(index: string)
    | Bulk(actions: seq<EsAction>)
    | IndicesRefresh(index: string)

  /** What a `setup` did: the SDK calls it made, in order, and the load time or the exception. */
  datatype SetupRun = SetupRun(calls: seq<SdkCall>, result: Result<real>)

  /**
   * The position of the first of `n` calls, from `i` on, whose exception
   * escapes: call `c` raises unless `completes(c)`, and a call for which
   * `swallowed(c)` sits in `try: ... except: pass`.  `n` when none escapes.
   */
  function FirstRaise(n: nat, swallowed: nat -> bool, completes: nat -> bool, i: nat): (k: nat)
    requires i <= n
    ensures i <= k <= n
    ensures forall c :: i <= c < k ==> swallowed(c) || completes(c)
    ensures k < n ==> !swallowed(k) && !completes(k)
    decreases n - i
  {
    if i == n then n
    else if swallowed(i) || completes(i) then FirstRaise(n, swallowed, completes, i + 1)
    else i
  }

  /** Every call of a setup either completes or has its exception swallowed. */
  predicate NoneEscapes(n: nat, swallowed: nat -> bool, completes: nat -> bool) {
    forall c :: 0 <= c < n ==> swallowed(c) || completes(c)
  }

  /**
   * A straight-line `setup`: the calls in order, stopping at the first
   * exception that escapes; then `len(dataset) / load_time` is printed,
   * which raises on a zero elapsed time `dt`.
   */
  function RunSetup(calls: seq<SdkCall>, swallowed: nat -> bool, completes: nat -> bool, dt: real): (run: SetupRun)
    ensures |run.calls| <= |calls| && run.calls == calls[..|run.calls|]
    ensures run.result.Success? <==> NoneEscapes(|calls|, swallowed, completes) && dt != 0.0
    ensures run.result.Success? ==> run.result.value == dt
    ensures NoneEscapes(|calls|, swallowed, completes) ==>
      run.calls == calls && (dt == 0.0 ==> run.result == Failure(ZeroDivision))
    ensures !NoneEscapes(|calls|, swallowed, completes) ==>
      && run.result == Failure(RequestFailed)
      && 0 < |run.calls|
      && !swallowed(|run.calls| - 1) && !completes(|run.calls| - 1)
      && NoneEscapes(|run.calls| - 1, swallowed, completes)
  {
    var k := FirstRaise(|calls|, swallowed, completes, 0);
    if k < |calls| then SetupRun(calls[..k + 1], Failure(RequestFailed))
    else SetupRun(calls, if dt == 0.0 then Failure(ZeroDivision) else Success(dt))
  }

  /** The `actions` comprehension: entry i is document `_id: i` of the index. */
  function EsActions(dataset: seq<Entry>): (acts: seq<EsAction>)
    ensures |acts| == |dataset|
    ensures forall i :: 0 <= i < |dataset| ==>
      && acts[i].index == ES_INDEX && acts[i].id == i
      && acts[i].text == dataset[i].text && acts[i].embedding == dataset[i].embedding
      && acts[i].importanceTenths == dataset[i].importanceTenths
  {
    seq(|dataset|, i requires 0 <= i < |dataset| =>
      EsAction(ES_INDEX, i, dataset[i].text, dataset[i].embedding, dataset[i].importanceTenths))
  }

  /**
   * Elasticsearch and Qdrant store the same documents under the same ids:
   * action i carries the point Qdrant upserts as point i.
   */
  lemma EsActionsMatchQdrant(dataset: seq<Entry>)
    ensures |EsActions(dataset)| == |Flatten(QdrantCalls(dataset))|
    ensures forall i :: 0 <= i < |dataset| ==>
      var a := EsActions(dataset)[i];
      a.index == ES_INDEX && a.id == i && Point(a.id, a.embedding, a.text, a.importanceTenths) == Flatten(QdrantCalls(dataset))[i]
  {
    QdrantCallsPoints(dataset);
  }

  function EsCalls(dataset: seq<Entry>): seq<SdkCall> {
    [IndicesDelete(ES_INDEX), IndicesCreate(ES_INDEX), Bulk(EsActions(dataset)), IndicesRefresh(ES_INDEX)]
  }

  /**
   * `ElasticsearchBenchmark.setup`: delete the index (any exception
   * swallowed), create it, bulk-upload every entry, refresh.  `completes(c)`
   * is whether call `c` of those four completes.
   */
  function EsSetup(dataset: seq<Entry>, completes: nat -> bool, dt: real): (run: SetupRun)
    ensures run.result.Success? <==> completes(1) && completes(2) && completes(3) && dt != 0.0
    ensures run.result.Success? ==> run.result.value == dt
    ensures completes(1) && completes(2) && completes(3) ==>
      run.calls == EsCalls(dataset) && (dt == 0.0 ==> run.result == Failure(ZeroDivision))
    ensures !(completes(1) && completes(2) && completes(3)) ==>
      && run.result == Failure(RequestFailed)
      && 2 <= |run.calls| <= 4 && run.calls == EsCalls(dataset)[..|run.calls|]
      && !completes(|run.calls| - 1)
      && forall c :: 1 <= c < |run.calls| - 1 ==> completes(c)
  {
    RunSetup(EsCalls(dataset), c => c == 0, completes, dt)
  }

  /** Whether the index delete completes or raises changes nothing. */
  lemma EsDeleteSwallowed(dataset: seq<Entry>, completes: nat -> bool, completes': nat -> bool, dt: real)
    requires forall c :: 1 <= c < 4 ==> completes(c) == completes'(c)
    ensures EsSetup(dataset, completes, dt) == EsSetup(dataset, completes', dt)
  {
    var run, run' := EsSetup(dataset, completes, dt), EsSetup(dataset, completes', dt);
    if completes(1) && completes(2) && completes(3) {
      assert run.calls == run'.calls;
    } else {
      assert |run.calls| == |run'.calls|;
    }
  }

  /** A complete Elasticsearch load bulk-uploads every entry once, entry i as document i. */
  lemma EsBulkUploadsDataset(dataset: seq<Entry>, completes: nat -> bool, dt: real)
    requires EsSetup(dataset, completes, dt).result.Success?
    ensures EsSetup(dataset, completes, dt).calls[2] == Bulk(EsActions(dataset))
    ensures forall i :: 0 <= i < |dataset| ==>
      EsActions(dataset)[i].id == i && EsActions(dataset)[i].text == dataset[i].text
  {
  }

  /** What FAISS's `setup` leaves behind: the texts it keeps and what it did. */
  datatype FaissLoad = FaissLoad(texts: seq<string>, run: SetupRun)

  function Embeddings(dataset: seq<Entry>): (vs: seq<seq<real>>)
    ensures |vs| == |dataset|
  {
    seq(|dataset|, i requires 0 <= i < |dataset| => dataset[i].embedding)
  }

  /**
   * `FAISSBenchmark.setup`: keep the texts, then build a flat L2 index of
   * dimension EMBEDDING_DIM and add every embedding to it.  `completes(c)` is
   * whether call `c` of those two completes.
   */
  function FaissSetup(dataset: seq<Entry>, completes: nat -> bool, dt: real): (load: FaissLoad)
    ensures |load.texts| == |dataset| && forall i :: 0 <= i < |dataset| ==> load.texts[i] == dataset[i].text
    ensures load.run.result.Success? <==> completes(0) && completes(1) && dt != 0.0
    ensures load.run.result.Success? ==> load.run.result.value == dt
    ensures !(completes(0) && completes(1)) ==> load.run.result == Failure(RequestFailed)
    ensures completes(0) && completes(1) && dt == 0.0 ==> load.run.result == Failure(ZeroDivision)
  {
    var texts := seq(|dataset|, i requires 0 <= i < |dataset| => dataset[i].text);
    FaissLoad(texts, RunSetup([IndexFlatL2(EMBEDDING_DIM), IndexAdd(Embeddings(dataset))], c => false, completes, dt))
  }

  /**
   * After a complete FAISS load, row i of the index is the embedding of
   * `texts[i]`, which is how a search result's position names its text.
   */
  lemma FaissAligned(dataset: seq<Entry>, completes: nat -> bool, dt: real)
    requires FaissSetup(dataset, completes, dt).run.result.Success?
    ensures var load := FaissSetup(dataset, completes, dt);
      && load.run.calls == [IndexFlatL2(EMBEDDING_DIM), IndexAdd(Embeddings(dataset))]
      && |load.run.calls[1].vectors| == |load.texts|
      && forall i :: 0 <= i < |load.texts| ==>
           load.run.calls[1].vectors[i] == dataset[i].embedding && load.texts[i] == dataset[i].text
  {
  }

  // ------------------------------------------------------------ query phase

  /**
   * `benchmark_queries` of every adapter: QUERY_ITERATIONS round-robin
   * queries, then `calculate_stats` over the latencies.
   */
  method BenchmarkQueries(trip: nat -> RoundTrip) returns (issued: seq<string>, r: Result<Stats>)
    ensures issued == Cycle(|issued|)
    ensures r.Success? <==> forall i :: 0 <= i < QUERY_ITERATIONS ==> trip(i).Answered?
    ensures r.Success? ==> |issued| == QUERY_ITERATIONS && Ordered(r.value)
    ensures r.Success? ==> r == CalculateStats(seq(QUERY_ITERATIONS, i requires 0 <= i < QUERY_ITERATIONS => trip(i).ms))
    ensures r.Failure? ==> r.error == RequestFailed
    ensures r.Failure? ==>
      && 0 < |issued| <= QUERY_ITERATIONS
      && trip(|issued| - 1).Raised?
      && forall i :: 0 <= i < |issued| - 1 ==> trip(i).Answered?
  {
    var latencies;
    issued, latencies := CollectLatencies(QUERY_ITERATIONS, trip);
    if latencies.Failure? {
      return issued, Failure(latencies.error);
    }
    assert latencies.value == seq(QUERY_ITERATIONS, i requires 0 <= i < QUERY_ITERATIONS => trip(i).ms);
    r := CalculateStats(latencies.value);
  }

  /** Over QUERY_ITERATIONS iterations each of the five test queries is issued exactly 20 times. */
  lemma QueryMixBalanced(k: nat)
    requires k < |TEST_QUERIES|
    ensures Count(Cycle(QUERY_ITERATIONS), TEST_QUERIES[k]) == 20
  {
    CycleCount(20, k);
  }

  // ------------------------------------------------------------ result matrix

  datatype RunResult = RunResult(loadTime: real, queryStats: Stats)

  /** How one adapter fared on one dataset: `setup` and then `benchmark_queries`, each of which may raise. */
  datatype Attempt = Attempt(setup: Result<real>, queries: Result<Stats>) {
    predicate Completed() {
      setup.Success? && queries.Success?
    }
  }

  /** The row `results[size]` after the adapters `names` ran on the dataset at position `si`. */
  function Row(si: nat, names: seq<string>, attempt: (nat, nat) -> Attempt): (r: Dict<string, RunResult>)
    ensures forall k :: k in Keys(r) ==> k in names
    decreases |names|
  {
    if names == [] then []
    else
      var b := |names| - 1;
      var prev := Row(si, names[..b], attempt);
      assert forall k :: k in names[..b] ==> k in names;
      var a := attempt(si, b);
      if a.Completed() then Put(prev, names[b], RunResult(a.setup.value, a.queries.value)) else prev
  }

  /** `results` after the dataset sizes `sizes` ran. */
  function Matrix(sizes: seq<nat>, names: seq<string>, attempt: (nat, nat) -> Attempt): (r: Dict<nat, Dict<string, RunResult>>)
    ensures forall size :: size in Keys(r) <==> size in sizes
    decreases |sizes|
  {
    if sizes == [] then []
    else
      var s := |sizes| - 1;
      assert sizes == sizes[..s] + [sizes[s]];
      Put(Matrix(sizes[..s], names, attempt), sizes[s], Row(s, names, attempt))
  }

  /**
   * The experiment loop of `main`: for each size, `results[size] = {}`, then
   * each adapter in turn; a result is stored only when both phases return,
   * and an exception moves on to the next adapter.  `attempt(si, bi)` is
   * what adapter `bi` does on dataset `si`.
   */
  method RunMatrix(sizes: seq<nat>, names: seq<string>, attempt: (nat, nat) -> Attempt)
    returns (results: Dict<nat, Dict<string, RunResult>>)
    ensures results == Matrix(sizes, names, attempt)
  {
    results := [];
    var s := 0;
    while s < |sizes|
      invariant 0 <= s <= |sizes|
      invariant results == Matrix(sizes[..s], names, attempt)
    {
      var size := sizes[s];
      assert names[..0] == [];
      results := Put(results, size, []);
      var b := 0;
      while b < |names|
        invariant 0 <= b <= |names|
        invariant results == Put(Matrix(sizes[..s], names, attempt), size, Row(s, names[..b], attempt))
      {
        var a := attempt(s, b);
        RowExtend(s, names, b, attempt);
        if a.setup.Success? {
          if a.queries.Success? {
            RecordStep(Matrix(sizes[..s], names, attempt), size, Row(s, names[..b], attempt),
                       names[b], RunResult(a.setup.value, a.queries.value));
            results := Put(results, size, Put(Get(results, size), names[b], RunResult(a.setup.value, a.queries.value)));
          }
        }
        b := b + 1;
      }
      assert names[..|names|] == names;
      MatrixExtend(sizes, s, names, attempt);
      s := s + 1;
    }
    assert sizes[..|sizes|] == sizes;
  }

  /** Adapter `b` extends the row built by the adapters before it, when both its phases complete. */
  lemma RowExtend(si: nat, names: seq<string>, b: nat, attempt: (nat, nat) -> Attempt)
    requires b < |names|
    ensures var a := attempt(si, b);
      Row(si, names[..b + 1], attempt) ==
        if a.Completed() then Put(Row(si, names[..b], attempt), names[b], RunResult(a.setup.value, a.queries.value))
        else Row(si, names[..b], attempt)
  {
    assert names[..b + 1][..b] == names[..b];
  }

  /** Size `s` adds its row to the results of the sizes before it. */
  lemma MatrixExtend(sizes: seq<nat>, s: nat, names: seq<string>, attempt: (nat, nat) -> Attempt)
    requires s < |sizes|
    ensures Matrix(sizes[..s + 1], names, attempt) == Put(Matrix(sizes[..s], names, attempt), sizes[s], Row(s, names, attempt))
  {
    assert sizes[..s + 1][..s] == sizes[..s];
  }

  /** `results[size][k] = v` on a row just stored under `size` stores the updated row. */
  lemma RecordStep<K, L, V>(m: Dict<K, Dict<L, V>>, size: K, row: Dict<L, V>, k: L, v: V)
    ensures var results := Put(m, size, row);
      Put(results, size, Put(Get(results, size), k, v)) == Put(m, size, Put(row, k, v))
  {
    PutSame(m, size, row);
    PutPut(m, size, row, Put(row, k, v));
  }

  predicate Distinct<T(==)>(s: seq<T>) {
    forall i, j :: 0 <= i < j < |s| ==> s[i] != s[j]
  }

  /** An adapter is in the row exactly when both of its phases completed, with what they returned. */
  lemma {:induction false} RowRecordsCompleted(si: nat, names: seq<string>, attempt: (nat, nat) -> Attempt, bi: nat)
    requires Distinct(names) && bi < |names|
    ensures names[bi] in Keys(Row(si, names, attempt)) <==> attempt(si, bi).Completed()
    ensures attempt(si, bi).Completed() ==>
      Get(Row(si, names, attempt), names[bi]) == RunResult(attempt(si, bi).setup.value, attempt(si, bi).queries.value)
    decreases |names|
  {
    var b := |names| - 1;
    var prefix := names[..b];
    if bi < b {
      assert prefix[bi] == names[bi];
      RowRecordsCompleted(si, prefix, attempt, bi);
    } else {
      assert names[b] !in prefix;
    }
  }

  /** With distinct sizes, `results[sizes[si]]` is the row built for that size. */
  lemma {:induction false} MatrixRow(sizes: seq<nat>, names: seq<string>, attempt: (nat, nat) -> Attempt, si: nat)
    requires Distinct(sizes) && si < |sizes|
    ensures sizes[si] in Keys(Matrix(sizes, names, attempt))
    ensures Get(Matrix(sizes, names, attempt), sizes[si]) == Row(si, names, attempt)
    decreases |sizes|
  {
    var s := |sizes| - 1;
    if si < s {
      var prev := Matrix(sizes[..s], names, attempt);
      assert sizes[si] in Keys(prev) && Get(prev, sizes[si]) == Row(si, names, attempt) by {
        DistinctPrefix(sizes, s);
        MatrixRow(sizes[..s], names, attempt, si);
        assert sizes[..s][si] == sizes[si];
      }
      assert sizes[si] != sizes[s];
      MatrixKeepsRow(sizes, names, attempt, si);
    } else {
      MatrixStep(sizes, names, attempt);
      PutSame(Matrix(sizes[..s], names, attempt), sizes[s], Row(s, names, attempt));
    }
  }

  /** The row of an earlier size survives storing the row of the last size. */
  lemma MatrixKeepsRow(sizes: seq<nat>, names: seq<string>, attempt: (nat, nat) -> Attempt, si: nat)
    requires si < |sizes| - 1 && sizes[si] != sizes[|sizes| - 1]
    requires var prev := Matrix(sizes[..|sizes| - 1], names, attempt);
      sizes[si] in Keys(prev) && Get(prev, sizes[si]) == Row(si, names, attempt)
    ensures sizes[si] in Keys(Matrix(sizes, names, attempt))
    ensures Get(Matrix(sizes, names, attempt), sizes[si]) == Row(si, names, attempt)
  {
    var s := |sizes| - 1;
    MatrixStep(sizes, names, attempt);
    PutOther(Matrix(sizes[..s], names, attempt), sizes[s], Row(s, names, attempt), sizes[si]);
  }

  lemma MatrixStep(sizes: seq<nat>, names: seq<string>, attempt: (nat, nat) -> Attempt)
    requires sizes != []
    ensures var s := |sizes| - 1;
      Matrix(sizes, names, attempt) == Put(Matrix(sizes[..s], names, attempt), sizes[s], Row(s, names, attempt))
  {
  }

  lemma DistinctPrefix<T>(s: seq<T>, k: nat)
    requires Distinct(s) && k <= |s|
    ensures Distinct(s[..k])
  {
    forall i, j | 0 <= i < j < k
      ensures s[..k][i] != s[..k][j]
    {
      assert s[..k][i] == s[i] && s[..k][j] == s[j];
    }
  }

  /**
   * After the run, `results[size]` names exactly the adapters whose setup and
   * queries both returned, for every size: a failure of one adapter never
   * hides the results of the adapters or sizes after it.
   */
  lemma RecordedIffCompleted(sizes: seq<nat>, names: seq<string>, attempt: (nat, nat) -> Attempt, si: nat, bi: nat)
    requires Distinct(sizes) && Distinct(names)
    requires si < |sizes| && bi < |names|
    ensures sizes[si] in Keys(Matrix(sizes, names, attempt))
    ensures names[bi] in Keys(Get(Matrix(sizes, names, attempt), sizes[si])) <==> attempt(si, bi).Completed()
    ensures attempt(si, bi).Completed() ==>
      Get(Get(Matrix(sizes, names, attempt), sizes[si]), names[bi])
        == RunResult(attempt(si, bi).setup.value, attempt(si, bi).queries.value)
  {
    MatrixRow(sizes, names, attempt, si);
    RowRecordsCompleted(si, names, attempt, bi);
  }

  /** For the sweep `main` runs, every size keeps its own row: a result is recorded iff that adapter completed on that size. */
  lemma SweepRecordedIffCompleted(names: seq<string>, attempt: (nat, nat) -> Attempt, si: nat, bi: nat)
    requires Distinct(names) && si < |DATASET_SIZES| && bi < |names|
    ensures DATASET_SIZES[si] in Keys(Matrix(DATASET_SIZES, names, attempt))
    ensures names[bi] in Keys(Get(Matrix(DATASET_SIZES, names, attempt), DATASET_SIZES[si])) <==> attempt(si, bi).Completed()
  {
    SweepSizesDistinct();
    RecordedIffCompleted(DATASET_SIZES, names, attempt, si, bi);
  }

  lemma SweepSizesDistinct()
    ensures Distinct(DATASET_SIZES)
  {
  }

  /** Over the sweep, a complete Qdrant load makes 10, 100 and 1000 upserts. */
  lemma SweepUpsertCount(embed: string -> seq<real>, si: nat)
    requires si < |DATASET_SIZES|
    ensures |QdrantCalls(GenerateDataset(DATASET_SIZES[si], embed))| == DATASET_SIZES[si] / QDRANT_BATCH
  {
    var dataset := GenerateDataset(DATASET_SIZES[si], embed);
    QdrantCallsPoints(dataset);
    ChunksCount(Numbered(dataset), QDRANT_BATCH);
    assert (DATASET_SIZES[si] + 99) / 100 == DATASET_SIZES[si] / 100;
  }

  // ------------------------------------------------------------ report decisions

  /** `size / load_time if load_time > 0 else 0` */
  function OpsPerSecond(size: nat, loadTime: real): (r: real)
    ensures loadTime <= 0.0 ==> r == 0.0
    ensures loadTime > 0.0 ==> r * loadTime == size as real && r >= 0.0
  {
    if loadTime > 0.0 then size as real / loadTime else 0.0
  }

  /** The line printed for one system: "TMC is f x faster than S" or "S is f x faster than TMC". */
  datatype Speed = BaselineFaster(factor: real) | OtherFaster(factor: real)

  /**
   * The verdict for a system of mean latency `otherMean` against the TMC mean:
   * `speedup = other / tmc`, then either `speedup` or `1 / speedup` is shown.
   */
  function SpeedVerdict(otherMean: real, baselineMean: real): (r: Result<Speed>)
    ensures baselineMean == 0.0 || otherMean == 0.0 <==> r == Failure(ZeroDivision)
    ensures r.Success? ==> (r.value.BaselineFaster? <==> otherMean / baselineMean >= 1.0)
    ensures r.Success? && r.value.BaselineFaster? ==> r.value.factor * baselineMean == otherMean
    ensures r.Success? && r.value.OtherFaster? ==> r.value.factor * otherMean == baselineMean
    ensures baselineMean > 0.0 && otherMean > 0.0 ==> r.Success? && r.value.factor >= 1.0
  {
    if baselineMean == 0.0 then Failure(ZeroDivision)
    else
      var speedup := otherMean / baselineMean;
      if speedup >= 1.0 then Success(BaselineFaster(speedup))
      else if speedup == 0.0 then Failure(ZeroDivision)
      else
        assert (1.0 / speedup) * otherMean == baselineMean;
        assert 0.0 < speedup < 1.0 ==> 1.0 / speedup >= 1.0 by {
          if 0.0 < speedup < 1.0 {
            ReciprocalAtLeastOne(speedup);
          }
        }
        Success(OtherFaster(1.0 / speedup))
  }

  lemma ReciprocalAtLeastOne(x: real)
    requires 0.0 < x < 1.0
    ensures 1.0 / x > 1.0
  {
    assert (1.0 / x) * x == 1.0;
  }

  lemma SpeedVerdictExamples()
    ensures SpeedVerdict(8.0, 2.0) == Success(BaselineFaster(4.0))
    ensures SpeedVerdict(2.0, 8.0) == Success(OtherFaster(4.0))
  {
  }

  /** The speed lines printed for one dataset size, and whether a division by zero cut them short. */
  datatype SpeedReport = SpeedReport(lines: seq<(string, Speed)>, aborted: bool)

  function NonBaseline(keys: seq<string>): seq<string>
    decreases |keys|
  {
    if keys == [] then []
    else (if keys[0] == BASELINE then [] else [keys[0]]) + NonBaseline(keys[1..])
  }

  function LineNames(lines: seq<(string, Speed)>): seq<string>
    decreases |lines|
  {
    if lines == [] then [] else [lines[0].0] + LineNames(lines[1..])
  }

  /** The entries of a row other than TMC's, in row order: the systems the speed block compares. */
  function Others(row: Dict<string, RunResult>): (r: Dict<string, RunResult>)
    ensures forall e :: e in r <==> e in row && e.0 != BASELINE
    decreases |row|
  {
    if row == [] then []
    else
      var rest := Others(row[1..]);
      assert forall e :: e in row <==> e == row[0] || e in row[1..];
      if row[0].0 == BASELINE then rest else [row[0]] + rest
  }

  /** The systems compared are the row's keys with TMC's left out, in order. */
  lemma {:induction false} OthersKeys(row: Dict<string, RunResult>)
    ensures Keys(Others(row)) == NonBaseline(Keys(row))
    decreases |row|
  {
    if row != [] {
      OthersKeys(row[1..]);
      assert Keys(row)[1..] == Keys(row[1..]);
      if row[0].0 != BASELINE {
        assert ([row[0]] + Others(row[1..]))[1..] == Others(row[1..]);
      }
    }
  }

  /**
   * The verdict lines for the entries of `row` against the TMC mean: one per
   * non-TMC entry in row order, each the verdict for that entry, until a
   * division by zero raises; `aborted` says whether one did, and then it is
   * the entry right after the last line that raised.
   */
  function CompareAll(row: Dict<string, RunResult>, baselineMean: real): (r: SpeedReport)
    ensures |r.lines| <= |Others(row)|
    ensures forall i :: 0 <= i < |r.lines| ==>
      && r.lines[i].0 == Others(row)[i].0
      && Success(r.lines[i].1) == SpeedVerdict(Others(row)[i].1.queryStats.mean, baselineMean)
    ensures r.aborted ==>
      |r.lines| < |Others(row)| && SpeedVerdict(Others(row)[|r.lines|].1.queryStats.mean, baselineMean).Failure?
    ensures !r.aborted ==> |r.lines| == |Others(row)|
    decreases |row|
  {
    if row == [] then SpeedReport([], false)
    else
      var rest := CompareAll(row[1..], baselineMean);
      if row[0].0 == BASELINE then
        assert Others(row) == Others(row[1..]);
        rest
      else
        assert Others(row) == [row[0]] + Others(row[1..]);
        match SpeedVerdict(row[0].1.queryStats.mean, baselineMean)
        case Failure(_) => SpeedReport([], true)
        case Success(v) =>
          var lines := [(row[0].0, v)] + rest.lines;
          ShiftedReport(Others(row), lines, rest.lines, baselineMean);
          SpeedReport(lines, rest.aborted)
  }

  lemma ShiftedReport(others: Dict<string, RunResult>, lines: seq<(string, Speed)>, rest: seq<(string, Speed)>, baselineMean: real)
    requires |lines| <= |others| && |lines| == |rest| + 1 && lines[1..] == rest
    requires lines[0].0 == others[0].0
    requires Success(lines[0].1) == SpeedVerdict(others[0].1.queryStats.mean, baselineMean)
    requires forall i :: 0 <= i < |rest| ==>
      && rest[i].0 == others[1..][i].0
      && Success(rest[i].1) == SpeedVerdict(others[1..][i].1.queryStats.mean, baselineMean)
    ensures forall i :: 0 <= i < |lines| ==>
      && lines[i].0 == others[i].0
      && Success(lines[i].1) == SpeedVerdict(others[i].1.queryStats.mean, baselineMean)
  {
    forall i | 0 < i < |lines|
      ensures lines[i].0 == others[i].0
      ensures Success(lines[i].1) == SpeedVerdict(others[i].1.queryStats.mean, baselineMean)
    {
      assert lines[i] == rest[i - 1] && others[i] == others[1..][i - 1];
    }
  }

  /** The report is cut short exactly when some non-TMC entry of the row has a verdict that raises. */
  lemma CompareAllAborted(row: Dict<string, RunResult>, baselineMean: real)
    ensures CompareAll(row, baselineMean).aborted <==>
      exists e :: e in row && e.0 != BASELINE && SpeedVerdict(e.1.queryStats.mean, baselineMean).Failure?
  {
    var r, others := CompareAll(row, baselineMean), Others(row);
    if r.aborted {
      var e := others[|r.lines|];
      assert e in others;
    } else {
      forall e | e in row && e.0 != BASELINE
        ensures SpeedVerdict(e.1.queryStats.mean, baselineMean).Success?
      {
        assert e in others;
        var j :| 0 <= j < |others| && others[j] == e;
        assert Success(r.lines[j].1) == SpeedVerdict(e.1.queryStats.mean, baselineMean);
      }
    }
  }

  /** Every factor printed is at least 1 when the latencies are non-negative and TMC's mean is positive. */
  lemma CompareAllFactors(row: Dict<string, RunResult>, baselineMean: real)
    requires baselineMean > 0.0
    requires forall i :: 0 <= i < |row| ==> row[i].1.queryStats.mean >= 0.0
    ensures forall i :: 0 <= i < |CompareAll(row, baselineMean).lines| ==> CompareAll(row, baselineMean).lines[i].1.factor >= 1.0
  {
    var r, others := CompareAll(row, baselineMean), Others(row);
    forall i | 0 <= i < |r.lines|
      ensures r.lines[i].1.factor >= 1.0
    {
      assert others[i] in row;
      var j :| 0 <= j < |row| && row[j] == others[i];
      assert others[i].1.queryStats.mean >= 0.0;
    }
  }

  /**
   * The "Speed vs TMC" block of `print_results` for one size: nothing when TMC
   * has no result; otherwise the verdict against TMC's mean for each other
   * system in row order, TMC itself skipped, cut short exactly when a
   * division by zero raises.
   */
  function SpeedComparisons(row: Dict<string, RunResult>): (r: SpeedReport)
    ensures BASELINE !in Keys(row) ==> r == SpeedReport([], false)
    ensures |r.lines| <= |Others(row)| == |NonBaseline(Keys(row))|
    ensures forall i :: 0 <= i < |r.lines| ==> r.lines[i].0 != BASELINE && r.lines[i].0 in Keys(row)
    ensures BASELINE in Keys(row) ==>
      var tmcMean := Get(row, BASELINE).queryStats.mean;
      && LineNames(r.lines) == NonBaseline(Keys(row))[..|r.lines|]
      && (forall i :: 0 <= i < |r.lines| ==>
            Success(r.lines[i].1) == SpeedVerdict(Others(row)[i].1.queryStats.mean, tmcMean))
      && (r.aborted <==>
            exists e :: e in row && e.0 != BASELINE && SpeedVerdict(e.1.queryStats.mean, tmcMean).Failure?)
      && (r.aborted ==>
            |r.lines| < |Others(row)| && SpeedVerdict(Others(row)[|r.lines|].1.queryStats.mean, tmcMean).Failure?)
      && (!r.aborted ==> LineNames(r.lines) == NonBaseline(Keys(row)))
  {
    OthersKeys(row);
    KeysAt(Others(row));
    if BASELINE !in Keys(row) then SpeedReport([], false)
    else
      var tmcMean := Get(row, BASELINE).queryStats.mean;
      CompareAllAborted(row, tmcMean);
      CompareAllNames(row, tmcMean);
      LineNamesAt(CompareAll(row, tmcMean).lines);
      CompareAll(row, tmcMean)
  }

  /** The systems the lines name are the non-TMC keys of the row, in order, and all of them when none raised. */
  lemma CompareAllNames(row: Dict<string, RunResult>, baselineMean: real)
    ensures |CompareAll(row, baselineMean).lines| <= |NonBaseline(Keys(row))|
    ensures var r := CompareAll(row, baselineMean);
      && LineNames(r.lines) == NonBaseline(Keys(row))[..|r.lines|]
      && (!r.aborted ==> LineNames(r.lines) == NonBaseline(Keys(row)))
      && (forall i :: 0 <= i < |r.lines| ==> LineNames(r.lines)[i] != BASELINE && LineNames(r.lines)[i] in Keys(row))
  {
    var r, others := CompareAll(row, baselineMean), Others(row);
    OthersKeys(row);
    LineNamesAt(r.lines);
    KeysAt(others);
    assert LineNames(r.lines) == Keys(others)[..|r.lines|];
    LinesWithin(Keys(row), Keys(others), LineNames(r.lines));
  }

  /** Names taken, in order, from the non-TMC keys are row keys other than TMC. */
  lemma LinesWithin(keys: seq<string>, others: seq<string>, names: seq<string>)
    requires others == NonBaseline(keys) && |names| <= |others| && names == others[..|names|]
    ensures forall i :: 0 <= i < |names| ==> names[i] != BASELINE && names[i] in keys
  {
    NonBaselineWithin(keys);
    assert forall i :: 0 <= i < |names| ==> names[i] in others;
  }

  lemma {:induction false} LineNamesAt(lines: seq<(string, Speed)>)
    ensures |LineNames(lines)| == |lines|
    ensures forall i :: 0 <= i < |lines| ==> LineNames(lines)[i] == lines[i].0
    decreases |lines|
  {
    if lines != [] {
      LineNamesAt(lines[1..]);
    }
  }

  lemma {:induction false} NonBaselineWithin(keys: seq<string>)
    ensures forall k :: k in NonBaseline(keys) ==> k != BASELINE && k in keys
    decreases |keys|
  {
    if keys != [] {
      NonBaselineWithin(keys[1..]);
    }
  }
}
