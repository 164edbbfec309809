/**
 * benchmark_tmc.py: the stress run of TMC against ChromaDB.  A fixed set
 * of memories is loaded into both systems in batches, each system answers
 * RETRIEVAL_ITERS round-robin queries, and the latencies are summarised by
 * `summarize`, which sorts the caller's list in place.
 */
module Stress {
  import opened Errors
  import opened Samples
  import opened Batching
  import opened Dicts
  import opened Queries
  import Decimal

  const TOTAL_MEMORIES: nat := 100000
  const CHROMA_MAX_BATCH: nat := 5000
  /** The largest batch ChromaDB accepts, as the configuration notes it. */
  const CHROMA_HARD_LIMIT: nat := 5461
  const TMC_BATCH: nat := 100
  const RETRIEVAL_ITERS: nat := 200
  const TEST_TEXT: string := "Artificial intelligence systems benefit from structured memory."

  // ------------------------------------------------------------ memories

  datatype Memory = Memory(text: string, importanceTenths: nat)

  function MemoryText(i: nat): string {
    TEST_TEXT + " #" + Decimal.FromNat(i)
  }

  lemma MemoryTextsDistinct()
    ensures forall i: nat, j: nat :: i != j ==> MemoryText(i) != MemoryText(j)
  {
    forall i: nat, j: nat | MemoryText(i) == MemoryText(j)
      ensures i == j
    {
      assert MemoryText(i) == TEST_TEXT + " #" + Decimal.FromNat(i) + "";
      assert MemoryText(j) == TEST_TEXT + " #" + Decimal.FromNat(j) + "";
      Decimal.TemplateInjective(TEST_TEXT + " #", "", i, j);
    }
  }

  /** `generate_memories(n)`: n memories with distinct numbered texts, all of importance 0.8. */
  function GenerateMemories(n: nat): (r: seq<Memory>)
    ensures |r| == n
    ensures forall i, j :: 0 <= i < j < n ==> r[i].text != r[j].text
    ensures forall i :: 0 <= i < n ==> r[i].importanceTenths == 8
  {
    MemoryTextsDistinct();
    seq(n, i requires 0 <= i < n => Memory(MemoryText(i), 8))
  }

  // ------------------------------------------------------------ TMC load

  /**
   * `TMCBenchmark.setup`: batches of TMC_BATCH memories, one `/crystallize`
   * post per memory; `accepts(k)` is whether the k-th post gets a 2xx
   * status, and the first that does not raises out of the loop.  After the
   * loop the load rate `len(memories) / dt` is printed, which raises on a
   * zero elapsed time `dt`.  Returns the posts sent, in order, and `dt`.
   */
  method TmcLoad(memories: seq<Memory>, accepts: nat -> bool, dt: real) returns (posted: seq<Memory>, r: Result<real>)
    ensures |posted| <= |memories| && posted == memories[..|posted|]
    ensures r.Success? <==> AllReturn(accepts, |memories|) && dt != 0.0
    ensures r.Success? ==> r.value == dt
    ensures AllReturn(accepts, |memories|) ==> posted == memories
    ensures AllReturn(accepts, |memories|) && dt == 0.0 ==> r == Failure(ZeroDivision)
    ensures !AllReturn(accepts, |memories|) ==>
      && r == Failure(RequestFailed)
      && 0 < |posted| && !accepts(|posted| - 1)
      && AllReturn(accepts, |posted| - 1)
  {
    var n := |memories|;
    posted := [];
    var i := 0;
    while i < n
      invariant 0 <= i <= n
      invariant posted == memories[..i]
      invariant AllReturn(accepts, i)
      decreases n - i
    {
      var end := SliceEnd(i + TMC_BATCH, n);
      var batch := memories[i..end];
      var j := 0;
      while j < |batch|
        invariant 0 <= j <= |batch|
        invariant posted == memories[..i + j]
        invariant AllReturn(accepts, i + j)
      {
        posted := posted + [batch[j]];
        if !accepts(i + j) {
          return posted, Failure(RequestFailed);
        }
        j := j + 1;
      }
      i := end;
    }
    assert posted == memories;
    if dt == 0.0 {
      return posted, Failure(ZeroDivision);
    }
    r := Success(dt);
  }

  // ------------------------------------------------------------ ChromaDB load

  /** One `collection.add` call. */
  datatype ChromaAdd = ChromaAdd(documents: seq<string>, metadatas: seq<nat>, ids: seq<string>)

  function ChromaId(k: nat): string {
    "mem_" + Decimal.FromNat(k)
  }

  lemma ChromaIdsDistinct()
    ensures forall a: nat, b: nat :: a != b ==> ChromaId(a) != ChromaId(b)
  {
    forall a: nat, b: nat | ChromaId(a) == ChromaId(b)
      ensures a == b
    {
      assert ChromaId(a) == "mem_" + Decimal.FromNat(a) + "";
      assert ChromaId(b) == "mem_" + Decimal.FromNat(b) + "";
      Decimal.TemplateInjective("mem_", "", a, b);
    }
  }

  function Texts(memories: seq<Memory>): seq<string> {
    seq(|memories|, k requires 0 <= k < |memories| => memories[k].text)
  }

  function Importances(memories: seq<Memory>): seq<nat> {
    seq(|memories|, k requires 0 <= k < |memories| => memories[k].importanceTenths)
  }

  function AllIds(n: nat): seq<string> {
    seq(n, k requires 0 <= k < n => ChromaId(k))
  }

  function Documents(adds: seq<ChromaAdd>): seq<seq<string>> {
    seq(|adds|, c requires 0 <= c < |adds| => adds[c].documents)
  }

  function Metadatas(adds: seq<ChromaAdd>): seq<seq<nat>> {
    seq(|adds|, c requires 0 <= c < |adds| => adds[c].metadatas)
  }

  function Ids(adds: seq<ChromaAdd>): seq<seq<string>> {
    seq(|adds|, c requires 0 <= c < |adds| => adds[c].ids)
  }

  /**
   * `ChromaBenchmark.setup`: returns the `collection.add` calls in order and
   * the elapsed time.  `stores(c)` is whether call `c` returns; the first
   * that raises ends the load, and the rate printed afterwards raises on a
   * zero elapsed time `dt`.  The calls made are the first of `ChromaCalls`,
   * all of them when none raises.
   */
  method ChromaLoad(memories: seq<Memory>, stores: nat -> bool, dt: real) returns (adds: seq<ChromaAdd>, r: Result<real>)
    ensures |adds| <= |ChromaCalls(memories)| && adds == ChromaCalls(memories)[..|adds|]
    ensures r.Success? <==> AllReturn(stores, |ChromaCalls(memories)|) && dt != 0.0
    ensures r.Success? ==> r.value == dt
    ensures AllReturn(stores, |ChromaCalls(memories)|) ==>
      adds == ChromaCalls(memories) && (dt == 0.0 ==> r == Failure(ZeroDivision))
    ensures !AllReturn(stores, |ChromaCalls(memories)|) ==>
      && r == Failure(RequestFailed)
      && 0 < |adds| && !stores(|adds| - 1)
      && AllReturn(stores, |adds| - 1)
  {
    var n := |memories|;
    adds := [];
    var i := 0;
    while i < n
      invariant 0 <= i <= n
      invariant adds + CallsFrom(memories, i) == ChromaCalls(memories)
      invariant AllReturn(stores, |adds|)
      decreases n - i
    {
      var end := SliceEnd(i + CHROMA_MAX_BATCH, n);
      var add := BatchAdd(memories, i, end);
      CallsFromStep(memories, i, adds);
      adds := adds + [add];
      if !stores(|adds| - 1) {
        PrefixOfWhole(adds, CallsFrom(memories, end), ChromaCalls(memories));
        return adds, Failure(RequestFailed);
      }
      i := end;
    }
    assert CallsFrom(memories, n) == [];
    assert adds == ChromaCalls(memories);
    r := if dt == 0.0 then Failure(ZeroDivision) else Success(dt);
  }

  /** The `docs`, `metas` and `ids` comprehensions over the batch `memories[i:end]`. */
  function BatchAdd(memories: seq<Memory>, i: nat, end: nat): (add: ChromaAdd)
    requires i <= end <= |memories|
    ensures add.documents == Texts(memories)[i..end]
    ensures add.metadatas == Importances(memories)[i..end]
    ensures add.ids == AllIds(|memories|)[i..end]
  {
    var batch := memories[i..end];
    ChromaAdd(
      seq(|batch|, j requires 0 <= j < |batch| => batch[j].text),
      seq(|batch|, j requires 0 <= j < |batch| => batch[j].importanceTenths),
      seq(|batch|, j requires 0 <= j < |batch| => ChromaId(i + j)))
  }

  /** The calls the loop makes from offset `i` on when none of them raises. */
  function CallsFrom(memories: seq<Memory>, i: nat): seq<ChromaAdd>
    requires i <= |memories|
    decreases |memories| - i
  {
    if i == |memories| then []
    else
      var end := SliceEnd(i + CHROMA_MAX_BATCH, |memories|);
      [BatchAdd(memories, i, end)] + CallsFrom(memories, end)
  }

  /** One iteration of the ChromaDB loop makes the next call of `ChromaCalls`. */
  lemma CallsFromStep(memories: seq<Memory>, i: nat, adds: seq<ChromaAdd>)
    requires i < |memories| && adds + CallsFrom(memories, i) == ChromaCalls(memories)
    ensures var end := SliceEnd(i + CHROMA_MAX_BATCH, |memories|);
      (adds + [BatchAdd(memories, i, end)]) + CallsFrom(memories, end) == ChromaCalls(memories)
  {
    var end := SliceEnd(i + CHROMA_MAX_BATCH, |memories|);
    var add := BatchAdd(memories, i, end);
    assert CallsFrom(memories, i) == [add] + CallsFrom(memories, end);
    assert (adds + [add]) + CallsFrom(memories, end) == adds + ([add] + CallsFrom(memories, end));
  }

  /** Every `collection.add` call of a load that completes. */
  function ChromaCalls(memories: seq<Memory>): seq<ChromaAdd> {
    CallsFrom(memories, 0)
  }

  /**
   * What a complete ChromaDB load sends: every call carries equally long
   * documents, metadatas and ids, 1 to CHROMA_MAX_BATCH of them (below
   * ChromaDB's limit); the documents of the calls are the CHROMA_MAX_BATCH
   * chunks of the texts; over all calls the documents and metadatas are the
   * memories in order and the ids are `mem_0` ... `mem_{n-1}`.
   */
  lemma ChromaCallsColumns(memories: seq<Memory>)
    ensures forall c :: 0 <= c < |ChromaCalls(memories)| ==>
      var add := ChromaCalls(memories)[c];
      |add.documents| == |add.metadatas| == |add.ids|
      && 0 < |add.documents| <= CHROMA_MAX_BATCH < CHROMA_HARD_LIMIT
    ensures Documents(ChromaCalls(memories)) == Chunks(Texts(memories), CHROMA_MAX_BATCH)
    ensures Flatten(Documents(ChromaCalls(memories))) == Texts(memories)
    ensures Flatten(Metadatas(ChromaCalls(memories))) == Importances(memories)
    ensures Flatten(Ids(ChromaCalls(memories))) == AllIds(|memories|)
  {
    CallsFromShape(memories, 0);
    CallsFromColumns(memories, 0);
    assert Texts(memories)[0..] == Texts(memories);
    assert Importances(memories)[0..] == Importances(memories);
    assert AllIds(|memories|)[0..] == AllIds(|memories|);
  }

  lemma {:induction false} CallsFromShape(memories: seq<Memory>, i: nat)
    requires i <= |memories|
    ensures forall c :: 0 <= c < |CallsFrom(memories, i)| ==>
      var add := CallsFrom(memories, i)[c];
      |add.documents| == |add.metadatas| == |add.ids|
      && 0 < |add.documents| <= CHROMA_MAX_BATCH
    ensures Documents(CallsFrom(memories, i)) == Chunks(Texts(memories)[i..], CHROMA_MAX_BATCH)
    decreases |memories| - i
  {
    if i < |memories| {
      var end := SliceEnd(i + CHROMA_MAX_BATCH, |memories|);
      var add, rest := BatchAdd(memories, i, end), CallsFrom(memories, end);
      CallsFromShape(memories, end);
      ColumnsCons(add, rest);
      ChunksStep(Texts(memories), CHROMA_MAX_BATCH, i);
      assert forall c :: 0 < c < |[add] + rest| ==> ([add] + rest)[c] == rest[c - 1];
    }
  }

  lemma {:induction false} CallsFromColumns(memories: seq<Memory>, i: nat)
    requires i <= |memories|
    ensures Flatten(Documents(CallsFrom(memories, i))) == Texts(memories)[i..]
    ensures Flatten(Metadatas(CallsFrom(memories, i))) == Importances(memories)[i..]
    ensures Flatten(Ids(CallsFrom(memories, i))) == AllIds(|memories|)[i..]
    decreases |memories| - i
  {
    if i < |memories| {
      var end := SliceEnd(i + CHROMA_MAX_BATCH, |memories|);
      var add, rest := BatchAdd(memories, i, end), CallsFrom(memories, end);
      CallsFromColumns(memories, end);
      ColumnsCons(add, rest);
      assert Texts(memories)[i..] == Texts(memories)[i..end] + Texts(memories)[end..];
      assert Importances(memories)[i..] == Importances(memories)[i..end] + Importances(memories)[end..];
      assert AllIds(|memories|)[i..] == AllIds(|memories|)[i..end] + AllIds(|memories|)[end..];
    } else {
      assert Texts(memories)[i..] == [];
      assert Importances(memories)[i..] == [];
      assert AllIds(|memories|)[i..] == [];
    }
  }

  lemma ColumnsCons(add: ChromaAdd, adds: seq<ChromaAdd>)
    ensures Documents([add] + adds) == [add.documents] + Documents(adds)
    ensures Metadatas([add] + adds) == [add.metadatas] + Metadatas(adds)
    ensures Ids([add] + adds) == [add.ids] + Ids(adds)
    ensures Flatten([add.documents] + Documents(adds)) == add.documents + Flatten(Documents(adds))
    ensures Flatten([add.metadatas] + Metadatas(adds)) == add.metadatas + Flatten(Metadatas(adds))
    ensures Flatten([add.ids] + Ids(adds)) == add.ids + Flatten(Ids(adds))
  {
    assert ([add.documents] + Documents(adds))[1..] == Documents(adds);
    assert ([add.metadatas] + Metadatas(adds))[1..] == Metadatas(adds);
    assert ([add.ids] + Ids(adds))[1..] == Ids(adds);
  }

  /** The stress run's ChromaDB load of TOTAL_MEMORIES memories makes 20 `collection.add` calls. */
  lemma StressLoadCalls()
    ensures |ChromaCalls(GenerateMemories(TOTAL_MEMORIES))| == TOTAL_MEMORIES / CHROMA_MAX_BATCH == 20
  {
    var memories := GenerateMemories(TOTAL_MEMORIES);
    ChromaCallsColumns(memories);
    ChunksCount(Texts(memories), CHROMA_MAX_BATCH);
    assert |Documents(ChromaCalls(memories))| == |ChromaCalls(memories)|;
  }

  /** The ids handed to ChromaDB over the whole load are pairwise distinct. */
  lemma LoadIdsUnique(n: nat)
    ensures forall a, b :: 0 <= a < b < n ==> AllIds(n)[a] != AllIds(n)[b]
  {
    ChromaIdsDistinct();
  }

  // ------------------------------------------------------------ summarize

  datatype Summary = Summary(mean: real, median: real, p95: real, p99: real)

  /**
   * `summarize(latencies)`: sorts the caller's list in place with
   * `list.sort()`, then reads mean, median and the nearest-rank p95 and p99
   * from it; `statistics.mean` raises on an empty list.
   */
  method Summarize(latencies: array<real>) returns (r: Result<Summary>)
    modifies latencies
    ensures latencies[..] == Sort(old(latencies[..]))
    ensures r.Failure? <==> latencies.Length == 0
    ensures r.Failure? ==> r.error == StatisticsError
    ensures r.Success? ==> r.value == Summary(
      Mean(old(latencies[..])), Median(old(latencies[..])),
      Percentile(old(latencies[..]), 95), Percentile(old(latencies[..]), 99))
  {
    ghost var original := latencies[..];
    SortInPlace(latencies);
    if latencies.Length == 0 {
      return Failure(StatisticsError);
    }
    var n := latencies.Length;
    var sorted := latencies[..];
    PermutationInvariant(original, sorted);
    SortOfSorted(sorted);
    r := Success(Summary(Mean(sorted), Median(sorted),
                         latencies[PercentileIndex(95, n)], latencies[PercentileIndex(99, n)]));
  }

  /** What `summarize` reports is ordered: p95 <= p99, and every value lies between the extreme samples. */
  lemma SummaryOrdered(s: seq<real>)
    requires |s| > 0
    ensures Min(s) <= Percentile(s, 95) <= Percentile(s, 99) <= Max(s)
    ensures Min(s) <= Mean(s) <= Max(s) && Min(s) <= Median(s) <= Max(s)
  {
    PercentileMonotone(s, 95, 99);
    MeanBounds(s);
    MedianBounds(s);
  }

  // ------------------------------------------------------------ query phase

  /**
   * `benchmark` of either system: RETRIEVAL_ITERS round-robin queries,
   * then `summarize` over the collected latencies.
   */
  method Benchmark(trip: nat -> RoundTrip) returns (issued: seq<string>, r: Result<Summary>)
    ensures issued == Cycle(|issued|)
    ensures r.Success? <==> forall i :: 0 <= i < RETRIEVAL_ITERS ==> trip(i).Answered?
    ensures r.Success? ==> |issued| == RETRIEVAL_ITERS
    ensures r.Success? ==>
      var lat := seq(RETRIEVAL_ITERS, i requires 0 <= i < RETRIEVAL_ITERS => trip(i).ms);
      r.value == Summary(Mean(lat), Median(lat), Percentile(lat, 95), Percentile(lat, 99))
    ensures r.Failure? ==> r.error == RequestFailed
    ensures r.Failure? ==>
      && 0 < |issued| <= RETRIEVAL_ITERS
      && trip(|issued| - 1).Raised?
      && forall i :: 0 <= i < |issued| - 1 ==> trip(i).Answered?
  {
    var latencies;
    issued, latencies := CollectLatencies(RETRIEVAL_ITERS, trip);
    if latencies.Failure? {
      return issued, Failure(latencies.error);
    }
    var lat := latencies.value;
    assert lat == seq(RETRIEVAL_ITERS, i requires 0 <= i < RETRIEVAL_ITERS => trip(i).ms);
    var a := new real[|lat|](k requires 0 <= k < |lat| => lat[k]);
    assert a[..] == lat;
    r := Summarize(a);
  }

  /** Over RETRIEVAL_ITERS iterations each of the five test queries is issued exactly 40 times. */
  lemma QueriesBalanced(k: nat)
    requires k < |TEST_QUERIES|
    ensures Count(Cycle(RETRIEVAL_ITERS), TEST_QUERIES[k]) == 40
  {
    CycleCount(40, k);
  }

  // ------------------------------------------------------------ report

  /**
   * The speedup `print_results` reports: ChromaDB's mean over TMC's.  The
   * lookups raise KeyError (ChromaDB's first) and the division raises on a
   * zero TMC mean.
   */
  function Speedup(results: Dict<string, Summary>): (r: Result<real>)
    ensures r.Success? <==> "ChromaDB" in Keys(results) && "TMC" in Keys(results) && Get(results, "TMC").mean != 0.0
    ensures "ChromaDB" !in Keys(results) ==> r == Failure(KeyMissing("ChromaDB"))
    ensures "ChromaDB" in Keys(results) && "TMC" !in Keys(results) ==> r == Failure(KeyMissing("TMC"))
    ensures "ChromaDB" in Keys(results) && "TMC" in Keys(results) && Get(results, "TMC").mean == 0.0 ==>
      r == Failure(ZeroDivision)
    ensures r.Success? ==> r.value * Get(results, "TMC").mean == Get(results, "ChromaDB").mean
  {
    if "ChromaDB" !in Keys(results) then Failure(KeyMissing("ChromaDB"))
    else if "TMC" !in Keys(results) then Failure(KeyMissing("TMC"))
    else if Get(results, "TMC").mean == 0.0 then Failure(ZeroDivision)
    else Success(Get(results, "ChromaDB").mean / Get(results, "TMC").mean)
  }

  /** The closing line of `print_results`: whatever the ratio, it claims TMC is faster by it. */
  datatype Claim = TmcFaster(factor: real)

  function Headline(results: Dict<string, Summary>): (r: Result<Claim>)
    ensures r.Success? <==> "ChromaDB" in Keys(results) && "TMC" in Keys(results) && Get(results, "TMC").mean != 0.0
    ensures r.Failure? ==> r.error == Speedup(results).error
    ensures r.Success? ==> r.value.factor * Get(results, "TMC").mean == Get(results, "ChromaDB").mean
  {
    match Speedup(results)
    case Success(ratio) => Success(TmcFaster(ratio))
    case Failure(e) => Failure(e)
  }

  /**
   * When ChromaDB's mean latency is below TMC's, the line still says TMC is
   * faster, with a factor below 1.
   */
  lemma HeadlineWhenSlower(tmc: Summary, chroma: Summary)
    requires 0.0 <= chroma.mean < tmc.mean
    ensures var h := Headline([("TMC", tmc), ("ChromaDB", chroma)]);
      h.Success? && h.value.factor < 1.0
  {
    MainSpeedup(tmc, chroma);
    var results := [("TMC", tmc), ("ChromaDB", chroma)];
    assert Get(results, "TMC") == tmc;
    assert results[1..] == [("ChromaDB", chroma)];
    assert Get(results, "ChromaDB") == chroma;
    var f := Headline(results).value.factor;
    RatioBelowOne(f, tmc.mean, chroma.mean);
  }

  lemma RatioBelowOne(f: real, m: real, c: real)
    requires 0.0 <= c < m && f * m == c
    ensures f < 1.0
  {
    assert (1.0 - f) * m == m - c > 0.0;
  }

  /** The results `main` builds always hold both keys, so only a zero TMC mean stops the report. */
  lemma MainSpeedup(tmc: Summary, chroma: Summary)
    ensures Speedup([("TMC", tmc), ("ChromaDB", chroma)]).Success? <==> tmc.mean != 0.0
  {
    var results := [("TMC", tmc), ("ChromaDB", chroma)];
    assert results[1..] == [("ChromaDB", chroma)];
    assert Keys(results[1..]) == ["ChromaDB"] + Keys(results[1..][1..]);
    assert "ChromaDB" in Keys(results[1..]);
    assert Get(results, "TMC") == tmc;
  }
}
