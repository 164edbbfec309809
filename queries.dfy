/**
 * The query phase shared by every adapter: iteration `i` issues
 * `TEST_QUERIES[i % len(TEST_QUERIES)]`, times the round trip and appends
 * the latency; the first request that raises aborts the phase.
 */
module Queries {
  import opened Errors

  const TEST_QUERIES: seq<string> := [
    "What is artificial intelligence?",
    "Tell me about memory systems",
    "How do AI systems retrieve information?",
    "Explain structured memory",
    "AI performance optimization"
  ]

  /** What happened to one query round trip: answered after `ms` milliseconds, or raised. */
  datatype RoundTrip = Answered(ms: real) | Raised

  /** `TEST_QUERIES[i % len(TEST_QUERIES)]`: the test queries in turn. */
  function QueryAt(i: nat): (q: string)
    ensures i < |TEST_QUERIES| ==> q == TEST_QUERIES[i]
  {
    TEST_QUERIES[i % |TEST_QUERIES|]
  }

  /** Iteration `c * 5 + i` of the loop issues test query i. */
  lemma {:induction false} QueryAtCycle(c: nat, i: nat)
    requires i < |TEST_QUERIES|
    ensures QueryAt(c * |TEST_QUERIES| + i) == TEST_QUERIES[i]
    decreases c
  {
    if c > 0 {
      var L := |TEST_QUERIES|;
      QueryAtCycle(c - 1, i);
      QueryAtPeriodic((c - 1) * L + i);
      assert (c - 1) * L + i + L == c * L + i;
    }
  }

  /** Iteration i and iteration i + 5 issue the same query. */
  lemma QueryAtPeriodic(i: nat)
    ensures QueryAt(i + |TEST_QUERIES|) == QueryAt(i)
  {
    assert (i + |TEST_QUERIES|) % |TEST_QUERIES| == i % |TEST_QUERIES|;
  }

  /** The queries issued by the first `n` iterations. */
  function Cycle(n: nat): seq<string> {
    seq(n, i requires 0 <= i < n => QueryAt(i))
  }

  function Count(s: seq<string>, q: string): nat
    decreases |s|
  {
    if s == [] then 0 else (if s[0] == q then 1 else 0) + Count(s[1..], q)
  }

  lemma {:induction false} CountAppend(a: seq<string>, b: seq<string>, q: string)
    ensures Count(a + b, q) == Count(a, q) + Count(b, q)
    decreases |a|
  {
    if a == [] {
      assert a + b == b;
    } else {
      assert (a + b)[1..] == a[1..] + b;
      CountAppend(a[1..], b, q);
    }
  }

  lemma QueriesDistinct()
    ensures forall i, j :: 0 <= i < j < |TEST_QUERIES| ==> TEST_QUERIES[i] != TEST_QUERIES[j]
  {
  }

  /** Each of the test queries occurs exactly once in the list of test queries. */
  lemma CountInQueries(k: nat)
    requires k < |TEST_QUERIES|
    ensures Count(TEST_QUERIES, TEST_QUERIES[k]) == 1
  {
    var t := TEST_QUERIES;
    QueriesDistinct();
    assert Count(t[5..], t[k]) == 0;
    assert Count(t[4..], t[k]) == if k == 4 then 1 else 0;
    assert Count(t[3..], t[k]) == if k >= 3 then 1 else 0;
    assert Count(t[2..], t[k]) == if k >= 2 then 1 else 0;
    assert Count(t[1..], t[k]) == if k >= 1 then 1 else 0;
  }

  /** Round-robin is fair: `m` full cycles issue every test query exactly `m` times. */
  lemma {:induction false} CycleCount(m: nat, k: nat)
    requires k < |TEST_QUERIES|
    ensures Count(Cycle(m * |TEST_QUERIES|), TEST_QUERIES[k]) == m
    decreases m
  {
    var L := |TEST_QUERIES|;
    if m > 0 {
      var n := (m - 1) * L;
      assert Cycle(m * L) == Cycle(n) + TEST_QUERIES by {
        forall i | 0 <= i < L
          ensures Cycle(m * L)[n + i] == TEST_QUERIES[i]
        {
          QueryAtCycle(m - 1, i);
        }
      }
      CountAppend(Cycle(n), TEST_QUERIES, TEST_QUERIES[k]);
      CycleCount(m - 1, k);
      CountInQueries(k);
    }
  }

  /**
   * The latency-collecting loop.  `trip(i)` is what the system under test
   * does with the i-th request; the clock is folded into it.
   */
  method CollectLatencies(iterations: nat, trip: nat -> RoundTrip) returns (issued: seq<string>, r: Result<seq<real>>)
    ensures |issued| <= iterations
    ensures issued == Cycle(|issued|)
    ensures r.Success? <==> forall i :: 0 <= i < iterations ==> trip(i).Answered?
    ensures r.Success? ==> |issued| == iterations && |r.value| == iterations
    ensures r.Success? ==> forall i :: 0 <= i < iterations ==> trip(i).Answered? && r.value[i] == trip(i).ms
    ensures r.Failure? ==> r.error == RequestFailed && |issued| > 0 && trip(|issued| - 1).Raised?
    ensures r.Failure? ==> forall i :: 0 <= i < |issued| - 1 ==> trip(i).Answered?
  {
    issued := [];
    var latencies: seq<real> := [];
    var i := 0;
    while i < iterations
      invariant 0 <= i <= iterations
      invariant issued == Cycle(i)
      invariant |latencies| == i
      invariant forall k :: 0 <= k < i ==> trip(k).Answered? && latencies[k] == trip(k).ms
    {
      issued := issued + [QueryAt(i)];
      var t := trip(i);
      if t.Raised? {
        return issued, Failure(RequestFailed);
      }
      latencies := latencies + [t.ms];
      i := i + 1;
    }
    r := Success(latencies);
  }
}
