/**
 * The Python built-ins both drivers reduce latency samples with: `sorted`,
 * `list.sort`, `statistics.mean`, `statistics.median`, `min`, `max`, and the
 * nearest-rank percentile `xs_sorted[int(p * len(xs_sorted))]`.
 * Samples are milliseconds, modelled as exact reals.
 */
module Samples {

  predicate Sorted(s: seq<real>) {
    forall i, j :: 0 <= i < j < |s| ==> s[i] <= s[j]
  }

  // ---------------------------------------------------------------- sorting

  function Insert(x: real, s: seq<real>): (r: seq<real>)
    requires Sorted(s)
    ensures Sorted(r)
    ensures multiset(r) == multiset(s) + multiset{x}
    ensures |r| == |s| + 1 && r[0] == if s == [] || x <= s[0] then x else s[0]
    decreases |s|
  {
    if s == [] || x <= s[0] then [x] + s
    else
      assert s == [s[0]] + s[1..];
      [s[0]] + Insert(x, s[1..])
  }

  /** `sorted(xs)`: an ascending permutation of `xs`. */
  function Sort(s: seq<real>): (r: seq<real>)
    ensures Sorted(r)
    ensures multiset(r) == multiset(s)
    ensures |r| == |s|
    decreases |s|
  {
    if s == [] then []
    else
      assert s == [s[0]] + s[1..];
      Insert(s[0], Sort(s[1..]))
  }

  /** There is only one ascending arrangement of a multiset of samples. */
  lemma {:induction false} SortedPermutationUnique(a: seq<real>, b: seq<real>)
    requires Sorted(a) && Sorted(b)
    requires multiset(a) == multiset(b)
    ensures a == b
    decreases |a|
  {
    assert |a| == |multiset(a)| == |multiset(b)| == |b|;
    if a != [] {
      assert a[0] == b[0] && a[1..] == b[1..] by {
        SortedHeadsEqual(a, b);
        TailMultiset(a);
        TailMultiset(b);
        SortedTail(a);
        SortedTail(b);
        SortedPermutationUnique(a[1..], b[1..]);
      }
      assert a == [a[0]] + a[1..] && b == [b[0]] + b[1..];
    }
  }

  /** Two ascending arrangements of one multiset start with the same sample. */
  lemma SortedHeadsEqual(a: seq<real>, b: seq<real>)
    requires Sorted(a) && Sorted(b) && multiset(a) == multiset(b) && |a| > 0 && |b| > 0
    ensures a[0] == b[0]
  {
    assert a[0] in multiset(b) && b[0] in multiset(a);
    var i :| 0 <= i < |b| && b[i] == a[0];
    var j :| 0 <= j < |a| && a[j] == b[0];
    assert b[0] <= b[i] && a[0] <= a[j];
  }

  lemma TailMultiset(a: seq<real>)
    requires a != []
    ensures multiset(a[1..]) == multiset(a) - multiset{a[0]}
  {
    assert a == [a[0]] + a[1..];
  }

  lemma SortedTail(a: seq<real>)
    requires Sorted(a) && a != []
    ensures Sorted(a[1..])
  {
    forall i, j | 0 <= i < j < |a| - 1
      ensures a[1..][i] <= a[1..][j]
    {
      assert a[1..][i] == a[i + 1] && a[1..][j] == a[j + 1];
    }
  }

  lemma SortOfSorted(s: seq<real>)
    requires Sorted(s)
    ensures Sort(s) == s
  {
    SortedPermutationUnique(Sort(s), s);
  }

  lemma SortOfPermutation(a: seq<real>, b: seq<real>)
    requires multiset(a) == multiset(b)
    ensures Sort(a) == Sort(b)
  {
    SortedPermutationUnique(Sort(a), Sort(b));
  }

  /**
   * `list.sort()`: sorts the caller's array in place.  Any correct sort
   * leaves the same contents, so the model uses selection sort.
   */
  method SortInPlace(a: array<real>)
    modifies a
    ensures a[..] == Sort(old(a[..]))
  {
    var i := 0;
    while i < a.Length
      invariant 0 <= i <= a.Length
      invariant Sorted(a[..i])
      invariant forall p, q :: 0 <= p < i <= q < a.Length ==> a[p] <= a[q]
      invariant multiset(a[..]) == multiset(old(a[..]))
    {
      var m := MinIndexFrom(a, i);
      Swap(a, i, m);
      i := i + 1;
    }
    assert a[..a.Length] == a[..];
    SortedPermutationUnique(a[..], Sort(old(a[..])));
  }

  method Swap(a: array<real>, i: nat, j: nat)
    requires i < a.Length && j < a.Length
    modifies a
    ensures a[i] == old(a[j]) && a[j] == old(a[i])
    ensures forall k :: 0 <= k < a.Length && k != i && k != j ==> a[k] == old(a[k])
    ensures multiset(a[..]) == multiset(old(a[..]))
  {
    a[i], a[j] := a[j], a[i];
  }

  method MinIndexFrom(a: array<real>, lo: nat) returns (m: nat)
    requires lo < a.Length
    ensures lo <= m < a.Length
    ensures forall k :: lo <= k < a.Length ==> a[m] <= a[k]
  {
    m := lo;
    var k := lo + 1;
    while k < a.Length
      invariant lo <= m < k <= a.Length
      invariant forall j :: lo <= j < k ==> a[m] <= a[j]
    {
      if a[k] < a[m] {
        m := k;
      }
      k := k + 1;
    }
  }

  // ------------------------------------------------------ min, max, sum, mean

  /** `min(xs)` */
  function Min(s: seq<real>): (m: real)
    requires |s| > 0
    ensures m in s
    ensures forall x :: x in s ==> m <= x
    decreases |s|
  {
    if |s| == 1 then s[0]
    else
      assert s == [s[0]] + s[1..];
      var t := Min(s[1..]);
      if s[0] <= t then s[0] else t
  }

  /** `max(xs)` */
  function Max(s: seq<real>): (m: real)
    requires |s| > 0
    ensures m in s
    ensures forall x :: x in s ==> x <= m
    decreases |s|
  {
    if |s| == 1 then s[0]
    else
      assert s == [s[0]] + s[1..];
      var t := Max(s[1..]);
      if s[0] >= t then s[0] else t
  }

  function Sum(s: seq<real>): real
    decreases |s|
  {
    if s == [] then 0.0 else s[0] + Sum(s[1..])
  }

  lemma {:induction false} SumBounds(s: seq<real>, lo: real, hi: real)
    requires forall x :: x in s ==> lo <= x <= hi
    ensures |s| as real * lo <= Sum(s) <= |s| as real * hi
    decreases |s|
  {
    if s != [] {
      assert forall x :: x in s[1..] ==> x in s;
      assert s[0] in s;
      SumBounds(s[1..], lo, hi);
      SumBoundsStep(|s| - 1, s[0], Sum(s[1..]), lo, hi);
    }
  }

  lemma SumBoundsStep(m: nat, x: real, rest: real, lo: real, hi: real)
    requires lo <= x <= hi
    requires m as real * lo <= rest <= m as real * hi
    ensures (m + 1) as real * lo <= x + rest <= (m + 1) as real * hi
  {
    assert (m + 1) as real * lo == lo + m as real * lo;
    assert (m + 1) as real * hi == hi + m as real * hi;
  }

  lemma {:induction false} SumInsert(x: real, s: seq<real>)
    requires Sorted(s)
    ensures Sum(Insert(x, s)) == x + Sum(s)
    decreases |s|
  {
    if s != [] && x > s[0] {
      SumInsert(x, s[1..]);
    }
  }

  lemma {:induction false} SumSort(s: seq<real>)
    ensures Sum(Sort(s)) == Sum(s)
    decreases |s|
  {
    if s != [] {
      SumSort(s[1..]);
      SumInsert(s[0], Sort(s[1..]));
    }
  }

  /** Reordering the samples does not change their sum. */
  lemma SumPermutation(a: seq<real>, b: seq<real>)
    requires multiset(a) == multiset(b)
    ensures Sum(a) == Sum(b)
  {
    SortOfPermutation(a, b);
    SumSort(a);
    SumSort(b);
  }

  /** `statistics.mean(xs)`; it raises on an empty list, which callers rule out. */
  function Mean(s: seq<real>): (r: real)
    requires |s| > 0
    ensures r * |s| as real == Sum(s)
  {
    Sum(s) / |s| as real
  }

  lemma MeanBounds(s: seq<real>)
    requires |s| > 0
    ensures Min(s) <= Mean(s) <= Max(s)
  {
    MeanWithin(s, Min(s), Max(s));
  }

  lemma MeanWithin(s: seq<real>, lo: real, hi: real)
    requires |s| > 0
    requires forall x :: x in s ==> lo <= x <= hi
    ensures lo <= Mean(s) <= hi
  {
    SumBounds(s, lo, hi);
    QuotientBounds(Sum(s), |s| as real, lo, hi);
  }

  lemma QuotientBounds(x: real, n: real, lo: real, hi: real)
    requires n > 0.0 && n * lo <= x <= n * hi
    ensures lo <= x / n <= hi
  {
    var q := x / n;
    assert q * n == x;
  }

  /** `statistics.median(xs)`: the middle of the sorted samples, or the mean of the two middle ones. */
  function Median(s: seq<real>): (r: real)
    requires |s| > 0
    ensures |Sort(s)| == |s|
    ensures Sort(s)[(|s| - 1) / 2] <= r <= Sort(s)[|s| / 2]
  {
    MiddleBetween(Sort(s));
    Middle(Sort(s))
  }

  /** The middle of a sorted list lies between its two middle elements. */
  lemma MiddleBetween(t: seq<real>)
    requires |t| > 0 && Sorted(t)
    ensures t[(|t| - 1) / 2] <= Middle(t) <= t[|t| / 2]
  {
    var n := |t|;
    if n % 2 == 0 {
      assert t[n / 2 - 1] <= t[n / 2];
    }
  }

  function Middle(t: seq<real>): real
    requires |t| > 0
  {
    var n := |t|;
    if n % 2 == 1 then t[n / 2] else (t[n / 2 - 1] + t[n / 2]) / 2.0
  }

  lemma SortedElementBounds(s: seq<real>, k: nat)
    requires k < |s|
    ensures Sort(s)[k] in s
    ensures Min(s) <= Sort(s)[k] <= Max(s)
  {
    assert Sort(s)[k] in multiset(Sort(s));
  }

  lemma MedianBounds(s: seq<real>)
    requires |s| > 0
    ensures Min(s) <= Median(s) <= Max(s)
  {
    var t := Sort(s);
    forall k | 0 <= k < |t|
      ensures Min(s) <= t[k] <= Max(s)
    {
      SortedElementBounds(s, k);
    }
    MiddleWithin(t, Min(s), Max(s));
  }

  lemma MiddleWithin(t: seq<real>, lo: real, hi: real)
    requires |t| > 0
    requires forall k :: 0 <= k < |t| ==> lo <= t[k] <= hi
    ensures lo <= Middle(t) <= hi
  {
  }

  // ------------------------------------------------------ nearest-rank percentile

  /** `int(pct / 100 * n)`, the index a nearest-rank percentile reads. */
  function PercentileIndex(pct: nat, n: nat): (k: nat)
    ensures pct < 100 && n > 0 ==> k < n
    ensures pct <= 100 ==> k <= n
  {
    assert pct < 100 ==> pct * n <= 99 * n;
    assert pct <= 100 ==> pct * n <= 100 * n;
    pct * n / 100
  }

  lemma PercentileIndexMonotone(p: nat, q: nat, n: nat)
    requires p <= q
    ensures PercentileIndex(p, n) <= PercentileIndex(q, n)
  {
    assert p * n <= q * n;
  }

  /** The sample at the nearest-rank position `pct` of the sorted samples. */
  function Percentile(s: seq<real>, pct: nat): (r: real)
    requires |s| > 0 && pct < 100
    ensures r in s
    ensures Min(s) <= r <= Max(s)
  {
    SortedElementBounds(s, PercentileIndex(pct, |s|));
    Sort(s)[PercentileIndex(pct, |s|)]
  }

  lemma PercentileMonotone(s: seq<real>, p: nat, q: nat)
    requires |s| > 0 && p <= q < 100
    ensures Percentile(s, p) <= Percentile(s, q)
  {
    PercentileIndexMonotone(p, q, |s|);
  }

  /** Every statistic above depends only on the multiset of samples, not on their order. */
  lemma PermutationInvariant(a: seq<real>, b: seq<real>)
    requires |a| > 0 && multiset(a) == multiset(b)
    ensures |b| == |a|
    ensures Mean(a) == Mean(b) && Median(a) == Median(b)
    ensures forall p :: p < 100 ==> Percentile(a, p) == Percentile(b, p)
  {
    assert |a| == |multiset(a)| == |multiset(b)| == |b|;
    MeanPermutation(a, b);
    SortOfPermutation(a, b);
  }

  lemma MeanPermutation(a: seq<real>, b: seq<real>)
    requires |a| > 0 && |a| == |b| && multiset(a) == multiset(b)
    ensures Mean(a) == Mean(b)
  {
    SumPermutation(a, b);
  }
}
