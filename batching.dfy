/**
 * The slicing loop `for i in range(0, len(xs), B): batch = xs[i:i + B]`
 * that every loader uses, described by the list of batches it visits.
 */
module Batching {

  /** Concatenation of the batches, in order. */
  function Flatten<T>(batches: seq<seq<T>>): seq<T>
    decreases |batches|
  {
    if batches == [] then [] else batches[0] + Flatten(batches[1..])
  }

  /**
   * The batches `xs[i:i+size]` for `i` in `range(0, len(xs), size)`:
   * they partition `xs` in order, none is empty, and all but the last are full.
   */
  function Chunks<T>(s: seq<T>, size: nat): (r: seq<seq<T>>)
    requires size > 0
    ensures Flatten(r) == s
    ensures forall c :: 0 <= c < |r| ==> 0 < |r[c]| <= size
    ensures forall c :: 0 <= c < |r| - 1 ==> |r[c]| == size
    decreases |s|
  {
    if |s| == 0 then []
    else if |s| <= size then
      assert Flatten([s]) == s + Flatten([]);
      [s]
    else
      var rest := Chunks(s[size..], size);
      assert ([s[..size]] + rest)[1..] == rest;
      assert s == s[..size] + s[size..];
      [s[..size]] + rest
  }

  /** One step of the slicing loop: the batch at offset `i` followed by the batches after it. */
  lemma ChunksStep<T>(s: seq<T>, size: nat, i: nat)
    requires size > 0 && i < |s|
    ensures Chunks(s[i..], size) == [s[i..SliceEnd(i + size, |s|)]] + Chunks(s[SliceEnd(i + size, |s|)..], size)
  {
    var t := s[i..];
    if |t| > size {
      assert t[..size] == s[i..i + size];
      assert t[size..] == s[i + size..];
    } else {
      assert SliceEnd(i + size, |s|) == |s|;
      assert s[i..|s|] == t;
      assert s[|s|..] == [];
      assert Chunks(t, size) == [t];
    }
  }

  /** The number of batches: `len(range(0, len(s), size))`. */
  lemma {:induction false} ChunksCount<T>(s: seq<T>, size: nat)
    requires size > 0
    ensures |Chunks(s, size)| == (|s| + size - 1) / size
    decreases |s|
  {
    if |s| == 0 {
      DivUnique(size - 1, size, 0, size - 1);
    } else if |s| <= size {
      DivUnique(|s| + size - 1, size, 1, |s| - 1);
    } else {
      ChunksCount(s[size..], size);
      assert |Chunks(s, size)| == 1 + |Chunks(s[size..], size)|;
      DivPlusOne(|s| - size + size - 1, size);
    }
  }

  lemma DivPlusOne(x: nat, d: nat)
    requires d > 0
    ensures (x + d) / d == x / d + 1
  {
    DivUnique(x + d, d, x / d + 1, x % d);
  }

  /** Integer division is determined by quotient and remainder. */
  lemma DivUnique(x: int, d: int, q: int, r: int)
    requires d > 0 && 0 <= r < d && x == q * d + r
    ensures x / d == q
  {
    var q', r' := x / d, x % d;
    assert q * d + r == q' * d + r';
    if q' != q {
      var k := if q' < q then q - q' else q' - q;
      assert k * d == (if q' < q then r' - r else r - r') by {
        if q' < q {
          assert (q - q') * d == q * d - q' * d;
        } else {
          assert (q' - q) * d == q' * d - q * d;
        }
      }
      MulAtLeast(k, d);
    }
  }

  lemma MulAtLeast(k: int, d: int)
    requires k >= 1 && d > 0
    ensures k * d >= d
  {
    assert k * d == (k - 1) * d + d;
    assert (k - 1) * d >= 0;
  }

  /** Calls made so far, followed by the calls still to come, are all the calls: those made are a prefix. */
  lemma PrefixOfWhole<T>(made: seq<T>, toCome: seq<T>, all: seq<T>)
    requires made + toCome == all
    ensures |made| <= |all| && made == all[..|made|]
  {
    assert all[..|made|] == (made + toCome)[..|made|];
  }

  /** Whether the first `m` remote calls return rather than raise; `succeeds(c)` says it of call `c`. */
  predicate AllReturn(succeeds: nat -> bool, m: nat) {
    forall c :: 0 <= c < m ==> succeeds(c)
  }

  /** A slice bound as Python clamps it to the length `len`. */
  function SliceEnd(stop: int, len: int): int {
    if stop <= len then stop else len
  }
}
