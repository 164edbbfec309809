/**
 * A Python `dict` as the drivers use it: iteration follows insertion order,
 * and `d[k] = v` on a present key replaces the value in place.
 */
module Dicts {

  type Dict<K, V> = seq<(K, V)>

  /** The keys in iteration order. */
  function Keys<K, V>(d: Dict<K, V>): (r: seq<K>)
    ensures |r| == |d|
    decreases |d|
  {
    if d == [] then [] else [d[0].0] + Keys(d[1..])
  }

  /** Key `i` in iteration order is the key of entry `i`. */
  lemma {:induction false} KeysAt<K, V>(d: Dict<K, V>)
    ensures |Keys(d)| == |d|
    ensures forall i :: 0 <= i < |d| ==> Keys(d)[i] == d[i].0
    decreases |d|
  {
    if d != [] {
      KeysAt(d[1..]);
    }
  }

  /** `d[k]` */
  function Get<K(==), V>(d: Dict<K, V>, k: K): V
    requires k in Keys(d)
    decreases |d|
  {
    if d[0].0 == k then d[0].1 else Get(d[1..], k)
  }

  /** `d[k] = v` */
  function Put<K(==), V>(d: Dict<K, V>, k: K, v: V): (r: Dict<K, V>)
    ensures Keys(r) == if k in Keys(d) then Keys(d) else Keys(d) + [k]
    ensures Get(r, k) == v
    ensures forall k' :: k' != k && k' in Keys(d) ==> Get(r, k') == Get(d, k')
    decreases |d|
  {
    if d == [] then [(k, v)]
    else if d[0].0 == k then [(k, v)] + d[1..]
    else
      var rest := Put(d[1..], k, v);
      assert ([d[0]] + rest)[1..] == rest;
      [d[0]] + rest
  }

  /** After `d[k] = v`, `k` is a key and maps to `v`. */
  lemma PutSame<K, V>(d: Dict<K, V>, k: K, v: V)
    ensures k in Keys(Put(d, k, v)) && Get(Put(d, k, v), k) == v
  {
  }

  /** After `d[k] = v`, every other key keeps its value. */
  lemma PutOther<K, V>(d: Dict<K, V>, k: K, v: V, k': K)
    requires k' != k && k' in Keys(d)
    ensures k' in Keys(Put(d, k, v)) && Get(Put(d, k, v), k') == Get(d, k')
  {
  }

  lemma PutPut<K, V>(d: Dict<K, V>, k: K, v: V, w: V)
    ensures Put(Put(d, k, v), k, w) == Put(d, k, w)
  {
    if d != [] && d[0].0 != k {
      PutPut(d[1..], k, v, w);
      assert Put(d, k, v)[1..] == Put(d[1..], k, v);
    }
  }
}
