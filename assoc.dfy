/** `Map.put` applied to a list of pairs in order: the later of two pairs with the same key wins. */
module Assoc {

  function PutAll<K, V>(m: map<K, V>, pairs: seq<(K, V)>): map<K, V>
    decreases |pairs|
  {
    if |pairs| == 0 then m
    else
      var n := |pairs| - 1;
      PutAll(m, pairs[..n])[pairs[n].0 := pairs[n].1]
  }

  /** One more pair puts its value over the map of the pairs before it. */
  lemma {:induction false} PutAllSnoc<K, V>(m: map<K, V>, pairs: seq<(K, V)>, p: (K, V))
    ensures PutAll(m, pairs + [p]) == PutAll(m, pairs)[p.0 := p.1]
  {
    assert (pairs + [p])[..|pairs|] == pairs;
  }

  /** The position of the last pair with key `k`, or -1. */
  function LastWith<K(==), V>(pairs: seq<(K, V)>, k: K): (r: int)
    ensures -1 <= r < |pairs|
    ensures r >= 0 ==> pairs[r].0 == k
    ensures forall i :: r < i < |pairs| ==> pairs[i].0 != k
  {
    if |pairs| == 0 then -1
    else if pairs[|pairs| - 1].0 == k then |pairs| - 1
    else
      var init := pairs[..|pairs| - 1];
      assert forall i :: 0 <= i < |init| ==> init[i] == pairs[i];
      LastWith(init, k)
  }

  /** A key is in the result exactly when it was in `m` or some pair has it; its value is that of
      the last pair with that key, or the one it had in `m` when no pair has it. */
  lemma {:induction false} PutAllAt<K, V>(m: map<K, V>, pairs: seq<(K, V)>, k: K)
    ensures k in PutAll(m, pairs) <==> k in m || LastWith(pairs, k) >= 0
    ensures k in PutAll(m, pairs) ==>
      PutAll(m, pairs)[k] == if LastWith(pairs, k) >= 0 then pairs[LastWith(pairs, k)].1 else m[k]
    decreases |pairs|
  {
    if |pairs| > 0 {
      var n := |pairs| - 1;
      PutAllAt(m, pairs[..n], k);
      if pairs[n].0 != k {
        var j := LastWith(pairs[..n], k);
        assert j >= 0 ==> pairs[..n][j] == pairs[j];
      }
    }
  }

  /** Keys no pair mentions keep their entry, and no other key appears. */
  lemma PutAllKeys<K, V>(m: map<K, V>, pairs: seq<(K, V)>)
    ensures PutAll(m, pairs).Keys == m.Keys + set i | 0 <= i < |pairs| :: pairs[i].0
  {
    var ks := set i | 0 <= i < |pairs| :: pairs[i].0;
    forall k ensures k in PutAll(m, pairs) <==> k in m || k in ks {
      PutAllAt(m, pairs, k);
      if k in ks {
        var i :| 0 <= i < |pairs| && pairs[i].0 == k;
        assert LastWith(pairs, k) >= i;
      }
    }
  }

  /** The position of the first pair with key `k`, or `|pairs|` when no pair has it: where a
      left-to-right search that stops at the first hit stops. */
  function FirstWith<K(==), V>(pairs: seq<(K, V)>, k: K): (r: nat)
    ensures r <= |pairs|
    ensures r < |pairs| ==> pairs[r].0 == k
    ensures forall i :: 0 <= i < r ==> pairs[i].0 != k
  {
    if |pairs| == 0 then 0
    else if pairs[0].0 == k then 0
    else
      assert forall i :: 0 < i < |pairs| ==> pairs[1..][i - 1] == pairs[i];
      1 + FirstWith(pairs[1..], k)
  }
}
