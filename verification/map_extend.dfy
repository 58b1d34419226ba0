/**
 Inserting a sequence of key/value pairs into a map one after the other, as
 `HashMap::extend` does: when a key occurs several times, the last pair for it
 wins, and so does any pair over an entry already in the map.
 */
module MapExtend {
  import opened Options

  /** The value of the LAST pair in `pairs` whose key is `k`, if there is one. */
  function Lookup<K(==), V>(pairs: seq<(K, V)>, k: K): (r: Option<V>)
    ensures r.Some? <==> exists j :: 0 <= j < |pairs| && pairs[j].0 == k
    ensures r.Some? ==>
      exists j :: 0 <= j < |pairs| && pairs[j] == (k, r.value)
        && forall j' :: j < j' < |pairs| ==> pairs[j'].0 != k
  {
    if |pairs| == 0 then None
    else if pairs[|pairs| - 1].0 == k then Some(pairs[|pairs| - 1].1)
    else
      var r := Lookup(pairs[..|pairs| - 1], k);
      assert forall j :: 0 <= j < |pairs| - 1 ==> pairs[..|pairs| - 1][j] == pairs[j];
      r
  }

  /** Lookup in a concatenation: a pair in the second part beats any pair in the first. */
  lemma {:induction false} LookupAppend<K, V>(p: seq<(K, V)>, q: seq<(K, V)>, k: K)
    ensures Lookup(p + q, k) == if Lookup(q, k).Some? then Lookup(q, k) else Lookup(p, k)
    decreases |q|
  {
    if |q| == 0 {
      assert p + q == p;
    } else {
      var n := |q| - 1;
      assert (p + q)[..|p + q| - 1] == p + q[..n];
      assert q[..|q| - 1] == q[..n];
      LookupAppend(p, q[..n], k);
    }
  }

  /** The map after inserting every pair of `pairs`, in order, into `m`. */
  function ExtendMap<K(==,!new), V>(m: map<K, V>, pairs: seq<(K, V)>): (r: map<K, V>)
    ensures forall k :: k in r <==> k in m || Lookup(pairs, k).Some?
    ensures forall k :: k in r ==>
      r[k] == if Lookup(pairs, k).Some? then Lookup(pairs, k).value else m[k]
  {
    if |pairs| == 0 then m
    else
      var last := pairs[|pairs| - 1];
      ExtendMap(m, pairs[..|pairs| - 1])[last.0 := last.1]
  }

  /** Every key of `ids` paired with the same value `a` (`ids.map(|id| (id, a))`). */
  function PairAll<K, V>(ids: seq<K>, a: V): (r: seq<(K, V)>)
    ensures |r| == |ids|
    ensures forall j :: 0 <= j < |ids| ==> r[j] == (ids[j], a)
  {
    seq(|ids|, j requires 0 <= j < |ids| => (ids[j], a))
  }

  /** Pairing every key with one value: a key is found exactly when it is listed. */
  lemma LookupPairAll<K, V>(ids: seq<K>, a: V, k: K)
    ensures Lookup(PairAll(ids, a), k) == if k in ids then Some(a) else None
  {
    var pairs := PairAll(ids, a);
    if k in ids {
      var j :| 0 <= j < |ids| && ids[j] == k;
      assert pairs[j].0 == k;
    }
  }

  /**
   Extending `m` with every key of `ids` under one value `a`: the listed keys
   map to `a`, every other key of `m` keeps its value, no other key appears.
   */
  ghost predicate AllInserted<K(!new), V>(m: map<K, V>, r: map<K, V>, ids: seq<K>, a: V) {
    && (forall k :: k in r <==> k in m || k in ids)
    && (forall k :: k in ids ==> k in r && r[k] == a)
    && (forall k :: k in m && k !in ids ==> k in r && r[k] == m[k])
  }

  lemma ExtendPairAll<K(!new), V>(m: map<K, V>, ids: seq<K>, a: V)
    ensures AllInserted(m, ExtendMap(m, PairAll(ids, a)), ids, a)
  {
    forall k {
      LookupPairAll(ids, a, k);
    }
  }
}
