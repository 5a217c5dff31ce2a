/** Small shared vocabulary. */
module Basics {
  datatype Option<+T> = None | Some(value: T)

  /** Every iteration order Go may choose for a set of keys: each key exactly once. */
  ghost predicate Enumerates<K(!new)>(order: seq<K>, keys: set<K>) {
    && (forall k :: k in order <==> k in keys)
    && (forall i, j :: 0 <= i < j < |order| ==> order[i] != order[j])
  }

  lemma SameMap<K, V>(m: map<K, V>, n: map<K, V>)
    requires m.Keys == n.Keys && forall k :: k in m ==> m[k] == n[k]
    ensures m == n
  {
  }

  ghost function Listing<K(!new)>(keys: set<K>): (order: seq<K>)
    ensures Enumerates(order, keys) && |order| == |keys|
  {
    if keys == {} then []
    else
      var k :| k in keys;
      [k] + Listing(keys - {k})
  }
}
