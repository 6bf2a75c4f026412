/**
 * Go's `for k, v := range m` visits the entries of a map in an unspecified
 * order. The stores' listing loops share this one model of it: the order is
 * chosen afresh at every step, and the ghost `keys` records the order taken.
 */
module MapIteration {

  /** Every key occurs at most once in `keys`. */
  ghost predicate Distinct<K>(keys: seq<K>)
  {
    forall i, j | 0 <= i < j < |keys| :: keys[i] != keys[j]
  }

  /** The values of `m`, each entry visited exactly once, in an arbitrary order. */
  method ValuesOf<K, V>(m: map<K, V>) returns (vs: seq<V>, ghost keys: seq<K>)
    ensures |vs| == |keys| == |m|
    ensures Distinct(keys)
    ensures forall k :: k in m <==> k in keys
    ensures forall i | 0 <= i < |keys| :: keys[i] in m && vs[i] == m[keys[i]]
  {
    var todo := m.Keys;
    vs, keys := [], [];
    while todo != {}
      invariant todo <= m.Keys
      invariant |vs| == |keys| && |keys| + |todo| == |m|
      invariant Distinct(keys)
      invariant forall k :: k in m <==> k in keys || k in todo
      invariant forall i | 0 <= i < |keys| :: keys[i] !in todo
      invariant forall i | 0 <= i < |keys| :: keys[i] in m && vs[i] == m[keys[i]]
      decreases |todo|
    {
      var k :| k in todo;
      vs, keys := vs + [m[k]], keys + [k];
      todo := todo - {k};
    }
  }
}
