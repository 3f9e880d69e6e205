/** Iteration orders of a hash map: any order in which every key comes exactly once. */
module MapOrders {
  ghost predicate Enumerates<K(!new), V>(order: seq<K>, m: map<K, V>) {
    && (forall k :: k in order <==> k in m)
    && NoDuplicates(order)
  }

  ghost predicate NoDuplicates<K(!new)>(order: seq<K>) {
    forall i, j :: 0 <= i < j < |order| ==> order[i] != order[j]
  }
}
