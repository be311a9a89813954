/** Walking a hash map or hash set: every key once, in an order nobody controls. */
module HashOrder {
  ghost predicate Walks<K>(order: seq<K>, keys: set<K>) {
    && (forall i | 0 <= i < |order| :: order[i] in keys)
    && (forall i, j | 0 <= i < j < |order| :: order[i] != order[j])
    && (forall k | k in keys :: k in order)
  }

  method InSomeOrder<K(==)>(keys: set<K>) returns (order: seq<K>)
    ensures Walks(order, keys)
  {
    order := [];
    var left := keys;
    while left != {}
      invariant left <= keys && Walks(order, keys - left)
      decreases left
    {
      var k :| k in left;
      order, left := order + [k], left - {k};
    }
  }
}
