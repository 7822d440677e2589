/** A set kept together with a queue of its members in the order they came, oldest first. */
module BoundedSets {
  import opened Base

  /** The queue lists exactly the members of the set, each once. */
  ghost predicate Listing<T>(order: seq<T>, members: set<T>) {
    NoDup(order) && Elems(order) == members
  }

  /** `retain(|queued| queued != x)` */
  function Without<T(==)>(order: seq<T>, x: T): seq<T> {
    if order == [] then []
    else Without(order[..|order| - 1], x) + if order[|order| - 1] == x then [] else [order[|order| - 1]]
  }

  lemma ListingSize<T>(order: seq<T>, members: set<T>)
    requires Listing(order, members)
    ensures |members| == |order|
  {
    NoDupCount(order);
  }

  lemma ListingElems<T>(order: seq<T>, members: set<T>)
    requires Listing(order, members)
    ensures members == Elems(order)
  {}

  lemma ListingPush<T>(order: seq<T>, members: set<T>, x: T)
    requires Listing(order, members) && x !in members
    ensures Listing(order + [x], members + {x})
  {
    assert x !in order;
  }

  lemma ListingPop<T>(order: seq<T>, members: set<T>)
    requires Listing(order, members) && order != []
    ensures Listing(order[1..], members - {order[0]})
  {
    assert order == [order[0]] + order[1..];
    assert order[0] !in order[1..];
  }

  lemma {:induction false} WithoutElems<T>(order: seq<T>, x: T)
    ensures Elems(Without(order, x)) == Elems(order) - {x}
    ensures NoDup(order) ==> NoDup(Without(order, x))
    ensures x !in order ==> Without(order, x) == order
  {
    if order != [] {
      var front, last := order[..|order| - 1], order[|order| - 1];
      WithoutElems(front, x);
      assert order == front + [last];
      assert Elems(order) == Elems(front) + {last};
      assert Elems(Without(order, x)) == Elems(Without(front, x)) + if last == x then {} else {last};
      if NoDup(order) {
        assert last !in front;
        assert last !in Elems(Without(front, x));
      }
    }
  }

  lemma ListingRemove<T>(order: seq<T>, members: set<T>, x: T)
    requires Listing(order, members)
    ensures Listing(Without(order, x), members - {x})
    ensures x !in members ==> Without(order, x) == order
  {
    WithoutElems(order, x);
  }

  /** The newest `max` members. */
  function Newest<T>(order: seq<T>, max: nat): seq<T> {
    if |order| > max then order[|order| - max..] else order
  }

  /** Removing from the front until the bound holds leaves the newest members. */
  method PruneOldest<T>(members: set<T>, order: seq<T>, max: nat) returns (kept: set<T>, queue: seq<T>)
    requires Listing(order, members)
    ensures Listing(queue, kept) && queue == Newest(order, max) && |kept| <= max
    ensures kept <= members
  {
    hide Listing;
    kept, queue := members, order;
    ghost var cut := 0;
    ListingSize(queue, kept);
    while |kept| > max
      invariant Listing(queue, kept) && kept <= members
      invariant cut <= |order| && queue == order[cut..] && |kept| == |queue|
      invariant cut > 0 ==> |queue| >= max
      decreases |queue|
    {
      ListingPop(queue, kept);
      kept, queue := kept - {queue[0]}, queue[1..];
      cut := cut + 1;
      ListingSize(queue, kept);
    }
  }

  function Restrict<K, V>(m: map<K, V>, keys: seq<K>): map<K, V> { map k | k in m && k in keys :: m[k] }

  lemma RestrictPop<K, V>(m: map<K, V>, order: seq<K>)
    requires Listing(order, Restrict(m, order).Keys) && order != []
    ensures Restrict(m, order) - {order[0]} == Restrict(m, order[1..])
    ensures Listing(order[1..], Restrict(m, order[1..]).Keys)
  {
    ListingPop(order, Restrict(m, order).Keys);
    assert order == [order[0]] + order[1..];
  }

  /** The same for a map whose keys the queue lists. */
  method PruneOldestKeys<K, V>(m: map<K, V>, order: seq<K>, max: nat) returns (kept: map<K, V>, queue: seq<K>)
    requires Listing(order, m.Keys)
    ensures queue == Newest(order, max) && kept == Restrict(m, queue)
  {
    hide Listing, Restrict;
    kept, queue := m, order;
    ghost var cut := 0;
    RestrictAll(m, order);
    ListingSize(queue, kept.Keys);
    while |kept| > max
      invariant Listing(queue, kept.Keys) && kept == Restrict(m, queue)
      invariant cut <= |order| && queue == order[cut..] && |kept| == |kept.Keys| == |queue|
      invariant cut > 0 ==> |queue| >= max
      decreases |queue|
    {
      RestrictPop(m, queue);
      kept, queue := kept - {queue[0]}, queue[1..];
      cut := cut + 1;
      ListingSize(queue, kept.Keys);
    }
  }

  lemma RestrictAll<K, V>(m: map<K, V>, order: seq<K>)
    requires Listing(order, m.Keys)
    ensures Restrict(m, order) == m
  {}
}
