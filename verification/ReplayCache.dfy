/**
 Replay protection: the bounded FIFO + TTL cache that heartbeats and application
 envelopes share, a reference that remembers every acceptance, and the whole-run
 guarantee that the freshness window and the cache give together.
 */
module ReplayCache {
  import opened Base

  datatype Accepted<+K> = Accepted(key: K, at: u64)

  /**
   The reference: with the complete list of acceptances at hand, a key counts as
   seen when one of the last `capacity` acceptances carried it and that
   acceptance is no older than `ttl`.
   */
  ghost predicate Remembered<K>(h: seq<Accepted<K>>, capacity: nat, ttl: u64, key: K, now: u64) {
    exists i :: 0 <= i < |h| && |h| - capacity <= i && h[i].key == key && SatSub(now, h[i].at) <= ttl
  }

  ghost predicate TimesOrdered<K>(h: seq<Accepted<K>>) {
    forall i, j :: 0 <= i < j < |h| ==> h[i].at <= h[j].at
  }

  // ---- the cache's two collections against the acceptances it still holds ----

  /** Map and queue both hold exactly the acceptances `kept`, the queue in their order. */
  ghost predicate Lists<K>(entries: map<K, u64>, order: seq<K>, kept: seq<Accepted<K>>) {
    && |order| == |kept|
    && (forall i :: 0 <= i < |order| ==> order[i] == kept[i].key)
    && (forall i :: 0 <= i < |order| ==> order[i] in entries && entries[order[i]] == kept[i].at)
    && NoDup(order)
    && entries.Keys == Elems(order)
  }

  lemma ListsDropOldest<K>(entries: map<K, u64>, order: seq<K>, kept: seq<Accepted<K>>)
    requires Lists(entries, order, kept) && order != []
    ensures Lists(entries - {order[0]}, order[1..], kept[1..])
  {
    assert order == [order[0]] + order[1..];
  }

  lemma ListsAppend<K>(entries: map<K, u64>, order: seq<K>, kept: seq<Accepted<K>>, key: K, now: u64)
    requires Lists(entries, order, kept) && key !in entries
    ensures Lists(entries[key := now], order + [key], kept + [Accepted(key, now)])
  {
    assert key !in order;
  }

  /** `h[cut..]` is held; everything before `cut` is outside the reference's reach. */
  ghost predicate Cut<K>(h: seq<Accepted<K>>, cut: nat, capacity: nat, ttl: u64, clock: u64) {
    && cut <= |h|
    && TimesOrdered(h)
    && (forall i :: 0 <= i < |h| ==> h[i].at <= clock)
    && (forall i :: 0 <= i < cut ==> i < |h| - capacity || SatSub(clock, h[i].at) > ttl)
  }

  ghost predicate Inv<K>(entries: map<K, u64>, order: seq<K>, h: seq<Accepted<K>>, cut: nat,
                         capacity: nat, ttl: u64, clock: u64) {
    Cut(h, cut, capacity, ttl, clock) && Lists(entries, order, h[cut..])
  }

  /** The queue's head is always in the map, with the time of the oldest held acceptance. */
  lemma Head<K>(entries: map<K, u64>, order: seq<K>, h: seq<Accepted<K>>, cut: nat,
                capacity: nat, ttl: u64, clock: u64)
    requires Inv(entries, order, h, cut, capacity, ttl, clock) && order != []
    ensures cut < |h| && order[0] in entries && entries[order[0]] == h[cut].at
  {
    assert h[cut..][0] == h[cut];
  }

  /** Dropping the head is sound once the reference no longer reaches it. */
  lemma DropHead<K>(entries: map<K, u64>, order: seq<K>, h: seq<Accepted<K>>, cut: nat,
                    capacity: nat, ttl: u64, clock: u64)
    requires Inv(entries, order, h, cut, capacity, ttl, clock) && order != []
    requires |order| > capacity || SatSub(clock, entries[order[0]]) > ttl
    ensures Inv(entries - {order[0]}, order[1..], h, cut + 1, capacity, ttl, clock)
  {
    Head(entries, order, h, cut, capacity, ttl, clock);
    ListsDropOldest(entries, order, h[cut..]);
    assert h[cut..][1..] == h[cut + 1..];
  }

  lemma Record<K>(entries: map<K, u64>, order: seq<K>, h: seq<Accepted<K>>, cut: nat,
                  capacity: nat, ttl: u64, clock: u64, key: K)
    requires Inv(entries, order, h, cut, capacity, ttl, clock) && key !in entries
    ensures Inv(entries[key := clock], order + [key], h + [Accepted(key, clock)], cut, capacity, ttl, clock)
  {
    ListsAppend(entries, order, h[cut..], key, clock);
    assert (h + [Accepted(key, clock)])[cut..] == h[cut..] + [Accepted(key, clock)];
  }

  lemma Sizes<K>(entries: map<K, u64>, order: seq<K>, h: seq<Accepted<K>>, cut: nat,
                 capacity: nat, ttl: u64, clock: u64)
    requires Inv(entries, order, h, cut, capacity, ttl, clock)
    ensures |entries| == |order|
  {
    NoDupCount(order);
    assert |entries| == |entries.Keys|;
  }

  /** Once every held acceptance is within its ttl, holding a key is being remembered. */
  lemma HeldIsRemembered<K>(entries: map<K, u64>, order: seq<K>, h: seq<Accepted<K>>, cut: nat,
                            capacity: nat, ttl: u64, now: u64, key: K)
    requires Inv(entries, order, h, cut, capacity, ttl, now)
    requires |order| <= capacity
    requires order != [] ==> SatSub(now, entries[order[0]]) <= ttl
    ensures key in entries <==> Remembered(h, capacity, ttl, key, now)
  {
    if key in entries {
      var k :| 0 <= k < |order| && order[k] == key;
      assert h[cut..][k] == h[cut + k];
      Head(entries, order, h, cut, capacity, ttl, now);
    }
    if Remembered(h, capacity, ttl, key, now) {
      var i :| 0 <= i < |h| && |h| - capacity <= i && h[i].key == key && SatSub(now, h[i].at) <= ttl;
      assert h[cut..][i - cut] == h[i];
      assert order[i - cut] == key;
    }
  }

  class Cache<K(==)> {
    const capacity: nat
    const ttl: u64
    var entries: map<K, u64>
    var order: seq<K>
    ghost var history: seq<Accepted<K>>  // every acceptance, oldest first
    ghost var cut: nat                   // how many of them the cache has dropped
    ghost var clock: u64                 // time of the latest call

    ghost predicate Valid()
      reads this
    {
      && capacity >= 1
      && |order| <= capacity
      && Inv(entries, order, history, cut, capacity, ttl, clock)
    }

    constructor (capacity: nat, ttl: u64)
      ensures Valid() && fresh(this)
      ensures this.capacity == (if capacity < 1 then 1 else capacity) && this.ttl == ttl
      ensures history == [] && clock == 0
    {
      this.capacity := if capacity < 1 then 1 else capacity;
      this.ttl := ttl;
      entries, order := map[], [];
      history, cut, clock := [], 0, 0;
    }

    /** The queue's head is never missing from the map, so the loop reads it directly. */
    method Prune(now: u64)
      requires Valid() && clock <= now
      modifies this`entries, this`order, this`cut, this`clock
      ensures Valid() && clock == now
      ensures order != [] ==> order[0] in entries && SatSub(now, entries[order[0]]) <= ttl
    {
      clock := now;
      while order != []
        invariant Valid() && clock == now
        decreases |order|
      {
        Head(entries, order, history, cut, capacity, ttl, clock);
        if SatSub(now, entries[order[0]]) <= ttl {
          return;
        }
        DropHead(entries, order, history, cut, capacity, ttl, clock);
        entries, order, cut := entries - {order[0]}, order[1..], cut + 1;
      }
    }

    /** True exactly when the reference has not seen `key`; then, and only then, it is recorded. */
    method CheckAndInsert(key: K, now: u64) returns (isNew: bool)
      requires Valid() && clock <= now
      modifies this
      ensures Valid() && clock == now
      ensures isNew == !Remembered(old(history), capacity, ttl, key, now)
      ensures history == old(history) + (if isNew then [Accepted(key, now)] else [])
    {
      Prune(now);
      HeldIsRemembered(entries, order, history, cut, capacity, ttl, now, key);
      if key in entries {
        return false;
      }
      Record(entries, order, history, cut, capacity, ttl, clock, key);
      entries, order := entries[key := now], order + [key];
      history := history + [Accepted(key, now)];
      Evict();
      return true;
    }

    /** Drop the oldest entries beyond the capacity. */
    method Evict()
      requires capacity >= 1 && Inv(entries, order, history, cut, capacity, ttl, clock)
      modifies this`entries, this`order, this`cut
      ensures Valid()
    {
      Sizes(entries, order, history, cut, capacity, ttl, clock);
      while |entries| > capacity
        invariant Inv(entries, order, history, cut, capacity, ttl, clock)
        invariant |entries| == |order|
        decreases |order|
      {
        DropHead(entries, order, history, cut, capacity, ttl, clock);
        entries, order, cut := entries - {order[0]}, order[1..], cut + 1;
        Sizes(entries, order, history, cut, capacity, ttl, clock);
      }
    }
  }

  // ---- the freshness window and the cache together, over whole runs ----

  /** All in nanoseconds. */
  datatype Window = Window(age: u64, skew: u64, ttl: u64, capacity: nat)

  predicate Fresh(w: Window, stamp: u64, now: u64) {
    stamp <= SatAdd(now, w.skew) && SatSub(now, stamp) <= w.age
  }

  /** The configuration rule "ttl covers age + skew". */
  predicate Covers(w: Window) {
    SatAdd(w.age, w.skew) <= w.ttl
  }

  /** What a run keeps: acceptances are in time order, were fresh, and repeat a key only `capacity` others later. */
  ghost predicate Sound<K(!new)>(w: Window, stampOf: K -> u64, h: seq<Accepted<K>>) {
    && TimesOrdered(h)
    && (forall i :: 0 <= i < |h| ==> Fresh(w, stampOf(h[i].key), h[i].at))
    && (forall i, j :: 0 <= i < j < |h| && h[i].key == h[j].key ==> j - i > w.capacity)
  }

  /** A copy still fresh at `later` is not yet past its time to live. */
  lemma FreshTwice(w: Window, stamp: u64, first: u64, later: u64)
    requires Covers(w) && first <= later
    requires Fresh(w, stamp, first) && Fresh(w, stamp, later)
    ensures SatSub(later, first) <= w.ttl
  {}

  lemma SoundExtend<K(!new)>(w: Window, stampOf: K -> u64, h: seq<Accepted<K>>, key: K, now: u64)
    requires Covers(w) && Sound(w, stampOf, h)
    requires forall i :: 0 <= i < |h| ==> h[i].at <= now
    requires Fresh(w, stampOf(key), now) && !Remembered(h, w.capacity, w.ttl, key, now)
    ensures Sound(w, stampOf, h + [Accepted(key, now)])
  {
    forall i | 0 <= i < |h| && h[i].key == key
      ensures |h| - i > w.capacity
    {
      FreshTwice(w, stampOf(key), h[i].at, now);
    }
  }

  /** The rule is exact: whenever it fails, some copy is accepted twice with nothing in between. */
  lemma UncoveredAcceptsTwice<K>(w: Window, key: K, stamp: u64)
    requires !Covers(w) && w.capacity >= 1 && stamp == w.skew
    ensures var first, later := 0, w.ttl + 1;
            && later <= U64_MAX
            && Fresh(w, stamp, first) && !Remembered<K>([], w.capacity, w.ttl, key, first)
            && Fresh(w, stamp, later) && !Remembered([Accepted(key, first)], w.capacity, w.ttl, key, later)
  {}
}
