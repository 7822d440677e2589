/**
 Look-ups for providers: one query at a time for each key, starts a cooldown apart, and what
 evicting the provider does to both. The key is the peer, or the peer with a namespace.
 */
module ProviderLookups {
  import opened Base

  type QueryId = nat

  /** When each look-up was started last, and the queries in flight as far as they are tracked. */
  datatype Table<K> = Table(started: map<K, nat>, queries: map<QueryId, K>)

  function Elapsed(now: nat, then_: nat): nat { if now < then_ then 0 else now - then_ }

  predicate Due<K(==)>(t: Table<K>, key: K, cooldown: nat, now: nat) {
    && (forall id :: id in t.queries ==> t.queries[id] != key)
    && (key in t.started ==> Elapsed(now, t.started[key]) >= cooldown)
  }

  /**
   `Asked` is one look-up wanted: the gate reads the clock at `now`, and starting it stamps the
   key. The identifiers of queries come from the DHT.
   */
  datatype Event<K> =
    | Asked(id: QueryId, key: K, now: nat, stamped: nat)
    | Completed(id: QueryId)
    | Evicted(peer: PeerId)

  function Track<K>(t: Table<K>, id: QueryId, key: K, stamped: nat): Table<K> {
    Table(t.started[key := stamped], t.queries[id := key])
  }

  function Forget<K>(t: Table<K>, owner: K -> PeerId, p: PeerId): Table<K> {
    Table(map k | k in t.started && owner(k) != p :: t.started[k],
          map id | id in t.queries && owner(t.queries[id]) != p :: t.queries[id])
  }

  function Step<K(==)>(t: Table<K>, e: Event<K>, owner: K -> PeerId, cooldown: nat): Table<K> {
    match e
    case Asked(id, key, now, stamped) => if Due(t, key, cooldown, now) then Track(t, id, key, stamped) else t
    case Completed(id) => t.(queries := t.queries - {id})
    case Evicted(p) => Forget(t, owner, p)
  }

  function LookedUp<K(==)>(events: seq<Event<K>>, owner: K -> PeerId, cooldown: nat): Table<K> {
    if events == [] then Table(map[], map[])
    else Step(LookedUp(events[..|events| - 1], owner, cooldown), events[|events| - 1], owner, cooldown)
  }

  lemma LookedUpPush<K>(events: seq<Event<K>>, e: Event<K>, owner: K -> PeerId, cooldown: nat)
    ensures LookedUp(events + [e], owner, cooldown) == Step(LookedUp(events, owner, cooldown), e, owner, cooldown)
    ensures e.Asked? ==> (Starts(events + [e], owner, cooldown, |events|) <==>
                          Due(LookedUp(events, owner, cooldown), e.key, cooldown, e.now))
  {
    assert (events + [e])[..|events|] == events;
  }

  /** Event `i` starts a look-up. */
  predicate Starts<K(==)>(events: seq<Event<K>>, owner: K -> PeerId, cooldown: nat, i: nat)
    requires i < |events|
  {
    events[i].Asked? && Due(LookedUp(events[..i], owner, cooldown), events[i].key, cooldown, events[i].now)
  }

  /** Query identifiers are never reused, and the clock does not go back between gate and stamp. */
  ghost predicate WellFormed<K>(events: seq<Event<K>>) {
    && (forall i, j :: 0 <= i < j < |events| && events[i].Asked? && events[j].Asked? ==> events[i].id != events[j].id)
    && (forall i :: 0 <= i < |events| && events[i].Asked? ==> events[i].now <= events[i].stamped)
  }

  ghost predicate OnePerKey<K>(t: Table<K>) {
    forall a, b :: a in t.queries && b in t.queries && t.queries[a] == t.queries[b] ==> a == b
  }

  /** In every run no key has two tracked look-ups in flight. */
  lemma {:induction false} OneInFlight<K>(events: seq<Event<K>>, owner: K -> PeerId, cooldown: nat)
    ensures OnePerKey(LookedUp(events, owner, cooldown))
  {
    if events != [] { OneInFlight(events[..|events| - 1], owner, cooldown); }
  }

  /** What the table still knows of the look-up event `i` started, while its provider is not evicted. */
  ghost predicate Remembers<K>(t: Table<K>, events: seq<Event<K>>, i: nat)
    requires i < |events| && events[i].Asked?
  {
    var e := events[i];
    && e.key in t.started && t.started[e.key] >= e.stamped
    && (Completed(e.id) in events[i + 1..] || (e.id in t.queries && t.queries[e.id] == e.key))
  }

  lemma RemembersStep<K>(t: Table<K>, events: seq<Event<K>>, i: nat, e: Event<K>, owner: K -> PeerId, cooldown: nat)
    requires i < |events| && events[i].Asked? && Remembers(t, events, i) && WellFormed(events + [e])
    requires e != Evicted(owner(events[i].key)) && cooldown > 0
    ensures Remembers(Step(t, e, owner, cooldown), events + [e], i)
  {
    var longer := events + [e];
    assert longer[i] == events[i] && longer[|events|] == e && longer[i + 1..] == events[i + 1..] + [e];
  }

  lemma {:induction false} StillRemembered<K>(events: seq<Event<K>>, owner: K -> PeerId, cooldown: nat, i: nat)
    requires WellFormed(events) && i < |events| && Starts(events, owner, cooldown, i)
    requires Evicted(owner(events[i].key)) !in events[i + 1..] && cooldown > 0
    ensures Remembers(LookedUp(events, owner, cooldown), events, i)
    decreases |events|
  {
    var front, e := events[..|events| - 1], events[|events| - 1];
    assert events == front + [e];
    if i < |front| {
      assert front[..i] == events[..i] && front[i] == events[i];
      assert events[i + 1..] == front[i + 1..] + [e];
      WellFormedFront(front, e);
      StillRemembered(front, owner, cooldown, i);
      RemembersStep(LookedUp(front, owner, cooldown), front, i, e, owner, cooldown);
    }
  }

  lemma WellFormedFront<K>(front: seq<Event<K>>, e: Event<K>)
    requires WellFormed(front + [e])
    ensures WellFormed(front)
  {
    assert forall i :: 0 <= i < |front| ==> (front + [e])[i] == front[i];
  }

  /**
   Two look-ups for one key, with the provider not evicted in between: the first was completed
   before the second started, and at least the cooldown has passed since.
   */
  lemma StartsApart<K>(events: seq<Event<K>>, owner: K -> PeerId, cooldown: nat, i: nat, j: nat)
    requires WellFormed(events) && i < j < |events|
    requires Starts(events, owner, cooldown, i) && Starts(events, owner, cooldown, j) && events[i].key == events[j].key
    requires Evicted(owner(events[i].key)) !in events[i + 1..j] && cooldown > 0
    ensures Completed(events[i].id) in events[i + 1..j] && events[j].now >= events[i].stamped + cooldown
  {
    var front := events[..j];
    assert front[..i] == events[..i] && front[i] == events[i] && front[i + 1..] == events[i + 1..j];
    assert WellFormed(front);
    StillRemembered(front, owner, cooldown, i);
  }

  // ---- exactly when a look-up starts ----

  /** Event `i` started a look-up for `key`, and the provider was not evicted since. */
  ghost predicate StartedFor<K>(events: seq<Event<K>>, owner: K -> PeerId, cooldown: nat, i: nat, key: K) {
    && i < |events| && Starts(events, owner, cooldown, i) && events[i].Asked? && events[i].key == key
    && Evicted(owner(key)) !in events[i + 1..]
  }

  ghost predicate StampSourced<K>(t: Table<K>, events: seq<Event<K>>, owner: K -> PeerId, cooldown: nat, key: K)
    requires key in t.started
  {
    exists i: nat :: StartedFor(events, owner, cooldown, i, key) && events[i].stamped == t.started[key]
  }

  ghost predicate QuerySourced<K>(t: Table<K>, events: seq<Event<K>>, owner: K -> PeerId, cooldown: nat, id: QueryId)
    requires id in t.queries
  {
    exists i: nat :: && StartedFor(events, owner, cooldown, i, t.queries[id]) && events[i].id == id
                     && Completed(id) !in events[i + 1..]
  }

  /** All the table knows comes from look-ups started. */
  ghost predicate Sourced<K(!new)>(t: Table<K>, events: seq<Event<K>>, owner: K -> PeerId, cooldown: nat) {
    && (forall key :: key in t.started ==> StampSourced(t, events, owner, cooldown, key))
    && (forall id :: id in t.queries ==> QuerySourced(t, events, owner, cooldown, id))
  }

  lemma StartedLonger<K>(events: seq<Event<K>>, e: Event<K>, owner: K -> PeerId, cooldown: nat, i: nat, key: K)
    requires StartedFor(events, owner, cooldown, i, key) && e != Evicted(owner(key))
    ensures StartedFor(events + [e], owner, cooldown, i, key)
    ensures (events + [e])[i] == events[i] && (events + [e])[i + 1..] == events[i + 1..] + [e]
  {
    assert (events + [e])[i + 1..] == events[i + 1..] + [e] && (events + [e])[..i] == events[..i];
  }

  lemma StampStep<K>(t: Table<K>, events: seq<Event<K>>, e: Event<K>, owner: K -> PeerId, cooldown: nat, key: K)
    requires t == LookedUp(events, owner, cooldown) && key in Step(t, e, owner, cooldown).started
    requires key in t.started ==> StampSourced(t, events, owner, cooldown, key)
    ensures StampSourced(Step(t, e, owner, cooldown), events + [e], owner, cooldown, key)
  {
    hide Starts, LookedUp, Due;
    LookedUpPush(events, e, owner, cooldown);
    var next, longer := Step(t, e, owner, cooldown), events + [e];
    if e.Asked? && e.key == key && Due(t, key, cooldown, e.now) {
      assert longer[|events|] == e && StartedFor(longer, owner, cooldown, |events|, key);
    } else {
      var i: nat :| StartedFor(events, owner, cooldown, i, key) && events[i].stamped == t.started[key];
      StartedLonger(events, e, owner, cooldown, i, key);
      assert next.started[key] == t.started[key];
    }
  }

  lemma QueryStep<K>(t: Table<K>, events: seq<Event<K>>, e: Event<K>, owner: K -> PeerId, cooldown: nat, id: QueryId)
    requires t == LookedUp(events, owner, cooldown) && id in Step(t, e, owner, cooldown).queries
    requires id in t.queries ==> QuerySourced(t, events, owner, cooldown, id)
    ensures QuerySourced(Step(t, e, owner, cooldown), events + [e], owner, cooldown, id)
  {
    hide Starts, LookedUp, Due;
    LookedUpPush(events, e, owner, cooldown);
    var next, longer := Step(t, e, owner, cooldown), events + [e];
    if e.Asked? && e.id == id && Due(t, e.key, cooldown, e.now) {
      assert longer[|events|] == e && StartedFor(longer, owner, cooldown, |events|, e.key);
    } else {
      var key := t.queries[id];
      var i: nat :| StartedFor(events, owner, cooldown, i, key) && events[i].id == id
                    && Completed(id) !in events[i + 1..];
      assert next.queries[id] == key;
      StartedLonger(events, e, owner, cooldown, i, key);
    }
  }

  lemma {:induction false} AllSourced<K(!new)>(events: seq<Event<K>>, owner: K -> PeerId, cooldown: nat)
    ensures Sourced(LookedUp(events, owner, cooldown), events, owner, cooldown)
  {
    hide StampSourced, QuerySourced;
    if events != [] {
      var front, e := events[..|events| - 1], events[|events| - 1];
      assert events == front + [e];
      AllSourced(front, owner, cooldown);
      var t := LookedUp(front, owner, cooldown);
      var next := LookedUp(events, owner, cooldown);
      hide Step;
      forall key | key in next.started ensures StampSourced(next, events, owner, cooldown, key) {
        StampStep(t, front, e, owner, cooldown, key);
      }
      forall id | id in next.queries ensures QuerySourced(next, events, owner, cooldown, id) {
        QueryStep(t, front, e, owner, cooldown, id);
      }
    }
  }

  /** The earlier look-up is done: completed, and its cooldown over. */
  ghost predicate DoneBefore<K>(events: seq<Event<K>>, cooldown: nat, i: nat, j: nat)
    requires i < j < |events| && events[i].Asked? && events[j].Asked?
  {
    Completed(events[i].id) in events[i + 1..j] && events[i].stamped + cooldown <= events[j].now
  }

  /**
   A look-up wanted starts exactly when every earlier one of its key, started since the provider
   was last evicted, is completed and a cooldown ago.
   */
  lemma StartsExactly<K(!new)>(events: seq<Event<K>>, owner: K -> PeerId, cooldown: nat, j: nat)
    requires WellFormed(events) && j < |events| && events[j].Asked? && cooldown > 0
    ensures Starts(events, owner, cooldown, j) <==>
              forall i: nat :: i < j && StartedFor(events[..j], owner, cooldown, i, events[j].key) ==>
                DoneBefore(events, cooldown, i, j)
  {
    var front, key := events[..j], events[j].key;
    forall i: nat | i < j && StartedFor(front, owner, cooldown, i, key)
      ensures Starts(events, owner, cooldown, j) ==> DoneBefore(events, cooldown, i, j)
    {
      assert front[..i] == events[..i] && front[i + 1..] == events[i + 1..j];
      if Starts(events, owner, cooldown, j) { StartsApart(events, owner, cooldown, i, j); }
    }
    if !Starts(events, owner, cooldown, j) { var _ := StillOpen(events, owner, cooldown, j); }
  }

  lemma StillOpen<K(!new)>(events: seq<Event<K>>, owner: K -> PeerId, cooldown: nat, j: nat) returns (i: nat)
    requires j < |events| && events[j].Asked? && !Starts(events, owner, cooldown, j)
    ensures i < j && StartedFor(events[..j], owner, cooldown, i, events[j].key) && !DoneBefore(events, cooldown, i, j)
  {
    var front, key := events[..j], events[j].key;
    var t := LookedUp(front, owner, cooldown);
    assert !Due(t, key, cooldown, events[j].now);
    hide LookedUp, Starts;
    AllSourced(front, owner, cooldown);
    if id :| id in t.queries && t.queries[id] == key {
      assert QuerySourced(t, front, owner, cooldown, id);
      i :| StartedFor(front, owner, cooldown, i, key) && front[i].id == id && Completed(id) !in front[i + 1..];
    } else {
      assert StampSourced(t, front, owner, cooldown, key);
      i :| StartedFor(front, owner, cooldown, i, key) && front[i].stamped == t.started[key];
    }
    assert front[i + 1..] == events[i + 1..j];
  }

  /** Evicting the provider forgets both: a second look-up may start at once, beside the first. */
  lemma EvictionReopens<K>(owner: K -> PeerId, cooldown: nat, key: K, now: nat)
    ensures var events := [Asked(0, key, now, now), Evicted(owner(key)), Asked(1, key, now, now)];
            && WellFormed(events) && Starts(events, owner, cooldown, 0) && Starts(events, owner, cooldown, 2)
            && Completed(0) !in events
  {
    var a, b, c := Asked(0, key, now, now), Evicted(owner(key)), Asked(1, key, now, now);
    var events := [a, b, c];
    assert events[..0] == [] && events[..2] == [a, b] && [a, b][..1] == [a] && [a][..0] == [];
    var nothing: Table<K> := Table(map[], map[]);
    assert LookedUp([], owner, cooldown) == nothing && Due(nothing, key, cooldown, now);
    var t := LookedUp([a], owner, cooldown);
    assert t == Step(nothing, a, owner, cooldown);
    assert t == Track(Table(map[], map[]), 0, key, now);
    assert LookedUp([a, b], owner, cooldown) == Forget(t, owner, owner(key));
    assert Forget(t, owner, owner(key)) == Table(map[], map[]);
  }
}
