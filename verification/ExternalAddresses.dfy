/**
 External addresses: confirmed addresses are remembered in a bounded set, and a
 queue of actions tells the swarm about every change of it.
 */
module ExternalAddresses {
  import opened Base
  import opened BoundedSets

  const MAX_CACHE: nat := 32

  type Multiaddr = string

  datatype Action = Candidate(addr: Multiaddr) | Confirm(addr: Multiaddr) | Expire(addr: Multiaddr)

  // ---- what the swarm knows after acting on a stream of actions ----

  function Act(confirmed: set<Multiaddr>, action: Action): set<Multiaddr> {
    match action
    case Candidate(_) => confirmed
    case Confirm(a) => confirmed + {a}
    case Expire(a) => confirmed - {a}
  }

  function Replay(actions: seq<Action>): set<Multiaddr> {
    if actions == [] then {} else Act(Replay(actions[..|actions| - 1]), actions[|actions| - 1])
  }

  /** No Confirm repeats an address, every Expire hits a confirmed one, and never are more than 32 confirmed. */
  ghost predicate Faithful(actions: seq<Action>) {
    && (forall k :: 0 <= k < |actions| && actions[k].Confirm? ==> actions[k].addr !in Replay(actions[..k]))
    && (forall k :: 0 <= k < |actions| && actions[k].Expire? ==> actions[k].addr in Replay(actions[..k]))
    && (forall k :: 0 <= k <= |actions| ==> |Replay(actions[..k])| <= MAX_CACHE)
  }

  ghost predicate CanFollow(actions: seq<Action>, next: Action) {
    match next
    case Candidate(_) => true
    case Confirm(a) => a !in Replay(actions) && |Replay(actions)| < MAX_CACHE
    case Expire(a) => a in Replay(actions)
  }

  lemma ReplayPush(actions: seq<Action>, next: Action)
    ensures Replay(actions + [next]) == Act(Replay(actions), next)
  {
    assert (actions + [next])[..|actions|] == actions;
  }

  lemma FaithfulPush(actions: seq<Action>, next: Action)
    requires Faithful(actions) && CanFollow(actions, next)
    ensures Faithful(actions + [next])
  {
    hide Replay;
    var longer := actions + [next];
    ReplayPush(actions, next);
    assert actions[..|actions|] == actions && longer[..|longer|] == longer;
    forall k | 0 <= k <= |actions| ensures longer[..k] == actions[..k] {}
    if !next.Candidate? { SetSizes(Replay(actions), next.addr); }
  }

  // ---- the behaviour ----

  /** Add an address to a bounded set; returns the one it pushed out, or itself, or nothing if it was there. */
  method RememberBounded(seen: set<Multiaddr>, order: seq<Multiaddr>, addr: Multiaddr, max: nat)
    returns (after: set<Multiaddr>, queue: seq<Multiaddr>, out: Option<Multiaddr>)
    requires Listing(order, seen) && |order| <= max && max >= 1
    ensures Listing(queue, after) && |queue| <= max
    ensures addr in seen ==> out == None && after == seen && queue == order
    ensures addr !in seen && |seen| < max ==> out == Some(addr) && after == seen + {addr}
    ensures addr !in seen && |seen| == max ==>
        out == Some(order[0]) && order[0] in seen && after == seen + {addr} - {order[0]}
  {
    if addr in seen { return seen, order, None; }
    ListingSize(order, seen);
    ListingPush(order, seen, addr);
    after, queue := seen + {addr}, order + [addr];
    ListingSize(queue, after);
    out := Some(addr);
    if |after| > max {
      ListingPop(queue, after);
      out := Some(queue[0]);
      after, queue := after - {queue[0]}, queue[1..];
    }
  }

  /** What confirming an address tells the swarm. */
  function Announcement(confirmed: set<Multiaddr>, order: seq<Multiaddr>, addr: Multiaddr): seq<Action> {
    if addr in confirmed then []
    else if |confirmed| == MAX_CACHE && order != [] then [Expire(order[0]), Confirm(addr)]
    else [Confirm(addr)]
  }

  /** What one more address pushes out of a bounded set: nothing, or the one remembered longest. */
  function Crowded(seen: set<Multiaddr>, order: seq<Multiaddr>): set<Multiaddr> {
    if |seen| == MAX_CACHE && order != [] then {order[0]} else {}
  }

  class ExternalAddressCandidates {
    const usable: Multiaddr -> bool      // platform rule for hole-punching candidates
    var pending: seq<Action>
    var candidateSeen: set<Multiaddr>
    var candidateOrder: seq<Multiaddr>
    var confirmedSeen: set<Multiaddr>
    var confirmedOrder: seq<Multiaddr>
    ghost var polled: seq<Action>        // every action already handed to the swarm

    /** Acting on everything polled and then everything queued yields exactly the confirmed set. */
    ghost predicate Valid()
      reads this
    {
      && Listing(candidateOrder, candidateSeen) && |candidateOrder| <= MAX_CACHE
      && Listing(confirmedOrder, confirmedSeen) && |confirmedOrder| <= MAX_CACHE
      && Faithful(polled + pending) && Replay(polled + pending) == confirmedSeen
    }

    constructor (usable: Multiaddr -> bool)
      ensures Valid() && this.usable == usable && polled == pending == [] && confirmedSeen == candidateSeen == {}
    {
      this.usable := usable;
      pending, polled := [], [];
      candidateSeen, candidateOrder, confirmedSeen, confirmedOrder := {}, [], {}, [];
    }

    /** Queue one more action that may follow all those before it. */
    method Enqueue(action: Action)
      requires Faithful(polled + pending) && CanFollow(polled + pending, action)
      modifies this`pending
      ensures pending == old(pending) + [action] && Faithful(polled + pending)
      ensures Replay(polled + pending) == Act(Replay(polled + old(pending)), action)
    {
      hide Faithful, CanFollow, Replay, Act;
      FaithfulPush(polled + pending, action);
      ReplayPush(polled + pending, action);
      assert polled + (pending + [action]) == polled + pending + [action];
      pending := pending + [action];
    }

    method AddCandidate(addr: Multiaddr)
      requires Valid()
      modifies this`pending, this`candidateSeen, this`candidateOrder
      ensures Valid()
      ensures usable(addr) ==> addr in candidateSeen
      ensures !usable(addr) || addr in old(candidateSeen) ==>
                candidateSeen == old(candidateSeen) && candidateOrder == old(candidateOrder)
      ensures usable(addr) && addr !in old(candidateSeen) ==>
                candidateSeen == old(candidateSeen) + {addr} - Crowded(old(candidateSeen), old(candidateOrder))
      ensures pending == old(pending) + if usable(addr) && addr !in old(candidateSeen) then [Candidate(addr)] else []
    {
      hide Listing, Faithful, Replay;
      if !usable(addr) { return; }
      var out;
      candidateSeen, candidateOrder, out := RememberBounded(candidateSeen, candidateOrder, addr, MAX_CACHE);
      ListingSize(old(candidateOrder), old(candidateSeen));
      if out.Some? { Enqueue(Candidate(addr)); }
    }

    method AddConfirmed(addr: Multiaddr)
      requires Valid()
      modifies this`pending, this`candidateSeen, this`candidateOrder, this`confirmedSeen, this`confirmedOrder
      ensures Valid() && addr in confirmedSeen
      ensures pending == old(pending) + (if usable(addr) && addr !in old(candidateSeen) then [Candidate(addr)] else [])
                         + Announcement(old(confirmedSeen), old(confirmedOrder), addr)
    {
      hide Faithful, Listing, Replay;
      AddCandidate(addr);
      NoteConfirmed(addr);
    }

    /** A new address is confirmed last; one pushed out of the set is expired first. */
    method NoteConfirmed(addr: Multiaddr)
      requires Valid()
      modifies this`pending, this`confirmedSeen, this`confirmedOrder
      ensures Valid() && addr in confirmedSeen
      ensures pending == old(pending) + Announcement(old(confirmedSeen), old(confirmedOrder), addr)
    {
      hide Listing, Faithful, Replay;
      ListingSize(confirmedOrder, confirmedSeen);
      var out;
      confirmedSeen, confirmedOrder, out := RememberBounded(confirmedSeen, confirmedOrder, addr, MAX_CACHE);
      if out.Some? {
        if out.value != addr {
          EnqueueSwap(out.value, addr);
        } else {
          Enqueue(Confirm(addr));
        }
      }
    }

    /** Expire one confirmed address to make room for a new one. */
    method EnqueueSwap(evicted: Multiaddr, addr: Multiaddr)
      requires Faithful(polled + pending) && evicted in Replay(polled + pending)
      requires addr !in Replay(polled + pending) && |Replay(polled + pending)| <= MAX_CACHE
      modifies this`pending
      ensures pending == old(pending) + [Expire(evicted), Confirm(addr)] && Faithful(polled + pending)
      ensures Replay(polled + pending) == Replay(polled + old(pending)) - {evicted} + {addr}
    {
      hide Faithful, Replay;
      SetSizes(Replay(polled + pending), evicted);
      Enqueue(Expire(evicted));
      Enqueue(Confirm(addr));
    }

    method Poll() returns (action: Option<Action>)
      requires Valid()
      modifies this`pending, this`polled
      ensures Valid()
      ensures old(pending) == [] ==> action == None && pending == [] && polled == old(polled)
      ensures old(pending) != [] ==>
          action == Some(old(pending)[0]) && pending == old(pending)[1..] && polled == old(polled) + [old(pending)[0]]
    {
      hide Listing, Faithful, Replay;
      if pending == [] { return None; }
      action := Some(pending[0]);
      assert polled + [pending[0]] + pending[1..] == polled + pending;
      polled := polled + [pending[0]];
      pending := pending[1..];
    }
  }
}
