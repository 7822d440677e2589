/**
 Moving a peer's traffic from relayed connections to a direct one, and what the
 bookkeeping means in terms of the events alone.
 */
module DirectUpgrade {
  import opened Base
  import opened BoundedSets

  type ConnectionId = nat

  datatype Event =
    | RelayedEstablished(peer: PeerId, conn: ConnectionId)
    | DirectEstablished(peer: PeerId, conn: ConnectionId)
    | Confirm(peer: PeerId, conn: ConnectionId)       // the remote's Identify arrived over it
    | Closed(peer: PeerId, conn: ConnectionId)

  datatype State = State(relayed: map<PeerId, seq<ConnectionId>>, pendingDirect: map<PeerId, ConnectionId>)

  function RelayedOf(s: State, p: PeerId): seq<ConnectionId> { if p in s.relayed then s.relayed[p] else [] }

  /** The state after one event and, when it retires the relayed path, the connections released. */
  function Step(s: State, e: Event): (State, Option<seq<ConnectionId>>) {
    match e
    case RelayedEstablished(p, c) =>
      var conns := RelayedOf(s, p);
      (s.(relayed := s.relayed[p := if c in conns then conns else conns + [c]]), None)
    case DirectEstablished(p, c) => (s.(pendingDirect := s.pendingDirect[p := c]), None)
    case Confirm(p, c) =>
      if p in s.pendingDirect && s.pendingDirect[p] == c
      then (State(s.relayed - {p}, s.pendingDirect - {p}), Some(RelayedOf(s, p)))
      else (s, None)
    case Closed(p, c) =>
      var rest := Without(RelayedOf(s, p), c);
      (State(if p !in s.relayed then s.relayed else if rest == [] then s.relayed - {p} else s.relayed[p := rest],
             if p in s.pendingDirect && s.pendingDirect[p] == c then s.pendingDirect - {p} else s.pendingDirect), None)
  }

  ghost function After(t: seq<Event>): State {
    if t == [] then State(map[], map[]) else Step(After(t[..|t| - 1]), t[|t| - 1]).0
  }

  /** What event `k` of a run releases. */
  ghost function Released(t: seq<Event>, k: nat): Option<seq<ConnectionId>>
    requires k < |t|
  {
    Step(After(t[..k]), t[k]).1
  }

  // ---- the same, said about events only ----

  predicate ClearsDirect(e: Event, p: PeerId, c: ConnectionId) {
    (e.DirectEstablished? && e.peer == p) || e == Closed(p, c) || e == Confirm(p, c)
  }

  /** `c` is the direct connection most recently established for `p`, not closed or confirmed since. */
  ghost predicate PendingAt(t: seq<Event>, p: PeerId, c: ConnectionId) {
    exists i :: 0 <= i < |t| && t[i] == DirectEstablished(p, c) && forall j :: i < j < |t| ==> !ClearsDirect(t[j], p, c)
  }

  /** Event `j` moves the traffic of `p` to a direct connection. */
  ghost predicate Migrates(t: seq<Event>, j: nat, p: PeerId)
    requires j < |t|
  {
    t[j].Confirm? && t[j].peer == p && PendingAt(t[..j], p, t[j].conn)
  }

  /** `c` was established as a relayed connection of `p` and has neither closed nor been released since. */
  ghost predicate OpenRelayed(t: seq<Event>, p: PeerId, c: ConnectionId) {
    exists i :: 0 <= i < |t| && t[i] == RelayedEstablished(p, c) && StaysOpen(t, i, p, c)
  }

  ghost predicate StaysOpen(t: seq<Event>, i: nat, p: PeerId, c: ConnectionId) {
    forall j :: i < j < |t| ==> t[j] != Closed(p, c) && !Migrates(t, j, p)
  }

  lemma PendingStep(t: seq<Event>, e: Event, p: PeerId, c: ConnectionId)
    ensures PendingAt(t + [e], p, c) <==> e == DirectEstablished(p, c) || (PendingAt(t, p, c) && !ClearsDirect(e, p, c))
  {
    var u := t + [e];
    assert u[|t|] == e;
    if PendingAt(u, p, c) && e != DirectEstablished(p, c) {
      var i :| 0 <= i < |u| && u[i] == DirectEstablished(p, c) && forall j :: i < j < |u| ==> !ClearsDirect(u[j], p, c);
      assert t[i] == u[i] && forall j :: i < j < |t| ==> t[j] == u[j];
    }
    if PendingAt(t, p, c) && !ClearsDirect(e, p, c) {
      var i :| 0 <= i < |t| && t[i] == DirectEstablished(p, c) && forall j :: i < j < |t| ==> !ClearsDirect(t[j], p, c);
      assert u[i] == t[i] && forall j :: i < j < |t| ==> u[j] == t[j];
    }
  }

  lemma MigratesLonger(t: seq<Event>, e: Event, p: PeerId)
    ensures forall j :: 0 <= j < |t| ==> Migrates(t + [e], j, p) == Migrates(t, j, p)
    ensures Migrates(t + [e], |t|, p) <==> e.Confirm? && e.peer == p && PendingAt(t, p, e.conn)
  {
    var u := t + [e];
    forall j | 0 <= j <= |t| ensures u[..j] == t[..j] {}
    assert t[..|t|] == t;
  }

  lemma StaysOpenStep(t: seq<Event>, e: Event, i: nat, p: PeerId, c: ConnectionId)
    requires i < |t|
    ensures StaysOpen(t + [e], i, p, c) <==>
              StaysOpen(t, i, p, c) && e != Closed(p, c) && !Migrates(t + [e], |t|, p)
  {
    MigratesLonger(t, e, p);
    hide Migrates;
    var u := t + [e];
    assert u[|t|] == e;
    assert forall j :: i < j < |t| ==> u[j] == t[j];
  }

  lemma OpenStep(t: seq<Event>, e: Event, p: PeerId, c: ConnectionId)
    ensures OpenRelayed(t + [e], p, c) <==>
              e == RelayedEstablished(p, c) || (OpenRelayed(t, p, c) && e != Closed(p, c) && !Migrates(t + [e], |t|, p))
  {
    hide StaysOpen, Migrates;
    var u := t + [e];
    assert u[|t|] == e;
    if e == RelayedEstablished(p, c) { StaysOpenLast(u, p, c); }
    if OpenRelayed(u, p, c) && e != RelayedEstablished(p, c) {
      var i :| 0 <= i < |u| && u[i] == RelayedEstablished(p, c) && StaysOpen(u, i, p, c);
      assert t[i] == u[i];
      StaysOpenStep(t, e, i, p, c);
    }
    if OpenRelayed(t, p, c) && e != Closed(p, c) && !Migrates(u, |t|, p) {
      var i :| 0 <= i < |t| && t[i] == RelayedEstablished(p, c) && StaysOpen(t, i, p, c);
      assert u[i] == t[i];
      StaysOpenStep(t, e, i, p, c);
    }
  }

  lemma StaysOpenLast(u: seq<Event>, p: PeerId, c: ConnectionId)
    requires u != []
    ensures StaysOpen(u, |u| - 1, p, c)
  {}

  /** The state says exactly what the events say. */
  ghost predicate Describes(s: State, t: seq<Event>) {
    && (forall p, c :: (p in s.pendingDirect && s.pendingDirect[p] == c) <==> PendingAt(t, p, c))
    && (forall p, c :: c in RelayedOf(s, p) <==> OpenRelayed(t, p, c))
    && (forall p :: p in s.relayed ==> s.relayed[p] != [] && NoDup(s.relayed[p]))
  }

  lemma DescribesPending(s: State, t: seq<Event>, e: Event, p: PeerId, c: ConnectionId)
    requires Describes(s, t)
    ensures var v := Step(s, e).0;
            (p in v.pendingDirect && v.pendingDirect[p] == c) <==> PendingAt(t + [e], p, c)
  {
    hide PendingAt, OpenRelayed, Without;
    PendingStep(t, e, p, c);
  }

  lemma DescribesRelayed(s: State, t: seq<Event>, e: Event, p: PeerId, c: ConnectionId)
    requires Describes(s, t)
    ensures c in RelayedOf(Step(s, e).0, p) <==> OpenRelayed(t + [e], p, c)
  {
    hide PendingAt, OpenRelayed, Migrates, Without;
    OpenStep(t, e, p, c);
    MigratesLonger(t, e, p);
    assert OpenRelayed(t, p, c) <==> c in RelayedOf(s, p);
    assert e.Confirm? ==> (PendingAt(t, e.peer, e.conn) <==>
        e.peer in s.pendingDirect && s.pendingDirect[e.peer] == e.conn);
    var conns := RelayedOf(s, e.peer);
    WithoutElems(conns, e.conn);
    assert c in Without(conns, e.conn) <==> c in Elems(Without(conns, e.conn));
  }

  lemma DescribesStep(s: State, t: seq<Event>, e: Event)
    requires Describes(s, t)
    ensures Describes(Step(s, e).0, t + [e])
  {
    forall p, c ensures (p in Step(s, e).0.pendingDirect && Step(s, e).0.pendingDirect[p] == c) <==>
        PendingAt(t + [e], p, c) {
      DescribesPending(s, t, e, p, c);
    }
    forall p, c ensures c in RelayedOf(Step(s, e).0, p) <==> OpenRelayed(t + [e], p, c) {
      DescribesRelayed(s, t, e, p, c);
    }
    StepTidy(s, e);
  }

  lemma StepTidy(s: State, e: Event)
    requires forall p :: p in s.relayed ==> s.relayed[p] != [] && NoDup(s.relayed[p])
    ensures forall p :: p in Step(s, e).0.relayed ==> Step(s, e).0.relayed[p] != [] && NoDup(Step(s, e).0.relayed[p])
  {
    WithoutElems(RelayedOf(s, e.peer), e.conn);
  }

  lemma {:induction false} StateDescribesEvents(t: seq<Event>)
    ensures Describes(After(t), t)
  {
    if t != [] {
      StateDescribesEvents(t[..|t| - 1]);
      DescribesStep(After(t[..|t| - 1]), t[..|t| - 1], t[|t| - 1]);
      assert t == t[..|t| - 1] + [t[|t| - 1]];
    }
  }

  /**
   Relayed connections are released by, and only by, confirming the pending direct
   connection, and what is released is exactly the peer's relayed connections still
   open and not released before.
   */
  lemma ReleasesExactlyOpen(t: seq<Event>, k: nat)
    requires k < |t|
    ensures Released(t, k).Some? <==> t[k].Confirm? && PendingAt(t[..k], t[k].peer, t[k].conn)
    ensures Released(t, k).Some? ==>
              && NoDup(Released(t, k).value)
              && forall c :: c in Released(t, k).value <==> OpenRelayed(t[..k], t[k].peer, c)
  {
    StateDescribesEvents(t[..k]);
  }

  /** A connection established once, for whichever peer, is released at most once, to whichever peer. */
  lemma NoneReleasedTwice(t: seq<Event>, k: nat, l: nat, c: ConnectionId)
    requires k < l < |t|
    requires forall i, j :: 0 <= i < j < |t| && Establishes(t[i], c) ==> !Establishes(t[j], c)
    requires Released(t, k).Some? && c in Released(t, k).value
    ensures Released(t, l).Some? ==> c !in Released(t, l).value
  {
    ReleasesExactlyOpen(t, k);
    ReleasesExactlyOpen(t, l);
    var p, q := t[k].peer, t[l].peer;
    assert t[..l][k] == t[k] && t[..l][..k] == t[..k];
    assert Migrates(t[..l], k, p);
    var i :| 0 <= i < k && t[..k][i] == RelayedEstablished(p, c);
    assert Establishes(t[i], c);
    forall j | 0 <= j < l && t[..l][j] == RelayedEstablished(q, c)
      ensures !StaysOpen(t[..l], j, q, c)
    {
      assert Establishes(t[j], c);
      assert j == i && p == q;
    }
  }

  predicate Establishes(e: Event, c: ConnectionId) { e.RelayedEstablished? && e.conn == c }

  class DirectUpgradeState {
    var relayed: map<PeerId, seq<ConnectionId>>
    var pendingDirect: map<PeerId, ConnectionId>

    ghost function Now(): State
      reads this
    {
      State(relayed, pendingDirect)
    }

    constructor ()
      ensures Now() == After([])
    {
      relayed, pendingDirect := map[], map[];
    }

    method RelayedEstablished(peer: PeerId, connection: ConnectionId)
      modifies this
      ensures Now() == Step(old(Now()), Event.RelayedEstablished(peer, connection)).0
    {
      var connections := if peer in relayed then relayed[peer] else [];
      if connection !in connections { connections := connections + [connection]; }
      relayed := relayed[peer := connections];
    }

    method DirectEstablished(peer: PeerId, connection: ConnectionId)
      modifies this
      ensures Now() == Step(old(Now()), Event.DirectEstablished(peer, connection)).0
    {
      pendingDirect := pendingDirect[peer := connection];
    }

    method ConfirmDirect(peer: PeerId, connection: ConnectionId) returns (r: Option<seq<ConnectionId>>)
      modifies this
      ensures (Now(), r) == Step(old(Now()), Confirm(peer, connection))
    {
      if peer !in pendingDirect || pendingDirect[peer] != connection { return None; }
      pendingDirect := pendingDirect - {peer};
      r := Some(if peer in relayed then relayed[peer] else []);
      relayed := relayed - {peer};
    }

    method ConnectionClosed(peer: PeerId, connection: ConnectionId)
      modifies this
      ensures Now() == Step(old(Now()), Closed(peer, connection)).0
    {
      if peer in pendingDirect && pendingDirect[peer] == connection { pendingDirect := pendingDirect - {peer}; }
      if peer in relayed {
        var connections := Without(relayed[peer], connection);
        relayed := if connections == [] then relayed - {peer} else relayed[peer := connections];
      }
    }
  }
}
