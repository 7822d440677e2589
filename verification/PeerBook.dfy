/** The peer book: records by peer, and the three indexes kept beside them instead of scanning. */
module PeerBook {
  import opened Base

  const MAX_ADDRS_PER_PEER: nat := 64

  /** An address by its place in text order. */
  type Address = nat

  datatype PeerSource = Connected | Bootstrap | BootstrapSeed | PublicBootstrapSeed | Rendezvous | PublicRendezvous
                      | DhtProvider | LanDiscovery | RelayDiscovery | PublicRelayDiscovery | PeerCache | Manual

  datatype Record = Record(
    addresses: set<Address>, sources: set<PeerSource>, namespaces: set<string>, connected: bool,
    supportsRelay: Option<bool>, supportsRendezvous: Option<bool>, supportsDcutr: Option<bool>,
    relayPreferred: bool, lastSeen: nat, failures: nat)

  type Peers = map<PeerId, Record>

  type Mutation = Record -> Record

  function NewRecord(): Record { Record({}, {}, {}, false, None, None, None, false, 0, 0) }

  // ---- what a full scan gives ----

  predicate Disconnected(peers: Peers, p: PeerId) { p in peers && !peers[p].connected }

  function Reconnectable(peers: Peers): set<PeerId> {
    set p | p in peers && !peers[p].connected && peers[p].namespaces != {}
  }

  function EvictionOrder(peers: Peers): set<(nat, PeerId)> {
    set p | p in peers && !peers[p].connected :: (peers[p].lastSeen, p)
  }

  function ConnectedPeers(peers: Peers): (on: set<PeerId>)
    ensures forall p :: p in on <==> p in peers && peers[p].connected
  {
    set p | p in peers && peers[p].connected
  }

  predicate Before(a: (nat, PeerId), b: (nat, PeerId)) { a.0 < b.0 || (a.0 == b.0 && a.1 <= b.1) }

  /** `p` is the disconnected record with the least last-seen time, ties going to the lesser peer. */
  ghost predicate IsOldest(peers: Peers, p: PeerId) {
    Disconnected(peers, p)
    && forall q :: Disconnected(peers, q) ==> Before((peers[p].lastSeen, p), (peers[q].lastSeen, q))
  }

  // ---- the record map after one operation ----

  function Touched(peers: Peers, p: PeerId, mutate: Mutation, now: nat): Peers {
    peers[p := mutate(if p in peers then peers[p] else NewRecord()).(lastSeen := now)]
  }

  /**
   The operation's record, and then at most one eviction: the oldest disconnected record, if the
   book is over its bound.
   */
  ghost predicate Follows(before: Peers, after: Peers, p: PeerId, mutate: Mutation, now: nat, max: nat) {
    var touched := Touched(before, p, mutate, now);
    if |touched| > max && EvictionOrder(touched) != {}
    then exists v :: IsOldest(touched, v) && after == touched - {v}
    else after == touched
  }

  ghost predicate WithinBound(peers: Peers, max: nat) {
    |peers| <= max || |peers| <= |ConnectedPeers(peers)|
  }

  lemma ConnectedBound(peers: Peers)
    ensures |ConnectedPeers(peers)| <= |peers|
    ensures |ConnectedPeers(peers)| == |peers| <==> EvictionOrder(peers) == {}
  {
    assert ConnectedPeers(peers) <= peers.Keys;
    SubsetSize(ConnectedPeers(peers), peers.Keys);
    if EvictionOrder(peers) == {} {
      forall p | p in peers ensures p in ConnectedPeers(peers) {
        assert (peers[p].lastSeen, p) !in EvictionOrder(peers);
      }
      assert ConnectedPeers(peers) == peers.Keys;
    } else {
      var e :| e in EvictionOrder(peers);
      assert e.1 in peers.Keys - ConnectedPeers(peers);
    }
  }

  lemma DisconnectedCount(peers: Peers)
    ensures |peers.Keys - ConnectedPeers(peers)| == |peers| - |ConnectedPeers(peers)|
  {
    assert ConnectedPeers(peers) <= peers.Keys;
    hide ConnectedPeers;
    assert |peers| == |peers.Keys|;
  }

  // ---- addresses of one record ----

  /** Drop addresses from the front of the text order until the bound holds: the last ones in order stay. */
  function PruneAddrs(s: set<Address>): (kept: set<Address>)
    ensures kept <= s && |kept| == if |s| <= MAX_ADDRS_PER_PEER then |s| else MAX_ADDRS_PER_PEER
    ensures forall a, b :: a in s && a !in kept && b in kept ==> a < b
    decreases |s|
  {
    if |s| <= MAX_ADDRS_PER_PEER then s
    else
      LeastExists(s);
      var least :| least in s && IsLeast(s, least);
      SetSizes(s, least);
      PruneAddrs(s - {least})
  }

  /** A full set of addresses after `a` in text order. */
  predicate AllGreater(kept: set<Address>, a: Address) {
    |kept| == MAX_ADDRS_PER_PEER && forall b :: b in kept ==> a < b
  }

  /** The new address is held unless as many greater ones as the record may have are. */
  function WithAddr(r: Record, addr: Address, source: PeerSource): (after: Record)
    ensures after.sources == r.sources + {source} && after.addresses <= r.addresses + {addr}
    ensures |after.addresses| <= MAX_ADDRS_PER_PEER
    ensures addr in after.addresses || AllGreater(after.addresses, addr)
    ensures forall a :: a in r.addresses ==> a in after.addresses || AllGreater(after.addresses, a)
    ensures after == r.(sources := after.sources, addresses := after.addresses)
  {
    r.(sources := r.sources + {source}, addresses := PruneAddrs(r.addresses + {addr}))
  }

  function AsConnected(r: Record, addr: Option<Address>): (after: Record)
    ensures after.connected && after.sources == r.sources + {Connected}
    ensures addr.None? ==> after.addresses == r.addresses
    ensures addr.Some? ==> addr.value in after.addresses || AllGreater(after.addresses, addr.value)
    ensures after == r.(connected := true, sources := after.sources, addresses := after.addresses)
  {
    match addr
    case Some(a) => WithAddr(r, a, Connected).(connected := true)
    case None => r.(connected := true, sources := r.sources + {Connected})
  }

  // ---- indexes follow the records ----

  lemma TouchedIndexes(peers: Peers, p: PeerId, record: Record)
    ensures var t := peers[p := record];
            && Reconnectable(t) == (if !record.connected && record.namespaces != {} then Reconnectable(peers) + {p}
                else Reconnectable(peers) - {p})
            && ConnectedPeers(t) == (if record.connected then ConnectedPeers(peers) + {p}
                else ConnectedPeers(peers) - {p})
  {}

  /** The eviction order once the touched peer's old entry is out. */
  function OrderWithout(peers: Peers, p: PeerId): set<(nat, PeerId)> {
    if Disconnected(peers, p) then EvictionOrder(peers) - {(peers[p].lastSeen, p)} else EvictionOrder(peers)
  }

  lemma TouchedOrder(peers: Peers, p: PeerId, record: Record)
    ensures EvictionOrder(peers[p := record]) ==
              OrderWithout(peers, p) + (if record.connected then {} else {(record.lastSeen, p)})
  {
    var t := peers[p := record];
    forall e | e in EvictionOrder(t) && e.1 != p ensures e in EvictionOrder(peers) {
      assert e == (peers[e.1].lastSeen, e.1);
    }
    forall e | e in OrderWithout(peers, p) ensures e in EvictionOrder(t) {
      assert e.1 != p && e == (t[e.1].lastSeen, e.1);
    }
    assert !record.connected ==> (t[p].lastSeen, p) in EvictionOrder(t);
  }

  lemma EvictedIndexes(peers: Peers, v: PeerId)
    requires Disconnected(peers, v)
    ensures Reconnectable(peers - {v}) == Reconnectable(peers) - {v}
    ensures EvictionOrder(peers - {v}) == EvictionOrder(peers) - {(peers[v].lastSeen, v)}
    ensures ConnectedPeers(peers - {v}) == ConnectedPeers(peers)
    ensures |peers - {v}| == |peers| - 1
  {
    var t := peers - {v};
    forall e | e in EvictionOrder(peers) && e != (peers[v].lastSeen, v) ensures e in EvictionOrder(t) {
      assert e == (t[e.1].lastSeen, e.1);
    }
    assert t.Keys == peers.Keys - {v};
    assert |t| == |t.Keys| && |peers| == |peers.Keys|;
  }

  lemma {:induction false} FirstExists(s: set<(nat, PeerId)>)
    requires s != {}
    ensures exists e :: e in s && forall x :: x in s ==> Before(e, x)
    decreases |s|
  {
    var e :| e in s;
    var rest := s - {e};
    assert s == rest + {e};
    if rest != {} {
      FirstExists(rest);
      var f :| f in rest && forall x :: x in rest ==> Before(f, x);
      var g := if Before(e, f) then e else f;
      assert g in s && forall x :: x in s ==> Before(g, x);
    }
  }

  lemma FirstIsOldest(peers: Peers, e: (nat, PeerId))
    requires e in EvictionOrder(peers) && forall x :: x in EvictionOrder(peers) ==> Before(e, x)
    ensures IsOldest(peers, e.1) && e == (peers[e.1].lastSeen, e.1)
  {
    forall q | Disconnected(peers, q) ensures Before(e, (peers[q].lastSeen, q)) {
      assert (peers[q].lastSeen, q) in EvictionOrder(peers);
    }
  }

  /** One record at a time comes in or goes offline, so at most one is ever over the bound. */
  lemma OneEvictionIsEnough(before: Peers, p: PeerId, record: Record, max: nat)
    requires WithinBound(before, max)
    ensures var t := before[p := record];
            |t| <= max + 1 || |t| <= |ConnectedPeers(t)| + 1
  {
    TouchedIndexes(before, p, record);
    MapPutSize(before, p, record);
    var was := ConnectedPeers(before);
    assert was <= before.Keys;
    hide ConnectedPeers, Reconnectable;
    SetSizes(was, p);
  }

  lemma MapPutSize(m: Peers, p: PeerId, record: Record)
    ensures |m[p := record]| == if p in m then |m| else |m| + 1
  {
    var t := m[p := record];
    assert t.Keys == m.Keys + {p};
    assert |t| == |t.Keys| && |m| == |m.Keys|;
  }

  /** A peer that disconnects while connected peers alone exceed the bound is the record that goes. */
  lemma DisconnectInFullBook(before: Peers, after: Peers, p: PeerId, now: nat, max: nat)
    requires WithinBound(before, max) && |before| > max && p in before
    requires Follows(before, after, p, (r: Record) => r.(connected := false), now, max)
    ensures after == before - {p}
  {
    ConnectedBound(before);
    forall q | q in before ensures before[q].connected {
      assert (before[q].lastSeen, q) !in EvictionOrder(before);
    }
    var t := Touched(before, p, (r: Record) => r.(connected := false), now);
    assert t.Keys == before.Keys;
    assert |t| == |t.Keys| && |before| == |before.Keys|;
    assert (t[p].lastSeen, p) in EvictionOrder(t);
    var v :| IsOldest(t, v) && after == t - {v};
    assert v == p;
    assert after == before - {p};
  }

  /** Seen longer ago, or at the same time and the lesser peer. */
  predicate SeenBefore(peers: Peers, v: PeerId, q: PeerId)
    requires v in peers && q in peers
  {
    peers[v].lastSeen < peers[q].lastSeen || (peers[v].lastSeen == peers[q].lastSeen && v < q)
  }

  lemma OldestFirst(peers: Peers, v: PeerId, q: PeerId)
    requires IsOldest(peers, v) && Disconnected(peers, q) && q != v
    ensures SeenBefore(peers, v, q)
  {}

  /** Eviction spares every connected record and every disconnected one seen later than the one that goes. */
  lemma OnlyTheOldestGoes(before: Peers, after: Peers, p: PeerId, mutate: Mutation, now: nat, max: nat)
    requires Follows(before, after, p, mutate, now, max)
    ensures var touched := Touched(before, p, mutate, now);
            && ConnectedPeers(after) == ConnectedPeers(touched)
            && (forall q :: q in after ==> q in touched && after[q] == touched[q])
            && (forall v, q :: v in touched && v !in after && q in after && !after[q].connected ==>
                  SeenBefore(touched, v, q))
  {
    var touched := Touched(before, p, mutate, now);
    if |touched| > max && EvictionOrder(touched) != {} {
      var v :| IsOldest(touched, v) && after == touched - {v};
      EvictedIndexes(touched, v);
      hide EvictionOrder, Reconnectable, ConnectedPeers, Touched;
      forall q | q in after && !after[q].connected ensures SeenBefore(touched, v, q) { OldestFirst(touched, v, q); }
    }
  }

  /** The record an operation leaves, the others untouched, and nobody gone while there is room. */
  lemma RecordsAfter(before: Peers, after: Peers, p: PeerId, mutate: Mutation, now: nat, max: nat)
    requires Follows(before, after, p, mutate, now, max)
    ensures var r := mutate(if p in before then before[p] else NewRecord());
            && (p in after ==> after[p] == r.(lastSeen := now))
            && (r.connected ==> p in after)
            && (forall q :: q != p && q in after ==> q in before && after[q] == before[q])
            && (|before.Keys + {p}| <= max ==> after.Keys == before.Keys + {p})
            && (forall q :: q in before && q !in after ==> q == p || !before[q].connected)
  {
    var touched := Touched(before, p, mutate, now);
    assert touched.Keys == before.Keys + {p} && |touched| == |touched.Keys|;
  }

  class PeerBook {
    var peers: Peers
    var reconnect: set<PeerId>
    var eviction: set<(nat, PeerId)>
    var connectedCount: nat
    const maxRecords: nat

    /** The indexes are what a full scan gives, and the size is bounded. */
    ghost predicate Valid()
      reads this
    {
      Indexed() && WithinBound(peers, maxRecords) && maxRecords >= 1
    }

    ghost predicate Indexed()
      reads this
    {
      reconnect == Reconnectable(peers) && eviction == EvictionOrder(peers) && connectedCount == |ConnectedPeers(peers)|
    }

    constructor (maxRecords: nat)
      ensures Valid() && peers == map[] && this.maxRecords == if maxRecords < 1 then 1 else maxRecords
    {
      this.maxRecords := if maxRecords < 1 then 1 else maxRecords;
      peers, reconnect, eviction, connectedCount := map[], {}, {}, 0;
    }

    /** Peers worth dialling again, read off the index. */
    method ReconnectCandidates() returns (candidates: set<PeerId>)
      requires Valid()
      ensures forall p :: p in candidates <==> p in peers && !peers[p].connected && peers[p].namespaces != {}
    {
      candidates := reconnect;
    }

    method ConnectedCount() returns (count: nat)
      requires Valid()
      ensures count == |ConnectedPeers(peers)|
    {
      count := connectedCount;
    }

    method DiscoveredCount() returns (count: nat)
      requires Valid()
      ensures count == |peers.Keys - ConnectedPeers(peers)|
    {
      DisconnectedCount(peers);
      count := |peers| - connectedCount;  // never below zero
    }

    method MutatePeer(p: PeerId, mutate: Mutation, now: nat)
      requires Valid()
      modifies this
      ensures Valid() && Follows(old(peers), peers, p, mutate, now, maxRecords)
    {
      var known := p in peers;
      var wasConnected := known && peers[p].connected;
      if known && !wasConnected {
        eviction := eviction - {(peers[p].lastSeen, p)};
      }
      var record := mutate(if known then peers[p] else NewRecord()).(lastSeen := now);
      TouchedIndexes(peers, p, record);
      TouchedOrder(peers, p, record);
      OneEvictionIsEnough(peers, p, record, maxRecords);
      peers := peers[p := record];
      SyncIndexes(p, wasConnected, record);
      EnforceRecordBound();
    }

    method SyncIndexes(p: PeerId, wasConnected: bool, record: Record)
      modifies this`reconnect, this`eviction, this`connectedCount
      ensures connectedCount == (if wasConnected == record.connected then old(connectedCount)
                                 else if record.connected then old(connectedCount) + 1
                                 else if old(connectedCount) == 0 then 0 else old(connectedCount) - 1)
      ensures reconnect == if !record.connected && record.namespaces != {} then old(reconnect) + {p}
          else old(reconnect) - {p}
      ensures eviction == old(eviction) + if record.connected then {} else {(record.lastSeen, p)}
    {
      if wasConnected != record.connected {
        if record.connected {
          connectedCount := connectedCount + 1;
        } else if connectedCount > 0 {
          connectedCount := connectedCount - 1;
        }
      }
      if !record.connected && record.namespaces != {} {
        reconnect := reconnect + {p};
      } else {
        reconnect := reconnect - {p};
      }
      if !record.connected {
        eviction := eviction + {(record.lastSeen, p)};
      }
    }

    method EnforceRecordBound()
      requires Indexed() && maxRecords >= 1
      requires |peers| <= maxRecords + 1 || |peers| <= |ConnectedPeers(peers)| + 1
      modifies this
      ensures Valid()
      ensures if |old(peers)| > maxRecords && EvictionOrder(old(peers)) != {}
              then exists v :: IsOldest(old(peers), v) && peers == old(peers) - {v}
              else peers == old(peers)
    {
      ghost var evicted := false;
      while |peers| > maxRecords
        invariant Indexed()
        invariant !evicted ==> peers == old(peers)
        invariant evicted ==> |old(peers)| > maxRecords && EvictionOrder(old(peers)) != {}
        invariant evicted ==> WithinBound(peers, maxRecords)
        invariant evicted ==> exists v :: IsOldest(old(peers), v) && peers == old(peers) - {v}
        decreases |peers|
      {
        ConnectedBound(peers);
        if eviction == {} { return; }  // connected records are protected
        EvictFirst();
        ConnectedBound(peers);
        evicted := true;
      }
    }

    method EvictFirst()
      requires Indexed() && eviction != {}
      modifies this
      ensures Indexed() && |peers| == |old(peers)| - 1 && ConnectedPeers(peers) == ConnectedPeers(old(peers))
      ensures exists v :: IsOldest(old(peers), v) && peers == old(peers) - {v}
    {
      FirstExists(eviction);
      var first :| first in eviction && forall x :: x in eviction ==> Before(first, x);
      FirstIsOldest(peers, first);
      EvictedIndexes(peers, first.1);
      eviction := eviction - {first};
      peers := peers - {first.1};
      reconnect := reconnect - {first.1};
    }

    method RecordPeer(p: PeerId, source: PeerSource, now: nat)
      requires Valid()
      modifies this
      ensures Valid() && Follows(old(peers), peers, p, (r: Record) => r.(sources := r.sources + {source}), now,
          maxRecords)
    {
      MutatePeer(p, (r: Record) => r.(sources := r.sources + {source}), now);
    }

    method RecordAddr(p: PeerId, addr: Address, source: PeerSource, now: nat)
      requires Valid()
      modifies this
      ensures Valid() && Follows(old(peers), peers, p, (r: Record) => WithAddr(r, addr, source), now, maxRecords)
      ensures p in peers ==>
                && peers[p].lastSeen == now && source in peers[p].sources
                && (addr in peers[p].addresses || AllGreater(peers[p].addresses, addr))
    {
      var mutate := (r: Record) => WithAddr(r, addr, source);
      MutatePeer(p, mutate, now);
      RecordsAfter(old(peers), peers, p, mutate, now, maxRecords);
    }

    method RecordNamespace(p: PeerId, namespace: string, source: PeerSource, now: nat)
      requires Valid()
      modifies this
      ensures Valid()
      ensures Follows(old(peers), peers, p,
                      (r: Record) => r.(sources := r.sources + {source}, namespaces := r.namespaces + {namespace}),
                          now, maxRecords)
    {
      MutatePeer(p, (r: Record) => r.(sources := r.sources + {source}, namespaces := r.namespaces + {namespace}), now);
    }

    method RecordConnected(p: PeerId, addr: Option<Address>, now: nat)
      requires Valid()
      modifies this
      ensures Valid() && Follows(old(peers), peers, p, (r: Record) => AsConnected(r, addr), now, maxRecords)
      ensures p in peers && peers[p].connected && peers[p].lastSeen == now && Connected in peers[p].sources
    {
      var mutate := (r: Record) => AsConnected(r, addr);
      MutatePeer(p, mutate, now);
      RecordsAfter(old(peers), peers, p, mutate, now, maxRecords);
    }

    method RecordDisconnectedIfKnown(p: PeerId, now: nat)
      requires Valid()
      modifies this
      ensures Valid()
      ensures if p in old(peers)
          then Follows(old(peers), peers, p, (r: Record) => r.(connected := false), now, maxRecords)
              else peers == old(peers)
      ensures p in peers ==> peers[p] == old(peers)[p].(connected := false, lastSeen := now)
    {
      if p !in peers { return; }
      var mutate := (r: Record) => r.(connected := false);
      MutatePeer(p, mutate, now);
      RecordsAfter(old(peers), peers, p, mutate, now, maxRecords);
    }
  }
}
