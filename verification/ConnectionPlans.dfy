/** Connection plans: which addresses to dial in which order, and the walk through them as dials fail. */
module ConnectionPlans {
  import opened Base

  type Multiaddr = string

  datatype Kind = DirectQuic | Direct | Relay

  datatype Attempt = Attempt(addr: Multiaddr, kind: Kind)

  datatype Plan = Plan(target: Option<PeerId>, attempts: seq<Attempt>, relayPreferred: bool)

  /** Address text handling and the transport policy the code calls. */
  datatype Libs = Libs(parse: string -> Option<Multiaddr>, allows: Multiaddr -> bool, classify: Multiaddr -> Kind)

  // ---- candidates ----

  /** The known addresses that parse. */
  function Parsed(libs: Libs, known: seq<string>): seq<Multiaddr> {
    if known == [] then []
    else
      var last := libs.parse(known[|known| - 1]);
      Parsed(libs, known[..|known| - 1]) + if last.Some? then [last.value] else []
  }

  function Allowed(libs: Libs, addrs: seq<Multiaddr>): seq<Multiaddr> {
    if addrs == [] then []
    else
      var last := addrs[|addrs| - 1];
      Allowed(libs, addrs[..|addrs| - 1]) + if libs.allows(last) then [last] else []
  }

  lemma NoCandidates(libs: Libs)
    ensures Dedup<Multiaddr>([]) == [] && Elems<Multiaddr>([]) == {} && Parsed(libs, []) == []
  {}

  lemma {:induction false} ParsedElems(libs: Libs, known: seq<string>)
    ensures forall a :: a in Parsed(libs, known) <==> exists i :: 0 <= i < |known| && libs.parse(known[i]) == Some(a)
  {
    if known != [] {
      ParsedElems(libs, known[..|known| - 1]);
      assert forall i :: 0 <= i < |known| - 1 ==> known[..|known| - 1][i] == known[i];
    }
  }

  lemma ParsedNext(libs: Libs, known: seq<string>, i: nat)
    requires i < |known|
    ensures var addr := libs.parse(known[i]);
            Parsed(libs, known[..i + 1]) == Parsed(libs, known[..i]) + if addr.Some? then [addr.value] else []
  {
    assert known[..i + 1][..i] == known[..i];
  }

  method PushCandidate(candidates: seq<Multiaddr>, seen: set<Multiaddr>, addr: Multiaddr)
    returns (after: seq<Multiaddr>, known: set<Multiaddr>)
    requires seen == Elems(candidates)
    ensures after == (if addr in candidates then candidates else candidates + [addr]) && known == Elems(after)
  {
    after, known := candidates, seen;
    if addr !in seen {
      after, known := candidates + [addr], seen + {addr};
    }
  }

  /** The requested address, if any, then the known ones; first occurrences only. */
  method Candidates(libs: Libs, requested: Option<Multiaddr>, known: seq<string>) returns (candidates: seq<Multiaddr>)
    ensures candidates == Dedup((if requested.Some? then [requested.value] else []) + Parsed(libs, known))
  {
    hide Elems, Dedup, Parsed;
    ghost var first: seq<Multiaddr> := if requested.Some? then [requested.value] else [];
    var seen: set<Multiaddr>;
    candidates, seen := [], {};
    NoCandidates(libs);
    if requested.Some? {
      DedupPush([], requested.value);
      assert [] + [requested.value] == first;
      candidates, seen := PushCandidate(candidates, seen, requested.value);
    }
    assert known[..0] == [] && first + [] == first;
    for i := 0 to |known|
      invariant candidates == Dedup(first + Parsed(libs, known[..i])) && seen == Elems(candidates)
    {
      var addr := libs.parse(known[i]);
      ParsedNext(libs, known, i);
      ghost var all := first + Parsed(libs, known[..i]);
      if addr.Some? {
        DedupPush(all, addr.value);
        assert first + Parsed(libs, known[..i + 1]) == all + [addr.value];
        candidates, seen := PushCandidate(candidates, seen, addr.value);
      } else {
        assert first + Parsed(libs, known[..i + 1]) == all;
      }
    }
    assert known[..|known|] == known;
  }

  // ---- the order of a plan ----

  function OfKind(libs: Libs, addrs: seq<Multiaddr>, kind: Kind): seq<Attempt> {
    if addrs == [] then []
    else
      var last := addrs[|addrs| - 1];
      OfKind(libs, addrs[..|addrs| - 1], kind) + if libs.classify(last) == kind then [Attempt(last, kind)] else []
  }

  function OrderSpec(libs: Libs, addrs: seq<Multiaddr>, relayPreferred: bool): seq<Attempt> {
    var quic, direct, relay := OfKind(libs, addrs, DirectQuic), OfKind(libs, addrs, Direct), OfKind(libs, addrs, Relay);
    if relayPreferred then relay + quic + direct else quic + direct + relay
  }

  method OrderedAttempts(libs: Libs, candidates: seq<Multiaddr>, relayPreferred: bool) returns (ordered: seq<Attempt>)
    ensures ordered == OrderSpec(libs, candidates, relayPreferred)
  {
    var quic, direct, relay := [], [], [];
    assert candidates[..0] == [];
    for i := 0 to |candidates|
      invariant quic == OfKind(libs, candidates[..i], DirectQuic)
      invariant direct == OfKind(libs, candidates[..i], Direct)
      invariant relay == OfKind(libs, candidates[..i], Relay)
    {
      assert candidates[..i + 1][..i] == candidates[..i];
      var kind := libs.classify(candidates[i]);
      var attempt := Attempt(candidates[i], kind);
      match kind
      case DirectQuic => quic := quic + [attempt];
      case Direct => direct := direct + [attempt];
      case Relay => relay := relay + [attempt];
    }
    assert candidates[..|candidates|] == candidates;
    ordered := if relayPreferred then relay + quic + direct else quic + direct + relay;
  }

  function Rank(kind: Kind, relayPreferred: bool): nat {
    match kind case Relay => (if relayPreferred then 0 else 3) case DirectQuic => 1 case Direct => 2
  }

  /** `x` stands before `y` in `addrs`. */
  ghost predicate StandsBefore(addrs: seq<Multiaddr>, x: Multiaddr, y: Multiaddr) {
    exists k, l :: 0 <= k < l < |addrs| && addrs[k] == x && addrs[l] == y
  }

  /** Attempt `a` is to be tried before `b`: its group comes first, or it came first within the group. */
  ghost predicate Precedes(addrs: seq<Multiaddr>, a: Attempt, b: Attempt, relayPreferred: bool) {
    || Rank(a.kind, relayPreferred) < Rank(b.kind, relayPreferred)
    || (a.kind == b.kind && StandsBefore(addrs, a.addr, b.addr))
  }

  ghost predicate InPlanOrder(addrs: seq<Multiaddr>, plan: seq<Attempt>, relayPreferred: bool) {
    forall i, j :: 0 <= i < j < |plan| ==> Precedes(addrs, plan[i], plan[j], relayPreferred)
  }

  /** Exactly the candidates of one kind, in their order. */
  ghost predicate IsGroup(libs: Libs, addrs: seq<Multiaddr>, kind: Kind, g: seq<Attempt>) {
    && (forall a :: a in g ==> a.kind == kind && a.addr in addrs && libs.classify(a.addr) == kind)
    && (forall x :: x in addrs && libs.classify(x) == kind ==> Attempt(x, kind) in g)
    && (forall i, j :: 0 <= i < j < |g| ==> StandsBefore(addrs, g[i].addr, g[j].addr))
  }

  lemma StandsBeforeLonger(addrs: seq<Multiaddr>, last: Multiaddr)
    ensures forall x, y :: StandsBefore(addrs, x, y) ==> StandsBefore(addrs + [last], x, y)
    ensures forall x :: x in addrs ==> StandsBefore(addrs + [last], x, last)
  {
    var longer := addrs + [last];
    assert longer[|addrs|] == last;
    forall x, y | StandsBefore(addrs, x, y) ensures StandsBefore(longer, x, y) {
      var k, l :| 0 <= k < l < |addrs| && addrs[k] == x && addrs[l] == y;
      assert longer[k] == x && longer[l] == y;
    }
    forall x | x in addrs ensures StandsBefore(longer, x, last) {
      var k :| 0 <= k < |addrs| && addrs[k] == x;
      assert longer[k] == x;
    }
  }

  lemma {:induction false} Groups(libs: Libs, addrs: seq<Multiaddr>, kind: Kind)
    ensures IsGroup(libs, addrs, kind, OfKind(libs, addrs, kind))
  {
    hide IsGroup;
    if addrs == [] {
      NoGroup(libs, kind);
    } else {
      var front, last := addrs[..|addrs| - 1], addrs[|addrs| - 1];
      Groups(libs, front, kind);
      assert addrs == front + [last];
      GroupPush(libs, front, last, kind, OfKind(libs, front, kind));
    }
  }

  lemma NoGroup(libs: Libs, kind: Kind)
    ensures IsGroup(libs, [], kind, [])
  {}

  lemma GroupPush(libs: Libs, front: seq<Multiaddr>, last: Multiaddr, kind: Kind, g: seq<Attempt>)
    requires IsGroup(libs, front, kind, g)
    ensures IsGroup(libs, front + [last], kind, g + if libs.classify(last) == kind then [Attempt(last, kind)] else [])
  {
    hide StandsBefore;
    StandsBeforeLonger(front, last);
    var h := g + [Attempt(last, kind)];
    assert forall i :: 0 <= i < |g| ==> g[i] in g;
    forall i, j | 0 <= i < j < |h| ensures StandsBefore(front + [last], h[i].addr, h[j].addr) {
      assert h[i] == g[i];
    }
  }

  lemma OrderConcat(addrs: seq<Multiaddr>, p: seq<Attempt>, q: seq<Attempt>, relayPreferred: bool)
    requires InPlanOrder(addrs, p, relayPreferred) && InPlanOrder(addrs, q, relayPreferred)
    requires forall a, b :: a in p && b in q ==> Rank(a.kind, relayPreferred) < Rank(b.kind, relayPreferred)
    ensures InPlanOrder(addrs, p + q, relayPreferred)
  {
    hide StandsBefore, Rank;
    var pq := p + q;
    forall i, j | 0 <= i < j < |pq| ensures Precedes(addrs, pq[i], pq[j], relayPreferred) {
      if i < |p| <= j { assert pq[i] in p && pq[j] in q; }
    }
  }

  /** Precedence is strict, so a plan in order repeats nothing. */
  lemma OrderNoDup(addrs: seq<Multiaddr>, plan: seq<Attempt>, relayPreferred: bool)
    requires NoDup(addrs) && InPlanOrder(addrs, plan, relayPreferred)
    ensures NoDup(plan)
  {
    forall i, j | 0 <= i < j < |plan| ensures plan[i] != plan[j] {
      assert Precedes(addrs, plan[i], plan[j], relayPreferred);
    }
  }

  /**
   The plan is the stable regrouping of its candidates: the same addresses, each once
   and under its own kind, ordered by group and within a group as they came.
   */
  lemma PlanOrder(libs: Libs, addrs: seq<Multiaddr>, relayPreferred: bool)
    requires NoDup(addrs)
    ensures var plan := OrderSpec(libs, addrs, relayPreferred);
            && (forall a :: a in plan <==> a.addr in addrs && a.kind == libs.classify(a.addr))
            && InPlanOrder(addrs, plan, relayPreferred) && NoDup(plan)
  {
    hide OfKind, StandsBefore;
    Groups(libs, addrs, DirectQuic);
    Groups(libs, addrs, Direct);
    Groups(libs, addrs, Relay);
    var quic, direct, relay := OfKind(libs, addrs, DirectQuic), OfKind(libs, addrs, Direct), OfKind(libs, addrs, Relay);
    if relayPreferred {
      OrderConcat(addrs, relay, quic, relayPreferred);
      OrderConcat(addrs, relay + quic, direct, relayPreferred);
    } else {
      OrderConcat(addrs, quic, direct, relayPreferred);
      OrderConcat(addrs, quic + direct, relay, relayPreferred);
    }
    OrderNoDup(addrs, OrderSpec(libs, addrs, relayPreferred), relayPreferred);
  }

  // ---- the whole plan ----

  lemma {:induction false} AllowedElems(libs: Libs, addrs: seq<Multiaddr>)
    requires NoDup(addrs)
    ensures NoDup(Allowed(libs, addrs))
    ensures forall x :: x in Allowed(libs, addrs) <==> x in addrs && libs.allows(x)
    ensures forall i, j :: 0 <= i < j < |Allowed(libs, addrs)| ==>
        StandsBefore(addrs, Allowed(libs, addrs)[i], Allowed(libs, addrs)[j])
  {
    hide StandsBefore;
    if addrs != [] {
      var front, last := addrs[..|addrs| - 1], addrs[|addrs| - 1];
      AllowedElems(libs, front);
      StandsBeforeLonger(front, last);
      assert addrs == front + [last] && last !in front;
      var g, h := Allowed(libs, front), Allowed(libs, addrs);
      forall i, j | 0 <= i < j < |h| ensures StandsBefore(addrs, h[i], h[j]) {
        assert h[i] == g[i] && g[i] in g;
      }
    }
  }

  /** All addresses a plan may draw on, requested one first. */
  function Sources(libs: Libs, requested: Option<Multiaddr>, known: seq<string>): seq<Multiaddr> {
    (if requested.Some? then [requested.value] else []) + Parsed(libs, known)
  }

  lemma SourcesAre(libs: Libs, requested: Option<Multiaddr>, known: seq<string>)
    ensures forall a :: a in Sources(libs, requested, known) <==>
              requested == Some(a) || exists i :: 0 <= i < |known| && libs.parse(known[i]) == Some(a)
  {
    ParsedElems(libs, known);
  }

  /** QUIC comes before other direct addresses; relays come first where they are preferred, and else last. */
  ghost predicate KindsInOrder(plan: seq<Attempt>, relayPreferred: bool) {
    forall i, j :: 0 <= i < j < |plan| && plan[i].kind != plan[j].kind ==>
      match (plan[i].kind, plan[j].kind)
      case (Relay, _) => relayPreferred
      case (_, Relay) => !relayPreferred
      case _ => plan[i].kind == DirectQuic && plan[j].kind == Direct
  }

  lemma RanksInOrder(addrs: seq<Multiaddr>, plan: seq<Attempt>, relayPreferred: bool)
    requires InPlanOrder(addrs, plan, relayPreferred)
    ensures KindsInOrder(plan, relayPreferred)
  {
    hide StandsBefore;
    assert forall i, j :: 0 <= i < j < |plan| ==> Precedes(addrs, plan[i], plan[j], relayPreferred);
  }

  method BuildPlan(libs: Libs, target: Option<PeerId>, requested: Option<Multiaddr>, known: seq<string>,
      relayPreferred: bool)
    returns (plan: Plan)
    ensures plan.target == target && plan.relayPreferred == relayPreferred
    ensures plan.attempts == OrderSpec(libs, Allowed(libs, Dedup(Sources(libs, requested, known))), relayPreferred)
    ensures NoDup(plan.attempts)
    ensures forall a :: a in plan.attempts <==>
              a.addr in Sources(libs, requested, known) && libs.allows(a.addr) && a.kind == libs.classify(a.addr)
    ensures KindsInOrder(plan.attempts, relayPreferred)
  {
    var candidates := Candidates(libs, requested, known);
    var allowed := [];
    assert candidates[..0] == [];
    for i := 0 to |candidates|
      invariant allowed == Allowed(libs, candidates[..i])
    {
      assert candidates[..i + 1][..i] == candidates[..i];
      if libs.allows(candidates[i]) { allowed := allowed + [candidates[i]]; }
    }
    assert candidates[..|candidates|] == candidates;
    var attempts := OrderedAttempts(libs, allowed, relayPreferred);
    plan := Plan(target, attempts, relayPreferred);
    DedupElems(Sources(libs, requested, known));
    AllowedElems(libs, candidates);
    PlanOrder(libs, allowed, relayPreferred);
    RanksInOrder(allowed, attempts, relayPreferred);
    hide OrderSpec, Allowed, Dedup, NoDup;
  }

  // ---- walking a plan ----

  /** The swarm's immediate answer to dial call number n of a run. */
  type Dial = nat -> bool

  /** How many attempts of a queue are tried, from call `n` on, until one is taken up. */
  function Tried(queue: seq<Attempt>, dial: Dial, n: nat): (k: nat)
    ensures k <= |queue|
    ensures forall c :: n <= c < n + k - 1 ==> !dial(c)
    ensures k < |queue| ==> k > 0 && dial(n + k - 1)
  {
    if queue == [] then 0
    else if dial(n) then 1
    else 1 + Tried(queue[1..], dial, n + 1)
  }

  predicate TakenUp(queue: seq<Attempt>, dial: Dial, n: nat) {
    Tried(queue, dial, n) > 0 && dial(n + Tried(queue, dial, n) - 1)
  }

  /** The table of queued fallbacks, and how many dial calls have been made. */
  datatype Table = Table(pending: map<PeerId, seq<Attempt>>, calls: nat)

  /** A plan is dialled, an outgoing connection fails later, or a connection comes up. */
  datatype Event = Dialled(plan: Plan) | Failed(peer: PeerId) | Completed(peer: PeerId)

  function QueueOf(pending: map<PeerId, seq<Attempt>>, p: PeerId): seq<Attempt> {
    if p in pending then pending[p] else []
  }

  /** The table after one event, and the attempts tried for it. */
  function Do(t: Table, e: Event, dial: Dial): (Table, seq<Attempt>) {
    match e
    case Dialled(plan) =>
      var k := Tried(plan.attempts, dial, t.calls);
      (Table(if TakenUp(plan.attempts, dial, t.calls) && plan.target.Some?
             then t.pending[plan.target.value := plan.attempts[k..]] else t.pending, t.calls + k),
       plan.attempts[..k])
    case Failed(p) =>
      var q := QueueOf(t.pending, p);
      var k := Tried(q, dial, t.calls);
      (Table(Requeued(t.pending, p, q[k..]), t.calls + k), q[..k])
    case Completed(p) => (Table(t.pending - {p}, t.calls), [])
  }

  function After(events: seq<Event>, dial: Dial): Table {
    if events == [] then Table(map[], 0) else Do(After(events[..|events| - 1], dial), events[|events| - 1], dial).0
  }

  /** What event `j` of a run tries. */
  function TriedAt(events: seq<Event>, dial: Dial, j: nat): seq<Attempt>
    requires j < |events|
  {
    Do(After(events[..j], dial), events[j], dial).1
  }

  /** Event `j` dials a plan for `p`, and one of its attempts is taken up. */
  predicate TakesUp(events: seq<Event>, dial: Dial, j: nat, p: PeerId)
    requires j < |events|
  {
    && events[j].Dialled? && events[j].plan.target == Some(p)
    && TakenUp(events[j].plan.attempts, dial, After(events[..j], dial).calls)
  }

  /** Event `i` is the last plan taken up for `p`, and no connection to `p` came up since. */
  ghost predicate Current(events: seq<Event>, dial: Dial, i: nat, p: PeerId) {
    && i < |events| && TakesUp(events, dial, i, p)
    && forall j :: i < j < |events| ==> events[j] != Completed(p) && !TakesUp(events, dial, j, p)
  }

  /** Attempts tried for `p` out of the plan of event `i`: by dialling it, then by the failures since. */
  function TriedSince(events: seq<Event>, dial: Dial, i: nat, p: PeerId): seq<Attempt>
    requires i < |events|
  {
    var front := |events| - 1;
    if i == front then TriedAt(events, dial, i)
    else TriedSince(events[..front], dial, i, p) + if events[front] == Failed(p) then TriedAt(events, dial, front)
        else []
  }

  ghost predicate Unfinished(events: seq<Event>, dial: Dial, i: nat, p: PeerId)
    requires i < |events| && events[i].Dialled?
  {
    TriedSince(events, dial, i, p) != events[i].plan.attempts || Failed(p) !in events[i + 1..]
  }

  /**
   Attempts tried and attempts queued are the last plan taken up, and `p` is pending while that plan
   is unfinished.
   */
  ghost predicate Rest(events: seq<Event>, dial: Dial, p: PeerId) {
    var pending := After(events, dial).pending;
    && (p in pending <==> exists i: nat :: Current(events, dial, i, p) && Unfinished(events, dial, i, p))
    && forall i: nat :: Current(events, dial, i, p) ==>
         TriedSince(events, dial, i, p) + QueueOf(pending, p) == events[i].plan.attempts
  }

  lemma AfterPush(events: seq<Event>, e: Event, dial: Dial)
    ensures After(events + [e], dial) == Do(After(events, dial), e, dial).0
    ensures TriedAt(events + [e], dial, |events|) == Do(After(events, dial), e, dial).1
  {
    assert (events + [e])[..|events|] == events;
  }

  lemma TakesUpLonger(events: seq<Event>, e: Event, dial: Dial, p: PeerId)
    ensures forall j :: 0 <= j < |events| ==> TakesUp(events + [e], dial, j, p) == TakesUp(events, dial, j, p)
  {
    hide After;
    forall j | 0 <= j < |events| ensures TakesUp(events + [e], dial, j, p) == TakesUp(events, dial, j, p) {
      assert (events + [e])[..j] == events[..j];
    }
  }

  lemma CurrentPush(events: seq<Event>, e: Event, dial: Dial, i: nat, p: PeerId)
    ensures Current(events + [e], dial, i, p) <==>
              if i == |events| then TakesUp(events + [e], dial, i, p)
              else Current(events, dial, i, p) && e != Completed(p) && !TakesUp(events + [e], dial, |events|, p)
  {
    hide TakesUp;
    TakesUpLonger(events, e, dial, p);
    var longer := events + [e];
    assert longer[|events|] == e;
    assert forall j :: 0 <= j < |events| ==> longer[j] == events[j];
  }

  lemma SincePush(events: seq<Event>, e: Event, dial: Dial, i: nat, p: PeerId)
    requires i < |events|
    ensures TriedSince(events + [e], dial, i, p) ==
              TriedSince(events, dial, i, p) + if e == Failed(p) then Do(After(events, dial), e, dial).1 else []
  {
    hide After, Do;
    AfterPush(events, e, dial);
    assert (events + [e])[..|events|] == events;
  }

  /** The plan just taken up: what was tried and what is queued are the plan. */
  lemma RestOfNew(events: seq<Event>, e: Event, dial: Dial, p: PeerId)
    requires TakesUp(events + [e], dial, |events|, p)
    ensures Rest(events + [e], dial, p)
  {
    var u, n := events + [e], |events|;
    AfterPush(events, e, dial);
    assert u[..n] == events;
    hide After, Tried;
    forall i: nat | Current(u, dial, i, p) ensures i == n { CurrentPush(events, e, dial, i, p); }
    CurrentPush(events, e, dial, n, p);
    var k := Tried(e.plan.attempts, dial, After(events, dial).calls);
    assert e.plan.attempts[..k] + e.plan.attempts[k..] == e.plan.attempts;
  }

  /** What one event not taking up a plan does to the queue of `p`. */
  lemma QueueStep(t: Table, e: Event, dial: Dial, p: PeerId)
    requires !(e.Dialled? && e.plan.target == Some(p) && TakenUp(e.plan.attempts, dial, t.calls)) && e != Completed(p)
    ensures var (u, tried) := Do(t, e, dial);
            && (p in u.pending ==> p in t.pending)
            && (if e == Failed(p)
                then tried + QueueOf(u.pending, p) == QueueOf(t.pending, p)
                    && (p in u.pending <==> QueueOf(u.pending, p) != [])
                else QueueOf(u.pending, p) == QueueOf(t.pending, p) && (p in u.pending <==> p in t.pending))
  {
    hide Tried;
    if e == Failed(p) {
      var q, k := QueueOf(t.pending, p), Tried(QueueOf(t.pending, p), dial, t.calls);
      assert q[..k] + q[k..] == q;
    }
  }

  lemma UnfinishedPush(events: seq<Event>, e: Event, dial: Dial, i: nat, p: PeerId)
    requires i < |events| && events[i].Dialled?
    ensures Unfinished(events + [e], dial, i, p) <==>
              TriedSince(events + [e], dial, i, p) != events[i].plan.attempts
                  || (Failed(p) !in events[i + 1..] && e != Failed(p))
  {
    hide TriedSince;
    assert (events + [e])[i + 1..] == events[i + 1..] + [e];
  }

  lemma CurrentFacts(events: seq<Event>, dial: Dial, i: nat, p: PeerId)
    requires Rest(events, dial, p) && Current(events, dial, i, p)
    ensures i < |events| && events[i].Dialled?
    ensures TriedSince(events, dial, i, p) + QueueOf(After(events, dial).pending, p) == events[i].plan.attempts
    ensures p in After(events, dial).pending <==>
              TriedSince(events, dial, i, p) != events[i].plan.attempts || Failed(p) !in events[i + 1..]
  {
    hide TriedSince, After, TakenUp;
    OneCurrent(events, dial, i, p);
  }

  lemma Advance(tried: seq<Attempt>, more: seq<Attempt>, queue: seq<Attempt>, plan: seq<Attempt>)
    requires tried + (more + queue) == plan
    ensures tried + more + queue == plan && (tried + more == plan <==> queue == [])
  {
    assert tried + more + queue == tried + (more + queue);
    assert |plan| == |tried + more| + |queue|;
    assert queue == [] ==> tried + more + queue == tried + more;
  }

  /** The plan of event `i` stays the current one over an event that neither replaces nor completes it. */
  lemma RestAt(events: seq<Event>, e: Event, dial: Dial, i: nat, p: PeerId)
    requires Rest(events, dial, p) && !TakesUp(events + [e], dial, |events|, p) && e != Completed(p)
    requires Current(events, dial, i, p)
    ensures Current(events + [e], dial, i, p) && i < |events| && events[i].Dialled?
    ensures TriedSince(events + [e], dial, i, p) + QueueOf(After(events + [e], dial).pending, p)
              == events[i].plan.attempts
    ensures p in After(events + [e], dial).pending <==> Unfinished(events + [e], dial, i, p)
  {
    hide After, Do, TriedSince, Rest, Current, Unfinished, QueueOf;
    CurrentFacts(events, dial, i, p);
    CurrentPush(events, e, dial, i, p);
    SincePush(events, e, dial, i, p);
    UnfinishedPush(events, e, dial, i, p);
    QueueAfter(events, e, dial, p);
    if e == Failed(p) {
      Advance(TriedSince(events, dial, i, p), Do(After(events, dial), e, dial).1,
              QueueOf(After(events + [e], dial).pending, p), events[i].plan.attempts);
    }
  }

  lemma QueueAfter(events: seq<Event>, e: Event, dial: Dial, p: PeerId)
    requires !TakesUp(events + [e], dial, |events|, p) && e != Completed(p)
    ensures var t, u := After(events, dial).pending, After(events + [e], dial).pending;
            && (p in u ==> p in t)
            && (if e == Failed(p)
                then Do(After(events, dial), e, dial).1 + QueueOf(u, p) == QueueOf(t, p)
                    && (p in u <==> QueueOf(u, p) != [])
                else QueueOf(u, p) == QueueOf(t, p) && (p in u <==> p in t))
  {
    hide After, Do;
    assert (events + [e])[..|events|] == events;
    AfterPush(events, e, dial);
    QueueStep(After(events, dial), e, dial, p);
  }

  lemma OneCurrent(events: seq<Event>, dial: Dial, i: nat, p: PeerId)
    requires Current(events, dial, i, p)
    ensures forall j: nat :: Current(events, dial, j, p) ==> j == i
  {
    hide TakesUp;
  }

  lemma RestOfOld(events: seq<Event>, e: Event, dial: Dial, p: PeerId)
    requires Rest(events, dial, p) && !TakesUp(events + [e], dial, |events|, p) && e != Completed(p)
    ensures Rest(events + [e], dial, p)
  {
    hide TriedSince, Unfinished, Do, After, TakesUp;
    var u := events + [e];
    forall i: nat | Current(u, dial, i, p)
      ensures i < |events| && Current(events, dial, i, p) && u[i].Dialled?
      ensures TriedSince(u, dial, i, p) + QueueOf(After(u, dial).pending, p) == u[i].plan.attempts
      ensures p in After(u, dial).pending <==> Unfinished(u, dial, i, p)
    {
      CurrentPush(events, e, dial, i, p);
      RestAt(events, e, dial, i, p);
    }
    QueueAfter(events, e, dial, p);
    if p in After(u, dial).pending {
      var i: nat :| Current(events, dial, i, p);
      RestAt(events, e, dial, i, p);
    }
  }

  lemma RestOfCompleted(events: seq<Event>, dial: Dial, p: PeerId)
    ensures Rest(events + [Completed(p)], dial, p)
  {
    hide TriedSince, Unfinished, After, Current;
    AfterPush(events, Completed(p), dial);
    forall i: nat ensures !Current(events + [Completed(p)], dial, i, p) {
      CurrentPush(events, Completed(p), dial, i, p);
    }
  }

  /**
   However plans, failures and connections follow one another, and whatever dials fail at
   once: the attempts tried out of the last plan taken up for a peer, followed by those
   queued, are that plan in its order, and the peer is pending exactly while it is unfinished.
   */
  lemma {:induction false} TriedInPlanOrder(events: seq<Event>, dial: Dial, p: PeerId)
    ensures Rest(events, dial, p)
  {
    hide Rest, TakesUp;
    if events == [] {
      NothingPending(dial, p);
    } else {
      var front, e := events[..|events| - 1], events[|events| - 1];
      assert events == front + [e];
      TriedInPlanOrder(front, dial, p);
      if e == Completed(p) {
        RestOfCompleted(front, dial, p);
      } else if TakesUp(events, dial, |front|, p) {
        RestOfNew(front, e, dial, p);
      } else {
        RestOfOld(front, e, dial, p);
      }
    }
  }

  lemma NothingPending(dial: Dial, p: PeerId)
    ensures Rest([], dial, p)
  {}

  /** Out of a plan that repeats nothing, nothing is tried twice. */
  lemma NothingTriedTwice(events: seq<Event>, dial: Dial, i: nat, p: PeerId)
    requires Current(events, dial, i, p) && NoDup(events[i].plan.attempts)
    ensures NoDup(TriedSince(events, dial, i, p))
  {
    hide TriedSince, After, TakenUp;
    TriedInPlanOrder(events, dial, p);
    var tried, plan := TriedSince(events, dial, i, p), events[i].plan.attempts;
    assert forall k :: 0 <= k < |tried| ==> tried[k] == plan[k];
  }

  /** A plan none of whose attempts is taken up leaves every peer exactly as pending as it was. */
  lemma FailedPlanChangesNothing(t: Table, plan: Plan, dial: Dial, p: PeerId)
    requires plan.target == Some(p)
    ensures p in Do(t, Dialled(plan), dial).0.pending <==> TakenUp(plan.attempts, dial, t.calls) || p in t.pending
    ensures Do(t, Dialled(plan), dial).0.pending != t.pending ==> TakenUp(plan.attempts, dial, t.calls)
  {}

  /**
   Once a dial of the current plan has failed, the peer stops being pending exactly when every
   attempt of that plan has been tried; and a failure none of whose fallbacks is taken up does it.
   */
  lemma ExhaustionEndsPending(events: seq<Event>, dial: Dial, i: nat, p: PeerId)
    requires Current(events, dial, i, p) && Failed(p) in events[i + 1..]
    ensures p !in After(events, dial).pending <==> TriedSince(events, dial, i, p) == events[i].plan.attempts
    ensures var t := After(events, dial);
            !TakenUp(QueueOf(t.pending, p), dial, t.calls) ==> p !in After(events + [Failed(p)], dial).pending
  {
    hide Rest, TriedSince, After, Current, Tried;
    TriedInPlanOrder(events, dial, p);
    CurrentFacts(events, dial, i, p);
    AfterPush(events, Failed(p), dial);
  }

  /** So a second plan that fails at once leaves the fallbacks of the first one in place. */
  lemma OlderPlanSurvives(dial: Dial, p: PeerId, x: Attempt, y: Attempt, z: Attempt)
    requires dial(0) && !dial(1)
    ensures var first, second := Dialled(Plan(Some(p), [x, y], false)), Dialled(Plan(Some(p), [z], false));
            After([first, second], dial).pending == map[p := [y]]
  {
    var first, second := Dialled(Plan(Some(p), [x, y], false)), Dialled(Plan(Some(p), [z], false));
    AfterPush([], first, dial);
    AfterPush([first], second, dial);
    assert [] + [first] == [first] && [first] + [second] == [first, second];
    assert Tried([x, y], dial, 0) == 1 && Tried([z], dial, 1) == 1;
  }

  class PendingConnectionPlans {
    var pending: map<PeerId, seq<Attempt>>

    constructor ()
      ensures pending == map[]
    {
      pending := map[];
    }

    /** Everything after the first occurrence of the attempt just started. */
    method TrackRemaining(plan: Plan, at: nat)
      requires at < |plan.attempts| && NoDup(plan.attempts)
      modifies this
      ensures pending == if plan.target.Some? then old(pending)[plan.target.value := plan.attempts[at + 1..]]
          else old(pending)
    {
      if plan.target.None? { return; }
      var attempted := plan.attempts[at];
      var seenAttempted := false;
      var remaining: seq<Attempt> := [];
      for i := 0 to |plan.attempts|
        invariant seenAttempted == (i > at)
        invariant remaining == if i > at then plan.attempts[at + 1..i] else []
      {
        if !seenAttempted {
          if plan.attempts[i] == attempted { seenAttempted := true; }
        } else {
          remaining := remaining + [plan.attempts[i]];
        }
      }
      assert remaining == plan.attempts[at + 1..];
      pending := pending[plan.target.value := remaining];
    }

    method NextAfterFailure(p: PeerId) returns (next: Option<Attempt>)
      modifies this
      ensures p !in old(pending) ==> next == None && pending == old(pending)
      ensures p in old(pending) && old(pending)[p] == [] ==> next == None && pending == old(pending) - {p}
      ensures p in old(pending) && old(pending)[p] != [] ==>
                next == Some(old(pending)[p][0])
                && pending == if |old(pending)[p]| == 1 then old(pending) - {p}
                    else old(pending)[p := old(pending)[p][1..]]
    {
      next := None;
      if p in pending && pending[p] != [] {
        next := Some(pending[p][0]);
        pending := pending[p := pending[p][1..]];
      }
      if p in pending && pending[p] == [] {
        pending := pending - {p};
      }
    }

    method DialConnectionPlan(plan: Plan, dial: Dial, calls: nat) returns (ok: bool, tried: seq<Attempt>)
      requires NoDup(plan.attempts)
      modifies this
      ensures (Table(pending, calls + |tried|), tried) == Do(Table(old(pending), calls), Dialled(plan), dial)
      ensures ok == TakenUp(plan.attempts, dial, calls) && (!ok ==> pending == old(pending))
    {
      hide Tried;
      tried := [];
      for i := 0 to |plan.attempts|
        invariant tried == plan.attempts[..i] && pending == old(pending)
        invariant forall c :: calls <= c < calls + i ==> !dial(c)
      {
        tried := tried + [plan.attempts[i]];
        if dial(calls + i) {
          TriedUntil(plan.attempts, dial, calls, i);
          assert tried == plan.attempts[..i + 1];
          TrackRemaining(plan, i);
          return true, tried;
        }
      }
      TriedAll(plan.attempts, dial, calls);
      ok := false;
    }

    /** The outgoing-connection-error handler's loop over the queued fallbacks. */
    method FallBack(p: PeerId, dial: Dial, calls: nat) returns (started: bool, tried: seq<Attempt>)
      modifies this
      ensures (Table(pending, calls + |tried|), tried) == Do(Table(old(pending), calls), Failed(p), dial)
      ensures started == TakenUp(QueueOf(old(pending), p), dial, calls) && (!started ==> p !in pending)
    {
      hide Tried;
      tried := [];
      ghost var q := QueueOf(pending, p);
      var n := 0;
      while true
        invariant n == |tried| <= |q| && tried == q[..n]
        invariant forall c :: calls <= c < calls + n ==> !dial(c)
        invariant pending == if n == 0 then old(pending) else Requeued(old(pending), p, q[n..])
        decreases |q| - n
      {
        RequeuedNext(old(pending), p, q, n);
        var next := NextAfterFailure(p);
        if next.None? { break; }
        tried := tried + [next.value];
        n := n + 1;
        if dial(calls + n - 1) {
          TriedUntil(q, dial, calls, n - 1);
          assert tried == q[..n];
          return true, tried;
        }
      }
      TriedAll(q, dial, calls);
      assert q[..|q|] == q && q[|q|..] == [] && pending == old(pending) - {p};
      started := false;
    }

    method Complete(p: PeerId)
      modifies this
      ensures forall calls, dial: Dial :: Table(pending, calls) == Do(Table(old(pending), calls), Completed(p), dial).0
    {
      pending := pending - {p};
    }
  }

  /** The table with what is left of one peer's queue; an empty queue is not kept. */
  function Requeued(pending: map<PeerId, seq<Attempt>>, p: PeerId, rest: seq<Attempt>): map<PeerId, seq<Attempt>> {
    if rest == [] then pending - {p} else pending[p := rest]
  }

  lemma RequeuedNext(pending: map<PeerId, seq<Attempt>>, p: PeerId, q: seq<Attempt>, n: nat)
    requires n <= |q| && q == if p in pending then pending[p] else []
    ensures n < |q| ==> p in Requeued(pending, p, q[n..]) && Requeued(pending, p, q[n..])[p] == q[n..]
    ensures n < |q| ==> q[n..][1..] == q[n + 1..]
    ensures n < |q| ==> Requeued(pending, p, q[n..]) - {p} == pending - {p}
    ensures n < |q| && q[n + 1..] != [] ==> Requeued(pending, p, q[n..])[p := q[n + 1..]] == pending[p := q[n + 1..]]
    ensures n == |q| ==> p !in Requeued(pending, p, q[n..])
    ensures p in pending && q != [] ==> Requeued(pending, p, q) == pending
  {}

  lemma {:induction false} TriedUntil(queue: seq<Attempt>, dial: Dial, n: nat, i: nat)
    requires i < |queue| && dial(n + i) && forall c :: n <= c < n + i ==> !dial(c)
    ensures Tried(queue, dial, n) == i + 1
  {
    if i > 0 { TriedUntil(queue[1..], dial, n + 1, i - 1); }
  }

  lemma TriedAll(queue: seq<Attempt>, dial: Dial, n: nat)
    requires forall c :: n <= c < n + |queue| ==> !dial(c)
    ensures Tried(queue, dial, n) == |queue|
  {}
}
