/**
 Exactly when the auto-connect gate opens: its answer told by the run so far, from the windows,
 the dial times and how the last try ended.
 */
module AutoConnectGate {
  import opened Base
  import opened RateWindows
  import opened BoundedSets
  import opened AutoConnect

  /** The operation is a try of `p` that the gate lets through. */
  predicate Passes(s: State, op: Op, p: PeerId) {
    op.Try? && op.peer == p && Gate(s, p, op.afterAddrUpdate, op.now).1
  }

  // ---- the window ----

  /**
   When the peer's retry window began. The first dial opens one, and so does the first try let
   through once it is 300 seconds old. A window opened at the epoch gives way to the next dial.
   */
  ghost function WindowStart(ops: seq<Op>, p: PeerId): Option<nat> {
    if ops == [] then None
    else
      var front, op := ops[..|ops| - 1], ops[|ops| - 1];
      NextWindow(WindowStart(front, p), op, Passes(After(front), op, p))
  }

  function NextWindow(w: Option<nat>, op: Op, passes: bool): Option<nat> {
    if !passes || !op.Try? then w
    else if w.Some? && w.value + 300 <= op.now then Some(op.now)
    else if (w == None || w == Some(0)) && (op.outcome.DialStarted? || op.outcome.DialFailed?) then Some(op.now)
    else w
  }

  ghost predicate WindowIs(s: State, p: PeerId, w: Option<nat>) {
    && (p in s.retry <==> w.Some?)
    && (p in s.retry ==> var r := s.retry[p];
          r.windowStarted == w.value && (r.attempts == 0 ==> r.lastAttempt == 0 && r.windowStarted >= 300))
  }

  lemma WindowOwn(s: State, op: Op, w: Option<nat>)
    requires Inv(s) && op.Try? && WindowIs(s, op.peer, w)
    ensures WindowIs(Do(s, op), op.peer, NextWindow(w, op, Passes(s, op, op.peer)))
  {
    hide Inv, Do;
    OwnRecord(s, op);
  }

  lemma {:induction false} WindowKnown(ops: seq<Op>, p: PeerId)
    requires Kept(ops, p)
    ensures WindowIs(After(ops), p, WindowStart(ops, p))
  {
    hide Inv, Do, Gate;
    if ops != [] {
      var front, op := ops[..|ops| - 1], ops[|ops| - 1];
      WindowKnown(front, p);
      if op.Try? && op.peer == p {
        WindowOwn(After(front), op, WindowStart(front, p));
      } else {
        OthersLeaveRecord(After(front), op, p);
      }
    }
  }

  // ---- the dials in it ----

  /** The dials made at `w` or later. */
  ghost function DialsSince(h: seq<Admission>, w: nat): set<nat> {
    set i: nat | i < |h| && w <= h[i].at
  }

  lemma {:induction false} DialTimes(ops: seq<Op>, p: PeerId)
    ensures forall i :: 0 <= i < |Dialled(ops, p)| ==> Dialled(ops, p)[i].at >= 0
  {
    hide Gate, After, RetryOf;
    if ops != [] { DialTimes(ops[..|ops| - 1], p); }
  }

  /** The record's count is that of the dials since the window began, and its stamp is that of the last. */
  lemma DialsInWindow(r: Retry, h: seq<Admission>, clock: nat)
    requires Budget(true, r, h, clock) && forall i :: 0 <= i < |h| ==> h[i].at >= 0
    ensures var since := DialsSince(h, r.windowStarted);
            && |since| == r.attempts && (forall i :: i in since ==> h[i].at <= clock)
            && (r.attempts > 0 ==> |h| - 1 in since && h[|h| - 1].at == r.lastAttempt)
            && (forall i :: i in since ==> h[i].at <= h[|h| - 1].at)
  {
    var since, first := DialsSince(h, r.windowStarted), |h| - r.attempts;
    assert forall i: nat :: first <= i < |h| ==> i in since;
    assert forall i :: i in since ==> first <= i < |h|;
    HoldsRange(since, first, |h|);
    WithinRange(since, first, |h|);
  }

  /** Room in the window and nothing dialled in it for the last five seconds, or the window is over. */
  ghost predicate WindowAllows(h: seq<Admission>, w: nat, now: nat) {
    || w + 300 <= now
    || (|DialsSince(h, w)| < 8 && forall i :: i in DialsSince(h, w) ==> h[i].at + 5 <= now)
  }

  lemma RecordAllows(s: State, p: PeerId, h: seq<Admission>, w: nat, clock: nat, now: nat)
    requires WindowIs(s, p, Some(w)) && Budget(true, RetryOf(s, p), h, clock) && clock <= now
    requires p !in s.attempted && forall i :: 0 <= i < |h| ==> h[i].at >= 0
    ensures RetryAllowed(s, p, now).1 <==> WindowAllows(h, w, now)
  {
    DialsInWindow(s.retry[p], h, clock);
    assert s.retry[p].windowStarted <= clock;
    hide Budget, DialsSince;
  }

  /** The gate's answer after any run in which the clock does not run back and the peer's record is not evicted. */
  lemma GateExactly(ops: seq<Op>, p: PeerId, afterAddrUpdate: bool, now: nat)
    requires InOrder(ops) && Kept(ops, p) && Clock(ops) <= now
    ensures Gate(After(ops), p, afterAddrUpdate, now).1 <==>
              && p !in After(ops).attempted && (afterAddrUpdate || p !in After(ops).waiting)
              && var w := WindowStart(ops, p); w.None? || WindowAllows(Dialled(ops, p), w.value, now)
  {
    hide Inv, Budget, WindowAllows, After, WindowStart, Dialled;
    var s, w := After(ops), WindowStart(ops, p);
    WindowKnown(ops, p);
    BudgetHolds(ops, p);
    DialTimes(ops, p);
    if p !in s.attempted && w.Some? { RecordAllows(s, p, Dialled(ops, p), w.value, Clock(ops), now); }
  }

  // ---- how the last try ended ----

  datatype Phase = Idle | Dialling | Awaiting

  function NextPhase(phase: Phase, op: Op, p: PeerId, passes: bool): Phase {
    if op.Fail? && op.peer == p then Idle
    else if !op.Try? || !passes then phase
    else match op.outcome
      case DialStarted => Dialling
      case DialFailed => Idle
      case AwaitingAddress => Awaiting
      case Other => phase
  }

  /** What became of the peer's last try that was let through; a failure or a disconnect ends it. */
  ghost function PhaseOf(ops: seq<Op>, p: PeerId): Phase {
    if ops == [] then Idle
    else
      var front, op := ops[..|ops| - 1], ops[|ops| - 1];
      NextPhase(PhaseOf(front, p), op, p, Passes(After(front), op, p))
  }

  predicate About(op: Op, p: PeerId) { !op.Provider? && op.peer == p }

  /** Nothing that happens to other peers pushes `p` out of the two bounded sets. */
  ghost predicate Undisturbed(ops: seq<Op>, p: PeerId) {
    ops == []
    || (var front := ops[..|ops| - 1];
        && Undisturbed(front, p)
        && (About(ops[|ops| - 1], p) || Stays(After(front), After(ops), p)))
  }

  predicate Stays(s: State, t: State, p: PeerId) {
    (p in s.attempted ==> p in t.attempted) && (p in s.waiting ==> p in t.waiting)
  }

  predicate InPhase(s: State, p: PeerId, phase: Phase) {
    (p in s.attempted <==> phase.Dialling?) && (p in s.waiting <==> phase.Awaiting?)
  }

  /** Marking puts the peer itself in, and brings in nobody else. */
  lemma MarkSets(s: State, q: PeerId, now: nat)
    requires Inv(s)
    ensures var t := MarkAttempted(s, q, now).0;
            && q in t.attempted && t.waiting == s.waiting - {q} && t.attempted <= s.attempted + {q}
            && (|s.attempted + {q}| <= MAX_TRACKED ==> s.attempted <= t.attempted)
  {
    hide Without, Spend, Listing, Restrict, Elems;
    if q !in s.attempted { NewestSets(s.attemptedOrder, s.attempted, q); }
  }

  lemma WaitSets(s: State, q: PeerId)
    requires Inv(s)
    ensures var t := MarkWaiting(s, q).0;
            && (q !in s.attempted ==> q in t.waiting) && t.attempted == s.attempted && t.waiting <= s.waiting + {q}
            && (|s.waiting + {q}| <= MAX_TRACKED ==> s.waiting <= t.waiting)
  {
    hide Without, Listing, Elems;
    if q !in s.attempted && q !in s.waiting { NewestSets(s.waitingOrder, s.waiting, q); }
  }

  lemma NewestSets(order: seq<PeerId>, members: set<PeerId>, q: PeerId)
    requires Listing(order, members) && q !in members && |order| <= MAX_TRACKED
    ensures var kept := Elems(Newest(order + [q], MAX_TRACKED));
            && q in kept && kept <= members + {q} && (|members + {q}| <= MAX_TRACKED ==> members <= kept)
  {
    PushNewest(order, members, q, MAX_TRACKED);
    ListingSize(order, members);
    SetSizes(members, q);
    ListingElems(order, members);
    if |order| < MAX_TRACKED { assert Newest(order + [q], MAX_TRACKED) == order + [q]; }
  }

  lemma FailSets(s: State, q: PeerId)
    ensures var t := MarkFailed(s, q).0; t.attempted == s.attempted - {q} && t.waiting == s.waiting - {q}
  {
    hide Without;
  }

  lemma GateSets(s: State, p: PeerId, afterAddrUpdate: bool, now: nat)
    ensures var (t, go) := Gate(s, p, afterAddrUpdate, now);
            t.attempted == s.attempted && t.waiting == s.waiting && (go ==> p !in s.attempted)
  {}

  /** A try of `q` and the two sets. */
  lemma TrySets(s: State, op: Op)
    requires Inv(s) && op.Try?
    ensures var t, q, passes := Do(s, op), op.peer, Passes(s, op, op.peer);
            && t.attempted <= s.attempted + {q} && t.waiting <= s.waiting + {q}
            && (|s.attempted + {q}| <= MAX_TRACKED ==> s.attempted - {q} <= t.attempted)
            && (|s.waiting + {q}| <= MAX_TRACKED ==> s.waiting - {q} <= t.waiting)
            && forall phase :: InPhase(s, q, phase) ==> InPhase(t, q, NextPhase(phase, op, q, passes))
  {
    hide Inv, Gate, MarkAttempted, MarkFailed, MarkWaiting;
    var s1 := Gate(s, op.peer, op.afterAddrUpdate, op.now).0;
    GateSets(s, op.peer, op.afterAddrUpdate, op.now);
    GateKeeps(s, op.peer, op.afterAddrUpdate, op.now);
    MarkSets(s1, op.peer, op.now);
    WaitSets(s1, op.peer);
    FailSets(MarkAttempted(s1, op.peer, op.now).0, op.peer);
    Disjoint(s);
  }

  lemma Disjoint(s: State)
    requires Inv(s)
    ensures s.attempted !! s.waiting
  {}

  lemma ProviderSets(s: State, p: PeerId, namespace: string)
    requires Inv(s)
    ensures var t := RecordProvider(s, p, namespace).0;
            && t.attempted <= s.attempted && t.waiting <= s.waiting
            && t.discovered.Keys <= s.discovered.Keys + {p}
            && (|s.discovered.Keys + {p}| <= MAX_TRACKED ==> t.attempted == s.attempted && t.waiting == s.waiting)
  {
    hide Inv, RecordProvider;
    if p !in s.discovered {
      OldestProviderForgotten(s, p, namespace);
      SetSizes(s.discovered.Keys, p);
      assert |s.discovered| == |s.discovered.Keys|;
    } else {
      KnownProvider(s, p, namespace);
    }
  }

  lemma KnownProvider(s: State, p: PeerId, namespace: string)
    requires p in s.discovered
    ensures var t := RecordProvider(s, p, namespace).0;
            && t == s.(discovered := t.discovered) && t.discovered.Keys == s.discovered.Keys
            && t.discovered[p] == s.discovered[p] + {namespace}
  {}

  /** One operation, as the phase of `p` sees it. */
  lemma PhaseStep(s: State, op: Op, p: PeerId, phase: Phase)
    requires Inv(s) && (p in s.attempted ==> phase.Dialling?) && (p in s.waiting ==> phase.Awaiting?)
    ensures var t, next := Do(s, op), NextPhase(phase, op, p, Passes(s, op, p));
            && (p in t.attempted ==> next.Dialling?) && (p in t.waiting ==> next.Awaiting?)
            && (InPhase(s, p, phase) && (About(op, p) || Stays(s, t, p)) ==> InPhase(t, p, next))
  {
    hide Inv, Gate, TryConnect, MarkFailed, RecordProvider;
    match op
    case Try(q, _, _, _) =>
      TrySets(s, op);
      if q == p { OwnPhase(s, op, phase); }
    case Fail(q) => FailSets(s, q);
    case Provider(q, namespace) => ProviderSets(s, q, namespace);
  }

  lemma OwnPhase(s: State, op: Op, phase: Phase)
    requires Inv(s) && op.Try? && (op.peer in s.attempted ==> phase.Dialling?)
    requires op.peer in s.waiting ==> phase.Awaiting?
    ensures var t, p := Do(s, op), op.peer; var next := NextPhase(phase, op, p, Passes(s, op, p));
            (p in t.attempted ==> next.Dialling?) && (p in t.waiting ==> next.Awaiting?)
  {
    hide Inv, Gate, TryConnect;
    var p := op.peer;
    TrySets(s, op);
    Disjoint(s);
    var held := if p in s.attempted then Dialling else if p in s.waiting then Awaiting else Idle;
    assert InPhase(s, p, held);
  }

  lemma {:induction false} PhaseFollows(ops: seq<Op>, p: PeerId)
    ensures p in After(ops).attempted ==> PhaseOf(ops, p).Dialling?
    ensures p in After(ops).waiting ==> PhaseOf(ops, p).Awaiting?
    ensures Undisturbed(ops, p) ==> InPhase(After(ops), p, PhaseOf(ops, p))
  {
    hide Inv, Do, Gate, Passes, NextPhase;
    if ops != [] {
      var front, op := ops[..|ops| - 1], ops[|ops| - 1];
      PhaseFollows(front, p);
      PhaseStep(After(front), op, p, PhaseOf(front, p));
    }
  }

  /** A record, and a dial under way, are only ever left by a dial. */
  lemma {:induction false} OnlyDialsLeaveRecords(ops: seq<Op>, p: PeerId)
    requires Dialled(ops, p) == []
    ensures p !in After(ops).retry && !PhaseOf(ops, p).Dialling?
  {
    hide Inv, Do, Gate, Tag, RetryOf;
    if ops != [] {
      var front, op := ops[..|ops| - 1], ops[|ops| - 1];
      OnlyDialsLeaveRecords(front, p);
      if op.Try? && op.peer == p {
        OwnRecord(After(front), op);
        GateKeys(After(front), p, op.afterAddrUpdate, op.now);
      } else {
        OthersLeaveRecord(After(front), op, p);
      }
    }
  }

  /** A peer never dialled is let through, unless it waits for an address and this is not one. */
  lemma NeverDialled(ops: seq<Op>, p: PeerId, afterAddrUpdate: bool, now: nat)
    requires Dialled(ops, p) == []
    ensures Gate(After(ops), p, afterAddrUpdate, now).1 <==> afterAddrUpdate || p !in After(ops).waiting
  {
    hide Inv, After, Dialled;
    OnlyDialsLeaveRecords(ops, p);
    PhaseFollows(ops, p);
  }

  /** The gate's answer from the history alone, where the caps evict nothing of the peer. */
  lemma GateFromHistory(ops: seq<Op>, p: PeerId, afterAddrUpdate: bool, now: nat)
    requires InOrder(ops) && Kept(ops, p) && Undisturbed(ops, p) && Clock(ops) <= now
    ensures Gate(After(ops), p, afterAddrUpdate, now).1 <==>
              && !PhaseOf(ops, p).Dialling? && (afterAddrUpdate || !PhaseOf(ops, p).Awaiting?)
              && var w := WindowStart(ops, p); w.None? || WindowAllows(Dialled(ops, p), w.value, now)
  {
    hide Inv, Gate, After, WindowStart, WindowAllows, Dialled, PhaseOf, InOrder, Kept, Undisturbed;
    PhaseFollows(ops, p);
    GateExactly(ops, p, afterAddrUpdate, now);
  }

  // ---- runs with few peers ----

  function Providers(ops: seq<Op>): set<PeerId> { set i | 0 <= i < |ops| && ops[i].Provider? :: ops[i].peer }

  lemma ProvidersPush(ops: seq<Op>, op: Op)
    ensures Providers(ops + [op]) == Providers(ops) + if op.Provider? then {op.peer} else {}
  {
    var longer := ops + [op];
    assert longer[|ops|] == op && forall i :: 0 <= i < |ops| ==> longer[i] == ops[i];
    forall q | q in Providers(ops) ensures q in Providers(longer) {
      var i :| 0 <= i < |ops| && ops[i].Provider? && ops[i].peer == q;
      assert longer[i] == ops[i];
    }
  }

  /** The sets hold only peers that were tried or found. */
  ghost predicate Among(s: State, tried: set<PeerId>, found: set<PeerId>) {
    s.attempted <= tried && s.waiting <= tried && s.discovered.Keys <= found
  }

  lemma FewStep(s: State, op: Op, p: PeerId, tried: set<PeerId>, found: set<PeerId>)
    requires Inv(s) && Among(s, tried, found) && |tried| <= MAX_TRACKED && |found| <= MAX_TRACKED
    requires (op.Try? ==> op.peer in tried) && (op.Provider? ==> op.peer in found)
    ensures Among(Do(s, op), tried, found) && (About(op, p) || Stays(s, Do(s, op), p))
  {
    hide Inv, TryConnect, MarkFailed, RecordProvider, Passes, NextPhase;
    match op
    case Try(q, _, _, _) =>
      TrySets(s, op);
      TryDiscovers(s, op);
      SubsetSize(s.attempted + {q}, tried);
      SubsetSize(s.waiting + {q}, tried);
    case Fail(q) =>
      FailSets(s, q);
      FailDiscovers(s, q);
    case Provider(q, namespace) =>
      SubsetSize(s.discovered.Keys + {q}, found);
      ProviderSets(s, q, namespace);
  }

  lemma TryDiscovers(s: State, op: Op)
    requires op.Try?
    ensures Do(s, op).discovered == s.discovered
  {
    hide Without, Newest, Elems, Restrict, Spend;
  }

  lemma FailDiscovers(s: State, q: PeerId)
    ensures MarkFailed(s, q).0.discovered == s.discovered
  {
    hide Without;
  }

  lemma AmongMore(s: State, a: set<PeerId>, b: set<PeerId>, c: set<PeerId>, d: set<PeerId>)
    requires Among(s, a, b) && a <= c && b <= d
    ensures Among(s, c, d)
  {}

  lemma {:induction false} UndisturbedWhenFew(ops: seq<Op>, p: PeerId)
    requires |Candidates(ops)| <= MAX_TRACKED && |Providers(ops)| <= MAX_TRACKED
    ensures Among(After(ops), Candidates(ops), Providers(ops)) && Undisturbed(ops, p)
  {
    hide Inv, Do, Among, Candidates, Providers, Stays, About, Empty;
    if ops == [] {
      AmongNothing();
    } else {
      var front, op := ops[..|ops| - 1], ops[|ops| - 1];
      assert ops == front + [op];
      CandidatesPush(front, op);
      ProvidersPush(front, op);
      SubsetSize(Candidates(front), Candidates(ops));
      SubsetSize(Providers(front), Providers(ops));
      UndisturbedWhenFew(front, p);
      AmongMore(After(front), Candidates(front), Providers(front), Candidates(ops), Providers(ops));
      FewStep(After(front), op, p, Candidates(ops), Providers(ops));
    }
  }

  lemma AmongNothing()
    ensures Among(Empty(), Candidates([]), Providers([]))
  {}

  /** In a run with at most 2048 peers tried and found, the history decides every answer of the gate. */
  lemma GateWhenFew(ops: seq<Op>, p: PeerId, afterAddrUpdate: bool, now: nat)
    requires InOrder(ops) && Clock(ops) <= now && |Candidates(ops)| <= MAX_TRACKED && |Providers(ops)| <= MAX_TRACKED
    ensures Gate(After(ops), p, afterAddrUpdate, now).1 <==>
              && !PhaseOf(ops, p).Dialling? && (afterAddrUpdate || !PhaseOf(ops, p).Awaiting?)
              && var w := WindowStart(ops, p); w.None? || WindowAllows(Dialled(ops, p), w.value, now)
  {
    hide Gate, After, WindowStart, WindowAllows, Dialled, PhaseOf, InOrder, Kept, Undisturbed, Among;
    KeptWhenFew(ops, p);
    UndisturbedWhenFew(ops, p);
    GateFromHistory(ops, p, afterAddrUpdate, now);
  }
}
