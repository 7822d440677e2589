/**
 Automatic connection to discovered peers: which peers have been attempted or wait
 for addresses, the bounded queues behind those sets, and the retry budget.
 */
module AutoConnect {
  import opened Base
  import opened BoundedSets
  import opened ProviderLookups
  import opened RateWindows

  const MAX_TRACKED: nat := 2048
  const WINDOW_SECS: nat := 300
  const COOLDOWN_SECS: nat := 5
  const ADDR_LOOKUP_COOLDOWN_SECS: nat := 30
  const MAX_ATTEMPTS: nat := 8

  /** Attempts in the current window, when it began and when the last attempt was (seconds). */
  datatype Retry = Retry(attempts: nat, windowStarted: nat, lastAttempt: nat)

  /** Address look-ups by peer, and address-record look-ups by peer and namespace. */
  datatype Lookups = Lookups(addr: Table<PeerId>, record: Table<(PeerId, string)>)

  function Self(p: PeerId): PeerId { p }
  function PeerOf(k: (PeerId, string)): PeerId { k.0 }

  function NoLookups(): Lookups { Lookups(Table(map[], map[]), Table(map[], map[])) }

  function ForgetPeer(l: Lookups, p: PeerId): Lookups { Lookups(Forget(l.addr, Self, p), Forget(l.record, PeerOf, p)) }

  datatype State = State(
    discovered: map<PeerId, set<string>>, discoveredOrder: seq<PeerId>,
    attempted: set<PeerId>, attemptedOrder: seq<PeerId>,
    waiting: set<PeerId>, waitingOrder: seq<PeerId>,
    retry: map<PeerId, Retry>, retryOrder: seq<PeerId>,
    lookups: Lookups)

  function Empty(): State { State(map[], [], {}, [], {}, [], map[], [], NoLookups()) }

  /** Every queue lists its set or map, the two sets are disjoint and everything is bounded. */
  ghost predicate Inv(s: State) {
    Listing(s.discoveredOrder, s.discovered.Keys) && |s.discoveredOrder| <= MAX_TRACKED && TrackingOk(s)
  }

  ghost predicate TrackingOk(s: State) {
    && Listing(s.attemptedOrder, s.attempted) && |s.attemptedOrder| <= MAX_TRACKED
    && Listing(s.waitingOrder, s.waiting) && |s.waitingOrder| <= MAX_TRACKED
    && Listing(s.retryOrder, s.retry.Keys) && |s.retryOrder| <= MAX_TRACKED
    && s.attempted !! s.waiting
  }

  // ---- the operations ----

  function Since(now: nat, then_: nat): nat { if now < then_ then 0 else now - then_ }

  function DropWaiting(s: State, p: PeerId): State {
    s.(waiting := s.waiting - {p}, waitingOrder := Without(s.waitingOrder, p))
  }

  function DropAttempted(s: State, p: PeerId): State {
    s.(attempted := s.attempted - {p}, attemptedOrder := Without(s.attemptedOrder, p))
  }

  function DropLookups(s: State, p: PeerId): State { s.(lookups := ForgetPeer(s.lookups, p)) }

  /** All that is tracked for a provider, except its retry record. */
  function DropEverywhere(s: State, p: PeerId): State { DropLookups(DropWaiting(DropAttempted(s, p), p), p) }

  function RetryOf(s: State, p: PeerId): Retry { if p in s.retry then s.retry[p] else Retry(0, 0, 0) }

  /** The budget record after one more attempt. */
  function Spend(r: Retry, now: nat): Retry {
    if r.windowStarted == 0 || Since(now, r.windowStarted) >= WINDOW_SECS
    then Retry(1, now, now)
    else Retry(if r.attempts == 0xFFFF_FFFF then r.attempts else r.attempts + 1, r.windowStarted, now)
  }

  function MarkAttempted(s: State, p: PeerId, now: nat): (State, bool) {
    var s1 := DropWaiting(s, p);
    if p in s1.attempted then (s1, false)
    else
      var retry := s1.retry[p := Spend(RetryOf(s1, p), now)];
      var retryOrder := Newest(if p in s1.retry then s1.retryOrder else s1.retryOrder + [p], MAX_TRACKED);
      var order := Newest(s1.attemptedOrder + [p], MAX_TRACKED);
      (s1.(retry := Restrict(retry, retryOrder), retryOrder := retryOrder,
           attempted := Elems(order), attemptedOrder := order), true)
  }

  function MarkWaiting(s: State, p: PeerId): (State, bool) {
    if p in s.attempted || p in s.waiting then (s, false)
    else
      var order := Newest(s.waitingOrder + [p], MAX_TRACKED);
      (s.(waiting := Elems(order), waitingOrder := order), true)
  }

  function MarkFailed(s: State, p: PeerId): (State, bool) {
    (DropAttempted(DropWaiting(s, p), p), p in s.attempted)
  }

  /** The retry gate; it restarts a window that is over. */
  function RetryAllowed(s: State, p: PeerId, now: nat): (State, bool) {
    if p in s.attempted then (s, false)
    else if p !in s.retry then (s, true)
    else if Since(now, s.retry[p].windowStarted) >= WINDOW_SECS
    then (s.(retry := s.retry[p := Retry(0, now, 0)]), true)
    else (s, s.retry[p].attempts < MAX_ATTEMPTS && Since(now, s.retry[p].lastAttempt) >= COOLDOWN_SECS)
  }

  /** `afterAddrUpdate` skips the waiting test: a new address is what the peer was waiting for. */
  function Gate(s: State, p: PeerId, afterAddrUpdate: bool, now: nat): (State, bool) {
    if !afterAddrUpdate && p in s.waiting then (s, false) else RetryAllowed(s, p, now)
  }

  function RecordProvider(s: State, p: PeerId, namespace: string): (State, bool) {
    var known := if p in s.discovered then s.discovered[p] else {};
    var found := s.discovered[p := known + {namespace}];
    if p in s.discovered then (s.(discovered := found), namespace !in known)
    else
      var order := s.discoveredOrder + [p];
      var kept := Newest(order, MAX_TRACKED);
      var s1 := s.(discovered := Restrict(found, kept), discoveredOrder := kept);
      (if |order| > MAX_TRACKED then DropEverywhere(s1, order[0]) else s1, true)
  }

  datatype Outcome = DialStarted | DialFailed | AwaitingAddress | Other

  /** One auto-connect: the gate, and what the outcome of the dial is recorded as. */
  function TryConnect(s: State, p: PeerId, afterAddrUpdate: bool, now: nat, outcome: Outcome): State {
    var (s1, go) := Gate(s, p, afterAddrUpdate, now);
    if !go then s1
    else match outcome
      case DialStarted => MarkAttempted(s1, p, now).0
      case DialFailed => MarkFailed(MarkAttempted(s1, p, now).0, p).0
      case AwaitingAddress => MarkWaiting(s1, p).0
      case Other => s1
  }

  // ---- every operation keeps the invariant ----

  lemma DropsKeep(s: State, p: PeerId)
    requires Inv(s)
    ensures Inv(DropWaiting(s, p)) && Inv(DropAttempted(s, p))
  {
    hide Listing, Without;
    ListingRemove(s.waitingOrder, s.waiting, p);
    ListingRemove(s.attemptedOrder, s.attempted, p);
    ListingSize(s.waitingOrder, s.waiting);
    ListingSize(s.attemptedOrder, s.attempted);
    ListingSize(Without(s.waitingOrder, p), s.waiting - {p});
    ListingSize(Without(s.attemptedOrder, p), s.attempted - {p});
  }

  lemma NewestListing<T>(order: seq<T>, max: nat)
    requires NoDup(order)
    ensures Listing(Newest(order, max), Elems(Newest(order, max))) && |Newest(order, max)| <= max
    ensures forall x :: x in Newest(order, max) ==> x in order
  {}

  lemma PushNewest<T>(order: seq<T>, members: set<T>, x: T, max: nat)
    requires Listing(order, members) && x !in members && |order| <= max && max > 0
    ensures var kept := Newest(order + [x], max);
            Listing(kept, Elems(kept)) && |kept| <= max && x in kept && forall y :: y in kept ==> y == x || y in members
  {
    ListingPush(order, members, x);
    NewestListing(order + [x], max);
    var kept := Newest(order + [x], max);
    assert kept[|kept| - 1] == x;
  }

  lemma RestrictKeys<V>(m: map<PeerId, V>, keys: seq<PeerId>)
    requires forall p :: p in keys ==> p in m
    ensures Restrict(m, keys).Keys == Elems(keys)
  {}

  lemma RetryListing(s: State, p: PeerId, now: nat)
    requires Inv(s)
    ensures var order := Newest(if p in s.retry then s.retryOrder else s.retryOrder + [p], MAX_TRACKED);
            && |order| <= MAX_TRACKED && p in order
            && Listing(order, Restrict(s.retry[p := Spend(RetryOf(s, p), now)], order).Keys)
  {
    var order := Newest(if p in s.retry then s.retryOrder else s.retryOrder + [p], MAX_TRACKED);
    if p in s.retry {
      NewestListing(s.retryOrder, MAX_TRACKED);
    } else {
      PushNewest(s.retryOrder, s.retry.Keys, p, MAX_TRACKED);
    }
    RestrictKeys(s.retry[p := Spend(RetryOf(s, p), now)], order);
  }

  lemma MarkAttemptedKeeps(s: State, p: PeerId, now: nat)
    requires Inv(s)
    ensures Inv(MarkAttempted(s, p, now).0)
  {
    hide Listing, Newest, Restrict, Spend;
    DropsKeep(s, p);
    var s1 := DropWaiting(s, p);
    if p !in s1.attempted {
      RetryListing(s1, p, now);
      PushNewest(s1.attemptedOrder, s1.attempted, p, MAX_TRACKED);
    }
  }

  lemma MarkWaitingKeeps(s: State, p: PeerId)
    requires Inv(s)
    ensures Inv(MarkWaiting(s, p).0)
  {
    hide Listing, Newest;
    if p !in s.attempted && p !in s.waiting {
      PushNewest(s.waitingOrder, s.waiting, p, MAX_TRACKED);
    }
  }

  lemma GateKeeps(s: State, p: PeerId, afterAddrUpdate: bool, now: nat)
    requires Inv(s)
    ensures Inv(Gate(s, p, afterAddrUpdate, now).0)
  {
    hide Listing;
    assert p in s.retry ==> s.retry[p := Retry(0, now, 0)].Keys == s.retry.Keys;
  }

  lemma RecordProviderKeeps(s: State, p: PeerId, namespace: string)
    requires Inv(s)
    ensures Inv(RecordProvider(s, p, namespace).0)
  {
    hide Listing, Newest, Restrict;
    var known := if p in s.discovered then s.discovered[p] else {};
    var found := s.discovered[p := known + {namespace}];
    if p in s.discovered {
      assert found.Keys == s.discovered.Keys;
    } else {
      var order := s.discoveredOrder + [p];
      var kept := Newest(order, MAX_TRACKED);
      PushNewest(s.discoveredOrder, s.discovered.Keys, p, MAX_TRACKED);
      RestrictKeys(found, kept);
      var s1 := s.(discovered := Restrict(found, kept), discoveredOrder := kept);
      DropsKeep(s1, order[0]);
      DropsKeep(DropAttempted(s1, order[0]), order[0]);
    }
  }

  lemma NewProvider(s: State, p: PeerId, namespace: string)
    requires Inv(s) && p !in s.discovered
    ensures var found, order := s.discovered[p := {namespace}], s.discoveredOrder + [p];
            RecordProvider(s, p, namespace).0 ==
              if |order| > MAX_TRACKED
              then DropEverywhere(s.(discovered := Restrict(found, order[1..]), discoveredOrder := order[1..]),
                  order[0])
              else s.(discovered := found, discoveredOrder := order)
  {
    hide DropEverywhere, Listing, Restrict;
    var found, order := s.discovered[p := {namespace}], s.discoveredOrder + [p];
    assert {} + {namespace} == {namespace};
    ListingPush(s.discoveredOrder, s.discovered.Keys, p);
    assert found.Keys == s.discovered.Keys + {p};
    RestrictAll(found, order);
  }

  /** Nothing is kept about `p` but its retry record. */
  ghost predicate Forgotten(s: State, p: PeerId) {
    && p !in s.discovered && p !in s.attempted && p !in s.waiting && p !in s.lookups.addr.started
    && (forall id :: id in s.lookups.addr.queries ==> s.lookups.addr.queries[id] != p)
    && (forall k :: k in s.lookups.record.started ==> k.0 != p)
    && (forall id :: id in s.lookups.record.queries ==> s.lookups.record.queries[id].0 != p)
  }

  /**
   A provider beyond the cap pushes out exactly the one seen first longest ago, and that one is
   forgotten everywhere; below the cap nobody goes.
   */
  lemma OldestProviderForgotten(s: State, p: PeerId, namespace: string)
    requires Inv(s) && p !in s.discovered
    ensures var t := RecordProvider(s, p, namespace).0;
            && p in t.discovered && t.discovered[p] == {namespace} && t.retry == s.retry
            && (|s.discovered| < MAX_TRACKED ==>
                t == s.(discovered := t.discovered, discoveredOrder := t.discoveredOrder)
                                                 && t.discovered.Keys == s.discovered.Keys + {p})
            && (|s.discovered| == MAX_TRACKED ==>
                  var gone := s.discoveredOrder[0];
                  && gone in s.discovered && Forgotten(t, gone)
                  && t.discovered.Keys == s.discovered.Keys + {p} - {gone}
                  && t.attempted == s.attempted - {gone} && t.waiting == s.waiting - {gone})
            && |s.discovered| <= MAX_TRACKED
  {
    hide RecordProvider, Listing, Without, DropEverywhere, Forgotten, Restrict;
    var found, order := s.discovered[p := {namespace}], s.discoveredOrder + [p];
    NewProvider(s, p, namespace);
    ListingSize(s.discoveredOrder, s.discovered.Keys);
    ListingPush(s.discoveredOrder, s.discovered.Keys, p);
    assert found.Keys == s.discovered.Keys + {p};
    if |order| > MAX_TRACKED {
      ListingPop(order, found.Keys);
      RestrictAll(found, order);
      RestrictPop(found, order);
      ListedFirst(s.discoveredOrder, s.discovered.Keys);
      DropsEverywhere(s.(discovered := found - {order[0]}, discoveredOrder := order[1..]), order[0]);
    }
  }

  lemma DropsEverywhere(s: State, gone: PeerId)
    ensures var t := DropEverywhere(s, gone);
            && (gone !in s.discovered ==> Forgotten(t, gone)) && t.discovered == s.discovered && t.retry == s.retry
            && t.attempted == s.attempted - {gone} && t.waiting == s.waiting - {gone}
  {
    hide Without;
  }

  lemma ListedFirst<T>(order: seq<T>, members: set<T>)
    requires Listing(order, members) && order != []
    ensures order[0] in members
  {}

  lemma TryConnectKeeps(s: State, p: PeerId, afterAddrUpdate: bool, now: nat, outcome: Outcome)
    requires Inv(s)
    ensures Inv(TryConnect(s, p, afterAddrUpdate, now, outcome))
  {
    hide Inv, Gate, MarkAttempted, MarkWaiting, DropWaiting, DropAttempted;
    GateKeeps(s, p, afterAddrUpdate, now);
    var s1 := Gate(s, p, afterAddrUpdate, now).0;
    MarkAttemptedKeeps(s1, p, now);
    MarkWaitingKeeps(s1, p);
    var s2 := MarkAttempted(s1, p, now).0;
    DropsKeep(s2, p);
    DropsKeep(DropWaiting(s2, p), p);
  }

  // ---- the retry budget over whole runs ----

  datatype Op =
    | Try(peer: PeerId, afterAddrUpdate: bool, now: nat, outcome: Outcome)
    | Fail(peer: PeerId)          // a dial failed later, or the peer disconnected
    | Provider(peer: PeerId, namespace: string)

  function Do(s: State, op: Op): State {
    match op
    case Try(p, afterAddrUpdate, now, outcome) => TryConnect(s, p, afterAddrUpdate, now, outcome)
    case Fail(p) => MarkFailed(s, p).0
    case Provider(p, namespace) => RecordProvider(s, p, namespace).0
  }

  ghost function After(ops: seq<Op>): (s: State)
    ensures Inv(s)
  {
    if ops == [] then Empty()
    else
      var s, op := After(ops[..|ops| - 1]), ops[|ops| - 1];
      DoKeeps(s, op);
      Do(s, op)
  }

  lemma DoKeeps(s: State, op: Op)
    requires Inv(s)
    ensures Inv(Do(s, op))
  {
    hide Inv;
    match op
    case Try(p, afterAddrUpdate, now, outcome) => TryConnectKeeps(s, p, afterAddrUpdate, now, outcome);
    case Fail(p) =>
      DropsKeep(s, p);
      DropsKeep(DropWaiting(s, p), p);
    case Provider(p, namespace) => RecordProviderKeeps(s, p, namespace);
  }

  /** The operation dials `p`: the gate said yes and the dial was started or failed at once. */
  predicate Dials(s: State, op: Op, p: PeerId) {
    op.Try? && op.peer == p && (op.outcome.DialStarted? || op.outcome.DialFailed?)
    && Gate(s, p, op.afterAddrUpdate, op.now).1
  }

  /** The window start, with the epoch itself, which the code reads as "no window", placed before time 1. */
  function Tag(windowStarted: nat): int { if windowStarted == 0 then 1 - WINDOW_SECS else windowStarted }

  /** Every dial of `p` in the run, with the retry window it was counted in. */
  ghost function Dialled(ops: seq<Op>, p: PeerId): seq<Admission> {
    if ops == [] then []
    else
      var front, op := ops[..|ops| - 1], ops[|ops| - 1];
      Dialled(front, p)
      + if Dials(After(front), op, p) then [Admission(op.now, Tag(RetryOf(After(ops), p).windowStarted))] else []
  }

  ghost predicate Spaced(h: seq<Admission>) {
    forall i :: 0 < i < |h| && h[i - 1].window == h[i].window ==> h[i].at - h[i - 1].at >= COOLDOWN_SECS
  }

  /** The budget record of a peer against all its dials. */
  ghost predicate Budget(known: bool, r: Retry, h: seq<Admission>, clock: nat) {
    if !known then h == []
    else
      && Ledger(h, Tag(r.windowStarted), r.attempts, WINDOW_SECS, MAX_ATTEMPTS, clock) && Spaced(h)
      && (r.attempts > 0 ==> r.lastAttempt == h[|h| - 1].at)
  }

  lemma BudgetLater(known: bool, r: Retry, h: seq<Admission>, clock: nat, now: nat)
    requires Budget(known, r, h, clock) && clock <= now
    ensures Budget(known, r, h, now)
  {
    if known { LedgerLater(h, Tag(r.windowStarted), r.attempts, WINDOW_SECS, MAX_ATTEMPTS, clock, now); }
  }

  lemma BudgetReset(r: Retry, h: seq<Admission>, clock: nat, now: nat)
    requires Budget(true, r, h, clock) && clock <= now && Since(now, r.windowStarted) >= WINDOW_SECS
    ensures Budget(true, Retry(0, now, 0), h, now)
  {
    LedgerRoll(h, Tag(r.windowStarted), r.attempts, WINDOW_SECS, MAX_ATTEMPTS, clock, now);
  }

  /** A dial the gate let through, in a window that goes on or starts with it. */
  lemma BudgetSpend(known: bool, r: Retry, h: seq<Admission>, clock: nat, now: nat)
    requires Budget(known, r, h, clock) && clock <= now && (!known ==> r == Retry(0, 0, 0))
    requires known ==> Since(now, r.windowStarted) < WINDOW_SECS && r.attempts < MAX_ATTEMPTS
    requires known ==> Since(now, r.lastAttempt) >= COOLDOWN_SECS
    ensures var after := Spend(r, now); Budget(true, after, h + [Admission(now, Tag(after.windowStarted))], now)
  {
    var after := Spend(r, now);
    var start, count := Tag(after.windowStarted), after.attempts - 1;
    assert Ledger(h, start, count, WINDOW_SECS, MAX_ATTEMPTS, now) by {
      if known && r.windowStarted == 0 {
        LedgerRoll(h, Tag(0), r.attempts, WINDOW_SECS, MAX_ATTEMPTS, clock, now);
      } else if known {
        LedgerLater(h, start, count, WINDOW_SECS, MAX_ATTEMPTS, clock, now);
      }
    }
    LedgerAdmit(h, start, count, WINDOW_SECS, MAX_ATTEMPTS, now, now);
    assert known && |h| > 0 && h[|h| - 1].window == start ==> r.attempts > 0 && r.windowStarted == after.windowStarted;
  }

  ghost function Clock(ops: seq<Op>): nat {
    if ops == [] then 0 else if ops[|ops| - 1].Try? then ops[|ops| - 1].now else Clock(ops[..|ops| - 1])
  }

  ghost predicate InOrder(ops: seq<Op>) {
    ops == [] || (InOrder(ops[..|ops| - 1]) && Clock(ops[..|ops| - 1]) <= Clock(ops))
  }

  /** The retry record of `p`, once there, is never evicted by the cap. */
  ghost predicate Kept(ops: seq<Op>, p: PeerId) {
    ops == [] || (Kept(ops[..|ops| - 1], p) && (p in After(ops[..|ops| - 1]).retry ==> p in After(ops).retry))
  }

  /** Marking one peer attempted records its dial and touches no other record, unless it evicts it. */
  lemma MarkRecords(s: State, q: PeerId, now: nat, p: PeerId)
    requires Inv(s)
    ensures var t := MarkAttempted(s, q, now).0;
            && (p != q && p in t.retry ==> p in s.retry && t.retry[p] == s.retry[p])
            && (q !in s.attempted ==> q in t.retry && t.retry[q] == Spend(RetryOf(s, q), now))
  {
    hide Inv, Listing, Without, Newest, Spend, Elems;
    var s1 := DropWaiting(s, q);
    DropsKeep(s, q);
    RetryListing(s1, q, now);
  }

  lemma UntouchedRecords(s: State, q: PeerId, namespace: string)
    ensures MarkFailed(s, q).0.retry == s.retry && MarkWaiting(s, q).0.retry == s.retry
    ensures RecordProvider(s, q, namespace).0.retry == s.retry
  {
    hide Without, Newest, Elems, Restrict;
  }

  /** Operations on other peers, failures and disconnects leave the record of `p` as it is, unless they evict it. */
  lemma OthersLeaveRecord(s: State, op: Op, p: PeerId)
    requires Inv(s) && !(op.Try? && op.peer == p)
    ensures p in Do(s, op).retry ==> p in s.retry && Do(s, op).retry[p] == s.retry[p]
  {
    hide Inv, MarkAttempted, MarkFailed, MarkWaiting, RecordProvider;
    if op.Try? {
      var s1 := Gate(s, op.peer, op.afterAddrUpdate, op.now).0;
      GateKeeps(s, op.peer, op.afterAddrUpdate, op.now);
      MarkRecords(s1, op.peer, op.now, p);
      UntouchedRecords(s1, op.peer, "");
      UntouchedRecords(MarkAttempted(s1, op.peer, op.now).0, op.peer, "");
    } else if op.Fail? {
      UntouchedRecords(s, op.peer, "");
    } else {
      UntouchedRecords(s, op.peer, op.namespace);
    }
  }

  /** What a try does to the record of its own peer. */
  lemma OwnRecord(s: State, op: Op)
    requires Inv(s) && op.Try?
    ensures var p, s1 := op.peer, Gate(s, op.peer, op.afterAddrUpdate, op.now).0;
            if Dials(s, op, p) then p in Do(s, op).retry && Do(s, op).retry[p] == Spend(RetryOf(s1, p), op.now)
            else Do(s, op).retry == s1.retry
  {
    hide Inv, MarkAttempted, MarkFailed, MarkWaiting, Spend;
    var p, s1 := op.peer, Gate(s, op.peer, op.afterAddrUpdate, op.now).0;
    GateKeeps(s, p, op.afterAddrUpdate, op.now);
    MarkRecords(s1, p, op.now, p);
    UntouchedRecords(s1, p, "");
    UntouchedRecords(MarkAttempted(s1, p, op.now).0, p, "");
  }

  /** The gate either leaves the record or restarts a window that is over; a yes leaves room for one more dial. */
  lemma GateRecord(s: State, op: Op, h: seq<Admission>, clock: nat)
    requires op.Try? && clock <= op.now && Budget(op.peer in s.retry, RetryOf(s, op.peer), h, clock)
    ensures var (s1, go) := Gate(s, op.peer, op.afterAddrUpdate, op.now);
            var known, r := op.peer in s1.retry, RetryOf(s1, op.peer);
            && Budget(known, r, h, op.now)
            && (go && known ==> Since(op.now, r.windowStarted) < WINDOW_SECS && r.attempts < MAX_ATTEMPTS
                                && Since(op.now, r.lastAttempt) >= COOLDOWN_SECS)
  {
    hide Budget;
    var p := op.peer;
    if p in s.retry && Since(op.now, s.retry[p].windowStarted) >= WINDOW_SECS {
      BudgetReset(s.retry[p], h, clock, op.now);
    }
    BudgetLater(p in s.retry, RetryOf(s, p), h, clock, op.now);
  }

  lemma BudgetOwn(s: State, op: Op, h: seq<Admission>, clock: nat)
    requires Inv(s) && op.Try? && clock <= op.now && Budget(op.peer in s.retry, RetryOf(s, op.peer), h, clock)
    ensures var t, p := Do(s, op), op.peer;
            Budget(p in t.retry, RetryOf(t, p),
                   h + (if Dials(s, op, p) then [Admission(op.now, Tag(RetryOf(t, p).windowStarted))] else []), op.now)
  {
    hide Budget, Do, Inv, Spend, Tag, Since;
    var p, s1 := op.peer, Gate(s, op.peer, op.afterAddrUpdate, op.now).0;
    GateRecord(s, op, h, clock);
    OwnRecord(s, op);
    if Dials(s, op, p) {
      BudgetSpend(p in s1.retry, RetryOf(s1, p), h, op.now, op.now);
    } else {
      assert h + [] == h;
    }
  }

  lemma BudgetOthers(s: State, op: Op, p: PeerId, h: seq<Admission>, clock: nat, now: nat)
    requires Inv(s) && !(op.Try? && op.peer == p) && clock <= now && Budget(p in s.retry, RetryOf(s, p), h, clock)
    requires p in s.retry ==> p in Do(s, op).retry
    ensures Budget(p in Do(s, op).retry, RetryOf(Do(s, op), p), h, now)
  {
    hide Budget, Do, Inv;
    OthersLeaveRecord(s, op, p);
    BudgetLater(p in s.retry, RetryOf(s, p), h, clock, now);
  }

  lemma BudgetStart(p: PeerId)
    ensures Budget(p in Empty().retry, RetryOf(Empty(), p), [], 0)
  {}

  lemma {:induction false} BudgetHolds(ops: seq<Op>, p: PeerId)
    requires InOrder(ops) && Kept(ops, p)
    ensures Budget(p in After(ops).retry, RetryOf(After(ops), p), Dialled(ops, p), Clock(ops))
  {
    hide Budget, Do, Gate, Inv, RetryOf, Tag, Empty;
    if ops == [] {
      BudgetStart(p);
    } else {
      var front, op := ops[..|ops| - 1], ops[|ops| - 1];
      BudgetHolds(front, p);
      if op.Try? && op.peer == p {
        BudgetOwn(After(front), op, Dialled(front, p), Clock(front));
      } else {
        BudgetOthers(After(front), op, p, Dialled(front, p), Clock(front), Clock(ops));
        assert Dialled(ops, p) == Dialled(front, p);
      }
    }
  }

  /**
   However dials fail and peers come and go, a peer is dialled at most 8 times per
   retry window, at least 5 seconds apart inside it, and at most 16 times in any 300
   seconds.
   */
  lemma RetryBudget(ops: seq<Op>, p: PeerId, from: nat, inside: set<nat>)
    requires InOrder(ops) && Kept(ops, p)
    requires forall i :: i in inside ==> i < |Dialled(ops, p)| && from <= Dialled(ops, p)[i].at <= from + WINDOW_SECS
    ensures |inside| <= 2 * MAX_ATTEMPTS
    ensures var h := Dialled(ops, p);
            && Spaced(h)
            && forall i, j :: 0 <= i && i + MAX_ATTEMPTS <= j < |h| ==> h[i].window + WINDOW_SECS <= h[j].window
  {
    BudgetHolds(ops, p);
    var h, r := Dialled(ops, p), RetryOf(After(ops), p);
    if p in After(ops).retry {
      AtMostTwicePerSpan(h, Tag(r.windowStarted), r.attempts, WINDOW_SECS, MAX_ATTEMPTS, Clock(ops), from, inside);
    } else {
      assert inside == {};
    }
  }

  /** The peers dialling was tried for. */
  function Candidates(ops: seq<Op>): set<PeerId> { set i | 0 <= i < |ops| && ops[i].Try? :: ops[i].peer }

  lemma MarkKeepsRecords(s: State, q: PeerId, now: nat)
    requires Inv(s)
    ensures var t := MarkAttempted(s, q, now).0;
            t.retry.Keys <= s.retry.Keys + {q} && (|s.retry.Keys + {q}| <= MAX_TRACKED ==> s.retry.Keys <= t.retry.Keys)
  {
    hide Without, Spend, Listing, Restrict, Elems;
    var order := if q in s.retry then s.retryOrder else s.retryOrder + [q];
    if q !in s.retry { ListingPush(s.retryOrder, s.retry.Keys, q); }
    assert q in s.retry ==> s.retry.Keys + {q} == s.retry.Keys;
    ListingSize(order, s.retry.Keys + {q});
    ListingElems(order, s.retry.Keys + {q});
    DropsKeep(s, q);
    RetryListing(DropWaiting(s, q), q, now);
    var kept := Newest(order, MAX_TRACKED);
    ListingElems(kept, Restrict(s.retry[q := Spend(RetryOf(s, q), now)], kept).Keys);
    NewestElems(order, MAX_TRACKED);
  }

  lemma NewestElems<T>(order: seq<T>, max: nat)
    ensures Elems(Newest(order, max)) <= Elems(order)
  {}

  lemma GateKeys(s: State, p: PeerId, afterAddrUpdate: bool, now: nat)
    ensures Gate(s, p, afterAddrUpdate, now).0.retry.Keys == s.retry.Keys
  {}

  lemma DoKeepsRecords(s: State, op: Op)
    requires Inv(s)
    ensures var t, tried := Do(s, op), if op.Try? then {op.peer} else {};
            && t.retry.Keys <= s.retry.Keys + tried
            && (|s.retry.Keys + tried| <= MAX_TRACKED ==> s.retry.Keys <= t.retry.Keys)
  {
    hide Inv, Gate, MarkAttempted, MarkFailed, MarkWaiting, RecordProvider;
    if op.Try? {
      var s1 := Gate(s, op.peer, op.afterAddrUpdate, op.now).0;
      GateKeys(s, op.peer, op.afterAddrUpdate, op.now);
      GateKeeps(s, op.peer, op.afterAddrUpdate, op.now);
      MarkKeepsRecords(s1, op.peer, op.now);
      UntouchedRecords(s1, op.peer, "");
      UntouchedRecords(MarkAttempted(s1, op.peer, op.now).0, op.peer, "");
    } else if op.Fail? {
      UntouchedRecords(s, op.peer, "");
    } else {
      UntouchedRecords(s, op.peer, op.namespace);
    }
  }

  /** With at most 2048 peers tried in a run no retry record is ever evicted. */
  lemma {:induction false} KeptWhenFew(ops: seq<Op>, p: PeerId)
    requires |Candidates(ops)| <= MAX_TRACKED
    ensures After(ops).retry.Keys <= Candidates(ops) && Kept(ops, p)
  {
    hide Do, Inv;
    if ops != [] {
      var front, op := ops[..|ops| - 1], ops[|ops| - 1];
      assert ops == front + [op];
      var tried := if op.Try? then {op.peer} else {};
      CandidatesPush(front, op);
      SubsetSize(Candidates(front), Candidates(ops));
      KeptWhenFew(front, p);
      var s := After(front);
      assert s.retry.Keys + tried <= Candidates(ops);
      SubsetSize(s.retry.Keys + tried, Candidates(ops));
      DoKeepsRecords(s, op);
    }
  }

  lemma CandidatesPush(ops: seq<Op>, op: Op)
    ensures Candidates(ops + [op]) == Candidates(ops) + if op.Try? then {op.peer} else {}
  {
    var longer := ops + [op];
    assert longer[|ops|] == op && forall i :: 0 <= i < |ops| ==> longer[i] == ops[i];
    forall q | q in Candidates(ops) ensures q in Candidates(longer) {
      var i :| 0 <= i < |ops| && ops[i].Try? && ops[i].peer == q;
      assert longer[i] == ops[i];
    }
  }

  /** So the budget holds for every peer of a run that tries at most 2048 of them. */
  lemma RetryBudgetWhenFew(ops: seq<Op>, p: PeerId, from: nat, inside: set<nat>)
    requires InOrder(ops) && |Candidates(ops)| <= MAX_TRACKED
    requires forall i :: i in inside ==> i < |Dialled(ops, p)| && from <= Dialled(ops, p)[i].at <= from + WINDOW_SECS
    ensures |inside| <= 2 * MAX_ATTEMPTS
    ensures var h := Dialled(ops, p);
            && Spaced(h)
            && forall i, j :: 0 <= i && i + MAX_ATTEMPTS <= j < |h| ==> h[i].window + WINDOW_SECS <= h[j].window
  {
    KeptWhenFew(ops, p);
    RetryBudget(ops, p, from, inside);
  }

  // ---- the state as it runs ----

  class DhtProviderState {
    var discovered: map<PeerId, set<string>>
    var discoveredOrder: seq<PeerId>
    var attempted: set<PeerId>
    var attemptedOrder: seq<PeerId>
    var waiting: set<PeerId>
    var waitingOrder: seq<PeerId>
    var retry: map<PeerId, Retry>
    var retryOrder: seq<PeerId>
    var lookups: Lookups
    ghost var addrEvents: seq<Event<PeerId>>
    ghost var recordEvents: seq<Event<(PeerId, string)>>

    /** The look-up tables are what the look-ups, completions and evictions so far make them. */
    ghost predicate Tracked()
      reads this
    {
      && lookups.addr == LookedUp(addrEvents, Self, ADDR_LOOKUP_COOLDOWN_SECS)
      && lookups.record == LookedUp(recordEvents, PeerOf, COOLDOWN_SECS)
    }

    ghost function View(): State
      reads this
    {
      State(discovered, discoveredOrder, attempted, attemptedOrder, waiting, waitingOrder, retry, retryOrder, lookups)
    }

    constructor ()
      ensures View() == Empty() && Inv(View()) && Tracked()
    {
      discovered, discoveredOrder, retry, retryOrder := map[], [], map[], [];
      attempted, attemptedOrder, waiting, waitingOrder := {}, [], {}, [];
      lookups, addrEvents, recordEvents := NoLookups(), [], [];
    }

    method RemoveWaiting(p: PeerId)
      requires Inv(View())
      modifies this`waiting, this`waitingOrder
      ensures View() == DropWaiting(old(View()), p) && Inv(View())
    {
      DropsKeep(View(), p);
      ListingRemove(waitingOrder, waiting, p);
      if p in waiting {
        waiting := waiting - {p};
        waitingOrder := Without(waitingOrder, p);
      }
    }

    method RemoveAttempted(p: PeerId) returns (removed: bool)
      requires Inv(View())
      modifies this`attempted, this`attemptedOrder
      ensures View() == DropAttempted(old(View()), p) && Inv(View()) && removed == (p in old(attempted))
    {
      DropsKeep(View(), p);
      ListingRemove(attemptedOrder, attempted, p);
      removed := p in attempted;
      if removed {
        attempted := attempted - {p};
        attemptedOrder := Without(attemptedOrder, p);
      }
    }

    method MarkAutoConnectAttempted(p: PeerId, now: nat) returns (inserted: bool)
      requires Inv(View())
      modifies this`waiting, this`waitingOrder, this`retry, this`retryOrder, this`attempted, this`attemptedOrder
      ensures (View(), inserted) == MarkAttempted(old(View()), p, now) && Inv(View())
    {
      hide Listing, Newest, Restrict, Spend;
      MarkAttemptedKeeps(View(), p, now);
      RemoveWaiting(p);
      if p in attempted { return false; }
      RecordAttempt(p, now);
      ListingPush(attemptedOrder, attempted, p);
      attempted, attemptedOrder := PruneOldest(attempted + {p}, attemptedOrder + [p], MAX_TRACKED);
      ListingElems(attemptedOrder, attempted);
      return true;
    }

    /** Charge one attempt to the peer's budget, forgetting the oldest record beyond the cap. */
    method RecordAttempt(p: PeerId, now: nat)
      requires Listing(retryOrder, retry.Keys)
      modifies this`retry, this`retryOrder
      ensures retryOrder == Newest(if p in old(retry) then old(retryOrder) else old(retryOrder) + [p], MAX_TRACKED)
      ensures retry == Restrict(old(retry)[p := Spend(RetryOf(old(View()), p), now)], retryOrder)
    {
      var record := if p in retry then retry[p] else Retry(0, 0, 0);
      if p !in retry {
        ListingPush(retryOrder, retry.Keys, p);
        retryOrder := retryOrder + [p];
      }
      if record.windowStarted == 0 || Since(now, record.windowStarted) >= WINDOW_SECS {
        record := record.(attempts := 0, windowStarted := now);
      }
      var attempts := if record.attempts == 0xFFFF_FFFF then record.attempts else record.attempts + 1;
      record := record.(attempts := attempts, lastAttempt := now);
      retry := retry[p := record];
      assert retry.Keys == old(retry.Keys) + {p};
      retry, retryOrder := PruneOldestKeys(retry, retryOrder, MAX_TRACKED);
    }

    method MarkAutoConnectWaitingForAddrs(p: PeerId) returns (inserted: bool)
      requires Inv(View())
      modifies this`waiting, this`waitingOrder
      ensures (View(), inserted) == MarkWaiting(old(View()), p) && Inv(View())
    {
      hide Listing, Newest;
      MarkWaitingKeeps(View(), p);
      if p in attempted || p in waiting { return false; }
      ListingPush(waitingOrder, waiting, p);
      waiting, waitingOrder := PruneOldest(waiting + {p}, waitingOrder + [p], MAX_TRACKED);
      ListingElems(waitingOrder, waiting);
      return true;
    }

    /** Also what a disconnect does: the retry record stays, so a flapping peer keeps its budget. */
    method MarkAutoConnectFailed(p: PeerId) returns (removed: bool)
      requires Inv(View())
      modifies this`waiting, this`waitingOrder, this`attempted, this`attemptedOrder
      ensures (View(), removed) == MarkFailed(old(View()), p) && Inv(View())
    {
      RemoveWaiting(p);
      removed := RemoveAttempted(p);
    }

    method ShouldAutoConnect(p: PeerId, afterAddrUpdate: bool, now: nat) returns (go: bool)
      requires Inv(View())
      modifies this`retry
      ensures (View(), go) == Gate(old(View()), p, afterAddrUpdate, now) && Inv(View())
    {
      GateKeeps(View(), p, afterAddrUpdate, now);
      if !afterAddrUpdate && p in waiting { return false; }
      if p in attempted { return false; }
      if p !in retry { return true; }
      if Since(now, retry[p].windowStarted) >= WINDOW_SECS {
        retry := retry[p := Retry(0, now, 0)];
        return true;
      }
      return retry[p].attempts < MAX_ATTEMPTS && Since(now, retry[p].lastAttempt) >= COOLDOWN_SECS;
    }

    method RecordProviderPeer(p: PeerId, namespace: string) returns (inserted: bool)
      requires Inv(View()) && Tracked()
      modifies this
      ensures (View(), inserted) == RecordProvider(old(View()), p, namespace) && Inv(View())
      ensures Tracked()
      ensures var gone := PushedOut(old(View()), p);
              && addrEvents == old(addrEvents) + (if gone.Some? then [Evicted(gone.value)] else [])
              && recordEvents == old(recordEvents) + (if gone.Some? then [Evicted(gone.value)] else [])
    {
      hide Listing, RecordProvider, ForgetPeer;
      RecordProviderKeeps(View(), p, namespace);
      LookupsAfterRecord(View(), p, namespace);
      ghost var gone := PushedOut(View(), p);
      inserted := Record(p, namespace);
      if gone.Some? {
        EvictedLookups(addrEvents, recordEvents, gone.value);
        addrEvents, recordEvents := addrEvents + [Evicted(gone.value)], recordEvents + [Evicted(gone.value)];
      }
    }

    method Record(p: PeerId, namespace: string) returns (inserted: bool)
      requires Inv(View())
      modifies this`discovered, this`discoveredOrder, this`attempted, this`attemptedOrder
      modifies this`waiting, this`waitingOrder, this`lookups
      ensures (View(), inserted) == RecordProvider(old(View()), p, namespace)
    {
      hide Listing;
      if p in discovered {
        inserted := namespace !in discovered[p];
        discovered := discovered[p := discovered[p] + {namespace}];
      } else {
        AddProvider(p, namespace);
        inserted := true;
      }
    }

    method AddProvider(p: PeerId, namespace: string)
      requires Inv(View()) && p !in discovered
      modifies this`discovered, this`discoveredOrder, this`attempted, this`attemptedOrder
      modifies this`waiting, this`waitingOrder, this`lookups
      ensures View() == RecordProvider(old(View()), p, namespace).0
    {
      hide Listing, RecordProvider, Restrict, DropEverywhere;
      NewProvider(View(), p, namespace);
      ListingPush(discoveredOrder, discovered.Keys, p);
      discovered, discoveredOrder := discovered[p := {namespace}], discoveredOrder + [p];
      assert discovered.Keys == old(discovered.Keys) + {p};
      ListingSize(discoveredOrder, discovered.Keys);
      if |discovered.Keys| > MAX_TRACKED { EvictOldestProvider(); }
    }

    /** At most one provider is ever over the cap, so the pruning loop runs at most once. */
    method EvictOldestProvider()
      requires Listing(discoveredOrder, discovered.Keys) && |discoveredOrder| == MAX_TRACKED + 1
      requires TrackingOk(View())
      modifies this`discovered, this`discoveredOrder, this`attempted, this`attemptedOrder
      modifies this`waiting, this`waitingOrder, this`lookups
      ensures var s := old(View());
              View() == DropEverywhere(
                s.(discovered := Restrict(s.discovered, s.discoveredOrder[1..]),
                    discoveredOrder := s.discoveredOrder[1..]),
                s.discoveredOrder[0])
    {
      var evicted := discoveredOrder[0];
      RestrictAll(discovered, discoveredOrder);
      RestrictPop(discovered, discoveredOrder);
      ListingSize(discoveredOrder[1..], discovered.Keys - {evicted});
      discovered, discoveredOrder := discovered - {evicted}, discoveredOrder[1..];
      var _ := RemoveAttempted(evicted);
      RemoveWaiting(evicted);
      lookups := ForgetPeer(lookups, evicted);
    }

    method StartProviderAddrLookupIfDue(id: QueryId, p: PeerId, now: nat) returns (started: bool)
      requires Tracked()
      modifies this`lookups, this`addrEvents
      ensures Tracked() && addrEvents == old(addrEvents) + [Asked(id, p, now, now)]
      ensures started == Starts(addrEvents, Self, ADDR_LOOKUP_COOLDOWN_SECS, |old(addrEvents)|)
      ensures lookups.record == old(lookups).record
    {
      hide Due, LookedUp, Starts;
      LookedUpPush(addrEvents, Asked(id, p, now, now), Self, ADDR_LOOKUP_COOLDOWN_SECS);
      started := Due(lookups.addr, p, ADDR_LOOKUP_COOLDOWN_SECS, now);
      addrEvents := addrEvents + [Asked(id, p, now, now)];
      if started { lookups := lookups.(addr := Track(lookups.addr, id, p, now)); }
    }

    method CompleteProviderAddrLookup(id: QueryId) returns (peer: Option<PeerId>)
      requires Tracked()
      modifies this`lookups, this`addrEvents
      ensures Tracked() && addrEvents == old(addrEvents) + [Completed(id)] && lookups.record == old(lookups).record
      ensures peer == if id in old(lookups).addr.queries then Some(old(lookups).addr.queries[id]) else None
    {
      hide LookedUp, Starts;
      LookedUpPush(addrEvents, Completed(id), Self, ADDR_LOOKUP_COOLDOWN_SECS);
      peer := if id in lookups.addr.queries then Some(lookups.addr.queries[id]) else None;
      addrEvents := addrEvents + [Completed(id)];
      lookups := lookups.(addr := lookups.addr.(queries := lookups.addr.queries - {id}));
    }

    /** The gate and the stamp read the clock separately. */
    method StartPeerAddressRecordLookup(id: QueryId, p: PeerId, namespace: string, now: nat, stamped: nat)
      returns (started: bool)
      requires Tracked()
      modifies this`lookups, this`recordEvents
      ensures Tracked() && recordEvents == old(recordEvents) + [Asked(id, (p, namespace), now, stamped)]
      ensures started == Starts(recordEvents, PeerOf, COOLDOWN_SECS, |old(recordEvents)|)
      ensures lookups.addr == old(lookups).addr
    {
      hide Due, LookedUp, Starts;
      LookedUpPush(recordEvents, Asked(id, (p, namespace), now, stamped), PeerOf, COOLDOWN_SECS);
      started := Due(lookups.record, (p, namespace), COOLDOWN_SECS, now);
      recordEvents := recordEvents + [Asked(id, (p, namespace), now, stamped)];
      if started { lookups := lookups.(record := Track(lookups.record, id, (p, namespace), stamped)); }
    }

    method CompleteGetAddressRecord(id: QueryId) returns (found: Option<(PeerId, string)>)
      requires Tracked()
      modifies this`lookups, this`recordEvents
      ensures Tracked() && recordEvents == old(recordEvents) + [Completed(id)] && lookups.addr == old(lookups).addr
      ensures found == if id in old(lookups).record.queries then Some(old(lookups).record.queries[id]) else None
    {
      hide LookedUp, Starts;
      LookedUpPush(recordEvents, Completed(id), PeerOf, COOLDOWN_SECS);
      found := if id in lookups.record.queries then Some(lookups.record.queries[id]) else None;
      recordEvents := recordEvents + [Completed(id)];
      lookups := lookups.(record := lookups.record.(queries := lookups.record.queries - {id}));
    }
  }

  /** The provider that recording a new one pushes out. */
  function PushedOut(s: State, p: PeerId): Option<PeerId> {
    if p !in s.discovered && |s.discoveredOrder| >= MAX_TRACKED then Some(s.discoveredOrder[0]) else None
  }

  lemma LookupsAfterRecord(s: State, p: PeerId, namespace: string)
    ensures var gone := PushedOut(s, p);
            RecordProvider(s, p, namespace).0.lookups ==
            if gone.Some? then ForgetPeer(s.lookups, gone.value) else s.lookups
  {
    hide Newest, Restrict, Without, ForgetPeer;
  }

  lemma EvictedLookups(addr: seq<Event<PeerId>>, record: seq<Event<(PeerId, string)>>, p: PeerId)
    ensures ForgetPeer(Lookups(LookedUp(addr, Self, ADDR_LOOKUP_COOLDOWN_SECS),
                               LookedUp(record, PeerOf, COOLDOWN_SECS)), p)
            == Lookups(LookedUp(addr + [Evicted(p)], Self, ADDR_LOOKUP_COOLDOWN_SECS),
                       LookedUp(record + [Evicted(p)], PeerOf, COOLDOWN_SECS))
  {
    LookedUpPush(addr, Evicted(p), Self, ADDR_LOOKUP_COOLDOWN_SECS);
    LookedUpPush(record, Evicted(p), PeerOf, COOLDOWN_SECS);
  }
}
