/** Metering of relay circuits: per-circuit counters, the aggregate, and the recent closures. */
module RelayMeter {
  import opened Base

  const RECENT_CLOSED_CIRCUITS: nat := 256

  datatype CircuitBytes = CircuitBytes(srcToDst: u64, dstToSrc: u64)

  datatype CloseReason = Completed | ByteLimit | DurationLimit | PeerDisconnected | TransportError(detail: string)

  datatype RelayCircuitUsage = RelayCircuitUsage(
    circuitId: u64, src: PeerId, dst: PeerId, startedAtMs: u64, endedAtMs: Option<u64>,
    bytes: CircuitBytes, closeReason: Option<CloseReason>)

  datatype ActiveCircuit = ActiveCircuit(record: RelayCircuitUsage, reported: CircuitBytes)

  // ---- sums over circuits ----

  ghost function Pick(m: map<u64, nat>): u64
    requires m != map[]
    ensures Pick(m) in m
  {
    var k :| k in m; k
  }

  lemma Shrinks(m: map<u64, nat>, k: u64)
    requires k in m
    ensures |m - {k}| < |m|
  {
    assert (m - {k}).Keys == m.Keys - {k};
  }

  ghost function Sum(m: map<u64, nat>): nat
    decreases |m|
  {
    if m == map[] then 0
    else
      var k := Pick(m);
      Shrinks(m, k);
      m[k] + Sum(m - {k})
  }

  lemma {:induction false} SumRemove(m: map<u64, nat>, k: u64)
    requires k in m
    ensures Sum(m) == m[k] + Sum(m - {k})
    decreases |m|
  {
    var j := Pick(m);
    if k != j {
      Shrinks(m, j);
      SumRemove(m - {j}, k);
      Shrinks(m, k);
      SumRemove(m - {k}, j);
      assert m - {j} - {k} == m - {k} - {j};
    }
  }

  lemma SumPut(m: map<u64, nat>, k: u64, v: nat)
    ensures Sum(m[k := v]) == Sum(m - {k}) + v
  {
    SumRemove(m[k := v], k);
    assert m[k := v] - {k} == m - {k};
  }

  function Forward(m: map<u64, CircuitBytes>): map<u64, nat> { map k | k in m :: m[k].srcToDst }
  function Backward(m: map<u64, CircuitBytes>): map<u64, nat> { map k | k in m :: m[k].dstToSrc }

  function Cap(n: nat): u64 { if n > U64_MAX then U64_MAX else n }

  /** The aggregate over every circuit in `m`, each counted once. */
  ghost function Aggregate(m: map<u64, CircuitBytes>): CircuitBytes {
    CircuitBytes(Cap(Sum(Forward(m))), Cap(Sum(Backward(m))))
  }

  lemma ForwardPut(m: map<u64, CircuitBytes>, k: u64, b: CircuitBytes)
    requires k !in m
    ensures Sum(Forward(m[k := b])) == Sum(Forward(m)) + b.srcToDst
  {
    hide Sum;
    SumPut(Forward(m), k, b.srcToDst);
    assert Forward(m[k := b]) == Forward(m)[k := b.srcToDst];
    assert Forward(m) - {k} == Forward(m);
  }

  lemma BackwardPut(m: map<u64, CircuitBytes>, k: u64, b: CircuitBytes)
    requires k !in m
    ensures Sum(Backward(m[k := b])) == Sum(Backward(m)) + b.dstToSrc
  {
    hide Sum;
    SumPut(Backward(m), k, b.dstToSrc);
    assert Backward(m[k := b]) == Backward(m)[k := b.dstToSrc];
    assert Backward(m) - {k} == Backward(m);
  }

  lemma AggregatePut(m: map<u64, CircuitBytes>, k: u64, b: CircuitBytes)
    requires k !in m
    ensures Aggregate(m[k := b]).srcToDst == SatAdd(Aggregate(m).srcToDst, b.srcToDst)
    ensures Aggregate(m[k := b]).dstToSrc == SatAdd(Aggregate(m).dstToSrc, b.dstToSrc)
  {
    hide Sum, Forward, Backward;
    ForwardPut(m, k, b);
    BackwardPut(m, k, b);
  }

  predicate AtLeast(a: CircuitBytes, b: CircuitBytes) { a.srcToDst >= b.srcToDst && a.dstToSrc >= b.dstToSrc }

  /** Replacing one circuit's bytes by more, or adding a circuit, never lowers the aggregate. */
  lemma AggregateGrows(m: map<u64, CircuitBytes>, k: u64, b: CircuitBytes)
    requires k in m ==> AtLeast(b, m[k])
    ensures AtLeast(Aggregate(m[k := b]), Aggregate(m))
  {
    hide Aggregate;
    var rest := m - {k};
    AggregatePut(rest, k, b);
    assert rest[k := b] == m[k := b];
    if k in m {
      AggregatePut(rest, k, m[k]);
      assert rest[k := m[k]] == m;
    } else {
      assert rest == m;
    }
  }

  // ---- the relay as its events see it ----

  datatype Event =
    | Open(id: u64, bytes: CircuitBytes)
    | Progress(id: u64, bytes: CircuitBytes)
    | Close(id: u64, bytes: CircuitBytes)

  /** Bytes of every circuit so far: those still open at their live value, the rest at their final one. */
  datatype World = World(live: map<u64, CircuitBytes>, finals: map<u64, CircuitBytes>)

  predicate Enabled(w: World, e: Event) {
    match e
    case Open(id, _) => id !in w.live && id !in w.finals
    case Progress(id, bytes) => id in w.live && AtLeast(bytes, w.live[id])
    case Close(id, bytes) => id !in w.finals && (id in w.live ==> AtLeast(bytes, w.live[id]))
  }

  function Apply(w: World, e: Event): World {
    match e
    case Open(id, bytes) => w.(live := w.live[id := bytes])
    case Progress(id, bytes) => w.(live := w.live[id := bytes])
    case Close(id, bytes) => World(w.live - {id}, w.finals[id := bytes])
  }

  predicate Apart(w: World) { w.live.Keys !! w.finals.Keys }

  /** Every circuit ever seen with its bytes. */
  function Everything(w: World): map<u64, CircuitBytes> { w.finals + w.live }

  function After(events: seq<Event>): World {
    if events == [] then World(map[], map[]) else Apply(After(events[..|events| - 1]), events[|events| - 1])
  }

  predicate Run(events: seq<Event>) {
    forall i :: 0 <= i < |events| ==> Enabled(After(events[..i]), events[i])
  }

  lemma ApplyGrows(w: World, e: Event)
    requires Apart(w) && Enabled(w, e)
    ensures Apart(Apply(w, e))
    ensures Everything(Apply(w, e)) == Everything(w)[e.id := e.bytes]
    ensures AtLeast(Aggregate(Everything(Apply(w, e))), Aggregate(Everything(w)))
  {
    hide Aggregate;
    AggregateGrows(Everything(w), e.id, e.bytes);
    assert Everything(Apply(w, e)) == Everything(w)[e.id := e.bytes];
  }

  /** In every run the aggregate never goes down, whatever opens, moves or closes in between. */
  lemma {:induction false} TotalsNeverDecrease(events: seq<Event>, i: nat)
    requires Run(events) && i <= |events|
    ensures Apart(After(events))
    ensures AtLeast(Aggregate(Everything(After(events))), Aggregate(Everything(After(events[..i]))))
    decreases |events|
  {
    hide Aggregate, Everything, Enabled, Apply;
    if events != [] {
      var init := events[..|events| - 1];
      forall k | 0 <= k < |init| ensures Enabled(After(init[..k]), init[k]) { assert init[..k] == events[..k]; }
      TotalsNeverDecrease(init, if i < |events| then i else |init|);
      assert i < |events| ==> init[..i] == events[..i];
      assert events[..|events|] == events && init[..|init|] == init;
      ApplyGrows(After(init), events[|events| - 1]);
    } else {
      NothingYet();
    }
  }

  lemma AfterPush(events: seq<Event>, e: Event)
    ensures After(events + [e]) == Apply(After(events), e)
  {
    assert (events + [e])[..|events|] == events;
  }

  lemma NothingYet()
    ensures Apart(After([]))
  {}

  // ---- the meter ----

  function Last<T>(s: seq<T>, n: nat): seq<T> { if |s| <= n then s else s[|s| - n..] }

  lemma LastPush<T>(s: seq<T>, n: nat, x: T)
    requires n > 0
    ensures var kept := Last(s, n);
            Last(s + [x], n) == (if |kept| == n then kept[1..] else kept) + [x]
  {}

  /** The live counters of the circuits the meter holds open. */
  function LiveOf(active: map<u64, ActiveCircuit>, live: map<u64, CircuitBytes>): map<u64, CircuitBytes>
  {
    map k | k in active && k in live :: live[k]
  }

  function Taken(keys: set<u64>, live: map<u64, CircuitBytes>): map<u64, CircuitBytes> {
    map k | k in keys && k in live :: live[k]
  }

  lemma TakenPut(finals: map<u64, CircuitBytes>, keys: set<u64>, live: map<u64, CircuitBytes>, id: u64)
    requires id in live
    ensures finals + Taken(keys + {id}, live) == (finals + Taken(keys, live))[id := live[id]]
  {}

  lemma TakenIsLive(active: map<u64, ActiveCircuit>, live: map<u64, CircuitBytes>)
    ensures Taken(active.Keys, live) == LiveOf(active, live)
    ensures Taken({}, live) == map[]
  {}

  /** One more circuit, whichever comes next. */
  lemma AddOne(finals: map<u64, CircuitBytes>, keys: set<u64>, live: map<u64, CircuitBytes>, left: set<u64>, id: u64)
    requires keys <= live.Keys && keys !! finals.Keys && left <= keys && id in left
    ensures var before, after := Aggregate(finals + Taken(keys - left, live)),
        Aggregate(finals + Taken(keys - (left - {id}), live));
            && after.srcToDst == SatAdd(before.srcToDst, live[id].srcToDst)
            && after.dstToSrc == SatAdd(before.dstToSrc, live[id].dstToSrc)
  {
    hide Aggregate;
    assert id !in finals + Taken(keys - left, live);
    AggregatePut(finals + Taken(keys - left, live), id, live[id]);
    TakenPut(finals, keys - left, live, id);
    assert keys - left + {id} == keys - (left - {id});
  }

  lemma TakenEnds(finals: map<u64, CircuitBytes>, keys: set<u64>, live: map<u64, CircuitBytes>)
    ensures finals + Taken(keys - keys, live) == finals && keys - {} == keys
  {}

  method AddLive(closed: CircuitBytes, ghost finals: map<u64, CircuitBytes>, keys: set<u64>, live: map<u64,
      CircuitBytes>)
    returns (totals: CircuitBytes)
    requires closed == Aggregate(finals) && keys <= live.Keys && keys !! finals.Keys
    ensures totals == Aggregate(finals + Taken(keys, live))
  {
    hide Aggregate, Taken, SatAdd;
    totals := closed;
    var left := keys;
    TakenEnds(finals, keys, live);
    while left != {}
      invariant left <= keys && totals == Aggregate(finals + Taken(keys - left, live))
      decreases |left|
    {
      var id :| id in left;
      AddOne(finals, keys, live, left, id);
      totals := CircuitBytes(SatAdd(totals.srcToDst, live[id].srcToDst), SatAdd(totals.dstToSrc, live[id].dstToSrc));
      left := left - {id};
    }
  }

  /** `r` is the progress report due for its circuit. */
  predicate IsProgress(active: map<u64, ActiveCircuit>, live: map<u64, CircuitBytes>, r: RelayCircuitUsage) {
    var k := r.circuitId;
    k in active && k in live && active[k].reported != live[k] && r == active[k].record.(bytes := live[k])
  }

  ghost predicate Ascending(rs: seq<RelayCircuitUsage>) {
    forall i, j :: 0 <= i < j < |rs| ==> rs[i].circuitId < rs[j].circuitId
  }

  ghost predicate DistinctIds(rs: seq<RelayCircuitUsage>) {
    forall i, j :: 0 <= i < j < |rs| ==> rs[i].circuitId != rs[j].circuitId
  }

  /** Where the scan stands once every circuit outside `left` has been looked at. */
  ghost predicate Scanned(was: map<u64, ActiveCircuit>, live: map<u64, CircuitBytes>, left: set<u64>,
                          now: map<u64, ActiveCircuit>, changed: seq<RelayCircuitUsage>) {
    && left <= was.Keys && now.Keys == was.Keys <= live.Keys
    && DistinctIds(changed)
    && (forall r :: r in changed <==> r.circuitId !in left && IsProgress(was, live, r))
    && (forall k :: k in was ==> now[k] == if k in left then was[k] else was[k].(reported := live[k]))
  }

  lemma ScanOne(was: map<u64, ActiveCircuit>, live: map<u64, CircuitBytes>, left: set<u64>,
                now: map<u64, ActiveCircuit>, changed: seq<RelayCircuitUsage>, id: u64)
    requires Scanned(was, live, left, now, changed) && id in left && was[id].record.circuitId == id
    ensures live[id] == now[id].reported ==> Scanned(was, live, left - {id}, now, changed)
    ensures live[id] != now[id].reported ==>
              Scanned(was, live, left - {id}, now[id := now[id].(reported := live[id])],
                      changed + [now[id].record.(bytes := live[id])])
  {
    hide DistinctIds;
    assert now[id] == was[id];
    var report := was[id].record.(bytes := live[id]);
    forall r ensures IsProgress(was, live, r) && r.circuitId == id <==> live[id] != was[id].reported && r == report {}
    DistinctPush(changed, report);
  }

  lemma DistinctPush(rs: seq<RelayCircuitUsage>, r: RelayCircuitUsage)
    requires DistinctIds(rs)
    ensures (forall x :: x in rs ==> x.circuitId != r.circuitId) ==> DistinctIds(rs + [r])
  {}

  /** The scan visits the circuits in any order. */
  method ScanChanged(active: map<u64, ActiveCircuit>, live: map<u64, CircuitBytes>)
    returns (now: map<u64, ActiveCircuit>, changed: seq<RelayCircuitUsage>)
    requires active.Keys <= live.Keys && forall k :: k in active ==> active[k].record.circuitId == k
    ensures Scanned(active, live, {}, now, changed)
  {
    hide DistinctIds, IsProgress;
    now, changed := active, [];
    var left := active.Keys;
    ScanStart(active, live);
    while left != {}
      invariant Scanned(active, live, left, now, changed)
      decreases |left|
    {
      var id :| id in left;
      ScanOne(active, live, left, now, changed, id);
      if live[id] != now[id].reported {
        changed := changed + [now[id].record.(bytes := live[id])];
        now := now[id := now[id].(reported := live[id])];
      }
      left := left - {id};
    }
  }

  function Insert(rs: seq<RelayCircuitUsage>, r: RelayCircuitUsage): seq<RelayCircuitUsage> {
    if rs == [] || r.circuitId < rs[0].circuitId then [r] + rs else [rs[0]] + Insert(rs[1..], r)
  }

  lemma {:induction false} InsertKeeps(rs: seq<RelayCircuitUsage>, r: RelayCircuitUsage)
    requires Ascending(rs) && forall x :: x in rs ==> x.circuitId != r.circuitId
    ensures Ascending(Insert(rs, r)) && forall x :: x in Insert(rs, r) <==> x in rs || x == r
  {
    hide Ascending;
    if rs == [] {
      AscendingCons(r, rs);
    } else {
      assert rs == [rs[0]] + rs[1..];
      AscendingTail(rs);
      if r.circuitId < rs[0].circuitId {
        AscendingCons(r, rs);
      } else {
        InsertKeeps(rs[1..], r);
        AscendingCons(rs[0], Insert(rs[1..], r));
      }
    }
  }

  lemma AscendingCons(r: RelayCircuitUsage, rs: seq<RelayCircuitUsage>)
    requires rs != [] ==> Ascending(rs) && forall x :: x in rs ==> r.circuitId < x.circuitId
    ensures Ascending([r] + rs)
  {}

  lemma AscendingTail(rs: seq<RelayCircuitUsage>)
    requires rs != [] && Ascending(rs)
    ensures Ascending(rs[1..]) && forall x :: x in rs[1..] ==> rs[0].circuitId < x.circuitId
  {}

  method SortById(rs: seq<RelayCircuitUsage>) returns (sorted: seq<RelayCircuitUsage>)
    requires DistinctIds(rs)
    ensures Ascending(sorted) && forall x :: x in sorted <==> x in rs
  {
    hide Ascending, Insert;
    sorted := [];
    AscendingNothing();
    for i := 0 to |rs|
      invariant Ascending(sorted) && forall x :: x in sorted <==> x in rs[..i]
    {
      InsertKeeps(sorted, rs[i]);
      assert rs[..i + 1] == rs[..i] + [rs[i]];
      sorted := Insert(sorted, rs[i]);
    }
    assert rs[..|rs|] == rs;
  }

  lemma AscendingNothing()
    ensures Ascending([])
  {}

  method CollectChanged(active: map<u64, ActiveCircuit>, live: map<u64, CircuitBytes>)
    returns (now: map<u64, ActiveCircuit>, changed: seq<RelayCircuitUsage>)
    requires active.Keys <= live.Keys && forall k :: k in active ==> active[k].record.circuitId == k
    ensures now.Keys == active.Keys && forall k :: k in active ==> now[k] == active[k].(reported := live[k])
    ensures Ascending(changed) && forall r :: r in changed <==> IsProgress(active, live, r)
  {
    hide IsProgress, Ascending, DistinctIds;
    now, changed := ScanChanged(active, live);
    changed := SortById(changed);
  }

  lemma ScanStart(active: map<u64, ActiveCircuit>, live: map<u64, CircuitBytes>)
    requires active.Keys <= live.Keys
    ensures Scanned(active, live, active.Keys, active, [])
  {}

  class RelayMeter {
    var active: map<u64, ActiveCircuit>
    var closedBytes: CircuitBytes
    var closedCircuits: u64
    var recentClosed: seq<RelayCircuitUsage>
    ghost var finals: map<u64, CircuitBytes>        // final bytes of every circuit closed so far
    ghost var closures: seq<RelayCircuitUsage>      // every closure, oldest first
    ghost var events: seq<Event>                    // everything that happened to the circuits

    ghost predicate Valid()
      reads this
    {
      && active.Keys !! finals.Keys
      && After(events).finals == finals && After(events).live.Keys == active.Keys
      && closedBytes == Aggregate(finals)
      && closedCircuits == Cap(|closures|)
      && recentClosed == Last(closures, RECENT_CLOSED_CIRCUITS)
      && forall k :: k in active ==> active[k].record.circuitId == k
    }

    constructor ()
      ensures Valid() && active == map[] && finals == map[] && closures == [] && events == []
    {
      active, finals, closures, recentClosed, events := map[], map[], [], [], [];
      closedBytes, closedCircuits := CircuitBytes(0, 0), 0;
      new;
      assert Forward(map[]) == map[] && Backward(map[]) == map[];
    }

    /** The counters are read twice: once for the record, then for what counts as reported. */
    method Open(id: u64, src: PeerId, dst: PeerId, usage: CircuitBytes, reported: CircuitBytes, nowMs: u64)
      returns (record: RelayCircuitUsage)
      requires Valid() && id !in active && id !in finals
      modifies this`active, this`events
      ensures Valid() && events == old(events) + [Event.Open(id, usage), Progress(id, reported)]
      ensures record == RelayCircuitUsage(id, src, dst, nowMs, None, usage, None)
      ensures active == old(active)[id := ActiveCircuit(record, reported)]
    {
      hide Aggregate, Last, After;
      AfterPush(events, Event.Open(id, usage));
      AfterPush(events + [Event.Open(id, usage)], Progress(id, reported));
      record := RelayCircuitUsage(id, src, dst, nowMs, None, usage, None);
      assert events + [Event.Open(id, usage)] + [Progress(id, reported)]
          == events + [Event.Open(id, usage), Progress(id, reported)];
      events := events + [Event.Open(id, usage), Progress(id, reported)];
      active := active[id := ActiveCircuit(record, reported)];
    }

    method Close(id: u64, src: PeerId, dst: PeerId, bytes: CircuitBytes, reason: CloseReason, nowMs: u64)
      returns (record: RelayCircuitUsage)
      requires Valid() && id !in finals
      modifies this
      ensures Valid()
      ensures active == old(active) - {id} && finals == old(finals)[id := bytes]
      ensures events == old(events) + [Event.Close(id, bytes)]
      ensures closures == old(closures) + [record]
      ensures record == RelayCircuitUsage(id, src, dst,
                if id in old(active) then old(active)[id].record.startedAtMs
                    else nowMs, Some(nowMs), bytes, Some(reason))
    {
      hide Aggregate, Last, After, Cap;
      AfterPush(events, Event.Close(id, bytes));
      AggregatePut(finals, id, bytes);
      var startedAtMs := if id in active then active[id].record.startedAtMs else nowMs;
      active := active - {id};
      record := RelayCircuitUsage(id, src, dst, startedAtMs, Some(nowMs), bytes, Some(reason));
      closedBytes := CircuitBytes(SatAdd(closedBytes.srcToDst, bytes.srcToDst),
          SatAdd(closedBytes.dstToSrc, bytes.dstToSrc));
      finals, events := finals[id := bytes], events + [Event.Close(id, bytes)];
      RememberClosed(record);
    }

    method RememberClosed(record: RelayCircuitUsage)
      requires closedCircuits == Cap(|closures|) && recentClosed == Last(closures, RECENT_CLOSED_CIRCUITS)
      modifies this`closedCircuits, this`recentClosed, this`closures
      ensures closedCircuits == Cap(|closures|) && recentClosed == Last(closures, RECENT_CLOSED_CIRCUITS)
      ensures closures == old(closures) + [record]
    {
      hide Last;
      LastPush(closures, RECENT_CLOSED_CIRCUITS, record);
      closedCircuits := SatAdd(closedCircuits, 1);
      if |recentClosed| == RECENT_CLOSED_CIRCUITS { recentClosed := recentClosed[1..]; }
      recentClosed := recentClosed + [record];
      closures := closures + [record];
    }

    /** The data plane forwards bytes on an open circuit. */
    ghost method Progressed(id: u64, bytes: CircuitBytes)
      requires Valid() && id in active
      modifies this`events
      ensures Valid() && events == old(events) + [Progress(id, bytes)]
    {
      hide Aggregate, Last, After;
      AfterPush(events, Progress(id, bytes));
      events := events + [Progress(id, bytes)];
    }

    /**
     The aggregate counts every circuit ever closed and every one open, each once. Read from the
     counters as the events left them, it is at least what it was at any earlier point of the run.
     */
    method Totals(live: map<u64, CircuitBytes>) returns (totals: CircuitBytes)
      requires Valid() && active.Keys <= live.Keys
      ensures totals == Aggregate(Everything(World(LiveOf(active, live), finals)))
      ensures Run(events) && LiveOf(active, live) == After(events).live ==>
                forall k :: 0 <= k <= |events| ==> AtLeast(totals, Aggregate(Everything(After(events[..k]))))
    {
      hide Aggregate, Taken, After, Run, LiveOf, AtLeast;
      totals := AddLive(closedBytes, finals, active.Keys, live);
      TakenIsLive(active, live);
      if Run(events) && LiveOf(active, live) == After(events).live {
        forall k | 0 <= k <= |events| ensures AtLeast(totals, Aggregate(Everything(After(events[..k])))) {
          TotalsNeverDecrease(events, k);
        }
      }
    }

    /** One report per circuit that moved since the last call, in id order; asking again at once reports nothing. */
    method TakeChanged(live: map<u64, CircuitBytes>) returns (changed: seq<RelayCircuitUsage>)
      requires Valid() && active.Keys <= live.Keys
      modifies this`active
      ensures Valid() && Ascending(changed)
      ensures forall r :: r in changed <==> IsProgress(old(active), live, r)
      ensures active.Keys == old(active).Keys
      ensures forall k :: k in active ==> active[k] == old(active)[k].(reported := live[k])
      ensures forall r :: !IsProgress(active, live, r)
    {
      hide Aggregate, Ascending;
      active, changed := CollectChanged(active, live);
    }
  }
}
