/** The TURN credential broker: its per-peer rate limiter and the answers it gives from its caches. */
module Broker {
  import opened Base
  import opened RateWindows
  import opened Refresher

  const RATE_WINDOW_NS: nat := 60 * NS_PER_SEC
  const MAX_RATE_LIMITED_PEERS: nat := 4096

  /** When a peer's window began and how many requests it has admitted. */
  datatype Slot = Slot(start: nat, count: nat)

  type Windows = map<PeerId, Slot>

  datatype Request = Request(peer: PeerId, now: nat)

  function Elapsed(now: nat, start: nat): nat { if now < start then 0 else now - start }

  function Swept(windows: Windows, now: nat): Windows {
    if |windows| >= MAX_RATE_LIMITED_PEERS
    then map p | p in windows && Elapsed(now, windows[p].start) < RATE_WINDOW_NS :: windows[p]
    else windows
  }

  /** The window a request is counted in. */
  function CurrentSlot(windows: Windows, r: Request): Slot {
    if r.peer in windows && Elapsed(r.now, windows[r.peer].start) < RATE_WINDOW_NS then windows[r.peer]
        else Slot(r.now, 0)
  }

  /** The limiter without any clean-up: it never forgets a window. */
  function Judge(windows: Windows, r: Request, limit: nat): (Windows, bool) {
    var slot := CurrentSlot(windows, r);
    if slot.count >= limit then (windows[r.peer := slot], false)
    else (windows[r.peer := slot.(count := slot.count + 1)], true)
  }

  /** With 4096 peers or more in the table, exactly the windows less than a minute old stay. */
  lemma SweptExactly(windows: Windows, now: nat, p: PeerId)
    ensures p in Swept(windows, now) <==>
              p in windows && (|windows| < 4096 || now < windows[p].start + 60_000_000_000)
    ensures p in Swept(windows, now) ==> Swept(windows, now)[p] == windows[p]
  {}

  // ---- clean-up changes no answer ----

  /** Whatever the cleaned table lacks has been over for a whole window. */
  ghost predicate Agrees(windows: Windows, full: Windows, clock: nat) {
    && (forall p :: p in windows ==> p in full && windows[p] == full[p])
    && (forall p :: p in full && p !in windows ==> full[p].start + RATE_WINDOW_NS <= clock)
  }

  lemma SweepAgrees(windows: Windows, full: Windows, clock: nat, now: nat)
    requires Agrees(windows, full, clock) && clock <= now
    ensures Agrees(Swept(windows, now), full, now)
  {}

  lemma JudgeAgrees(windows: Windows, full: Windows, r: Request, limit: nat)
    requires Agrees(windows, full, r.now)
    ensures Judge(windows, r, limit).1 == Judge(full, r, limit).1
    ensures Agrees(Judge(windows, r, limit).0, Judge(full, r, limit).0, r.now)
  {}

  ghost predicate InOrder(run: seq<Request>) {
    forall i, j :: 0 <= i < j < |run| ==> run[i].now <= run[j].now
  }

  ghost function TableAfter(run: seq<Request>, limit: nat): Windows {
    if run == [] then map[]
    else
      var last := run[|run| - 1];
      Judge(Swept(TableAfter(run[..|run| - 1], limit), last.now), last, limit).0
  }

  ghost function FullAfter(run: seq<Request>, limit: nat): Windows {
    if run == [] then map[] else Judge(FullAfter(run[..|run| - 1], limit), run[|run| - 1], limit).0
  }

  ghost function Admitted(run: seq<Request>, limit: nat, k: nat): bool
    requires k < |run|
  {
    Judge(Swept(TableAfter(run[..k], limit), run[k].now), run[k], limit).1
  }

  lemma {:induction false} TablesAgree(run: seq<Request>, limit: nat)
    requires InOrder(run)
    ensures Agrees(TableAfter(run, limit), FullAfter(run, limit), if run == [] then 0 else run[|run| - 1].now)
  {
    if run != [] {
      var front, last := run[..|run| - 1], run[|run| - 1];
      TablesAgree(front, limit);
      var clock := if front == [] then 0 else front[|front| - 1].now;
      SweepAgrees(TableAfter(front, limit), FullAfter(front, limit), clock, last.now);
      JudgeAgrees(Swept(TableAfter(front, limit), last.now), FullAfter(front, limit), last, limit);
    }
  }

  /** So a table that has grown to 4096 peers keeps, besides the one asking, only windows of the last minute. */
  lemma TableForgets(run: seq<Request>, limit: nat, p: PeerId)
    requires run != [] && |TableAfter(run[..|run| - 1], limit)| >= 4096 && p in TableAfter(run, limit)
    ensures run[|run| - 1].now < TableAfter(run, limit)[p].start + 60_000_000_000
  {
    SweptExactly(TableAfter(run[..|run| - 1], limit), run[|run| - 1].now, p);
  }

  /** Every request gets the answer of the limiter that never forgets. */
  lemma CleanUpIsInvisible(run: seq<Request>, limit: nat, k: nat)
    requires InOrder(run) && k < |run|
    ensures Admitted(run, limit, k) == Judge(FullAfter(run[..k], limit), run[k], limit).1
  {
    var front := run[..k];
    TablesAgree(front, limit);
    var clock := if front == [] then 0 else front[k - 1].now;
    SweepAgrees(TableAfter(front, limit), FullAfter(front, limit), clock, run[k].now);
    JudgeAgrees(Swept(TableAfter(front, limit), run[k].now), FullAfter(front, limit), run[k], limit);
  }

  // ---- how many one peer gets ----

  /** The admissions of one peer in a run, each with the window it was counted in. */
  ghost function Admissions(run: seq<Request>, limit: nat, peer: PeerId): seq<Admission> {
    if run == [] then []
    else
      var front, last := run[..|run| - 1], run[|run| - 1];
      var before := Admissions(front, limit, peer);
      if last.peer == peer && Judge(FullAfter(front, limit), last, limit).1
      then before + [Admission(last.now, CurrentSlot(FullAfter(front, limit), last).start)]
      else before
  }

  ghost predicate PeerLedger(run: seq<Request>, limit: nat, peer: PeerId, clock: nat) {
    var h, full := Admissions(run, limit, peer), FullAfter(run, limit);
    if peer in full then Ledger(h, full[peer].start, full[peer].count, RATE_WINDOW_NS, limit, clock)
    else h == []
  }

  lemma {:induction false} PeerLedgers(run: seq<Request>, limit: nat, peer: PeerId)
    requires InOrder(run)
    ensures PeerLedger(run, limit, peer, if run == [] then 0 else run[|run| - 1].now)
  {
    hide Ledger;
    if run != [] {
      var front, last := run[..|run| - 1], run[|run| - 1];
      PeerLedgers(front, limit, peer);
      LedgerFresh(last.now, RATE_WINDOW_NS, limit);
      var h, full := Admissions(front, limit, peer), FullAfter(front, limit);
      var clock := if front == [] then 0 else front[|front| - 1].now;
      var slot := CurrentSlot(full, last);
      if last.peer != peer {
        if peer in full { LedgerLater(h, full[peer].start, full[peer].count, RATE_WINDOW_NS, limit, clock, last.now); }
      } else {
        assert Ledger(h, slot.start, slot.count, RATE_WINDOW_NS, limit, last.now) by {
          if peer in full && slot == full[peer] {
            LedgerLater(h, slot.start, slot.count, RATE_WINDOW_NS, limit, clock, last.now);
          } else if peer in full {
            LedgerRoll(h, full[peer].start, full[peer].count, RATE_WINDOW_NS, limit, clock, last.now);
          }
        }
        if slot.count < limit { LedgerAdmit(h, slot.start, slot.count, RATE_WINDOW_NS, limit, last.now, last.now); }
      }
    }
  }

  predicate InSpan(at: int, from: nat) { from <= at <= from + RATE_WINDOW_NS }

  /** How many of one peer's requests in the run are admitted within the 60 seconds from `from`. */
  ghost function AdmittedWithin(run: seq<Request>, limit: nat, peer: PeerId, from: nat): nat {
    if run == [] then 0
    else
      var k := |run| - 1;
      AdmittedWithin(run[..k], limit, peer, from)
      + if run[k].peer == peer && InSpan(run[k].now, from) && Admitted(run, limit, k) then 1 else 0
  }

  ghost function Inside(h: seq<Admission>, from: nat): set<nat> {
    set i | 0 <= i < |h| && InSpan(h[i].at, from)
  }

  lemma {:induction false} CountsAdmissions(run: seq<Request>, limit: nat, peer: PeerId, from: nat)
    requires InOrder(run)
    ensures AdmittedWithin(run, limit, peer, from) == |Inside(Admissions(run, limit, peer), from)|
  {
    if run != [] {
      var k := |run| - 1;
      CountsAdmissions(run[..k], limit, peer, from);
      CleanUpIsInvisible(run, limit, k);
      var before, h := Admissions(run[..k], limit, peer), Admissions(run, limit, peer);
      if h != before {
        assert h[..|before|] == before;
        assert Inside(h, from) == Inside(before, from) + (if InSpan(run[k].now, from) then {|before|} else {});
      }
    }
  }

  /** No peer is admitted more than twice the per-window limit within any 60 seconds. */
  lemma AtMostTwicePerMinute(run: seq<Request>, limit: nat, peer: PeerId, from: nat)
    requires InOrder(run)
    ensures AdmittedWithin(run, limit, peer, from) <= 2 * limit
  {
    PeerLedgers(run, limit, peer);
    CountsAdmissions(run, limit, peer, from);
    var h, full := Admissions(run, limit, peer), FullAfter(run, limit);
    if peer in full {
      AtMostTwicePerSpan(h, full[peer].start, full[peer].count, RATE_WINDOW_NS, limit,
                         if run == [] then 0 else run[|run| - 1].now, from, Inside(h, from));
    } else {
      assert Inside(h, from) == {};
    }
  }

  // ---- exactly which requests are admitted, by their times alone ----

  /** Request `k` opens a window: each window its peer opened before is a minute old. */
  ghost predicate Opens(run: seq<Request>, k: nat)
    requires k < |run|
    decreases k
  {
    forall i: nat :: i < k && run[i].peer == run[k].peer && Opens(run, i) ==>
      run[i].now + 60_000_000_000 <= run[k].now
  }

  /** Request `w` opened the window that request `k` falls in. */
  ghost predicate OpenedBy(run: seq<Request>, w: nat, k: nat) {
    && w <= k < |run| && run[w].peer == run[k].peer && Opens(run, w)
    && forall i: nat :: w < i <= k && run[i].peer == run[k].peer ==> !Opens(run, i)
  }

  /** The peer's requests from `w` on and before `k`. */
  ghost function Requests(run: seq<Request>, peer: PeerId, w: nat, k: nat): set<nat>
    requires k <= |run|
  {
    set i: nat | w <= i < k && run[i].peer == peer
  }

  /** The peer's last opening among the first `k` requests. */
  ghost function LastOpening(run: seq<Request>, peer: PeerId, k: nat): (w: Option<nat>)
    requires k <= |run|
    ensures w.Some? ==> w.value < k && run[w.value].peer == peer && Opens(run, w.value)
    ensures forall i: nat :: i < k && run[i].peer == peer && Opens(run, i) ==> w.Some? && i <= w.value
  {
    if k == 0 then None
    else if run[k - 1].peer == peer && Opens(run, k - 1) then Some(k - 1) else LastOpening(run, peer, k - 1)
  }

  /** Only the last opening decides whether the next request opens a window. */
  lemma OpensAfterLast(run: seq<Request>, k: nat)
    requires InOrder(run) && k < |run|
    ensures var w := LastOpening(run, run[k].peer, k);
            Opens(run, k) <==> w.None? || run[w.value].now + 60_000_000_000 <= run[k].now
  {
    hide Opens, LastOpening, InOrder;
    var w := LastOpening(run, run[k].peer, k);
    if w.None? {
      var _ := OpensUnless(run, k);
    } else if run[w.value].now + 60_000_000_000 <= run[k].now {
      var late := OpensUnless(run, k);
      if !Opens(run, k) { Ordered(run, late, w.value); }
    } else if Opens(run, k) {
      OpensApart(run, w.value, k);
    }
  }

  lemma Ordered(run: seq<Request>, i: nat, j: nat)
    requires InOrder(run) && i <= j < |run|
    ensures run[i].now <= run[j].now
  {}

  lemma OpensApart(run: seq<Request>, i: nat, k: nat)
    requires i < k < |run| && run[i].peer == run[k].peer && Opens(run, i) && Opens(run, k)
    ensures run[i].now + 60_000_000_000 <= run[k].now
  {}

  lemma OpensUnless(run: seq<Request>, k: nat) returns (i: nat)
    requires k < |run|
    ensures Opens(run, k) || (&& i < k && run[i].peer == run[k].peer && Opens(run, i)
                              && run[k].now < run[i].now + 60_000_000_000)
  {
    i := 0;
    if !Opens(run, k) {
      i :| i < k && run[i].peer == run[k].peer && Opens(run, i) && run[k].now < run[i].now + 60_000_000_000;
    }
  }

  lemma OpeningFound(run: seq<Request>, k: nat) returns (w: nat)
    requires k < |run|
    ensures OpenedBy(run, w, k)
  {
    var last := LastOpening(run, run[k].peer, k);
    w := if Opens(run, k) then k else last.value;
  }

  lemma RequestsGrow(run: seq<Request>, peer: PeerId, w: nat, k: nat)
    requires w <= k < |run|
    ensures |Requests(run, peer, w, k + 1)| == |Requests(run, peer, w, k)| + if run[k].peer == peer then 1 else 0
    ensures Requests(run, peer, k, k) == {}
  {
    var now, next := Requests(run, peer, w, k), Requests(run, peer, w, k + 1);
    assert next == if run[k].peer == peer then now + {k} else now;
  }

  function Capped(n: nat, limit: nat): nat { if n < limit then n else limit }

  /** What the table that never forgets holds of a peer. */
  ghost predicate SlotExplained(run: seq<Request>, limit: nat, peer: PeerId, k: nat, full: Windows)
    requires k <= |run|
  {
    match LastOpening(run, peer, k)
    case None => peer !in full
    case Some(w) =>
      peer in full && full[peer] == Slot(run[w].now, Capped(|Requests(run, peer, w, k)|, limit))
  }

  lemma SlotStep(run: seq<Request>, limit: nat, peer: PeerId, k: nat, full: Windows)
    requires InOrder(run) && k < |run| && SlotExplained(run, limit, peer, k, full)
    ensures SlotExplained(run, limit, peer, k + 1, Judge(full, run[k], limit).0)
  {
    hide Opens, Requests;
    var last := LastOpening(run, peer, k);
    if run[k].peer == peer {
      OpensAfterLast(run, k);
      RequestsGrow(run, peer, if Opens(run, k) then k else last.value, k);
    } else if last.Some? {
      RequestsGrow(run, peer, last.value, k);
    }
  }

  lemma {:induction false} SlotsExplained(run: seq<Request>, limit: nat, peer: PeerId, k: nat)
    requires InOrder(run) && k <= |run|
    ensures SlotExplained(run, limit, peer, k, FullAfter(run[..k], limit))
  {
    hide Judge, Opens, InOrder;
    if k > 0 {
      SlotsExplained(run, limit, peer, k - 1);
      assert run[..k][..k - 1] == run[..k - 1];
      SlotStep(run, limit, peer, k - 1, FullAfter(run[..k - 1], limit));
    }
  }

  lemma JudgedByCount(run: seq<Request>, limit: nat, w: nat, k: nat, full: Windows)
    requires InOrder(run) && OpenedBy(run, w, k) && SlotExplained(run, limit, run[k].peer, k, full)
    ensures Judge(full, run[k], limit).1 <==> |Requests(run, run[k].peer, w, k)| < limit
  {
    hide Opens, Requests;
    OpensAfterLast(run, k);
    RequestsGrow(run, run[k].peer, k, k);
    hide InOrder;
    var last := LastOpening(run, run[k].peer, k);
    if w < k { assert last == Some(w); }
  }

  /** A request is admitted exactly when its peer made fewer than `limit` requests before it in its window. */
  lemma AdmittedExactly(run: seq<Request>, limit: nat, w: nat, k: nat)
    requires InOrder(run) && OpenedBy(run, w, k)
    ensures Admitted(run, limit, k) <==> |Requests(run, run[k].peer, w, k)| < limit
  {
    hide Judge, Opens, InOrder, SlotExplained, Requests;
    CleanUpIsInvisible(run, limit, k);
    SlotsExplained(run, limit, run[k].peer, k);
    JudgedByCount(run, limit, w, k, FullAfter(run[..k], limit));
  }

  lemma LedgerRecent(h: seq<Admission>, start: int, count: nat, limit: nat, clock: int, from: nat)
    requires Ledger(h, start, count, RATE_WINDOW_NS, limit, clock) && from <= start && clock <= from + RATE_WINDOW_NS
    ensures |Inside(h, from)| >= count
  {
    HoldsRange(Inside(h, from), |h| - count, |h|);
  }

  /** Nobody is turned away without having been admitted `limit` times within the last minute. */
  lemma TurnedAwayOnlyWhenSpent(run: seq<Request>, limit: nat, k: nat)
    requires InOrder(run) && k < |run| && !Admitted(run, limit, k)
    ensures AdmittedWithin(run[..k], limit, run[k].peer, Elapsed(run[k].now + 1, RATE_WINDOW_NS)) >= limit
  {
    hide Ledger, Inside, Admitted;
    var front, r, from := run[..k], run[k], Elapsed(run[k].now + 1, RATE_WINDOW_NS);
    var h, full := Admissions(front, limit, r.peer), FullAfter(front, limit);
    CleanUpIsInvisible(run, limit, k);
    PeerLedgers(front, limit, r.peer);
    CountsAdmissions(front, limit, r.peer, from);
    if limit > 0 {
      var slot, clock := full[r.peer], front[|front| - 1].now;
      LedgerLater(h, slot.start, slot.count, RATE_WINDOW_NS, limit, clock, r.now);
      LedgerRecent(h, slot.start, slot.count, limit, r.now, from);
    }
  }

  // ---- answers ----

  /** Credentials of one source and when they end. */
  datatype Learned = Learned(servers: seq<IceServer>, refreshAt: nat, expiresAt: nat)

  function Learn(c: Credentials, now: nat): (l: Learned)
    ensures now < l.refreshAt < l.expiresAt == now + TtlSecs(c) * 1_000_000_000 && l.servers == c.servers
    ensures 4 * (l.refreshAt - now) == 3 * (l.expiresAt - now)
  {
    var ttl := TtlSecs(c) * NS_PER_SEC;
    Learned(c.servers, now + ttl * 3 / 4, now + ttl)
  }

  datatype Source = Source(refresher: Refresher, cached: Option<Learned>)

  datatype Response = Granted(servers: seq<IceServer>, ttlSecs: nat) | Unavailable | RateLimited

  predicate IsLive(cached: Option<Learned>, now: nat) { cached.Some? && cached.value.expiresAt > now }

  function RemainingSecs(l: Learned, now: nat): nat { Elapsed(l.expiresAt, now) / NS_PER_SEC }

  /** Servers of the sources that are live, in source order. */
  function LiveServers(sources: seq<Source>, now: nat): seq<IceServer> {
    if sources == [] then []
    else
      var last := sources[|sources| - 1];
      LiveServers(sources[..|sources| - 1], now) + if IsLive(last.cached, now) then last.cached.value.servers else []
  }

  ghost predicate Offered(sources: seq<Source>, now: nat, x: IceServer) {
    exists i :: 0 <= i < |sources| && x in ServersAt(sources[i], now)
  }

  lemma OfferedPush(front: seq<Source>, last: Source, now: nat, x: IceServer)
    ensures Offered(front + [last], now, x) <==> Offered(front, now, x) || x in ServersAt(last, now)
  {
    hide ServersAt;
    var all := front + [last];
    assert all[|front|] == last;
    if i :| 0 <= i < |front| && x in ServersAt(front[i], now) { assert all[i] == front[i]; }
  }

  /** The servers on offer, and no others. */
  lemma {:induction false} LiveServersAre(sources: seq<Source>, now: nat)
    ensures forall x :: x in LiveServers(sources, now) <==> Offered(sources, now, x)
  {
    hide Offered;
    if sources == [] {
      NothingOffered(now);
    } else {
      var k := |sources| - 1;
      LiveServersAre(sources[..k], now);
      assert sources == sources[..k] + [sources[k]];
      forall x { OfferedPush(sources[..k], sources[k], now, x); }
    }
  }

  lemma NothingOffered(now: nat)
    ensures forall x :: !Offered([], now, x)
  {}

  /** What a source has to offer: its cached servers until they expire. */
  function ServersAt(s: Source, now: nat): seq<IceServer> {
    if s.cached.Some? && now < s.cached.value.expiresAt then s.cached.value.servers else []
  }

  /** One source's turn: collect a finished fetch, start a due one, drop what has expired. */
  function MaintainSpec(s: Source, now: nat): Source {
    var (collected, result) := TakeSpec(s.refresher, now);
    var cached := match result case Some(Ok(c)) => Some(Learn(c, now)) case _ => s.cached;
    Source(StartSpec(collected, now).0, if cached.Some? && cached.value.expiresAt <= now then None else cached)
  }

  /** Fetches that ended in an error and wait to be collected. */
  function FailedFetches(sources: seq<Source>): nat {
    if sources == [] then 0
    else
      var slot := sources[|sources| - 1].refresher.slot;
      FailedFetches(sources[..|sources| - 1]) + if slot.Some? && slot.value.Err? then 1 else 0
  }

  /** What happens to a source: the runtime's rounds, and fetches finishing between them. */
  datatype SourceStep = Round(now: nat) | Arrived(result: FetchResult)

  function SourceDo(s: Source, step: SourceStep): Source {
    match step
    case Round(now) => MaintainSpec(s, now)
    case Arrived(result) => if s.refresher.running > 0 then s.(refresher := DoneSpec(s.refresher, result)) else s
  }

  function SourceAfter(start: nat, steps: seq<SourceStep>): Source {
    if steps == [] then Source(Fresh(start), None)
    else SourceDo(SourceAfter(start, steps[..|steps| - 1]), steps[|steps| - 1])
  }

  /** The credentials collected last, and when. */
  function LastGood(start: nat, steps: seq<SourceStep>): Option<(Credentials, nat)> {
    if steps == [] then None
    else
      var front, last := steps[..|steps| - 1], steps[|steps| - 1];
      var slot := SourceAfter(start, front).refresher.slot;
      if last.Round? && slot.Some? && slot.value.Ok? then Some((slot.value.value, last.now)) else LastGood(start, front)
  }

  function LastRound(steps: seq<SourceStep>): nat {
    if steps == [] then 0
    else if steps[|steps| - 1].Round? then steps[|steps| - 1].now else LastRound(steps[..|steps| - 1])
  }

  ghost predicate RoundsInOrder(steps: seq<SourceStep>) {
    forall i, j :: 0 <= i < j < |steps| && steps[i].Round? && steps[j].Round? ==> steps[i].now <= steps[j].now
  }

  function Unless(l: Learned, now: nat): Option<Learned> { if l.expiresAt <= now then None else Some(l) }

  lemma {:induction false} LastRoundIsLatest(steps: seq<SourceStep>, now: nat)
    requires RoundsInOrder(steps + [Round(now)])
    ensures LastRound(steps) <= now && RoundsInOrder(steps)
  {
    var longer := steps + [Round(now)];
    assert forall i :: 0 <= i < |steps| ==> longer[i] == steps[i];
    assert longer[|steps|] == Round(now);
    if steps != [] && !steps[|steps| - 1].Round? {
      var front := steps[..|steps| - 1];
      var shorter := front + [Round(now)];
      assert forall i :: 0 <= i < |front| ==> shorter[i] == longer[i];
      LastRoundIsLatest(front, now);
    }
  }

  /** In every run a source caches exactly the credentials it collected last, until they expire. */
  lemma {:induction false} CachesLastGood(start: nat, steps: seq<SourceStep>)
    requires RoundsInOrder(steps)
    ensures var good := LastGood(start, steps);
            SourceAfter(start, steps).cached == if good.None? then None
                else Unless(Learn(good.value.0, good.value.1), LastRound(steps))
  {
    if steps != [] {
      var front, last := steps[..|steps| - 1], steps[|steps| - 1];
      assert steps == front + [last];
      CachesLastGood(start, front);
      if last.Round? { LastRoundIsLatest(front, last.now); }
    }
  }

  /** The servers are those collected last, and a lifetime granted now ends within theirs. */
  predicate GrantFits(servers: seq<IceServer>, good: Option<(Credentials, nat)>, now: nat, ttlSecs: nat) {
    && good.Some? && servers == good.value.0.servers
    && now + ttlSecs * NS_PER_SEC <= good.value.1 + TtlSecs(good.value.0) * NS_PER_SEC
  }

  /** Whatever lifetime fits the cached set fits the credentials it came from, counted from their collection. */
  lemma LifetimeFromCollection(start: nat, steps: seq<SourceStep>, now: nat, ttlSecs: nat)
    requires RoundsInOrder(steps) && IsLive(SourceAfter(start, steps).cached, now)
    requires now + ttlSecs * NS_PER_SEC <= SourceAfter(start, steps).cached.value.expiresAt
    ensures GrantFits(SourceAfter(start, steps).cached.value.servers, LastGood(start, steps), now, ttlSecs)
  {
    CachesLastGood(start, steps);
  }

  ghost predicate Explained(s: Source, start: nat, steps: seq<SourceStep>, clock: nat) {
    && s == SourceAfter(start, steps) && RoundsInOrder(steps)
    && forall i :: 0 <= i < |steps| && steps[i].Round? ==> steps[i].now <= clock
  }

  lemma ExplainedStep(s: Source, start: nat, steps: seq<SourceStep>, clock: nat, step: SourceStep, now: nat)
    requires Explained(s, start, steps, clock) && clock <= now && (step.Round? ==> step.now == now)
    ensures Explained(SourceDo(s, step), start, steps + [step], now)
  {
    hide SourceDo;
    assert (steps + [step])[..|steps|] == steps;
  }

  lemma AskedOnce(run: seq<Request>, r: Request, limit: nat)
    ensures TableAfter(run + [r], limit) == Judge(Swept(TableAfter(run, limit), r.now), r, limit).0
    ensures Admitted(run + [r], limit, |run|) == Judge(Swept(TableAfter(run, limit), r.now), r, limit).1
  {
    assert (run + [r])[..|run|] == run;
  }

  class TurnBrokerState {
    var sources: seq<Source>
    const maxPerWindow: nat
    var windows: Windows
    var granted: nat
    var rateLimited: nat
    var unavailable: nat
    var sourceErrors: nat
    ghost var starts: seq<nat>                    // when each source was added
    ghost var histories: seq<seq<SourceStep>>     // what has happened to each source
    ghost var clock: nat                          // the last round
    ghost var requests: seq<Request>              // every request the limiter was asked about

    /** Every source is what its history makes it, and so are the limiter's windows. */
    ghost predicate Valid()
      reads this
    {
      && |sources| == |starts| == |histories| && windows == TableAfter(requests, maxPerWindow)
      && forall i :: 0 <= i < |sources| ==> Explained(sources[i], starts[i], histories[i], clock)
    }

    constructor (maxPerWindow: nat)
      ensures Valid() && clock == 0 && requests == []
      ensures sources == [] && windows == map[] && this.maxPerWindow == maxPerWindow
      ensures granted == rateLimited == unavailable == sourceErrors == 0
    {
      this.maxPerWindow := maxPerWindow;
      sources, windows := [], map[];
      granted, rateLimited, unavailable, sourceErrors := 0, 0, 0, 0;
      starts, histories, clock, requests := [], [], 0, [];
    }

    method AddSource(now: nat)
      requires Valid()
      modifies this`sources, this`starts, this`histories
      ensures Valid() && sources == old(sources) + [Source(Fresh(now), None)] && histories == old(histories) + [[]]
    {
      sources := sources + [Source(Fresh(now), None)];
      starts, histories := starts + [now], histories + [[]];
    }

    /** A detached fetch of source `i` writes its slot. */
    method FetchArrived(i: nat, result: FetchResult)
      requires Valid() && i < |sources| && sources[i].refresher.running > 0
      modifies this`sources, this`histories
      ensures Valid() && histories == old(histories)[i := old(histories)[i] + [Arrived(result)]]
      ensures sources == old(sources)[i := old(sources)[i].(refresher := DoneSpec(old(sources)[i].refresher, result))]
    {
      hide SourceAfter, MaintainSpec;
      ExplainedStep(sources[i], starts[i], histories[i], clock, Arrived(result), clock);
      sources := sources[i := sources[i].(refresher := DoneSpec(sources[i].refresher, result))];
      histories := histories[i := histories[i] + [Arrived(result)]];
    }

    method MaintainOne(s: Source, now: nat) returns (after: Source)
      modifies this`sourceErrors
      ensures after == MaintainSpec(s, now)
      ensures sourceErrors == old(sourceErrors) + FailedFetches([s])
    {
      var (refresher, result) := TakeSpec(s.refresher, now);
      var cached := s.cached;
      if result.Some? {
        if result.value.Ok? {
          cached := Some(Learn(result.value.value, now));
        } else {
          sourceErrors := sourceErrors + 1;
        }
      }
      refresher := StartSpec(refresher, now).0;
      if cached.Some? && cached.value.expiresAt <= now { cached := None; }
      after := Source(refresher, cached);
    }

    method Maintain(now: nat)
      requires Valid() && clock <= now
      modifies this`sources, this`sourceErrors, this`histories, this`clock
      ensures Valid() && clock == now && |sources| == |old(sources)|
      ensures forall i :: 0 <= i < |sources| ==>
                sources[i] == MaintainSpec(old(sources)[i], now) && histories[i] == old(histories)[i] + [Round(now)]
      ensures sourceErrors == old(sourceErrors) + FailedFetches(old(sources))
    {
      hide MaintainSpec, SourceAfter, Explained;
      ghost var was, before := histories, clock;
      MaintainAll(now);
      histories, clock := seq(|was|, i requires 0 <= i < |was| => was[i] + [Round(now)]), now;
      forall i | 0 <= i < |sources| ensures Explained(sources[i], starts[i], histories[i], now) {
        ExplainedStep(old(sources)[i], starts[i], was[i], before, Round(now), now);
      }
    }

    method MaintainAll(now: nat)
      modifies this`sources, this`sourceErrors
      ensures |sources| == |old(sources)|
      ensures forall i :: 0 <= i < |sources| ==> sources[i] == MaintainSpec(old(sources)[i], now)
      ensures sourceErrors == old(sourceErrors) + FailedFetches(old(sources))
    {
      for i := 0 to |sources|
        invariant |sources| == |old(sources)|
        invariant sourceErrors == old(sourceErrors) + FailedFetches(old(sources)[..i])
        invariant forall k :: 0 <= k < i ==> sources[k] == MaintainSpec(old(sources)[k], now)
        invariant forall k :: i <= k < |sources| ==> sources[k] == old(sources)[k]
      {
        hide MaintainSpec;
        var after := MaintainOne(sources[i], now);
        sources := sources[i := after];
        assert old(sources)[..i + 1][..i] == old(sources)[..i];
      }
      assert old(sources)[..|sources|] == old(sources);
    }

    /** While the clock does not run back, the answer follows from the times of the peer's own requests. */
    method Admit(peer: PeerId, now: nat) returns (ok: bool)
      requires Valid()
      modifies this`windows, this`requests
      ensures Valid() && requests == old(requests) + [Request(peer, now)]
      ensures ok == Admitted(requests, maxPerWindow, |old(requests)|)
      ensures InOrder(requests) ==> forall w :: OpenedBy(requests, w, |old(requests)|) ==>
                (ok <==> |Requests(requests, peer, w, |old(requests)|)| < maxPerWindow)
    {
      hide Opens, TableAfter, OpenedBy, Admitted, Explained, InOrder, Swept, Judge;
      ok := Count(peer, now);
      requests := requests + [Request(peer, now)];
      AskedOnce(old(requests), Request(peer, now), maxPerWindow);
      if InOrder(requests) {
        forall w: nat | OpenedBy(requests, w, |old(requests)|)
          ensures ok <==> |Requests(requests, peer, w, |old(requests)|)| < maxPerWindow
        {
          AdmittedExactly(requests, maxPerWindow, w, |old(requests)|);
        }
      }
    }

    method Count(peer: PeerId, now: nat) returns (ok: bool)
      modifies this`windows
      ensures (windows, ok) == Judge(Swept(old(windows), now), Request(peer, now), maxPerWindow)
    {
      windows := Swept(windows, now);
      ghost var table := windows;
      if peer !in windows { windows := windows[peer := Slot(now, 0)]; }
      if Elapsed(now, windows[peer].start) >= RATE_WINDOW_NS { windows := windows[peer := Slot(now, 0)]; }
      assert windows == table[peer := CurrentSlot(table, Request(peer, now))];
      if windows[peer].count >= maxPerWindow { return false; }
      windows := windows[peer := Slot(windows[peer].start, windows[peer].count + 1)];
      assert windows == table[peer := windows[peer]];
      return true;
    }

    /** The servers of the live sources and the shortest lifetime left among them. */
    method Gather(now: nat) returns (shortest: Option<nat>, servers: seq<IceServer>)
      ensures servers == LiveServers(sources, now)
      ensures shortest.None? ==> forall i :: 0 <= i < |sources| ==> !IsLive(sources[i].cached, now)
      ensures shortest.Some? ==>
                && (forall i :: 0 <= i < |sources| && IsLive(sources[i].cached, now) ==>
                    shortest.value <= RemainingSecs(sources[i].cached.value, now))
                && exists i :: 0 <= i < |sources| && IsLive(sources[i].cached, now)
                    && shortest.value == RemainingSecs(sources[i].cached.value, now)
    {
      shortest, servers := None, [];
      assert sources[..0] == [];
      for i := 0 to |sources|
        invariant servers == LiveServers(sources[..i], now)
        invariant shortest.None? ==> forall k :: 0 <= k < i ==> !IsLive(sources[k].cached, now)
        invariant shortest.Some? ==>
          && (forall k :: 0 <= k < i && IsLive(sources[k].cached, now) ==>
              shortest.value <= RemainingSecs(sources[k].cached.value, now))
          && exists k :: 0 <= k < i && IsLive(sources[k].cached, now)
              && shortest.value == RemainingSecs(sources[k].cached.value, now)
      {
        var cached := sources[i].cached;
        assert sources[..i + 1][..i] == sources[..i];
        if IsLive(cached, now) {
          var left := RemainingSecs(cached.value, now);
          if shortest.None? || left < shortest.value { shortest := Some(left); }
          servers := servers + cached.value.servers;
        }
      }
      assert sources[..|sources|] == sources;
    }

    /**
     The granted lifetime is that of the shortest-lived set included: no set in the
     answer ends before it, and one of them ends within a second of it. Every set in the
     answer is the one its source collected last, and the lifetime granted ends within the
     set's own, counted from that collection.
     */
    method Answer(peer: PeerId, now: nat) returns (r: Response)
      requires Valid()
      modifies this`windows, this`requests, this`granted, this`rateLimited, this`unavailable
      ensures Valid() && requests == old(requests) + [Request(peer, now)]
      ensures r.Granted? ==> forall i :: 0 <= i < |sources| && IsLive(sources[i].cached, now) ==>
                GrantFits(sources[i].cached.value.servers, LastGood(starts[i], histories[i]), now, r.ttlSecs)
      ensures r.RateLimited? <==> !Admitted(requests, maxPerWindow, |old(requests)|)
      ensures r.Unavailable? ==> forall i :: 0 <= i < |sources| ==> !IsLive(sources[i].cached, now)
      ensures r.Granted? ==> forall x :: x in r.servers <==> Offered(sources, now, x)
      ensures r.Granted? ==> r.servers == LiveServers(sources, now)
      ensures r.Granted? ==> forall i :: 0 <= i < |sources| && IsLive(sources[i].cached, now) ==>
                now + r.ttlSecs * NS_PER_SEC <= sources[i].cached.value.expiresAt
      ensures r.Granted? ==>
                exists i :: 0 <= i < |sources| && IsLive(sources[i].cached, now)
                    && r.ttlSecs == RemainingSecs(sources[i].cached.value, now)
      ensures granted == old(granted) + (if r.Granted? then 1 else 0)
      ensures rateLimited == old(rateLimited) + (if r.RateLimited? then 1 else 0)
      ensures unavailable == old(unavailable) + (if r.Unavailable? then 1 else 0)
    {
      LiveServersAre(sources, now);
      hide LastGood, SourceAfter, GrantFits, Offered, TableAfter, Admitted, Opens, OpenedBy, InOrder;
      var ok := Admit(peer, now);
      if !ok {
        rateLimited := rateLimited + 1;
        return RateLimited;
      }
      var shortest, servers := Gather(now);
      if shortest.None? {
        unavailable := unavailable + 1;
        return Unavailable;
      }
      granted := granted + 1;
      forall i | 0 <= i < |sources| && IsLive(sources[i].cached, now)
        ensures GrantFits(sources[i].cached.value.servers, LastGood(starts[i], histories[i]), now, shortest.value)
      {
        LifetimeFromCollection(starts[i], histories[i], now, shortest.value);
      }
      return Granted(servers, shortest.value);
    }
  }
}
