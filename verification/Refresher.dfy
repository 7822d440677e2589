/**
 Background credential refresh of one provider: a detached fetch writes its result
 into a shared slot, and the runtime collects it on its own schedule.
 */
module Refresher {
  import opened Base

  const FIRST_RETRY_SECS: nat := 30
  const MAX_RETRY_SECS: nat := 600
  const DEFAULT_TTL_SECS: nat := 3600
  const MIN_TTL_SECS: nat := 60
  const MAX_TTL_SECS: nat := 48 * 3600

  type IceServer = string

  datatype Credentials = Credentials(servers: seq<IceServer>, ttl: Option<nat>)

  /** Effective lifetime, within the accepted range. */
  function TtlSecs(c: Credentials): (secs: nat)
    ensures 60 <= secs <= 172800
    ensures c.ttl.None? ==> secs == 3600
    ensures c.ttl.Some? ==> secs == c.ttl.value || secs == 60 > c.ttl.value || secs == 172800 < c.ttl.value
  {
    var t := if c.ttl.Some? then c.ttl.value else DEFAULT_TTL_SECS;
    if t < MIN_TTL_SECS then MIN_TTL_SECS else if t > MAX_TTL_SECS then MAX_TTL_SECS else t
  }

  type FetchResult = Result<Credentials, string>

  /** `running` counts detached fetches that have not written the slot yet. Times are nanoseconds. */
  datatype Refresher = Refresher(slot: Option<FetchResult>, inFlight: bool, nextDue: nat, failures: nat, running: nat)

  function Fresh(now: nat): Refresher { Refresher(None, false, now, 0, 0) }

  function StartSpec(r: Refresher, now: nat): (Refresher, bool) {
    if r.inFlight || now < r.nextDue then (r, false)
    else (r.(inFlight := true, running := r.running + 1), true)
  }

  /** A running fetch finishes: it overwrites whatever the slot holds. */
  function DoneSpec(r: Refresher, result: FetchResult): Refresher
    requires r.running > 0
  {
    r.(slot := Some(result), running := r.running - 1)
  }

  function Pow2(n: nat): nat { if n == 0 then 1 else 2 * Pow2(n - 1) }

  /** The wait after a result, in nanoseconds, and the new count of consecutive failures. */
  function DelayAfter(failures: nat, result: FetchResult): (nat, nat) {
    match result
    case Ok(c) => (TtlSecs(c) * NS_PER_SEC * 3 / 4, 0)
    case Err(_) =>
      var delay := FIRST_RETRY_SECS * Pow2(if failures < 5 then failures else 5);
      ((if delay < MAX_RETRY_SECS then delay else MAX_RETRY_SECS) * NS_PER_SEC,
       if failures == 0xFFFF_FFFF then failures else failures + 1)
  }

  function TakeSpec(r: Refresher, now: nat): (Refresher, Option<FetchResult>) {
    match r.slot
    case None => (r, None)
    case Some(result) =>
      var (delay, failures) := DelayAfter(r.failures, result);
      (r.(slot := None, inFlight := false, nextDue := now + delay, failures := failures), Some(result))
  }

  /** Each further failure doubles the wait until it reaches ten minutes; it never shrinks. */
  lemma BackoffDoubles(failures: nat, error: string)
    requires failures < 0xFFFF_FFFF
    ensures var (first, n) := DelayAfter(failures, Err(error)); var (next, _) := DelayAfter(n, Err(error));
            n == failures + 1 && next == if 2 * first < MAX_RETRY_SECS * NS_PER_SEC then 2 * first
                else MAX_RETRY_SECS * NS_PER_SEC
  {
    assert Pow2(5) == 2 * Pow2(4) == 4 * Pow2(3) == 32;
    if failures == 0 { assert Pow2(1) == 2; }
    if failures == 1 { assert Pow2(2) == 4; }
  }

  // ---- every interleaving of polling and fetching ----

  datatype Step = Start(now: nat) | Done(result: FetchResult) | Take(now: nat)

  predicate Enabled(r: Refresher, step: Step) { step.Done? ==> r.running > 0 }

  function Do(r: Refresher, step: Step): Refresher
    requires Enabled(r, step)
  {
    match step
    case Start(now) => StartSpec(r, now).0
    case Done(result) => DoneSpec(r, result)
    case Take(now) => TakeSpec(r, now).0
  }

  ghost predicate Runs(r: Refresher, steps: seq<Step>)
    decreases steps, 0
  {
    steps == [] || (Runs(r, steps[..|steps| - 1]) && Enabled(After(r, steps[..|steps| - 1]), steps[|steps| - 1]))
  }

  ghost function After(r: Refresher, steps: seq<Step>): Refresher
    requires Runs(r, steps)
    decreases steps, 1
  {
    if steps == [] then r else Do(After(r, steps[..|steps| - 1]), steps[|steps| - 1])
  }

  /** Results the fetches produced, in order. */
  ghost function Produced(steps: seq<Step>): seq<FetchResult> {
    if steps == [] then []
    else
      var last := steps[|steps| - 1];
      Produced(steps[..|steps| - 1]) + if last.Done? then [last.result] else []
  }

  /** Results the runtime collected, in order. */
  ghost function Collected(r: Refresher, steps: seq<Step>): seq<FetchResult>
    requires Runs(r, steps)
  {
    if steps == [] then []
    else
      var front, last := steps[..|steps| - 1], steps[|steps| - 1];
      var taken := if last.Take? then TakeSpec(After(r, front), last.now).1 else None;
      Collected(r, front) + if taken.Some? then [taken.value] else []
  }

  function Waiting(r: Refresher): seq<FetchResult> { if r.slot.Some? then [r.slot.value] else [] }

  /** One fetch at a time: running or waiting to be collected, and then marked in flight. */
  predicate SingleFlight(r: Refresher) {
    r.running + |Waiting(r)| == if r.inFlight then 1 else 0
  }

  /**
   Over every interleaving there is at most one fetch running or uncollected, and
   what was produced is exactly what was collected plus what waits: no result is
   overwritten, lost or collected twice.
   */
  lemma {:induction false} NothingLost(now: nat, steps: seq<Step>)
    requires Runs(Fresh(now), steps)
    ensures SingleFlight(After(Fresh(now), steps))
    ensures Produced(steps) == Collected(Fresh(now), steps) + Waiting(After(Fresh(now), steps))
  {
    if steps != [] { NothingLost(now, steps[..|steps| - 1]); }
  }

  // ---- exactly when a fetch starts ----

  /** When the runtime last collected a result, or when the refresher was made. */
  ghost function LastCollection(start: nat, steps: seq<Step>): nat
    requires Runs(Fresh(start), steps)
  {
    if steps == [] then start
    else
      var front, last := steps[..|steps| - 1], steps[|steps| - 1];
      if last.Take? && After(Fresh(start), front).slot.Some? then last.now else LastCollection(start, front)
  }

  /** How many of the latest results in a row are errors. */
  function ErrorsInARow(results: seq<FetchResult>): nat {
    if results != [] && results[|results| - 1].Err? then 1 + ErrorsInARow(results[..|results| - 1]) else 0
  }

  function RetrySecs(errors: nat): nat {
    if errors <= 1 then 30 else if errors == 2 then 60 else if errors == 3 then 120 else if errors == 4 then 240
    else if errors == 5 then 480 else 600
  }

  /** The wait after these results: three quarters of a lifetime, or the retry delay. */
  function Wait(results: seq<FetchResult>): nat {
    if results == [] then 0
    else match results[|results| - 1]
      case Ok(c) => TtlSecs(c) * 750_000_000
      case Err(_) => RetrySecs(ErrorsInARow(results)) * 1_000_000_000
  }

  lemma WaitFollows(before: seq<FetchResult>, result: FetchResult, failures: nat)
    requires failures == ErrorsInARow(before) || (failures == 0xFFFF_FFFF && ErrorsInARow(before) > failures)
    ensures var (delay, n) := DelayAfter(failures, result); var all := before + [result];
            && delay == Wait(all)
            && (n == ErrorsInARow(all) || (n == 0xFFFF_FFFF && ErrorsInARow(all) > n))
  {
    assert (before + [result])[..|before|] == before;
    assert Pow2(0) == 1 && Pow2(1) == 2 && Pow2(2) == 4 && Pow2(3) == 8;
    assert Pow2(4) == 2 * Pow2(3) && Pow2(5) == 2 * Pow2(4);
  }

  /** The refresher's schedule, told by what was collected and when. */
  ghost predicate Scheduled(start: nat, steps: seq<Step>)
    requires Runs(Fresh(start), steps)
  {
    var r, results := After(Fresh(start), steps), Collected(Fresh(start), steps);
    && r.nextDue == LastCollection(start, steps) + Wait(results)
    && (r.failures == ErrorsInARow(results) || (r.failures == 0xFFFF_FFFF && ErrorsInARow(results) > r.failures))
  }

  lemma {:induction false} ScheduleFollows(start: nat, steps: seq<Step>)
    requires Runs(Fresh(start), steps)
    ensures Scheduled(start, steps)
  {
    if steps != [] {
      var front, last := steps[..|steps| - 1], steps[|steps| - 1];
      ScheduleFollows(start, front);
      var r := After(Fresh(start), front);
      hide DelayAfter, Wait, ErrorsInARow;
      if last.Take? && r.slot.Some? {
        WaitFollows(Collected(Fresh(start), front), r.slot.value, r.failures);
      } else {
        assert Collected(Fresh(start), steps) == Collected(Fresh(start), front);
      }
    }
  }

  /**
   In every run a fetch starts exactly when every earlier one has been collected and the wait since
   the last collection is over. After a success that is before the credentials expire.
   */
  lemma StartsExactly(start: nat, steps: seq<Step>, now: nat)
    requires Runs(Fresh(start), steps)
    ensures var r, results := After(Fresh(start), steps), Collected(Fresh(start), steps);
            && (StartSpec(r, now).1 <==>
                  && r.running == 0 && Produced(steps) == results
                  && LastCollection(start, steps) + Wait(results) <= now)
            && (results != [] && results[|results| - 1].Ok? ==>
                  Wait(results) < TtlSecs(results[|results| - 1].value) * 1_000_000_000)
            && (StartSpec(r, now).1 ==> StartSpec(r, now).0.running == 1)
  {
    hide Wait, ErrorsInARow;
    NothingLost(start, steps);
    ScheduleFollows(start, steps);
    var r, results := After(Fresh(start), steps), Collected(Fresh(start), steps);
    if r.slot.Some? { assert Produced(steps) != results by { assert |Produced(steps)| == |results| + 1; } }
    WaitWithinLifetime(results);
  }

  lemma WaitWithinLifetime(results: seq<FetchResult>)
    ensures results != [] && results[|results| - 1].Ok? ==>
              Wait(results) < TtlSecs(results[|results| - 1].value) * 1_000_000_000
  {}

  /** The refresher as it runs; the slot is the one thing it shares with a fetch. */
  class ProviderRefresher {
    var slot: Option<FetchResult>
    var inFlight: bool
    var nextDue: nat
    var failures: nat
    ghost var running: nat

    ghost function View(): Refresher
      reads this
    {
      Refresher(slot, inFlight, nextDue, failures, running)
    }

    constructor (now: nat)
      ensures View() == Fresh(now) && SingleFlight(View())
    {
      slot, inFlight, nextDue, failures, running := None, false, now, 0, 0;
    }

    method StartIfDue(now: nat) returns (started: bool)
      requires SingleFlight(View())
      modifies this
      ensures (View(), started) == StartSpec(old(View()), now) && SingleFlight(View())
    {
      if inFlight || now < nextDue { return false; }
      inFlight, running := true, running + 1;
      return true;
    }

    /** The detached task's last act; single flight means the slot it fills is empty. */
    method FetchDone(result: FetchResult)
      requires SingleFlight(View()) && running > 0
      modifies this
      ensures old(slot) == None && View() == DoneSpec(old(View()), result) && SingleFlight(View())
    {
      slot, running := Some(result), running - 1;
    }

    method TakeResult(now: nat) returns (result: Option<FetchResult>)
      requires SingleFlight(View())
      modifies this
      ensures (View(), result) == TakeSpec(old(View()), now) && SingleFlight(View())
    {
      result := slot;
      if result.None? { return; }
      slot, inFlight := None, false;
      var (delay, n) := DelayAfter(failures, result.value);
      nextDue, failures := now + delay, n;
    }
  }
}
