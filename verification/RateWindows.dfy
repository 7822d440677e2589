/**
 Counting in windows that start on demand: what a per-window limit means for the
 number of admissions in an arbitrary span of time.
 */
module RateWindows {
  import opened Base

  /** One admission: when, and the start of the window it was counted in. */
  datatype Admission = Admission(at: int, window: int)

  /**
   `h` was admitted under windows of length `span` with at most `limit` each; the
   current window began at `start` and holds the last `count` admissions.
   */
  ghost predicate Ledger(h: seq<Admission>, start: int, count: nat, span: nat, limit: nat, clock: int) {
    && count <= limit && count <= |h| && start <= clock && (limit == 0 ==> h == [])
    && (forall i :: 0 <= i < |h| ==> h[i].window <= h[i].at < h[i].window + span && h[i].at <= clock)
    && (forall i, j :: 0 <= i < j < |h| ==> h[i].at <= h[j].at)
    && (forall i :: |h| - count <= i < |h| ==> h[i].window == start)
    && (forall i :: 0 <= i < |h| - count ==> h[i].window + span <= start)
    && (forall i, j :: 0 <= i < j < |h| && i + limit <= j ==> h[i].window + span <= h[j].window)
  }

  lemma LedgerAdmit(h: seq<Admission>, start: int, count: nat, span: nat, limit: nat, clock: int, now: int)
    requires Ledger(h, start, count, span, limit, clock) && count < limit
    requires clock <= now < start + span
    ensures Ledger(h + [Admission(now, start)], start, count + 1, span, limit, now)
  {}

  lemma LedgerFresh(start: int, span: nat, limit: nat)
    ensures Ledger([], start, 0, span, limit, start)
  {}

  lemma LedgerRoll(h: seq<Admission>, start: int, count: nat, span: nat, limit: nat, clock: int, next: int)
    requires Ledger(h, start, count, span, limit, clock) && start + span <= next && clock <= next
    ensures Ledger(h, next, 0, span, limit, next)
  {}

  lemma LedgerLater(h: seq<Admission>, start: int, count: nat, span: nat, limit: nat, clock: int, now: int)
    requires Ledger(h, start, count, span, limit, clock) && clock <= now
    ensures Ledger(h, start, count, span, limit, now)
  {}

  /** 2 * limit + 1 admissions in a row take longer than one span. */
  lemma LedgerSpreads(h: seq<Admission>, start: int, count: nat, span: nat, limit: nat, clock: int, i: nat, j: nat)
    requires Ledger(h, start, count, span, limit, clock) && i + 2 * limit <= j < |h|
    ensures h[j].at - h[i].at > span
  {
    assert h[i].window + span <= h[i + limit].window;
    assert h[i + limit].window + span <= h[j].window;
  }

  /** In no span of time are there more than twice the per-window limit. */
  lemma AtMostTwicePerSpan(h: seq<Admission>, start: int, count: nat, span: nat, limit: nat, clock: int,
                           from: int, inside: set<nat>)
    requires Ledger(h, start, count, span, limit, clock)
    requires forall i :: i in inside ==> i < |h| && from <= h[i].at <= from + span
    ensures |inside| <= 2 * limit
  {
    if inside != {} {
      LeastExists(inside);
      var first: nat :| IsLeast(inside, first);
      forall i | i in inside ensures i < first + 2 * limit {
        if first + 2 * limit <= i { LedgerSpreads(h, start, count, span, limit, clock, first, i); }
      }
      WithinRange(inside, first, first + 2 * limit);
    }
  }
}
