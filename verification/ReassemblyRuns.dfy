/** Whole runs of the reassembler: the round trip, and where a delivered message comes from. */
module ReassemblyRuns {
  import opened Base
  import opened AppMessages
  import opened Fragmentation
  import opened Reassembly

  ghost predicate AllChecked(libs: Libs, run: seq<Push>) {
    forall i :: 0 <= i < |run| ==> Checked(libs, run[i])
  }

  /** The open entries after a run of pushes. */
  ghost function After(libs: Libs, es: Entries, run: seq<Push>): (r: Entries)
    requires AllChecked(libs, run) && Inv(libs, es)
    ensures Inv(libs, r)
  {
    if run == [] then es
    else
      var before := After(libs, es, run[..|run| - 1]);
      PushKeepsInv(libs, before, run[|run| - 1]);
      PushSpec(libs, before, run[|run| - 1]).0
  }

  /** What push number `k` of a run returns. */
  ghost function OutcomeAt(libs: Libs, es: Entries, run: seq<Push>, k: nat): Outcome
    requires AllChecked(libs, run) && Inv(libs, es) && k < |run|
  {
    PushSpec(libs, After(libs, es, run[..k]), run[k]).1
  }

  lemma AfterStep(libs: Libs, es: Entries, run: seq<Push>, k: nat)
    requires AllChecked(libs, run) && Inv(libs, es) && k < |run|
    ensures After(libs, es, run[..k + 1]) == PushSpec(libs, After(libs, es, run[..k]), run[k]).0
  {
    assert run[..k + 1][..k] == run[..k];
  }

  // ---- the round trip ----

  function KeyFor(m: AppMessage, author: PeerId): Key { Key(author, m.nonceHex, m.topic) }

  /** A push of one of the fragments of `m`. */
  predicate IsPartOf(libs: Libs, m: AppMessage, author: PeerId, p: Push) {
    p.author == author && p.fragment.index < DivCeil(|m.payload|) && p.fragment == FragmentAt(libs, m, p.fragment.index)
  }

  /** Indices of `m` pushed so far. */
  ghost function Got(m: AppMessage, author: PeerId, run: seq<Push>): set<nat> {
    set i | 0 <= i < |run| && KeyOf(run[i]) == KeyFor(m, author) :: run[i].fragment.index
  }

  ghost predicate HasAll(m: AppMessage, got: set<nat>) {
    forall i :: 0 <= i < DivCeil(|m.payload|) ==> i in got
  }

  /**
   Fragments of `m` in any order and number, among pushes of any other message:
   none of `m`'s pushes meets a ceiling and none of its chunks has time to expire.
   */
  ghost predicate Scenario(libs: Libs, m: AppMessage, author: PeerId, es: Entries, run: seq<Push>)
    requires AllChecked(libs, run) && Inv(libs, es)
  {
    var key := KeyFor(m, author);
    && Splittable(libs, m) && m.sourcePeerId == libs.peerText(author)
    && key !in es
    && (forall i :: 0 <= i < |run| && KeyOf(run[i]) == key ==> IsPartOf(libs, m, author, run[i]))
    && (forall i, j :: 0 <= i < j < |run| && KeyOf(run[i]) == key ==> Age(run[j].now, run[i].entered) < EXPIRY_NS)
    && (forall i :: 0 <= i < |run| && KeyOf(run[i]) == key ==>
        Fits(Live(After(libs, es, run[..i]), run[i].now), run[i]))
  }

  /** The entry of `m` holds exactly the chunks pushed so far. */
  ghost predicate EntryHolds(libs: Libs, m: AppMessage, got: set<nat>, e: Entry) {
    && e.meta == MetaOf(libs, m) && |e.chunks| == DivCeil(|m.payload|)
    && forall i :: 0 <= i < |e.chunks| ==> e.chunks[i] == if i in got then Some(Chunk(m.payload, i)) else None
  }

  ghost predicate Holds(libs: Libs, m: AppMessage, key: Key, got: set<nat>, es: Entries) {
    && (key in es <==> got != {})
    && (key in es ==> EntryHolds(libs, m, got, es[key]))
  }

  /** The entry under `key`, if open, was opened by a push of this run for that key. */
  ghost predicate OpenedBy(run: seq<Push>, key: Key, es: Entries) {
    key in es ==> exists i :: 0 <= i < |run| && KeyOf(run[i]) == key && run[i].entered == es[key].created
  }

  ghost predicate Unexpired(key: Key, es: Entries, now: nat) {
    key in es ==> Age(now, es[key].created) < EXPIRY_NS
  }

  lemma IndexFits(libs: Libs, live: Entries, p: Push)
    requires Checked(libs, p) && Inv(libs, live) && EntryFor(live, p).meta == p.fragment.meta
    ensures p.fragment.index < |EntryFor(live, p).chunks| && p.fragment.fragmentSchema == FRAGMENT_SCHEMA_VERSION
  {}

  /** A push for another key leaves an entry alone and never opens it. */
  lemma OtherKeyUntouched(libs: Libs, live: Entries, p: Push, k: Key)
    requires Checked(libs, p) && Inv(libs, live) && KeyOf(p) != k
    ensures var after := Admit(libs, live, p).0;
            (k in after <==> k in live) && (k in after ==> after[k] == live[k])
  {
    hide Inv, Checked, Complete, Deliver, Fits, Fill;
    if EntryFor(live, p).meta == p.fragment.meta { IndexFits(libs, live, p); }
  }

  /** All chunks present: the message comes out whole. */
  lemma DeliversMessage(libs: Libs, m: AppMessage, chunks: Chunks)
    requires Splittable(libs, m) && |chunks| == DivCeil(|m.payload|)
    requires forall i :: 0 <= i < |chunks| ==> chunks[i] == Some(Chunk(m.payload, i))
    ensures Deliver(libs, MetaOf(libs, m), Assemble(chunks)) == Ok(Some(m))
  {
    assert Assemble(chunks) == m.payload by {
      AssembleChunks(m.payload, chunks);
      ReachAll(|m.payload|);
      assert m.payload[..|m.payload|] == m.payload;
    }
    assert MessageOf(MetaOf(libs, m), m.payload) == m;
  }

  lemma FillHolds(libs: Libs, m: AppMessage, got: set<nat>, e: Entry, f: Fragment)
    requires EntryHolds(libs, m, got, e) && f.index < |e.chunks| && f.payload == Chunk(m.payload, f.index)
    ensures EntryHolds(libs, m, got + {f.index}, Fill(e, f))
  {
    hide Chunk, MetaOf, DivCeil;
  }

  lemma PartFacts(libs: Libs, m: AppMessage, p: Push)
    requires IsPartOf(libs, m, p.author, p)
    ensures p.fragment.payload == Chunk(m.payload, p.fragment.index) && p.fragment.meta == MetaOf(libs, m)
    ensures p.fragment.index < DivCeil(|m.payload|) == MetaOf(libs, m).total
  {}

  lemma EntryForHolds(libs: Libs, m: AppMessage, live: Entries, got: set<nat>, p: Push)
    requires IsPartOf(libs, m, p.author, p)
    requires KeyOf(p) in live <==> got != {}
    requires KeyOf(p) in live ==> EntryHolds(libs, m, got, live[KeyOf(p)])
    ensures EntryHolds(libs, m, got, EntryFor(live, p))
  {
    hide Chunk, MetaOf, DivCeil, IsPartOf;
    PartFacts(libs, m, p);
  }

  lemma HoldsComplete(libs: Libs, m: AppMessage, got: set<nat>, e: Entry)
    requires EntryHolds(libs, m, got, e)
    ensures Complete(e.chunks) <==> HasAll(m, got)
    ensures HasAll(m, got) ==> forall i :: 0 <= i < |e.chunks| ==> e.chunks[i] == Some(Chunk(m.payload, i))
  {
    hide Chunk, MetaOf, DivCeil;
    if !HasAll(m, got) {
      var missing :| 0 <= missing < |e.chunks| && missing !in got;
      assert e.chunks[missing] == None;
    }
  }

  /** One push of a fragment of `m`, by which indices are already there. */
  lemma PartStep(libs: Libs, m: AppMessage, live: Entries, got: set<nat>, p: Push)
    requires Splittable(libs, m) && IsPartOf(libs, m, p.author, p)
    requires !HasAll(m, got)
    requires KeyOf(p) in live <==> got != {}
    requires KeyOf(p) in live ==> EntryHolds(libs, m, got, live[KeyOf(p)])
    ensures EntryHolds(libs, m, got, EntryFor(live, p))
    ensures var (after, outcome) := AddSpec(libs, live, p);
            if HasAll(m, got + {p.fragment.index})
            then KeyOf(p) !in after && outcome == Ok(Some(m))
            else && KeyOf(p) in after && EntryHolds(libs, m, got + {p.fragment.index}, after[KeyOf(p)])
                 && outcome == Ok(None) && after[KeyOf(p)].created == EntryFor(live, p).created
  {
    hide Chunk, MetaOf, DivCeil, IsPartOf, Splittable, HasAll, Complete, Assemble, Deliver;
    var e, f := EntryFor(live, p), p.fragment;
    PartFacts(libs, m, p);
    EntryForHolds(libs, m, live, got, p);
    if f.index in got {
      assert got + {f.index} == got;
    } else {
      FillHolds(libs, m, got, e, f);
      HoldsComplete(libs, m, got + {f.index}, Fill(e, f));
      if HasAll(m, got + {f.index}) { DeliversMessage(libs, m, Fill(e, f).chunks); }
    }
  }

  lemma GotStep(m: AppMessage, author: PeerId, run: seq<Push>, k: nat)
    requires k < |run|
    ensures Got(m, author, run[..k + 1]) ==
              Got(m, author, run[..k]) + (if KeyOf(run[k]) == KeyFor(m, author) then {run[k].fragment.index} else {})
  {
    var a, b, key := run[..k], run[..k + 1], KeyFor(m, author);
    assert b == a + [run[k]];
    forall x | x in Got(m, author, a) ensures x in Got(m, author, b) {
      var i :| 0 <= i < |a| && KeyOf(a[i]) == key && a[i].fragment.index == x;
      assert b[i] == a[i];
    }
    assert b[k] == run[k];
  }

  lemma PushOther(libs: Libs, m: AppMessage, key: Key, got: set<nat>, es: Entries, p: Push)
    requires Checked(libs, p) && Inv(libs, es) && KeyOf(p) != key
    requires Holds(libs, m, key, got, es) && Unexpired(key, es, p.now)
    ensures var after := PushSpec(libs, es, p).0;
            Holds(libs, m, key, got, after) && (key in after ==> key in es && after[key].created == es[key].created)
  {
    DropKeepsInv(libs, es, Expired(es, p.now));
    OtherKeyUntouched(libs, Live(es, p.now), p, key);
  }

  lemma PushPart(libs: Libs, m: AppMessage, key: Key, got: set<nat>, es: Entries, p: Push)
    requires Checked(libs, p) && Inv(libs, es) && KeyOf(p) == key
    requires Splittable(libs, m) && IsPartOf(libs, m, p.author, p) && m.sourcePeerId == libs.peerText(p.author)
    requires Holds(libs, m, key, got, es) && Unexpired(key, es, p.now) && !HasAll(m, got)
    requires Fits(Live(es, p.now), p)
    ensures var (after, outcome) := PushSpec(libs, es, p);
            if HasAll(m, got + {p.fragment.index}) then outcome == Ok(Some(m))
            else && outcome == Ok(None) && Holds(libs, m, key, got + {p.fragment.index}, after)
                 && after[key].created == (if key in es then es[key].created else p.entered)
  {
    var live := Live(es, p.now);
    DropKeepsInv(libs, es, Expired(es, p.now));
    PartStep(libs, m, live, got, p);
    assert Admit(libs, live, p) == AddSpec(libs, live, p);
  }

  lemma OpenedUnexpired(libs: Libs, m: AppMessage, author: PeerId, es: Entries, run: seq<Push>, k: nat, now: Entries)
    requires AllChecked(libs, run) && Inv(libs, es) && Scenario(libs, m, author, es, run) && k < |run|
        && OpenedBy(run[..k], KeyFor(m, author), now)
    ensures Unexpired(KeyFor(m, author), now, run[k].now)
  {
    var key := KeyFor(m, author);
    if key in now {
      var i :| 0 <= i < |run[..k]| && KeyOf(run[..k][i]) == key && run[..k][i].entered == now[key].created;
      assert run[..k][i] == run[i];
    }
  }

  lemma OpenedStep(run: seq<Push>, k: nat, key: Key, es: Entries, after: Entries)
    requires k < |run| && OpenedBy(run[..k], key, es)
    requires key in after ==> || (key in es && after[key].created == es[key].created)
                              || (KeyOf(run[k]) == key && after[key].created == run[k].entered)
    ensures OpenedBy(run[..k + 1], key, after)
  {
    var longer := run[..k + 1];
    assert longer[k] == run[k];
    if key in after && key in es && after[key].created == es[key].created {
      var i :| 0 <= i < |run[..k]| && KeyOf(run[..k][i]) == key && run[..k][i].entered == es[key].created;
      assert longer[i] == run[..k][i];
    }
  }

  /** What the scenario says about push `k`. */
  lemma AtPush(libs: Libs, m: AppMessage, author: PeerId, es: Entries, run: seq<Push>, k: nat)
    requires AllChecked(libs, run) && Inv(libs, es) && Scenario(libs, m, author, es, run) && k < |run|
    ensures Checked(libs, run[k])
    ensures Splittable(libs, m) && m.sourcePeerId == libs.peerText(author) && KeyFor(m, author) !in es
    ensures KeyOf(run[k]) == KeyFor(m, author) ==>
              IsPartOf(libs, m, run[k].author, run[k]) && run[k].author == author
              && Fits(Live(After(libs, es, run[..k]), run[k].now), run[k])
  {}

  lemma NothingYet(libs: Libs, m: AppMessage, author: PeerId, es: Entries, run: seq<Push>)
    requires AllChecked(libs, run) && Inv(libs, es) && Scenario(libs, m, author, es, run)
    ensures Holds(libs, m, KeyFor(m, author), Got(m, author, run[..0]), After(libs, es, run[..0]))
    ensures OpenedBy(run[..0], KeyFor(m, author), After(libs, es, run[..0]))
  {
    assert run[..0] == [];
  }

  lemma StillMissing(m: AppMessage, got: set<nat>, more: set<nat>)
    requires !HasAll(m, got + more)
    ensures !HasAll(m, got)
  {}

  /** Until all indices are there, the entry of `m` holds exactly the chunks pushed so far. */
  lemma {:induction false} Progresses(libs: Libs, m: AppMessage, author: PeerId, es: Entries, run: seq<Push>, k: nat)
    requires AllChecked(libs, run) && Inv(libs, es) && Scenario(libs, m, author, es, run) && k <= |run|
        && !HasAll(m, Got(m, author, run[..k]))
    ensures Holds(libs, m, KeyFor(m, author), Got(m, author, run[..k]), After(libs, es, run[..k]))
    ensures OpenedBy(run[..k], KeyFor(m, author), After(libs, es, run[..k]))
  {
    hide Inv, Checked, Scenario, Holds, OpenedBy, Unexpired, PushSpec, HasAll, Got, Fits, IsPartOf, Splittable;
    if k == 0 {
      NothingYet(libs, m, author, es, run);
    } else {
      var p, before, key := run[k - 1], After(libs, es, run[..k - 1]), KeyFor(m, author);
      var got := Got(m, author, run[..k - 1]);
      GotStep(m, author, run, k - 1);
      StillMissing(m, got, if KeyOf(p) == key then {p.fragment.index} else {});
      Progresses(libs, m, author, es, run, k - 1);
      OpenedUnexpired(libs, m, author, es, run, k - 1, before);
      AtPush(libs, m, author, es, run, k - 1);
      AfterStep(libs, es, run, k - 1);
      if KeyOf(p) == key {
        PushPart(libs, m, key, got, before, p);
      } else {
        assert got == Got(m, author, run[..k]);
        PushOther(libs, m, key, got, before, p);
      }
      OpenedStep(run, k - 1, key, before, After(libs, es, run[..k]));
    }
  }

  /**
   The round trip: until all indices of `m` have been pushed, every push of one of
   its fragments returns nothing, and the push that fills the last index returns
   exactly `m`.
   */
  lemma RoundTrip(libs: Libs, m: AppMessage, author: PeerId, es: Entries, run: seq<Push>, k: nat)
    requires AllChecked(libs, run) && Inv(libs, es) && Scenario(libs, m, author, es, run) && k < |run|
        && KeyOf(run[k]) == KeyFor(m, author)
    requires !HasAll(m, Got(m, author, run[..k]))
    ensures OutcomeAt(libs, es, run, k) == Ok(if HasAll(m, Got(m, author, run[..k + 1])) then Some(m) else None)
  {
    var before := After(libs, es, run[..k]);
    Progresses(libs, m, author, es, run, k);
    OpenedUnexpired(libs, m, author, es, run, k, before);
    GotStep(m, author, run, k);
    PushPart(libs, m, KeyFor(m, author), Got(m, author, run[..k]), before, run[k]);
  }

  // ---- one message on an idle reassembler ----

  ghost predicate OnlyKey(es: Entries, key: Key) { forall k :: k in es ==> k == key }

  lemma {:induction false} OnlyKeyRun(libs: Libs, key: Key, run: seq<Push>)
    requires AllChecked(libs, run) && forall i :: 0 <= i < |run| ==> KeyOf(run[i]) == key
    ensures OnlyKey(After(libs, map[], run), key)
  {
    hide Checked, PushSpec;
    if run != [] {
      var before, p := After(libs, map[], run[..|run| - 1]), run[|run| - 1];
      OnlyKeyRun(libs, key, run[..|run| - 1]);
      assert KeyOf(p) == key;
      OnlyKeyStep(libs, before, p);
    }
  }

  lemma OnlyKeyStep(libs: Libs, es: Entries, p: Push)
    requires Checked(libs, p) && Inv(libs, es) && OnlyKey(es, KeyOf(p))
    ensures OnlyKey(PushSpec(libs, es, p).0, KeyOf(p))
  {
    hide Inv, Checked, Admit;
    DropKeepsInv(libs, es, Expired(es, p.now));
    forall k | k != KeyOf(p) ensures k !in PushSpec(libs, es, p).0 {
      OtherKeyUntouched(libs, Live(es, p.now), p, k);
    }
  }

  lemma {:induction false} AssembleAtMost(meta: Meta, chunks: Chunks)
    requires LengthsFit(meta, chunks) && meta.total > 0
    ensures |Assemble(chunks)| <= |chunks| * FRAGMENT_BYTES
  {
    if chunks != [] { AssembleAtMost(meta, chunks[..|chunks| - 1]); }
  }

  /** A single message never holds more than the largest payload. */
  lemma HeldAlone(libs: Libs, es: Entries, key: Key, who: Option<PeerId>)
    requires Inv(libs, es) && OnlyKey(es, key)
    ensures Held(es, who) <= MAX_APP_MESSAGE_BYTES
  {
    if key in es {
      HeldTake(es, key, who);
      assert es - {key} == map[];
      assert EntryOk(libs, key, es[key]);
      AssembleAtMost(es[key].meta, es[key].chunks);
    } else {
      assert es == map[];
    }
  }

  /** Every push is a fragment of `m`, and none comes 30 s or more after another. */
  ghost predicate Alone(libs: Libs, m: AppMessage, author: PeerId, run: seq<Push>) {
    && Splittable(libs, m) && m.sourcePeerId == libs.peerText(author)
    && (forall i :: 0 <= i < |run| ==> IsPartOf(libs, m, author, run[i]))
    && (forall i, j :: 0 <= i < j < |run| ==> Age(run[j].now, run[i].entered) < EXPIRY_NS)
  }

  lemma AloneChecked(libs: Libs, m: AppMessage, author: PeerId, run: seq<Push>)
    requires Lawful(libs) && Alone(libs, m, author, run)
    ensures AllChecked(libs, run) && forall i :: 0 <= i < |run| ==> KeyOf(run[i]) == KeyFor(m, author)
  {
    hide Splittable, ValidateFragment;
    forall i | 0 <= i < |run| ensures Checked(libs, run[i]) && KeyOf(run[i]) == KeyFor(m, author) {
      FragmentsValidate(libs, m, run[i].fragment.index);
    }
  }

  lemma AloneFits(libs: Libs, m: AppMessage, author: PeerId, run: seq<Push>, i: nat)
    requires Lawful(libs) && Alone(libs, m, author, run) && AllChecked(libs, run) && i < |run|
    ensures Fits(Live(After(libs, map[], run[..i]), run[i].now), run[i])
  {
    hide Checked, Splittable, PushSpec;
    AloneChecked(libs, m, author, run);
    var es := After(libs, map[], run[..i]);
    OnlyKeyRun(libs, KeyFor(m, author), run[..i]);
    DropKeepsInv(libs, es, Expired(es, run[i].now));
    HeldAlone(libs, Live(es, run[i].now), KeyFor(m, author), None);
    HeldAlone(libs, Live(es, run[i].now), KeyFor(m, author), Some(author));
    assert |run[i].fragment.payload| <= FRAGMENT_BYTES;
  }

  /**
   The round trip with nothing assumed but the sender: fragments of a valid message in any
   order and number, within 30 s, on an idle reassembler.
   */
  lemma AloneRoundTrip(libs: Libs, m: AppMessage, author: PeerId, run: seq<Push>, k: nat)
    requires Lawful(libs) && Alone(libs, m, author, run) && k < |run| && !HasAll(m, Got(m, author, run[..k]))
    ensures AllChecked(libs, run)
    ensures OutcomeAt(libs, map[], run, k) == Ok(if HasAll(m, Got(m, author, run[..k + 1])) then Some(m) else None)
  {
    hide Checked, Splittable, OutcomeAt, HasAll, Got, Fits, After;
    AloneChecked(libs, m, author, run);
    forall i | 0 <= i < |run| ensures Fits(Live(After(libs, map[], run[..i]), run[i].now), run[i]) {
      AloneFits(libs, m, author, run, i);
    }
    RoundTrip(libs, m, author, map[], run, k);
  }

  // ---- where a delivered message comes from ----

  /** The clock never runs back: neither between two readings of one push nor from one push to the next. */
  ghost predicate InOrder(run: seq<Push>) {
    && (forall i :: 0 <= i < |run| ==> run[i].now <= run[i].entered)
    && (forall i, j :: 0 <= i < j < |run| ==> run[i].entered <= run[j].now)
  }

  /** Push `p`, made no earlier than `since`, carries `c` under `index` by this author and with this metadata. */
  ghost predicate Carries(p: Push, author: PeerId, meta: Meta, index: nat, c: seq<byte>, since: nat) {
    p == Push(author, Fragment(FRAGMENT_SCHEMA_VERSION, meta, index, c), p.now, p.entered) && since <= p.entered
  }

  ghost predicate Carried(run: seq<Push>, author: PeerId, meta: Meta, index: nat, c: seq<byte>, since: nat) {
    exists j :: 0 <= j < |run| && Carries(run[j], author, meta, index, c, since)
  }

  /** Where the clock is in order, a chunk came no earlier than its entry was opened. */
  function Since(timed: bool, e: Entry): nat { if timed then e.created else 0 }

  ghost predicate EntryCarried(run: seq<Push>, author: PeerId, e: Entry, timed: bool) {
    forall i :: 0 <= i < |e.chunks| && e.chunks[i].Some? ==>
      Carried(run, author, e.meta, i, e.chunks[i].value, Since(timed, e))
  }

  ghost predicate AllCarried(run: seq<Push>, es: Entries, timed: bool) {
    forall k :: k in es ==> EntryCarried(run, k.author, es[k], timed)
  }

  /** No entry was opened later than `now`. */
  ghost predicate OpenedBefore(es: Entries, now: nat) {
    forall k :: k in es ==> es[k].created <= now
  }

  lemma CarriedLonger(run: seq<Push>, p: Push, author: PeerId, e: Entry, timed: bool)
    requires EntryCarried(run, author, e, timed)
    ensures EntryCarried(run + [p], author, e, timed)
  {
    var longer, since := run + [p], Since(timed, e);
    forall i | 0 <= i < |e.chunks| && e.chunks[i].Some?
      ensures Carried(longer, author, e.meta, i, e.chunks[i].value, since)
    {
      assert Carried(run, author, e.meta, i, e.chunks[i].value, since);
      var j :| 0 <= j < |run| && Carries(run[j], author, e.meta, i, e.chunks[i].value, since);
      assert longer[j] == run[j];
    }
  }

  lemma FillCarried(run: seq<Push>, p: Push, e: Entry, timed: bool)
    requires EntryCarried(run, p.author, e, timed) && p.fragment.fragmentSchema == FRAGMENT_SCHEMA_VERSION
    requires e.meta == p.fragment.meta && p.fragment.index < |e.chunks| && Since(timed, e) <= p.entered
    ensures EntryCarried(run + [p], p.author, Fill(e, p.fragment), timed)
  {
    CarriedLonger(run, p, p.author, e, timed);
    var longer, f := run + [p], p.fragment;
    assert Carries(longer[|run|], p.author, e.meta, f.index, f.payload, Since(timed, e));
  }

  lemma AllCarriedLonger(run: seq<Push>, p: Push, es: Entries, timed: bool)
    requires AllCarried(run, es, timed)
    ensures AllCarried(run + [p], es, timed)
  {
    forall k | k in es ensures EntryCarried(run + [p], k.author, es[k], timed) {
      CarriedLonger(run, p, k.author, es[k], timed);
    }
  }

  lemma CarriedAdd(libs: Libs, live: Entries, run: seq<Push>, p: Push, timed: bool)
    requires AllCarried(run, live, timed) && p.fragment.fragmentSchema == FRAGMENT_SCHEMA_VERSION
    requires EntryFor(live, p).meta == p.fragment.meta && p.fragment.index < |EntryFor(live, p).chunks|
    requires timed ==> OpenedBefore(live, p.entered)
    ensures AllCarried(run + [p], AddSpec(libs, live, p).0, timed)
    ensures timed ==> OpenedBefore(AddSpec(libs, live, p).0, p.entered)
  {
    AllCarriedLonger(run, p, live, timed);
    assert EntryCarried(run, p.author, EntryFor(live, p), timed);
    FillCarried(run, p, EntryFor(live, p), timed);
  }

  lemma AllCarriedDrop(run: seq<Push>, es: Entries, gone: set<Key>, timed: bool)
    requires AllCarried(run, es, timed)
    ensures AllCarried(run, es - gone, timed)
  {}

  lemma CarriedStep(libs: Libs, es: Entries, run: seq<Push>, p: Push, timed: bool)
    requires Checked(libs, p) && Inv(libs, es) && AllCarried(run, es, timed)
    requires timed ==> OpenedBefore(es, p.entered)
    ensures AllCarried(run + [p], PushSpec(libs, es, p).0, timed)
    ensures timed ==> OpenedBefore(PushSpec(libs, es, p).0, p.entered)
  {
    hide Inv, Checked, AllCarried, AddSpec, Fits;
    var live := Live(es, p.now);
    DropKeepsInv(libs, es, Expired(es, p.now));
    AllCarriedDrop(run, es, Expired(es, p.now), timed);
    AllCarriedLonger(run, p, live, timed);
    if EntryFor(live, p).meta == p.fragment.meta {
      IndexFits(libs, live, p);
      CarriedAdd(libs, live, run, p, timed);
    }
  }

  lemma NothingCarried(timed: bool)
    ensures AllCarried([], map[], timed) && OpenedBefore(map[], 0)
  {}

  /** What the entries were opened before, at the end of a run. */
  function Latest(run: seq<Push>): nat { if run == [] then 0 else run[|run| - 1].entered }

  lemma InOrderFront(run: seq<Push>)
    requires InOrder(run) && run != []
    ensures InOrder(run[..|run| - 1]) && Latest(run[..|run| - 1]) <= run[|run| - 1].now <= Latest(run)
  {}

  lemma Later(es: Entries, a: nat, b: nat)
    requires OpenedBefore(es, a) && a <= b
    ensures OpenedBefore(es, b)
  {}

  /** Every chunk in an open entry was carried by some earlier push, made since the entry was opened. */
  lemma {:induction false} EverythingCarried(libs: Libs, run: seq<Push>, timed: bool)
    requires AllChecked(libs, run) && (timed ==> InOrder(run))
    ensures AllCarried(run, After(libs, map[], run), timed)
    ensures timed ==> OpenedBefore(After(libs, map[], run), Latest(run))
  {
    hide Checked, AllCarried, PushSpec, OpenedBefore, InOrder;
    NothingCarried(timed);
    if run != [] {
      var front, last := run[..|run| - 1], run[|run| - 1];
      var es := After(libs, map[], front);
      if timed { InOrderFront(run); }
      EverythingCarried(libs, front, timed);
      if timed { Later(es, Latest(front), last.entered); }
      CarriedStep(libs, es, front, last, timed);
      assert run == front + [last];
    }
  }

  lemma {:induction false} AssemblePrefix(chunks: Chunks, n: nat)
    requires n <= |chunks|
    ensures Assemble(chunks[..n]) <= Assemble(chunks)
  {
    if n < |chunks| {
      AssemblePrefix(chunks[..|chunks| - 1], n);
      assert chunks[..|chunks| - 1][..n] == chunks[..n];
    } else {
      assert chunks[..n] == chunks;
    }
  }

  lemma ReachOfPrefix(meta: Meta, chunks: Chunks, n: nat)
    requires meta.total > 0 && |chunks| == meta.total && LengthsFit(meta, chunks) && Complete(chunks) && n <= |chunks|
    ensures |Assemble(chunks[..n])| == Reach(meta.payloadLen, n)
  {
    CompleteLength(meta, chunks[..n]);
    ReachAll(meta.payloadLen);
  }

  /** Chunks of the expected lengths are the chunks of what they assemble to. */
  lemma ChunksOfAssembled(meta: Meta, chunks: Chunks, i: nat)
    requires meta.total > 0 && |chunks| == meta.total && LengthsFit(meta, chunks) && Complete(chunks) && i < |chunks|
    ensures |Assemble(chunks)| == meta.payloadLen && chunks[i].value == Chunk(Assemble(chunks), i)
  {
    CompleteLength(meta, chunks);
    ReachOfPrefix(meta, chunks, i);
    ReachOfPrefix(meta, chunks, i + 1);
    AssemblePrefix(chunks, i);
    AssemblePrefix(chunks, i + 1);
    hide Reach, Complete, LengthsFit, DivCeil;
    assert chunks[..i + 1][..i] == chunks[..i];
    assert Assemble(chunks[..i + 1]) == Assemble(chunks[..i]) + chunks[i].value;
  }

  /** The only way a push returns a message. */
  lemma DeliveredEntry(libs: Libs, live: Entries, p: Push, m: AppMessage)
    requires Checked(libs, p) && Inv(libs, live) && Admit(libs, live, p).1 == Ok(Some(m))
    ensures p.fragment.meta.sourcePeerId == libs.peerText(p.author) && EntryFor(live, p).meta == p.fragment.meta
    ensures var filled := Fill(EntryFor(live, p), p.fragment);
            && EntryFor(live, p).chunks[p.fragment.index] == None && Complete(filled.chunks)
            && Deliver(libs, filled.meta, Assemble(filled.chunks)) == Ok(Some(m))
  {}

  /** ... and then its metadata and chunks are those of the message. */
  lemma DeliveredPieces(libs: Libs, live: Entries, p: Push, m: AppMessage)
    requires Checked(libs, p) && Inv(libs, live) && Admit(libs, live, p).1 == Ok(Some(m))
    ensures m.sourcePeerId == libs.peerText(p.author) && ValidateAppMessage(libs.parsePeer, m) == None
    ensures EntryFor(live, p).meta == p.fragment.meta == MetaOf(libs, m)
    ensures var filled := Fill(EntryFor(live, p), p.fragment);
            && |filled.chunks| == DivCeil(|m.payload|)
            && forall i :: 0 <= i < |filled.chunks| ==> filled.chunks[i] == Some(Chunk(m.payload, i))
  {
    DeliveredEntry(libs, live, p, m);
    FillEntry(libs, live, p);
    IndexFits(libs, live, p);
    var filled := Fill(EntryFor(live, p), p.fragment);
    assert filled.meta.total > 0 && |filled.chunks| == filled.meta.total;
    hide Inv, Checked, EntryFor, Fill, EntryOk, Admit;
    forall i | 0 <= i < |filled.chunks| ensures filled.chunks[i] == Some(Chunk(m.payload, i)) {
      ChunksOfAssembled(filled.meta, filled.chunks, i);
    }
  }

  /** Whatever an expiry leaves was opened less than thirty seconds before. */
  lemma LiveIsRecent(es: Entries, now: nat)
    ensures forall k :: k in Live(es, now) ==> now < es[k].created + 30_000_000_000
  {}

  /** What a push that delivers `m` leaves behind it: every chunk of `m`, carried since the entry was opened. */
  lemma DeliveredSince(libs: Libs, run: seq<Push>, k: nat, m: AppMessage, timed: bool) returns (since: nat)
    requires AllChecked(libs, run) && k < |run| && (timed ==> InOrder(run[..k + 1]))
    requires OutcomeAt(libs, map[], run, k) == Ok(Some(m))
    ensures m.sourcePeerId == libs.peerText(run[k].author) && ValidateAppMessage(libs.parsePeer, m) == None
    ensures forall i :: 0 <= i < DivCeil(|m.payload|) ==>
              Carried(run[..k + 1], run[k].author, MetaOf(libs, m), i, Chunk(m.payload, i), since)
    ensures timed ==> run[k].now < since + 30_000_000_000
  {
    hide Checked, Carried, PushSpec, ValidateAppMessage, Chunk, DivCeil, MetaOf, InOrder, AllCarried, OpenedBefore;
    var p, front := run[k], run[..k];
    var es := After(libs, map[], front);
    assert run[..k + 1] == front + [p] && run[..k + 1][..k] == front;
    if timed { InOrderFront(run[..k + 1]); }
    EverythingCarried(libs, front, timed);
    if timed {
      InOrderLast(run[..k + 1]);
      Later(es, Latest(front), p.entered);
    }
    since := DeliveredFrom(libs, es, front, p, m, timed);
  }

  lemma InOrderLast(run: seq<Push>)
    requires InOrder(run) && run != []
    ensures run[|run| - 1].now <= run[|run| - 1].entered
  {}

  lemma DeliveredFrom(libs: Libs, es: Entries, run: seq<Push>, p: Push, m: AppMessage, timed: bool)
    returns (since: nat)
    requires Checked(libs, p) && Inv(libs, es) && AllCarried(run, es, timed)
    requires timed ==> OpenedBefore(es, p.entered) && p.now <= p.entered
    requires PushSpec(libs, es, p).1 == Ok(Some(m))
    ensures m.sourcePeerId == libs.peerText(p.author) && ValidateAppMessage(libs.parsePeer, m) == None
    ensures forall i :: 0 <= i < DivCeil(|m.payload|) ==>
              Carried(run + [p], p.author, MetaOf(libs, m), i, Chunk(m.payload, i), since)
    ensures timed ==> p.now < since + 30_000_000_000
  {
    hide Checked, Admit, Carried, ValidateAppMessage, Chunk, DivCeil, MetaOf, AllCarried, Age, Inv;
    var live := Live(es, p.now);
    DropKeepsInv(libs, es, Expired(es, p.now));
    AllCarriedDrop(run, es, Expired(es, p.now), timed);
    LiveIsRecent(es, p.now);
    DeliveredPieces(libs, live, p, m);
    IndexFits(libs, live, p);
    EntryForCarried(run, live, p, timed);
    since := Since(timed, EntryFor(live, p));
    FillCarried(run, p, EntryFor(live, p), timed);
  }

  lemma EntryForCarried(run: seq<Push>, live: Entries, p: Push, timed: bool)
    requires AllCarried(run, live, timed)
    ensures EntryCarried(run, p.author, EntryFor(live, p), timed)
  {}

  /** The push behind a carried chunk. */
  lemma CarriedAt(run: seq<Push>, k: nat, author: PeerId, meta: Meta, index: nat, c: seq<byte>, since: nat)
    requires k < |run| && Carried(run[..k + 1], author, meta, index, c, since)
    ensures Carried(run[..k + 1], author, meta, index, c, 0)
    ensures exists j :: 0 <= j <= k && Carries(run[j], author, meta, index, c, since)
  {
    var j :| 0 <= j < |run[..k + 1]| && Carries(run[..k + 1][j], author, meta, index, c, since);
    assert Carries(run[..k + 1][j], author, meta, index, c, 0);
    assert Carries(run[j], author, meta, index, c, since);
  }

  /**
   The converse of the round trip, over every run of checked fragments: a message
   comes out only after its author pushed every one of its fragments.
   */
  lemma DeliveredWasPushed(libs: Libs, run: seq<Push>, k: nat, m: AppMessage)
    requires AllChecked(libs, run) && k < |run|
    requires OutcomeAt(libs, map[], run, k) == Ok(Some(m))
    ensures m.sourcePeerId == libs.peerText(run[k].author) && ValidateAppMessage(libs.parsePeer, m) == None
    ensures forall i :: 0 <= i < DivCeil(|m.payload|) ==>
              Carried(run[..k + 1], run[k].author, MetaOf(libs, m), i, Chunk(m.payload, i), 0)
  {
    hide ValidateAppMessage, Chunk, DivCeil, MetaOf, OutcomeAt, Carried;
    var since := DeliveredSince(libs, run, k, m, false);
    forall i | 0 <= i < DivCeil(|m.payload|)
      ensures Carried(run[..k + 1], run[k].author, MetaOf(libs, m), i, Chunk(m.payload, i), 0)
    {
      CarriedAt(run, k, run[k].author, MetaOf(libs, m), i, Chunk(m.payload, i), since);
    }
  }

  /** Under a clock in order the fragments of a delivered message came within the thirty seconds before. */
  lemma DeliveredInTime(libs: Libs, run: seq<Push>, k: nat, m: AppMessage)
    requires AllChecked(libs, run) && k < |run| && InOrder(run)
    requires OutcomeAt(libs, map[], run, k) == Ok(Some(m))
    ensures forall i :: 0 <= i < DivCeil(|m.payload|) ==> exists j ::
              && 0 <= j <= k && run[k].now < run[j].entered + 30_000_000_000
              && Carries(run[j], run[k].author, MetaOf(libs, m), i, Chunk(m.payload, i), 0)
  {
    hide ValidateAppMessage, Chunk, DivCeil, MetaOf, OutcomeAt, Carried;
    var since := DeliveredSince(libs, run, k, m, true);
    forall i | 0 <= i < DivCeil(|m.payload|)
      ensures exists j :: && 0 <= j <= k && run[k].now < run[j].entered + 30_000_000_000
                          && Carries(run[j], run[k].author, MetaOf(libs, m), i, Chunk(m.payload, i), 0)
    {
      CarriedAt(run, k, run[k].author, MetaOf(libs, m), i, Chunk(m.payload, i), since);
      var j :| 0 <= j <= k && Carries(run[j], run[k].author, MetaOf(libs, m), i, Chunk(m.payload, i), since);
      assert Carries(run[j], run[k].author, MetaOf(libs, m), i, Chunk(m.payload, i), 0);
    }
  }
}
