/**
 Browser storage: writers change a shared map and then bump a revision, while a
 flush loads the revision, copies the map and commits the copy to IndexedDB. Every
 atomic action is one step and steps interleave freely.
 */
module Journal {
  import opened Base

  type Values = map<string, seq<byte>>

  datatype Mutation = Put(key: string, value: seq<byte>) | Remove(key: string)

  function Apply(values: Values, m: Mutation): Values {
    match m case Put(k, v) => values[k := v] case Remove(k) => values - {k}
  }

  function Replay(start: Values, log: seq<Mutation>): Values {
    if log == [] then start else Apply(Replay(start, log[..|log| - 1]), log[|log| - 1])
  }

  type WriterId = nat
  type FlushId = nat

  /** A writer between changing the map and bumping the revision; `write_secret_if_absent` keeps the lock meanwhile. */
  datatype Writer = Writer(index: nat, holdsLock: bool)

  /** A copy of the map handed to IndexedDB, taken when `pos` mutations had been made. */
  datatype Tx = Tx(flush: FlushId, pos: nat, copy: Values)

  /** Where a flush call stands. `start` is the revision when it was called. */
  datatype FlushPc =
    | Called(start: u64)
    | Guarded(start: u64)                                 // holds the flush guard
    | SawRevision(start: u64, rev: u64)                   // first load of the dirty test
    | FoundDirty(start: u64)
    | TookRevision(start: u64, rev: u64)
    | Copied(start: u64, rev: u64, pos: nat, copy: Values)
    | Submitted(start: u64, rev: u64, pos: nat)
    | Saved(start: u64, rev: u64)
    | ReturnedOk(start: u64)
    | ReturnedErr

  datatype State = State(
    values: Values,
    revision: u64,
    flushed: u64,
    writers: map<WriterId, Writer>,
    guard: Option<FlushId>,
    flushes: map<FlushId, FlushPc>,
    persisted: Values,
    pending: seq<Tx>,          // transactions not settled yet; IndexedDB settles them in order
    committed: set<FlushId>,
    // what has happened, for stating properties
    loaded: Values,            // the journal as loaded
    log: seq<Mutation>,        // every change of the map, in order
    bump: map<nat, u64>,       // revision each logged change was announced with
    persistedPos: nat)         // how much of the log the persisted journal reflects

  function Open(journal: Values): State {
    State(journal, 0, 0, map[], None, map[], journal, [], {}, journal, [], map[], 0)
  }

  datatype Step =
    | Change(writer: WriterId, mutation: Mutation, keepsLock: bool)
    | Bump(writer: WriterId)
    | FlushCall(flush: FlushId)
    | FlushLock(flush: FlushId)
    | FlushLoad(flush: FlushId)
    | FlushTest(flush: FlushId)
    | FlushTakeRevision(flush: FlushId)
    | FlushCopy(flush: FlushId)
    | FlushSubmit(flush: FlushId)
    | FlushSeeCommit(flush: FlushId)
    | FlushFinish(flush: FlushId)
    | FlushFail(flush: FlushId)      // an error or a timeout anywhere under the guard
    | Commit                         // IndexedDB settles the oldest transaction
    | Abort

  predicate LockFree(s: State) { forall w :: w in s.writers ==> !s.writers[w].holdsLock }

  predicate UnderGuard(pc: FlushPc) {
    !pc.Called? && !pc.ReturnedOk? && !pc.ReturnedErr?
  }

  /** A change happens under the write lock: an insert, a create of a missing key, or a removal of a present one. */
  predicate CanChange(s: State, w: WriterId, m: Mutation, keepsLock: bool) {
    && w !in s.writers && LockFree(s)
    && (m.Remove? ==> m.key in s.values && !keepsLock)
    && (m.Put? && keepsLock ==> m.key !in s.values)
  }

  predicate Enabled(s: State, step: Step) {
    match step
    case Change(w, m, keepsLock) => CanChange(s, w, m, keepsLock)
    case Bump(w) => w in s.writers
    case FlushCall(f) => f !in s.flushes
    case FlushLock(f) => f in s.flushes && s.flushes[f].Called? && s.guard == None
    case FlushLoad(f) => f in s.flushes && s.flushes[f].Guarded?
    case FlushTest(f) => f in s.flushes && s.flushes[f].SawRevision?
    case FlushTakeRevision(f) => f in s.flushes && s.flushes[f].FoundDirty?
    case FlushCopy(f) => f in s.flushes && s.flushes[f].TookRevision? && LockFree(s)
    case FlushSubmit(f) => f in s.flushes && s.flushes[f].Copied?
    case FlushSeeCommit(f) => f in s.flushes && s.flushes[f].Submitted? && f in s.committed
    case FlushFinish(f) => f in s.flushes && s.flushes[f].Saved?
    case FlushFail(f) => f in s.flushes && UnderGuard(s.flushes[f])
    case Commit => s.pending != []
    case Abort => s.pending != []
  }

  function At(s: State, f: FlushId, pc: FlushPc): State { s.(flushes := s.flushes[f := pc]) }

  function Release(s: State): State { s.(guard := None) }

  /** The flushed revision only ever rises. */
  function Finished(s: State, rev: u64): State { s.(flushed := if s.flushed < rev then rev else s.flushed) }

  function ChangeMap(s: State, w: WriterId, m: Mutation, keepsLock: bool): State {
    s.(values := Apply(s.values, m), log := s.log + [m], writers := s.writers[w := Writer(|s.log|, keepsLock)])
  }

  function BumpRevision(s: State, w: WriterId): State
    requires w in s.writers
  {
    var next := if s.revision == U64_MAX then 0 else s.revision + 1;  // the atomic addition wraps
    s.(revision := next, bump := s.bump[s.writers[w].index := next], writers := s.writers - {w})
  }

  function Submit(s: State, f: FlushId, start: u64, rev: u64, pos: nat, copy: Values): State {
    At(s, f, Submitted(start, rev, pos)).(pending := s.pending + [Tx(f, pos, copy)])
  }

  function CommitOldest(s: State): State
    requires s.pending != []
  {
    var tx := s.pending[0];
    s.(pending := s.pending[1..], persisted := tx.copy, persistedPos := tx.pos, committed := s.committed + {tx.flush})
  }

  function Do(s: State, step: Step): State
    requires Enabled(s, step)
  {
    match step
    case Change(w, m, keepsLock) => ChangeMap(s, w, m, keepsLock)
    case Bump(w) => BumpRevision(s, w)
    case FlushCall(f) => At(s, f, Called(s.revision))
    case FlushLock(f) => At(s, f, Guarded(s.flushes[f].start)).(guard := Some(f))
    case FlushLoad(f) => At(s, f, SawRevision(s.flushes[f].start, s.revision))
    case FlushTest(f) =>
      var pc := s.flushes[f];
      if pc.rev == s.flushed then Release(At(s, f, ReturnedOk(pc.start))) else At(s, f, FoundDirty(pc.start))
    case FlushTakeRevision(f) => At(s, f, TookRevision(s.flushes[f].start, s.revision))
    case FlushCopy(f) => At(s, f, Copied(s.flushes[f].start, s.flushes[f].rev, |s.log|, s.values))
    case FlushSubmit(f) =>
      var pc := s.flushes[f];
      Submit(s, f, pc.start, pc.rev, pc.pos, pc.copy)
    case FlushSeeCommit(f) => At(s, f, Saved(s.flushes[f].start, s.flushes[f].rev))
    case FlushFinish(f) =>
      var pc := s.flushes[f];
      Release(At(Finished(s, pc.rev), f, ReturnedOk(pc.start)))
    case FlushFail(f) => Release(At(s, f, ReturnedErr))
    case Commit => CommitOldest(s)
    case Abort => s.(pending := s.pending[1..])
  }

  // ---- what every step keeps ----

  /** Every change announced with a revision up to `rev` is among the first `pos`. */
  ghost predicate Covers(s: State, rev: u64, pos: nat) {
    forall i :: i in s.bump && s.bump[i] <= rev ==> i < pos
  }

  /** Map and revision: the map is the log replayed, and each change is announced or about to be. */
  ghost predicate WritersOk(s: State) {
    && s.values == Replay(s.loaded, s.log)
    && (forall i :: i in s.bump ==> i < |s.log| && s.bump[i] <= s.revision)
    && (forall w :: w in s.writers ==> s.writers[w].index < |s.log| && s.writers[w].index !in s.bump)
    && Announced(s)
    && (forall w, v :: w in s.writers && v in s.writers && w != v ==> s.writers[w].index != s.writers[v].index)
    && s.revision == |s.bump|
  }

  ghost predicate CopyOk(s: State, pos: nat, copy: Values) {
    s.persistedPos <= pos <= |s.log| && copy == Replay(s.loaded, s.log[..pos])
  }

  /** Persisted journal and queued transactions are copies of ever later points of the log. */
  ghost predicate StoreOk(s: State) {
    && CopyOk(s, s.persistedPos, s.persisted)
    && (forall tx :: tx in s.pending ==> CopyOk(s, tx.pos, tx.copy))
    && (forall i, j :: 0 <= i < j < |s.pending| ==> s.pending[i].pos <= s.pending[j].pos)
    && s.flushed <= s.revision && Covers(s, s.flushed, s.persistedPos)
  }

  ghost predicate PcOk(s: State, f: FlushId, pc: FlushPc) {
    match pc
    case Called(start) => start <= s.revision
    case Guarded(start) => start <= s.revision
    case SawRevision(start, rev) => start <= rev <= s.revision
    case FoundDirty(start) => start <= s.revision
    case TookRevision(start, rev) => start <= rev <= s.revision
    case Copied(start, rev, pos, copy) =>
      start <= rev <= s.revision && CopyOk(s, pos, copy) && Covers(s, rev, pos)
      && forall tx :: tx in s.pending ==> tx.pos <= pos
    case Submitted(start, rev, pos) =>
      start <= rev <= s.revision && Covers(s, rev, pos) && (f in s.committed ==> pos <= s.persistedPos)
      && forall tx :: tx in s.pending && tx.flush == f ==> tx.pos == pos
    case Saved(start, rev) => start <= rev <= s.revision && Covers(s, rev, s.persistedPos)
    case ReturnedOk(start) => start <= s.flushed && start <= s.revision && Covers(s, start, s.persistedPos)
    case ReturnedErr => true
  }

  ghost predicate FlushesOk(s: State) {
    && (forall f :: f in s.flushes ==> PcOk(s, f, s.flushes[f]))
    && (forall f :: f in s.flushes && UnderGuard(s.flushes[f]) ==> s.guard == Some(f))
    && (forall f :: f in s.committed ==> f in s.flushes && HasSubmitted(s.flushes[f]))
    && (forall tx :: tx in s.pending ==> tx.flush in s.flushes && HasSubmitted(s.flushes[tx.flush]))
  }

  predicate HasSubmitted(pc: FlushPc) {
    pc.Submitted? || pc.Saved? || pc.ReturnedOk? || pc.ReturnedErr?
  }

  ghost predicate Good(s: State) { WritersOk(s) && StoreOk(s) && FlushesOk(s) }

  lemma ReplayPrefix(start: Values, log: seq<Mutation>, m: Mutation, pos: nat)
    requires pos <= |log|
    ensures Replay(start, (log + [m])[..pos]) == Replay(start, log[..pos])
    ensures Replay(start, log + [m]) == Apply(Replay(start, log), m)
  {
    assert (log + [m])[..pos] == log[..pos];
    assert (log + [m])[..|log|] == log;
  }

  // ---- writers ----

  /** What a writer's step does as seen by flushes: the log grows, and new announcements carry new revisions. */
  ghost predicate Later(s: State, t: State) {
    && t == s.(values := t.values, revision := t.revision, writers := t.writers, log := t.log, bump := t.bump)
    && s.log <= t.log && s.revision <= t.revision
    && forall i :: i in t.bump ==> t.bump[i] > s.revision || (i in s.bump && t.bump[i] == s.bump[i])
  }

  lemma LaterCopies(s: State, t: State)
    requires Later(s, t)
    ensures forall pos, copy :: CopyOk(s, pos, copy) ==> CopyOk(t, pos, copy)
  {
    forall pos: nat, copy | CopyOk(s, pos, copy) ensures CopyOk(t, pos, copy) {
      assert t.log[..pos] == s.log[..pos];
    }
  }

  lemma LaterPcs(s: State, t: State)
    requires Later(s, t)
    ensures forall f, pc :: PcOk(s, f, pc) ==> PcOk(t, f, pc)
  {
    hide CopyOk;
    LaterCopies(s, t);
  }

  lemma LaterKeeps(s: State, t: State)
    requires Later(s, t) && StoreOk(s) && FlushesOk(s)
    ensures StoreOk(t) && FlushesOk(t)
  {
    hide PcOk, CopyOk;
    LaterCopies(s, t);
    LaterPcs(s, t);
  }

  /** A change not announced yet has its writer; a step that leaves the other writers alone keeps that. */
  ghost predicate Announced(s: State) {
    forall i :: 0 <= i < |s.log| && i !in s.bump ==> exists w :: w in s.writers && s.writers[w].index == i
  }

  lemma ChangeAnnounced(s: State, w: WriterId, m: Mutation, keepsLock: bool)
    requires Announced(s) && w !in s.writers
    ensures Announced(ChangeMap(s, w, m, keepsLock))
  {
    var t := ChangeMap(s, w, m, keepsLock);
    assert t.writers[w].index == |s.log|;
    forall i | 0 <= i < |s.log| && i !in s.bump
      ensures exists v :: v in t.writers && t.writers[v].index == i
    {
      var v :| v in s.writers && s.writers[v].index == i;
      assert t.writers[v].index == i;
    }
  }

  lemma BumpAnnounced(s: State, w: WriterId)
    requires Announced(s) && w in s.writers
    ensures Announced(BumpRevision(s, w))
  {
    var t := BumpRevision(s, w);
    forall i | 0 <= i < |t.log| && i !in t.bump
      ensures exists v :: v in t.writers && t.writers[v].index == i
    {
      var v :| v in s.writers && s.writers[v].index == i;
      assert t.writers[v].index == i;
    }
  }

  lemma ChangeWriters(s: State, w: WriterId, m: Mutation, keepsLock: bool)
    requires WritersOk(s) && w !in s.writers
    ensures WritersOk(ChangeMap(s, w, m, keepsLock))
  {
    hide Announced, Replay;
    ReplayPrefix(s.loaded, s.log, m, 0);
    ChangeAnnounced(s, w, m, keepsLock);
  }

  lemma ChangeKeeps(s: State, w: WriterId, m: Mutation, keepsLock: bool)
    requires Good(s) && CanChange(s, w, m, keepsLock)
    ensures Good(ChangeMap(s, w, m, keepsLock))
  {
    hide WritersOk, StoreOk, FlushesOk;
    ChangeWriters(s, w, m, keepsLock);
    LaterKeeps(s, ChangeMap(s, w, m, keepsLock));
  }

  /** With fewer than 2^64 changes the revision never wraps, so announcing counts up by one. */
  lemma FreshKey(bump: map<nat, u64>, i: nat, n: nat, rev: u64)
    requires i !in bump && i < n && forall k :: k in bump ==> k < n
    ensures |bump| < n && |bump[i := rev]| == |bump| + 1
  {
    WithinRange(bump.Keys + {i}, 0, n);
    assert bump[i := rev].Keys == bump.Keys + {i};
  }

  lemma BumpCounts(s: State, w: WriterId)
    requires WritersOk(s) && w in s.writers && |s.log| <= U64_MAX
    ensures var t := BumpRevision(s, w); t.revision == s.revision + 1 == |t.bump|
  {
    hide Replay, Announced;
    FreshKey(s.bump, s.writers[w].index, |s.log|, BumpRevision(s, w).revision);
  }

  lemma BumpWriters(s: State, w: WriterId)
    requires WritersOk(s) && w in s.writers && |s.log| <= U64_MAX
    ensures WritersOk(BumpRevision(s, w))
  {
    BumpCounts(s, w);
    BumpAnnounced(s, w);
    hide Announced, Replay;
  }

  lemma BumpLater(s: State, w: WriterId)
    requires WritersOk(s) && w in s.writers && |s.log| <= U64_MAX
    ensures Later(s, BumpRevision(s, w))
  {
    hide WritersOk;
    BumpCounts(s, w);
  }

  lemma BumpKeeps(s: State, w: WriterId)
    requires Good(s) && w in s.writers && |s.log| <= U64_MAX
    ensures Good(BumpRevision(s, w))
  {
    hide WritersOk, StoreOk, FlushesOk;
    BumpWriters(s, w);
    BumpLater(s, w);
    LaterKeeps(s, BumpRevision(s, w));
  }

  // ---- the store ----

  /** What settling a transaction changes, as seen by a flush. */
  ghost predicate Settled(s: State, t: State) {
    && t == s.(pending := t.pending, persisted := t.persisted, persistedPos := t.persistedPos, committed := t.committed)
    && s.persistedPos <= t.persistedPos
    && (forall tx :: tx in t.pending ==> tx in s.pending)
  }

  lemma SettledPc(s: State, t: State, f: FlushId, pc: FlushPc)
    requires Settled(s, t) && PcOk(s, f, pc)
    requires pc.Copied? ==> t.persistedPos <= pc.pos
    requires pc.Submitted? && f in t.committed ==> pc.pos <= t.persistedPos
    ensures PcOk(t, f, pc)
  {}

  lemma SettledPcs(s: State, t: State)
    requires Settled(s, t) && FlushesOk(s)
    requires forall f :: f in s.flushes && s.flushes[f].Copied? ==> t.persistedPos <= s.flushes[f].pos
    requires forall f :: f in s.flushes && s.flushes[f].Submitted? && f in t.committed ==>
        s.flushes[f].pos <= t.persistedPos
    requires forall f :: f in t.committed ==> f in s.flushes && HasSubmitted(s.flushes[f])
    ensures FlushesOk(t)
  {
    hide PcOk;
    forall f | f in s.flushes ensures PcOk(t, f, s.flushes[f]) {
      SettledPc(s, t, f, s.flushes[f]);
    }
  }

  lemma CommitStore(s: State)
    requires StoreOk(s) && s.pending != []
    ensures StoreOk(CommitOldest(s))
  {
    hide Replay;
    var t, tx := CommitOldest(s), s.pending[0];
    assert CopyOk(s, tx.pos, tx.copy);
    assert forall i :: 0 <= i < |t.pending| ==> t.pending[i] == s.pending[i + 1];
    assert forall x :: x in t.pending ==> x in s.pending && tx.pos <= x.pos;
  }

  lemma AbortStore(s: State)
    requires StoreOk(s) && s.pending != []
    ensures StoreOk(s.(pending := s.pending[1..]))
  {
    hide Replay;
    assert forall i :: 0 <= i < |s.pending[1..]| ==> s.pending[1..][i] == s.pending[i + 1];
  }

  lemma SettledWriters(s: State, t: State)
    requires Settled(s, t) && WritersOk(s)
    ensures WritersOk(t)
  {
    hide Replay;
  }

  lemma CommitKeeps(s: State)
    requires Good(s) && s.pending != []
    ensures Good(CommitOldest(s))
  {
    hide WritersOk, CopyOk, Covers;
    var t, tx := CommitOldest(s), s.pending[0];
    CommitStore(s);
    assert tx in s.pending && CopyOk(s, tx.pos, tx.copy);
    CommitReaches(s, tx);
    hide StoreOk;
    SettledWriters(s, t);
    SettledPcs(s, t);
  }

  lemma CommitReaches(s: State, tx: Tx)
    requires CopyOk(s, tx.pos, tx.copy)
    ensures s.persistedPos <= tx.pos
  {}

  lemma AbortKeeps(s: State)
    requires Good(s) && s.pending != []
    ensures Good(s.(pending := s.pending[1..]))
  {
    hide WritersOk, StoreOk, PcOk;
    var t := s.(pending := s.pending[1..]);
    AbortStore(s);
    SettledWriters(s, t);
    assert forall f :: f in s.flushes ==> PcOk(s, f, s.flushes[f]);
    AbortConditions(s);
    SettledPcs(s, t);
  }

  /** A copy not handed over yet, or already committed, is placed right where the journal stands. */
  lemma AbortConditions(s: State)
    requires FlushesOk(s)
    ensures forall f :: f in s.flushes && s.flushes[f].Copied? ==> s.persistedPos <= s.flushes[f].pos
    ensures forall f :: f in s.flushes && s.flushes[f].Submitted? && f in s.committed ==>
        s.flushes[f].pos <= s.persistedPos
  {}

  // ---- flushes ----

  /** A flush's state is judged by writers and store alone. */
  lemma PcsAlone(s: State, t: State)
    requires t == s.(flushes := t.flushes, guard := t.guard, flushed := t.flushed) && s.flushed <= t.flushed
    ensures forall f, pc :: PcOk(s, f, pc) ==> PcOk(t, f, pc)
  {}

  lemma AlonesKeep(s: State, t: State)
    requires t == s.(flushes := t.flushes, guard := t.guard, flushed := t.flushed) && WritersOk(s) && StoreOk(s)
    requires t.flushed <= s.revision && Covers(s, t.flushed, s.persistedPos)
    ensures WritersOk(t) && StoreOk(t)
  {}

  /** A flush moving to a state justified where it stands, taking or giving back the guard. */
  lemma MoveKeeps(s: State, f: FlushId, pc: FlushPc, guard: Option<FlushId>, flushed: u64)
    requires Good(s) && PcOk(s.(flushed := flushed), f, pc)
    requires guard == s.guard || s.guard == Some(f) || s.guard == None
    requires UnderGuard(pc) ==> guard == Some(f)
    requires f in s.flushes && HasSubmitted(s.flushes[f]) ==> HasSubmitted(pc)
    requires s.flushed <= flushed <= s.revision && Covers(s, flushed, s.persistedPos)
    ensures Good(At(s, f, pc).(guard := guard, flushed := flushed))
  {
    hide PcOk, StoreOk, WritersOk;
    var t := At(s, f, pc).(guard := guard, flushed := flushed);
    AlonesKeep(s, t);
    PcsAlone(s, t);
    PcsAlone(s.(flushed := flushed), t);
  }

  lemma SubmitStore(s: State, f: FlushId, start: u64, rev: u64, pos: nat, copy: Values)
    requires StoreOk(s) && PcOk(s, f, Copied(start, rev, pos, copy))
    ensures StoreOk(Submit(s, f, start, rev, pos, copy))
  {
    hide Replay;
    assert forall i :: 0 <= i < |s.pending| ==> s.pending[i] in s.pending;
  }

  lemma SubmitPcs(s: State, f: FlushId, start: u64, rev: u64, pos: nat, copy: Values)
    requires FlushesOk(s) && f in s.flushes && s.flushes[f] == Copied(start, rev, pos, copy)
    ensures FlushesOk(Submit(s, f, start, rev, pos, copy))
  {
    hide Replay;
    var t := Submit(s, f, start, rev, pos, copy);
    assert s.guard == Some(f) && PcOk(s, f, s.flushes[f]);
    forall g | g in t.flushes ensures PcOk(t, g, t.flushes[g]) {
      assert PcOk(s, g, s.flushes[g]) && (g != f ==> !UnderGuard(s.flushes[g]));
    }
  }

  lemma SubmitWriters(s: State, t: State)
    requires t == s.(flushes := t.flushes, pending := t.pending) && WritersOk(s)
    ensures WritersOk(t)
  {
    hide Replay;
  }

  lemma SubmitKeeps(s: State, f: FlushId)
    requires Good(s) && Enabled(s, FlushSubmit(f))
    ensures Good(Do(s, FlushSubmit(f)))
  {
    hide WritersOk, StoreOk, PcOk;
    var pc := s.flushes[f];
    var t := Submit(s, f, pc.start, pc.rev, pc.pos, pc.copy);
    assert PcOk(s, f, pc);
    SubmitStore(s, f, pc.start, pc.rev, pc.pos, pc.copy);
    SubmitPcs(s, f, pc.start, pc.rev, pc.pos, pc.copy);
    hide FlushesOk;
    SubmitWriters(s, t);
  }

  /** The copy a flush takes is of the whole log, which reaches past every change announced so far. */
  lemma CopyJustified(s: State, f: FlushId)
    requires Good(s) && Enabled(s, FlushCopy(f))
    ensures PcOk(s, f, Copied(s.flushes[f].start, s.flushes[f].rev, |s.log|, s.values))
  {
    hide Announced, Replay;
    assert PcOk(s, f, s.flushes[f]);
    assert s.log[..|s.log|] == s.log;
  }

  lemma GoodAt(s: State, f: FlushId)
    requires Good(s)
    ensures f in s.flushes ==> PcOk(s, f, s.flushes[f]) && (UnderGuard(s.flushes[f]) ==> s.guard == Some(f))
    ensures s.flushed <= s.revision && Covers(s, s.flushed, s.persistedPos)
  {}

  lemma EarlyKeeps(s: State, step: Step)
    requires Good(s) && Enabled(s, step)
    requires step.FlushCall? || step.FlushLock? || step.FlushLoad? || step.FlushTakeRevision? || step.FlushCopy?
    ensures Good(Do(s, step))
  {
    hide WritersOk, StoreOk, FlushesOk, Covers, CopyOk;
    var f := step.flush;
    GoodAt(s, f);
    match step {
      case FlushCall(_) => MoveKeeps(s, f, Called(s.revision), s.guard, s.flushed);
      case FlushLock(_) => MoveKeeps(s, f, Guarded(s.flushes[f].start), Some(f), s.flushed);
      case FlushLoad(_) => MoveKeeps(s, f, SawRevision(s.flushes[f].start, s.revision), s.guard, s.flushed);
      case FlushTakeRevision(_) => MoveKeeps(s, f, TookRevision(s.flushes[f].start, s.revision), s.guard, s.flushed);
      case FlushCopy(_) =>
        CopyJustified(s, f);
        MoveKeeps(s, f, Copied(s.flushes[f].start, s.flushes[f].rev, |s.log|, s.values), s.guard, s.flushed);
    }
  }

  /** Why a flush may return Ok or count as saved. */
  lemma LateJustified(s: State, f: FlushId)
    requires Good(s) && f in s.flushes
    ensures s.flushes[f].SawRevision? && s.flushes[f].rev == s.flushed ==> PcOk(s, f, ReturnedOk(s.flushes[f].start))
    ensures s.flushes[f].Submitted? && f in s.committed ==> PcOk(s, f, Saved(s.flushes[f].start, s.flushes[f].rev))
    ensures s.flushes[f].Saved? ==>
              && s.flushes[f].rev <= s.revision && Covers(s, s.flushes[f].rev, s.persistedPos)
              && PcOk(Finished(s, s.flushes[f].rev), f, ReturnedOk(s.flushes[f].start))
  {
    hide WritersOk, CopyOk;
    assert PcOk(s, f, s.flushes[f]);
  }

  /** Where a flush under the guard stands with respect to the others and to the store. */
  lemma UnderGuardFacts(s: State, f: FlushId)
    requires Good(s) && f in s.flushes && UnderGuard(s.flushes[f])
    ensures PcOk(s, f, s.flushes[f]) && s.guard == Some(f)
    ensures s.flushed <= s.revision && Covers(s, s.flushed, s.persistedPos)
  {
    hide WritersOk, PcOk, CopyOk, Covers;
  }

  lemma TestKeeps(s: State, f: FlushId)
    requires Good(s) && Enabled(s, FlushTest(f))
    ensures Good(Do(s, FlushTest(f)))
  {
    hide Good, Covers, CopyOk;
    var pc := s.flushes[f];
    UnderGuardFacts(s, f);
    LateJustified(s, f);
    if pc.rev == s.flushed {
      MoveKeeps(s, f, ReturnedOk(pc.start), None, s.flushed);
    } else {
      MoveKeeps(s, f, FoundDirty(pc.start), s.guard, s.flushed);
    }
  }

  lemma SeeCommitKeeps(s: State, f: FlushId)
    requires Good(s) && Enabled(s, FlushSeeCommit(f))
    ensures Good(Do(s, FlushSeeCommit(f)))
  {
    hide Good, Covers, CopyOk, PcOk;
    UnderGuardFacts(s, f);
    LateJustified(s, f);
    MoveKeeps(s, f, Saved(s.flushes[f].start, s.flushes[f].rev), s.guard, s.flushed);
  }

  lemma FinishKeeps(s: State, f: FlushId)
    requires Good(s) && Enabled(s, FlushFinish(f))
    ensures Good(Do(s, FlushFinish(f)))
  {
    hide Good, Covers, CopyOk, PcOk;
    var pc := s.flushes[f];
    UnderGuardFacts(s, f);
    LateJustified(s, f);
    MoveKeeps(s, f, ReturnedOk(pc.start), None, Finished(s, pc.rev).flushed);
  }

  lemma FailKeeps(s: State, f: FlushId)
    requires Good(s) && Enabled(s, FlushFail(f))
    ensures Good(Do(s, FlushFail(f)))
  {
    hide Good, Covers, CopyOk;
    UnderGuardFacts(s, f);
    MoveKeeps(s, f, ReturnedErr, None, s.flushed);
  }

  /** Every step of every writer, flush and transaction keeps the invariant. */
  lemma StepKeeps(s: State, step: Step)
    requires Good(s) && Enabled(s, step) && |s.log| <= U64_MAX
    ensures Good(Do(s, step))
  {
    hide Good;
    match step {
      case Change(w, m, keepsLock) => ChangeKeeps(s, w, m, keepsLock);
      case Bump(w) => BumpKeeps(s, w);
      case FlushSubmit(f) => SubmitKeeps(s, f);
      case Commit => CommitKeeps(s);
      case Abort => AbortKeeps(s);
      case FlushTest(f) => TestKeeps(s, f);
      case FlushSeeCommit(f) => SeeCommitKeeps(s, f);
      case FlushFinish(f) => FinishKeeps(s, f);
      case FlushFail(f) => FailKeeps(s, f);
      case _ => EarlyKeeps(s, step);
    }
  }

  // ---- whole runs ----

  ghost predicate Runs(s: State, steps: seq<Step>)
    decreases steps
  {
    steps == [] || (Enabled(s, steps[0]) && Runs(Do(s, steps[0]), steps[1..]))
  }

  ghost function Reach(s: State, steps: seq<Step>): State
    requires Runs(s, steps)
    decreases steps
  {
    if steps == [] then s else Reach(Do(s, steps[0]), steps[1..])
  }

  /** What no step takes back: announcements, logged changes, and how far the journal has got. */
  ghost predicate Extends(s: State, t: State) {
    && t.loaded == s.loaded && s.log <= t.log && s.persistedPos <= t.persistedPos
    && s.revision <= t.revision && s.flushed <= t.flushed
    && (forall i :: i in s.bump ==> i in t.bump && t.bump[i] == s.bump[i])
    && (forall f :: f in t.flushes && !t.flushes[f].ReturnedErr? ==>
          t.flushes[f].start >= if f in s.flushes && !s.flushes[f].ReturnedErr? then s.flushes[f].start else s.revision)
    && (forall f :: f in s.flushes ==> f in t.flushes && (s.flushes[f].ReturnedErr? ==> t.flushes[f].ReturnedErr?))
  }

  /** The revision a flush was called at stays with it. */
  predicate SameStart(s: State, f: FlushId, pc: FlushPc) {
    if f !in s.flushes then !pc.ReturnedErr? && pc.start == s.revision
    else pc.ReturnedErr? || (!s.flushes[f].ReturnedErr? && pc.start == s.flushes[f].start)
  }

  predicate OnlyMoves(s: State, t: State) {
    t.loaded == s.loaded && t.log == s.log && t.revision == s.revision && t.bump == s.bump
        && t.persistedPos == s.persistedPos && s.flushed <= t.flushed
  }

  lemma MoveExtends(s: State, t: State, f: FlushId, pc: FlushPc)
    requires OnlyMoves(s, t) && t.flushes == s.flushes[f := pc] && SameStart(s, f, pc)
    requires forall g :: g in s.flushes && !s.flushes[g].ReturnedErr? ==> s.flushes[g].start <= s.revision
    ensures Extends(s, t)
  {}

  lemma StartsBelow(s: State)
    requires FlushesOk(s)
    ensures forall g :: g in s.flushes && !s.flushes[g].ReturnedErr? ==> s.flushes[g].start <= s.revision
  {
    forall g | g in s.flushes ensures !s.flushes[g].ReturnedErr? ==> s.flushes[g].start <= s.revision {
      assert PcOk(s, g, s.flushes[g]);
    }
  }

  lemma FlushStepMoves(s: State, step: Step)
    requires Enabled(s, step) && !step.Change? && !step.Bump? && !step.Commit? && !step.Abort?
    ensures var t, f := Do(s, step), step.flush;
            OnlyMoves(s, t) && f in t.flushes && t.flushes == s.flushes[f := t.flushes[f]]
                && SameStart(s, f, t.flushes[f])
  {
    hide LockFree;
  }

  lemma WriterStepExtends(s: State, step: Step)
    requires Good(s) && Enabled(s, step) && |s.log| <= U64_MAX && (step.Change? || step.Bump?)
    ensures Extends(s, Do(s, step))
  {
    hide StoreOk, FlushesOk, Announced, Replay;
    StartsBelow(s);
    if step.Bump? { BumpCounts(s, step.writer); }
  }

  lemma SettleExtends(s: State, step: Step)
    requires Good(s) && Enabled(s, step) && (step.Commit? || step.Abort?)
    ensures Extends(s, Do(s, step))
  {
    StartsBelow(s);
    assert s.pending[0] in s.pending && CopyOk(s, s.pending[0].pos, s.pending[0].copy);
    hide Good, Replay;
  }

  lemma StepExtends(s: State, step: Step)
    requires Good(s) && Enabled(s, step) && |s.log| <= U64_MAX
    ensures Extends(s, Do(s, step))
  {
    hide Do;
    if step.Change? || step.Bump? {
      WriterStepExtends(s, step);
    } else if step.Commit? || step.Abort? {
      SettleExtends(s, step);
    } else {
      StartsBelow(s);
      hide Good, Extends, SameStart;
      FlushStepMoves(s, step);
      MoveExtends(s, Do(s, step), step.flush, Do(s, step).flushes[step.flush]);
    }
  }

  lemma ExtendsTransitive(s: State, t: State, u: State)
    requires Extends(s, t) && Extends(t, u)
    ensures Extends(s, u)
  {}

  lemma {:induction false} RunKeeps(s: State, steps: seq<Step>)
    requires Good(s) && Runs(s, steps) && |Reach(s, steps).log| <= U64_MAX
    ensures Good(Reach(s, steps)) && Extends(s, Reach(s, steps))
    decreases steps
  {
    hide Good, Extends;
    if steps == [] {
      ExtendsSelf(s);
    } else {
      LogGrows(s, steps);
      StepKeeps(s, steps[0]);
      StepExtends(s, steps[0]);
      var t := Do(s, steps[0]);
      RunKeeps(t, steps[1..]);
      ExtendsTransitive(s, t, Reach(s, steps));
    }
  }

  lemma ExtendsSelf(s: State)
    ensures Extends(s, s)
  {}

  lemma {:induction false} LogGrows(s: State, steps: seq<Step>)
    requires Runs(s, steps)
    ensures |s.log| <= |Reach(s, steps).log|
    decreases steps
  {
    if steps != [] { LogGrows(Do(s, steps[0]), steps[1..]); }
  }

  lemma OpenGood(journal: Values)
    ensures Good(Open(journal))
  {}

  // ---- the map, key by key ----

  /** Mutation `i` is the last one of `key`. */
  ghost predicate LastOf(log: seq<Mutation>, i: nat, key: string) {
    i < |log| && log[i].key == key && forall j :: i < j < |log| ==> log[j].key != key
  }

  ghost predicate Untouched(log: seq<Mutation>, key: string) {
    forall j :: 0 <= j < |log| ==> log[j].key != key
  }

  /** A key has the value last put under it, none when last removed, and keeps what it had when never touched. */
  ghost predicate LastWriteWins(start: Values, log: seq<Mutation>, values: Values, key: string) {
    && (forall i: nat :: LastOf(log, i, key) ==>
          if log[i].Put? then key in values && values[key] == log[i].value else key !in values)
    && (Untouched(log, key) ==> if key in start then key in values && values[key] == start[key] else key !in values)
  }

  lemma LastOfShorter(log: seq<Mutation>, m: Mutation, key: string)
    ensures m.key == key ==> LastOf(log + [m], |log|, key) && !Untouched(log + [m], key)
    ensures forall i: nat :: LastOf(log + [m], i, key) ==>
              if m.key == key then i == |log| else LastOf(log, i, key) && (log + [m])[i] == log[i]
    ensures Untouched(log + [m], key) ==> m.key != key && Untouched(log, key)
  {
    var longer := log + [m];
    assert longer[|log|] == m;
    forall i: nat | LastOf(longer, i, key) && m.key != key ensures LastOf(log, i, key) {
      assert forall j :: i < j < |log| ==> longer[j] == log[j];
    }
    if Untouched(longer, key) { assert forall j :: 0 <= j < |log| ==> longer[j] == log[j]; }
  }

  lemma {:induction false} ReplayByKey(start: Values, log: seq<Mutation>, key: string)
    ensures LastWriteWins(start, log, Replay(start, log), key)
  {
    if log == [] {
      assert forall i: nat :: !LastOf(log, i, key);
    } else {
      var front, m := log[..|log| - 1], log[|log| - 1];
      ReplayByKey(start, front, key);
      assert log == front + [m];
      LastOfShorter(front, m, key);
      hide LastOf, Untouched;
    }
  }

  /** In every run: the map follows all mutations so far, the journal the first `persistedPos` of them. */
  lemma MapsFollowWrites(journal: Values, steps: seq<Step>, key: string)
    requires Runs(Open(journal), steps) && |Reach(Open(journal), steps).log| <= U64_MAX
    ensures var s := Reach(Open(journal), steps);
            && s.persistedPos <= |s.log|
            && LastWriteWins(journal, s.log, s.values, key)
            && LastWriteWins(journal, s.log[..s.persistedPos], s.persisted, key)
  {
    hide Good, Runs, Reach, Extends, Replay, LastWriteWins;
    var s := Reach(Open(journal), steps);
    OpenGood(journal);
    RunKeeps(Open(journal), steps);
    GoodMaps(Open(journal), s);
    ReplayByKey(journal, s.log, key);
    ReplayByKey(journal, s.log[..s.persistedPos], key);
  }

  lemma GoodMaps(s: State, t: State)
    requires Good(t) && Extends(s, t)
    ensures t.loaded == s.loaded && t.values == Replay(t.loaded, t.log)
    ensures t.persistedPos <= |t.log| && t.persisted == Replay(t.loaded, t.log[..t.persistedPos])
  {}

  // ---- what the storage promises ----

  /** By `t` every change announced in `s` is part of the persisted journal, which is a point of the log. */
  ghost predicate Durable(s: State, t: State) {
    && s.log <= t.log && t.persistedPos <= |t.log|
    && t.persisted == Replay(t.loaded, t.log[..t.persistedPos])
    && forall i :: i in s.bump ==> i < t.persistedPos
  }

  /** A run with at most `n` changes in which flush `f` was called after `before` and has returned Ok. */
  ghost predicate OkFlush(journal: Values, before: seq<Step>, since: seq<Step>, f: FlushId, n: nat) {
    && Runs(Open(journal), before) && Runs(Reach(Open(journal), before), since)
    && var s := Reach(Open(journal), before); var t := Reach(s, since);
       |t.log| <= n && f !in s.flushes && f in t.flushes && t.flushes[f].ReturnedOk?
  }

  /**
   A run with at most `n` changes in which an observer loads the revision after `before`, the
   flushed revision after `between` as well, and finds them equal. Loads change nothing, so any
   steps of the others may come in between.
   */
  ghost predicate CleanReport(journal: Values, before: seq<Step>, between: seq<Step>, n: nat) {
    && Runs(Open(journal), before) && Runs(Reach(Open(journal), before), between)
    && var s := Reach(Open(journal), before); var t := Reach(s, between);
       |t.log| <= n && s.revision == t.flushed
  }

  ghost function First(journal: Values, before: seq<Step>): State
    requires Runs(Open(journal), before)
  {
    Reach(Open(journal), before)
  }

  ghost function Second(journal: Values, before: seq<Step>, since: seq<Step>): State
    requires Runs(Open(journal), before) && Runs(First(journal, before), since)
  {
    Reach(First(journal, before), since)
  }

  lemma TwoPoints(journal: Values, before: seq<Step>, since: seq<Step>)
    requires Runs(Open(journal), before) && Runs(First(journal, before), since)
    requires |Second(journal, before, since).log| <= U64_MAX
    ensures Good(First(journal, before)) && Good(Second(journal, before, since))
    ensures Extends(First(journal, before), Second(journal, before, since))
  {
    hide Good, Extends, Runs, Reach;
    OpenGood(journal);
    LogGrows(First(journal, before), since);
    RunKeeps(Open(journal), before);
    RunKeeps(First(journal, before), since);
  }

  lemma OkState(s: State, t: State, f: FlushId)
    requires Good(s) && Good(t) && Extends(s, t) && f !in s.flushes && f in t.flushes && t.flushes[f].ReturnedOk?
    ensures Durable(s, t)
  {
    hide Announced, Replay;
    assert PcOk(t, f, t.flushes[f]);
  }

  /** A flush that returns Ok has made durable every change announced before it was called. */
  lemma OkFlushIsDurable(journal: Values, before: seq<Step>, since: seq<Step>, f: FlushId)
    requires OkFlush(journal, before, since, f, U64_MAX)
    ensures Durable(First(journal, before), Second(journal, before, since))
  {
    hide Good, Extends, Runs, Reach, Durable;
    TwoPoints(journal, before, since);
    OkState(First(journal, before), Second(journal, before, since), f);
  }

  lemma OkRevisions(s: State, t: State, f: FlushId)
    requires Good(t) && Extends(s, t) && f !in s.flushes && f in t.flushes && t.flushes[f].ReturnedOk?
    ensures s.revision <= t.flushes[f].start <= t.flushed <= t.revision
  {
    hide WritersOk;
    assert PcOk(t, f, t.flushes[f]);
  }

  /**
   A flush that has returned Ok has raised the flushed revision at least to the revision it was
   called at; unless a change was announced since, the storage is clean.
   */
  lemma OkFlushIsClean(journal: Values, before: seq<Step>, since: seq<Step>, f: FlushId)
    requires OkFlush(journal, before, since, f, U64_MAX)
    ensures var s, t := First(journal, before), Second(journal, before, since);
            && s.revision <= t.flushes[f].start <= t.flushed <= t.revision
            && (t.flushes[f].start == t.revision ==> t.flushed == t.revision)
            && (s.revision == t.revision ==> t.flushed == t.revision)
  {
    hide Good, Extends, Runs, Reach;
    TwoPoints(journal, before, since);
    OkRevisions(First(journal, before), Second(journal, before, since), f);
  }

  lemma CleanPair(s: State, t: State)
    requires Good(s) && Good(t) && Extends(s, t) && s.revision == t.flushed
    ensures Durable(s, t)
    ensures s.writers == map[] ==> |s.log| <= t.persistedPos
  {
    hide FlushesOk, Replay;
    assert s.writers == map[] && |s.log| > 0 ==> |s.log| - 1 in s.bump;
  }

  lemma {:induction false} ReplayConcat(start: Values, a: seq<Mutation>, b: seq<Mutation>)
    ensures Replay(start, a + b) == Replay(Replay(start, a), b)
    decreases |b|
  {
    if b == [] {
      assert a + b == a;
    } else {
      ReplayConcat(start, a, b[..|b| - 1]);
      assert (a + b)[..|a + b| - 1] == a + b[..|b| - 1];
    }
  }

  /**
   A clean report makes durable every change announced before its first load. When no writer was
   midway then, what the journal may lack was all changed after that load, and the journal equals
   the map exactly when those changes have no net effect on it; in particular when there are none.
   */
  lemma CleanReportIsDurable(journal: Values, before: seq<Step>, between: seq<Step>)
    requires CleanReport(journal, before, between, U64_MAX)
    ensures var s, t := First(journal, before), Second(journal, before, between);
            && Durable(s, t)
            && (t.persisted == t.values <==> Replay(t.persisted, t.log[t.persistedPos..]) == t.persisted)
            && (s.writers == map[] ==> |s.log| <= t.persistedPos)
            && (s.writers == map[] && t.log == s.log ==> t.persisted == t.values)
  {
    hide Good, Extends, Runs, Reach, Replay;
    var s, t := First(journal, before), Second(journal, before, between);
    TwoPoints(journal, before, between);
    CleanPair(s, t);
    GoodReplays(t);
    ReplayConcat(t.loaded, t.log[..t.persistedPos], t.log[t.persistedPos..]);
    assert t.log[..t.persistedPos] + t.log[t.persistedPos..] == t.log;
    assert t.persistedPos == |t.log| ==> t.log[..t.persistedPos] == t.log;
  }

  lemma GoodReplays(s: State)
    requires Good(s)
    ensures s.values == Replay(s.loaded, s.log)
  {}

  /** The special case of both loads in one quiet state: clean means the journal is the map. */
  lemma CleanIsPersisted(journal: Values, steps: seq<Step>)
    requires Runs(Open(journal), steps)
    requires var s := First(journal, steps);
             |s.log| <= U64_MAX && s.revision == s.flushed && s.writers == map[]
    ensures First(journal, steps).persisted == First(journal, steps).values
  {
    CleanReportIsDurable(journal, steps, []);
  }

  /**
   A whole write between the two loads: the report is clean, no writer is midway, and what was
   written is not durable.
   */
  lemma WriteBetweenLoads(journal: Values, key: string, value: seq<byte>)
    ensures var between := [Change(0, Put(key, value), false), Bump(0)];
            && CleanReport(journal, [], between, 1)
            && var t := Second(journal, [], between);
               t.writers == map[] && (t.persisted == t.values <==> key in journal && journal[key] == value)
  {
    var s := Open(journal);
    var change, bump := Change(0, Put(key, value), false), Bump(0);
    var t := Do(Do(s, change), bump);
    assert [change, bump][1..] == [bump] && [bump][1..] == [];
    RunsNothing(s);
    RunsNothing(t);
    assert Runs(Do(s, change), [bump]) && Reach(Do(s, change), [bump]) == t;
    assert Runs(s, [change, bump]) && Reach(s, [change, bump]) == t;
    assert t.persisted == journal && t.values == journal[key := value];
    if t.persisted == t.values { assert key in t.values && t.values[key] == value; }
  }

  // ---- a flush can always get through ----

  /** The steps of a flush that finds the storage dirty and meets no error. */
  function WholeFlush(f: FlushId): seq<Step> {
    [FlushCall(f), FlushLock(f)] + [FlushLoad(f), FlushTest(f)] + [FlushTakeRevision(f), FlushCopy(f)]
    + [FlushSubmit(f), Commit] + [FlushSeeCommit(f), FlushFinish(f)]
  }

  lemma RunsFirst(s: State, step: Step, rest: seq<Step>)
    requires Enabled(s, step) && Runs(Do(s, step), rest)
    ensures Runs(s, [step] + rest) && Reach(s, [step] + rest) == Reach(Do(s, step), rest)
  {
    assert ([step] + rest)[1..] == rest;
  }

  lemma {:induction false} RunsConcat(s: State, a: seq<Step>, b: seq<Step>)
    requires Runs(s, a) && Runs(Reach(s, a), b)
    ensures Runs(s, a + b) && Reach(s, a + b) == Reach(Reach(s, a), b)
    decreases a
  {
    if a == [] {
      assert a + b == b;
    } else {
      RunsConcat(Do(s, a[0]), a[1..], b);
      RunsFirst(s, a[0], a[1..] + b);
      assert [a[0]] + (a[1..] + b) == a + b;
    }
  }

  lemma OneStep(s: State, step: Step)
    requires Enabled(s, step)
    ensures Runs(s, [step]) && Reach(s, [step]) == Do(s, step)
  {
    RunsNothing(Do(s, step));
    RunsFirst(s, step, []);
  }

  lemma TwoSteps(s: State, a: Step, b: Step)
    requires Enabled(s, a) && Enabled(Do(s, a), b)
    ensures Runs(s, [a, b]) && Reach(s, [a, b]) == Do(Do(s, a), b)
  {
    hide Do, Enabled;
    OneStep(Do(s, a), b);
    RunsFirst(s, a, [b]);
  }

  /** `s` with flush `f` under the guard. */
  function Stage(s: State, f: FlushId, pc: FlushPc): State { At(s, f, pc).(guard := Some(f)) }

  lemma Restage(s: State, f: FlushId, pc: FlushPc, next: FlushPc)
    ensures At(Stage(s, f, pc), f, next) == Stage(s, f, next) && At(At(s, f, pc), f, next) == At(s, f, next)
    ensures LockFree(Stage(s, f, pc)) <==> LockFree(s)
  {
    assert s.flushes[f := pc][f := next] == s.flushes[f := next];
  }

  lemma FlushStarts(s: State, f: FlushId)
    requires s.guard == None && f !in s.flushes
    ensures Runs(s, [FlushCall(f), FlushLock(f)])
    ensures Reach(s, [FlushCall(f), FlushLock(f)]) == Stage(s, f, Guarded(s.revision))
  {
    hide Runs, Reach, LockFree;
    TwoSteps(s, FlushCall(f), FlushLock(f));
    Restage(s, f, Called(s.revision), Guarded(s.revision));
  }

  lemma FlushFindsDirty(s: State, f: FlushId, start: u64)
    requires s.revision != s.flushed
    ensures var g := Stage(s, f, Guarded(start));
            Runs(g, [FlushLoad(f), FlushTest(f)])
              && Reach(g, [FlushLoad(f), FlushTest(f)]) == Stage(s, f, FoundDirty(start))
  {
    hide Runs, Reach, LockFree;
    Restage(s, f, Guarded(start), SawRevision(start, s.revision));
    Restage(s, f, SawRevision(start, s.revision), FoundDirty(start));
    TwoSteps(Stage(s, f, Guarded(start)), FlushLoad(f), FlushTest(f));
  }

  lemma FlushCopies(s: State, f: FlushId, start: u64)
    requires LockFree(s)
    ensures var g := Stage(s, f, FoundDirty(start));
            Runs(g, [FlushTakeRevision(f), FlushCopy(f)])
              && Reach(g, [FlushTakeRevision(f), FlushCopy(f)])
                 == Stage(s, f, Copied(start, s.revision, |s.log|, s.values))
  {
    hide Runs, Reach, LockFree;
    Restage(s, f, FoundDirty(start), TookRevision(start, s.revision));
    Restage(s, f, TookRevision(start, s.revision), Copied(start, s.revision, |s.log|, s.values));
    TwoSteps(Stage(s, f, FoundDirty(start)), FlushTakeRevision(f), FlushCopy(f));
  }

  /** What the commit of a copy of `s` leaves. */
  function Kept(s: State, f: FlushId): State {
    s.(persisted := s.values, persistedPos := |s.log|, committed := s.committed + {f})
  }

  lemma FlushCommits(s: State, f: FlushId, start: u64)
    requires s.pending == []
    ensures var g := Stage(s, f, Copied(start, s.revision, |s.log|, s.values));
            Runs(g, [FlushSubmit(f), Commit])
              && Reach(g, [FlushSubmit(f), Commit]) == Stage(Kept(s, f), f, Submitted(start, s.revision, |s.log|))
  {
    hide Runs, Reach, LockFree;
    var pc, tx := Copied(start, s.revision, |s.log|, s.values), Tx(f, |s.log|, s.values);
    Restage(s, f, pc, Submitted(start, s.revision, |s.log|));
    assert s.pending + [tx] == [tx] && [tx][1..] == [];
    TwoSteps(Stage(s, f, pc), FlushSubmit(f), Commit);
  }

  lemma FlushEnds(s: State, f: FlushId, start: u64)
    requires f in s.committed
    ensures var g := Stage(s, f, Submitted(start, s.revision, |s.log|));
            Runs(g, [FlushSeeCommit(f), FlushFinish(f)])
              && Reach(g, [FlushSeeCommit(f), FlushFinish(f)])
                 == At(Finished(s, s.revision), f, ReturnedOk(start)).(guard := None)
  {
    hide Runs, Reach, LockFree;
    var pc := Submitted(start, s.revision, |s.log|);
    Restage(s, f, pc, Saved(start, s.revision));
    Restage(s, f, Saved(start, s.revision), ReturnedOk(start));
    TwoSteps(Stage(s, f, pc), FlushSeeCommit(f), FlushFinish(f));
  }

  /** From any dirty state with no flush under way and no lock held: it returns Ok, all is durable and clean. */
  lemma FlushGetsThrough(s: State, f: FlushId)
    requires Good(s) && LockFree(s) && s.guard == None && s.pending == [] && f !in s.flushes && s.revision != s.flushed
    ensures Runs(s, WholeFlush(f))
    ensures var t := Reach(s, WholeFlush(f));
            && t.flushes == s.flushes[f := ReturnedOk(s.revision)] && t.guard == None
            && t.values == s.values == t.persisted && t.revision == s.revision == t.flushed
  {
    GoodAt(s, f);
    hide Runs, Reach, LockFree, Good, Do, Enabled;
    FlushStarts(s, f);
    FlushFindsDirty(s, f, s.revision);
    FlushCopies(s, f, s.revision);
    FlushCommits(s, f, s.revision);
    FlushEnds(Kept(s, f), f, s.revision);
    var a, b, c: seq<Step> := [FlushCall(f), FlushLock(f)], [FlushLoad(f), FlushTest(f)],
        [FlushTakeRevision(f), FlushCopy(f)];
    var d, e: seq<Step> := [FlushSubmit(f), Commit], [FlushSeeCommit(f), FlushFinish(f)];
    RunsConcat(s, a, b);
    RunsConcat(s, a + b, c);
    RunsConcat(s, a + b + c, d);
    RunsConcat(s, a + b + c + d, e);
    assert WholeFlush(f) == a + b + c + d + e;
  }

  // ---- the bound on changes is needed ----

  function Bursts(n: nat): seq<Step> {
    if n == 0 then [] else [Change(0, Put("k", []), false), Bump(0)] + Bursts(n - 1)
  }

  /** Adding one, `n` times, with wrap-around. */
  function Bumped(revision: u64, n: nat): u64
    decreases n
  {
    if n == 0 then revision else Bumped(if revision == U64_MAX then 0 else revision + 1, n - 1)
  }

  lemma {:induction false} BumpedWraps(revision: u64, n: nat)
    ensures Bumped(revision, n) == (revision + n) % (U64_MAX + 1)
    decreases n
  {
    if n > 0 { BumpedWraps(if revision == U64_MAX then 0 else revision + 1, n - 1); }
  }

  /** What `n` announced changes and no flush leave behind. */
  ghost predicate Burst(s: State, t: State, n: nat) {
    && t.writers == map[] && t.flushed == s.flushed && t.persisted == s.persisted
    && t.values == (if n > 0 then s.values["k" := []] else s.values) && |t.log| == |s.log| + n
    && t.revision == Bumped(s.revision, n)
    && t.flushes == s.flushes && t.guard == s.guard && t.persistedPos == s.persistedPos
    && (n > 0 || s.bump != map[] ==> t.bump != map[])
  }

  lemma BurstStep(s: State)
    requires s.writers == map[]
    ensures Enabled(s, Change(0, Put("k", []), false))
    ensures Enabled(Do(s, Change(0, Put("k", []), false)), Bump(0))
    ensures Burst(s, Do(Do(s, Change(0, Put("k", []), false)), Bump(0)), 1)
  {
    assert |s.log| in Do(Do(s, Change(0, Put("k", []), false)), Bump(0)).bump;
  }

  lemma BurstJoin(s: State, t: State, u: State, n: nat)
    requires Burst(s, t, 1) && Burst(t, u, n)
    ensures Burst(s, u, n + 1)
  {}

  lemma {:induction false} BurstRuns(s: State, n: nat)
    requires s.writers == map[]
    ensures Runs(s, Bursts(n)) && Burst(s, Reach(s, Bursts(n)), n)
    decreases n
  {
    hide Enabled, Do;
    if n > 0 {
      BurstStep(s);
      var mid := Do(s, Change(0, Put("k", []), false));
      var t := Do(mid, Bump(0));
      BurstRuns(t, n - 1);
      assert Bursts(n)[1..] == [Bump(0)] + Bursts(n - 1) && Bursts(n)[1..][1..] == Bursts(n - 1);
      BurstJoin(s, t, Reach(t, Bursts(n - 1)), n - 1);
    }
  }

  /** After 2^64 unflushed changes, or any multiple, the revision is back where it was and the storage looks clean. */
  lemma WrappedLooksClean(n: nat)
    requires n > 0 && n % (U64_MAX + 1) == 0
    ensures CleanReport(map[], Bursts(n), [], n)
    ensures var s := First(map[], Bursts(n));
            |s.log| == n && s.writers == map[] && s.persisted != s.values && !Durable(s, s)
  {
    hide Bursts, Runs;
    BurstRuns(Open(map[]), n);
    BumpedWraps(0, n);
    var s := First(map[], Bursts(n));
    assert "k" in s.values;
    var i :| i in s.bump;
    RunsNothing(s);
  }

  lemma RunsNothing(s: State)
    ensures Runs(s, []) && Reach(s, []) == s
  {}

  /** A flush called then returns Ok at once, and nothing is durable. */
  lemma WrappedFlushReturnsOk(n: nat)
    requires n > 0 && n % (U64_MAX + 1) == 0
    ensures var since := [FlushCall(0), FlushLock(0), FlushLoad(0), FlushTest(0)];
            && OkFlush(map[], Bursts(n), since, 0, n)
            && !Durable(First(map[], Bursts(n)), Second(map[], Bursts(n), since))
  {
    hide Bursts, Runs, Reach;
    BurstRuns(Open(map[]), n);
    BumpedWraps(0, n);
    var s := First(map[], Bursts(n));
    var i :| i in s.bump;
    CleanFlush(s);
  }

  /** A flush that finds nothing to do. */
  lemma CleanFlush(s: State)
    requires s.flushes == map[] && s.guard == None && s.revision == s.flushed
    ensures var since := [FlushCall(0), FlushLock(0), FlushLoad(0), FlushTest(0)];
            && Runs(s, since)
            && var t := Reach(s, since);
               0 in t.flushes && t.flushes[0].ReturnedOk? && t.log == s.log && t.persistedPos == s.persistedPos
  {
    var a := Do(s, FlushCall(0));
    var b := Do(a, FlushLock(0));
    var c := Do(b, FlushLoad(0));
    var d := Do(c, FlushTest(0));
    var since: seq<Step> := [FlushCall(0), FlushLock(0), FlushLoad(0), FlushTest(0)];
    assert since[1..] == [FlushLock(0), FlushLoad(0), FlushTest(0)] && since[1..][1..] == [FlushLoad(0), FlushTest(0)];
    assert since[1..][1..][1..] == [FlushTest(0)] && since[1..][1..][1..][1..] == [];
    RunsNothing(d);
    assert Runs(c, since[1..][1..][1..]) && Reach(c, since[1..][1..][1..]) == d;
    assert Runs(b, since[1..][1..]) && Reach(b, since[1..][1..]) == d;
    assert Runs(a, since[1..]) && Reach(a, since[1..]) == d;
  }

  /** Both promises hold of every run with at most `n` changes exactly when the revision cannot wrap within them. */
  lemma PromisesHoldBelowWrap(n: nat)
    ensures (forall journal, before, since, f :: OkFlush(journal, before, since, f, n) ==>
               Durable(First(journal, before), Second(journal, before, since))) <==> n <= U64_MAX
    ensures (forall journal, before, between :: CleanReport(journal, before, between, n) ==>
               Durable(First(journal, before), Second(journal, before, between))) <==> n <= U64_MAX
  {
    hide Durable, Bursts, Runs, Reach;
    if n <= U64_MAX {
      forall journal, before, since, f | OkFlush(journal, before, since, f, n)
        ensures Durable(First(journal, before), Second(journal, before, since))
      {
        OkFlushIsDurable(journal, before, since, f);
      }
      forall journal, before, between | CleanReport(journal, before, between, n)
        ensures Durable(First(journal, before), Second(journal, before, between))
      {
        CleanReportIsDurable(journal, before, between);
      }
    } else {
      var wrap: nat := U64_MAX + 1;
      WrappedFlushReturnsOk(wrap);
      WrappedLooksClean(wrap);
      RunsNothing(First(map[], Bursts(wrap)));
      assert OkFlush(map[], Bursts(wrap), [FlushCall(0), FlushLock(0), FlushLoad(0), FlushTest(0)], 0, n);
      assert CleanReport(map[], Bursts(wrap), [], n);
    }
  }
}
