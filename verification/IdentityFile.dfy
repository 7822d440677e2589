/**
 The same race on file storage, where creating the key is two things: making the file, which
 only one starter can do, and then writing it, while others may read what is there so far.
 */
module IdentityFile {
  import opened Base
  import opened Texts
  import opened Identity

  /** A keypair's encoding cut short is not the encoding of any keypair. */
  ghost predicate RefusesPartial(libs: Libs) {
    forall k: Keypair, n: nat {:trigger libs.toProtobuf(k)[..n]} ::
      n < |libs.toProtobuf(k)| ==> libs.fromProtobuf(libs.toProtobuf(k)[..n]) == None
  }

  function FileText(libs: Libs, k: Keypair): string { HexEncode(libs.toProtobuf(k)) }

  datatype FilePc =
    | Looking
    | Making(key: Keypair)
    | Writing(key: Keypair, done: nat)        // made the file; `done` characters are in it
    | LookingAgain
    | Over(result: Result<Keypair, Error>)

  datatype File = File(store: Option<Raw>, starters: map<StarterId, FilePc>)

  datatype FileStep =
    | Arrive(id: StarterId)
    | Look(id: StarterId, generated: Keypair)
    | Make(id: StarterId)
    | Append(id: StarterId, upTo: nat)
    | Finish(id: StarterId)
    | LookAgain(id: StarterId)
    | GiveUp(id: StarterId)                   // a storage error before anything was written
    | BreakOff(id: StarterId, removed: bool)  // writing or syncing failed; the file is removed if that works

  predicate Can(libs: Libs, s: File, step: FileStep) {
    if step.Arrive? then step.id !in s.starters
    else
      && step.id in s.starters
      && var pc := s.starters[step.id];
         match step
         case Look(_, _) => pc.Looking?
         case Make(_) => pc.Making?
         case Append(_, upTo) => pc.Writing? && pc.done <= upTo <= |FileText(libs, pc.key)|
         case Finish(_) => pc.Writing? && pc.done == |FileText(libs, pc.key)|
         case LookAgain(_) => pc.LookingAgain?
         case GiveUp(_) => !pc.Over? && !pc.Writing?
         case BreakOff(_, _) => pc.Writing?
         case Arrive(_) => false
  }

  function Place(s: File, id: StarterId, pc: FilePc): File { s.(starters := s.starters[id := pc]) }

  function Act(libs: Libs, s: File, step: FileStep): File
    requires Can(libs, s, step)
  {
    match step
    case Arrive(id) => Place(s, id, Looking)
    case Look(id, generated) => Place(s, id, if s.store.Some? then Over(Decode(libs, s.store.value))
        else Making(generated))
    case Make(id) =>
      if s.store.Some? then Place(s, id, LookingAgain)
      else Place(s, id, Writing(s.starters[id].key, 0)).(store := Some(Text("")))
    case Append(id, upTo) =>
      var k := s.starters[id].key;
      Place(s, id, Writing(k, upTo)).(store := Some(Text(FileText(libs, k)[..upTo])))
    case Finish(id) => Place(s, id, Over(Ok(s.starters[id].key)))
    case LookAgain(id) =>
      Place(s, id, Over(if s.store.Some? then Decode(libs, s.store.value) else Err(WinnerUnavailable)))
    case GiveUp(id) => Place(s, id, Over(Err(Io)))
    case BreakOff(id, removed) => Place(s, id, Over(Err(Io))).(store := if removed then None else s.store)
  }

  /** The steps lead from `s` to `t`. */
  ghost predicate Leads(libs: Libs, s: File, steps: seq<FileStep>, t: File)
    decreases steps
  {
    if steps == [] then s == t else Can(libs, s, steps[0]) && Leads(libs, Act(libs, s, steps[0]), steps[1..], t)
  }

  /** No write breaks off and takes the file with it. */
  predicate Unbroken(steps: seq<FileStep>) {
    forall i :: 0 <= i < |steps| ==> !(steps[i].BreakOff? && steps[i].removed)
  }

  /** The step takes away a file that was written out already: syncing it failed. */
  predicate TakesWhole(libs: Libs, s: File, step: FileStep)
    requires Can(libs, s, step)
  {
    step.BreakOff? && step.removed && s.starters[step.id].done == |FileText(libs, s.starters[step.id].key)|
  }

  /** No step of the run takes away a file that was written out. */
  ghost predicate KeepsWhole(libs: Libs, s: File, steps: seq<FileStep>, t: File)
    requires Leads(libs, s, steps, t)
    decreases steps
  {
    steps == [] || (!TakesWhole(libs, s, steps[0]) && KeepsWhole(libs, Act(libs, s, steps[0]), steps[1..], t))
  }

  lemma {:induction false} HexPrefix(bs: seq<byte>, n: nat)
    requires n <= |bs|
    ensures |HexEncode(bs)| == 2 * |bs| && HexEncode(bs)[..2 * n] == HexEncode(bs[..n])
  {
    if bs != [] {
      HexPrefix(bs[1..], if n > 0 then n - 1 else 0);
      if n > 0 {
        assert bs[..n][0] == bs[0] && bs[..n][1..] == bs[1..][..n - 1];
      }
    }
  }

  lemma {:induction false} HexOdd(s: string)
    requires HexDecode(s).Some?
    ensures |s| % 2 == 0
  {
    if |s| > 1 { HexOdd(s[2..]); }
  }

  /** Reading a file that is not written out is an error, never another key. */
  lemma PartialIsRefused(libs: Libs, k: Keypair, n: nat)
    requires RefusesPartial(libs) && n < |FileText(libs, k)|
    ensures Decode(libs, Text(FileText(libs, k)[..n])) == Err(BadText)
  {
    var bytes := libs.toProtobuf(k);
    var part := FileText(libs, k)[..n];
    HexHasNoSpace(bytes);
    assert Trim(part) == part;
    HexPrefix(bytes, |bytes|);
    if HexDecode(part).Some? {
      HexOdd(part);
      HexPrefix(bytes, n / 2);
      assert part == HexEncode(bytes[..n / 2]);
      HexDecodeEncode(bytes[..n / 2]);
    }
  }

  /** One starter writes, the file is what it has written, and every success is the key of a file written out. */
  ghost predicate OneKey(libs: Libs, s: File) {
    && (forall id :: id in s.starters && s.starters[id].Writing? ==>
          var pc := s.starters[id];
          pc.done <= |FileText(libs, pc.key)| && s.store == Some(Text(FileText(libs, pc.key)[..pc.done])))
    && (forall i, j ::
          i in s.starters && j in s.starters && s.starters[i].Writing? && s.starters[j].Writing? ==> i == j)
    && (forall id :: id in s.starters && s.starters[id].Over? && s.starters[id].result.Ok? ==>
          s.store.Some? && Decode(libs, s.store.value) == s.starters[id].result)
  }

  lemma WrittenOutDecodes(libs: Libs, k: Keypair, n: nat)
    requires Lawful(libs) && RefusesPartial(libs) && n <= |FileText(libs, k)|
    ensures Decode(libs, Text(FileText(libs, k)[..n])) == if n == |FileText(libs, k)| then Ok(k) else Err(BadText)
  {
    hide Decode, RefusesPartial, HexEncode;
    if n == |FileText(libs, k)| {
      DecodeEncode(libs, k);
      assert FileText(libs, k)[..n] == FileText(libs, k);
    } else {
      PartialIsRefused(libs, k, n);
    }
  }

  lemma OneKeyStep(libs: Libs, s: File, step: FileStep)
    requires Lawful(libs) && RefusesPartial(libs) && OneKey(libs, s) && Can(libs, s, step) && !TakesWhole(libs, s, step)
    ensures OneKey(libs, Act(libs, s, step))
  {
    hide Decode, Lawful, RefusesPartial, FileText;
    if step.Make? { assert FileText(libs, s.starters[step.id].key)[..0] == ""; }
    if !step.Arrive? && s.starters[step.id].Writing? {
      WrittenOutDecodes(libs, s.starters[step.id].key, s.starters[step.id].done);
    }
  }

  lemma {:induction false} OneKeyRun(libs: Libs, s: File, steps: seq<FileStep>, t: File)
    requires Lawful(libs) && RefusesPartial(libs) && OneKey(libs, s)
    requires Leads(libs, s, steps, t) && KeepsWhole(libs, s, steps, t)
    ensures OneKey(libs, t)
    decreases steps
  {
    hide OneKey, Act, Can, TakesWhole;
    if steps != [] {
      OneKeyStep(libs, s, steps[0]);
      OneKeyRun(libs, Act(libs, s, steps[0]), steps[1..], t);
    }
  }

  ghost predicate SameKey(s: File) {
    forall a, b :: && a in s.starters && s.starters[a].Over? && s.starters[a].result.Ok?
                   && b in s.starters && s.starters[b].Over? && s.starters[b].result.Ok? ==>
      s.starters[a] == s.starters[b]
  }

  /** Unless a file written out is taken away, all starters that succeed return the same key. */
  lemma FileSuccessesAgree(libs: Libs, store: Option<Raw>, steps: seq<FileStep>, t: File)
    requires Lawful(libs) && RefusesPartial(libs)
    requires Leads(libs, File(store, map[]), steps, t) && KeepsWhole(libs, File(store, map[]), steps, t)
    ensures SameKey(t)
  {
    hide Leads, KeepsWhole, Decode;
    OneKeyRun(libs, File(store, map[]), steps, t);
  }

  /** A starter told that the file exists still finds it, and nobody has found it missing. */
  ghost predicate WinnerStays(s: File) {
    && (forall id :: id in s.starters && (s.starters[id].LookingAgain? || s.starters[id].Writing?) ==> s.store.Some?)
    && NobodyMissesWinner(s)
  }

  ghost predicate NobodyMissesWinner(s: File) {
    forall id :: id in s.starters && s.starters[id].Over? ==> s.starters[id].result != Err(WinnerUnavailable)
  }

  lemma {:induction false} WinnerStaysRun(libs: Libs, s: File, steps: seq<FileStep>, t: File)
    requires WinnerStays(s) && Leads(libs, s, steps, t) && Unbroken(steps)
    ensures WinnerStays(t)
    decreases steps
  {
    hide Decode, FileText;
    if steps != [] {
      var u := Act(libs, s, steps[0]);
      assert WinnerStays(u);
      WinnerStaysRun(libs, u, steps[1..], t);
    }
  }

  lemma Then(libs: Libs, s: File, step: FileStep, rest: seq<FileStep>, t: File)
    requires Can(libs, s, step) && Leads(libs, Act(libs, s, step), rest, t)
    ensures Leads(libs, s, [step] + rest, t)
  {
    assert ([step] + rest)[1..] == rest;
  }

  ghost predicate FirstMakes(libs: Libs, s: File, k1: Keypair, k2: Keypair) {
    s == File(Some(Text("")), map[0 := Writing(k1, 0), 1 := Making(k2)])
  }

  lemma FirstMakesRun(libs: Libs, k1: Keypair, k2: Keypair) returns (steps: seq<FileStep>, s: File)
    ensures Leads(libs, File(None, map[]), steps, s) && FirstMakes(libs, s, k1, k2)
    ensures Unbroken(steps)
  {
    hide Leads, FileText;
    var s0 := File(None, map[]);
    var s1 := Act(libs, s0, Arrive(0));
    var s2 := Act(libs, s1, Arrive(1));
    var s3 := Act(libs, s2, Look(0, k1));
    var s4 := Act(libs, s3, Look(1, k2));
    s := Act(libs, s4, Make(0));
    NoMore(libs, s);
    Then(libs, s4, Make(0), [], s);
    Then(libs, s3, Look(1, k2), [Make(0)] + [], s);
    Then(libs, s2, Look(0, k1), [Look(1, k2)] + ([Make(0)] + []), s);
    Then(libs, s1, Arrive(1), [Look(0, k1)] + ([Look(1, k2)] + ([Make(0)] + [])), s);
    Then(libs, s0, Arrive(0), [Arrive(1)] + ([Look(0, k1)] + ([Look(1, k2)] + ([Make(0)] + []))), s);
    steps := [Arrive(0)] + ([Arrive(1)] + ([Look(0, k1)] + ([Look(1, k2)] + ([Make(0)] + []))));
  }

  lemma NoMore(libs: Libs, s: File)
    ensures Leads(libs, s, [], s)
  {}

  lemma {:induction false} LeadsOn(libs: Libs, s: File, a: seq<FileStep>, t: File, b: seq<FileStep>, u: File)
    requires Leads(libs, s, a, t) && Leads(libs, t, b, u)
    ensures Leads(libs, s, a + b, u)
    decreases a
  {
    if a == [] {
      assert a + b == b;
    } else {
      LeadsOn(libs, Act(libs, s, a[0]), a[1..], t, b, u);
      assert (a + b)[1..] == a[1..] + b;
    }
  }

  /** But a starter that loses the race may look before the winner has written anything, and fail. */
  lemma LoserMayReadPartial(libs: Libs, k1: Keypair, k2: Keypair)
    requires RefusesPartial(libs) && libs.toProtobuf(k1) != []
    ensures exists steps, t ::
              && Leads(libs, File(None, map[]), steps, t) && Unbroken(steps)
              && t.starters == map[0 := Writing(k1, 0), 1 := Over(Err(BadText))]
  {
    hide Leads, Decode, RefusesPartial, HexEncode;
    var steps, s := FirstMakesRun(libs, k1, k2);
    var lost := Act(libs, s, Make(1));
    HexPrefix(libs.toProtobuf(k1), 0);
    PartialIsRefused(libs, k1, 0);
    assert FileText(libs, k1)[..0] == "";
    var t := Act(libs, lost, LookAgain(1));
    NoMore(libs, t);
    Then(libs, lost, LookAgain(1), [], t);
    Then(libs, s, Make(1), [LookAgain(1)] + [], t);
    LeadsOn(libs, File(None, map[]), steps, s, [Make(1)] + ([LookAgain(1)] + []), t);
    assert t.starters == map[0 := Writing(k1, 0), 1 := Over(Err(BadText))];
  }

  /** Alone, a starter that finds no file ends with the key it generated. */
  lemma AloneSucceeds(libs: Libs, s: File, id: StarterId, k: Keypair) returns (steps: seq<FileStep>, t: File)
    requires s.store == None && id !in s.starters
    ensures Leads(libs, s, steps, t) && t.starters == s.starters[id := Over(Ok(k))]
  {
    hide Leads, FileText;
    var full := |FileText(libs, k)|;
    var s1 := Act(libs, s, Arrive(id));
    var s2 := Act(libs, s1, Look(id, k));
    var s3 := Act(libs, s2, Make(id));
    var s4 := Act(libs, s3, Append(id, full));
    t := Act(libs, s4, Finish(id));
    NoMore(libs, t);
    Then(libs, s4, Finish(id), [], t);
    Then(libs, s3, Append(id, full), [Finish(id)] + [], t);
    Then(libs, s2, Make(id), [Append(id, full)] + ([Finish(id)] + []), t);
    Then(libs, s1, Look(id, k), [Make(id)] + ([Append(id, full)] + ([Finish(id)] + [])), t);
    Then(libs, s, Arrive(id), [Look(id, k)] + ([Make(id)] + ([Append(id, full)] + ([Finish(id)] + []))), t);
    steps := [Arrive(id)] + ([Look(id, k)] + ([Make(id)] + ([Append(id, full)] + ([Finish(id)] + []))));
  }

  /** The winner writes the file out, the loser reads it, and the winner's sync fails. */
  lemma ReadThenBroken(libs: Libs, s: File, k1: Keypair, k2: Keypair) returns (steps: seq<FileStep>, t: File)
    requires Lawful(libs) && RefusesPartial(libs) && FirstMakes(libs, s, k1, k2)
    ensures Leads(libs, s, steps, t) && t == File(None, map[0 := Over(Err(Io)), 1 := Over(Ok(k1))])
  {
    hide Leads, Decode, Lawful, RefusesPartial, FileText;
    var full := |FileText(libs, k1)|;
    WrittenOutDecodes(libs, k1, full);
    var s1 := Act(libs, s, Make(1));
    var s2 := Act(libs, s1, Append(0, full));
    var s3 := Act(libs, s2, LookAgain(1));
    t := Act(libs, s3, BreakOff(0, true));
    NoMore(libs, t);
    Then(libs, s3, BreakOff(0, true), [], t);
    Then(libs, s2, LookAgain(1), [BreakOff(0, true)] + [], t);
    Then(libs, s1, Append(0, full), [LookAgain(1)] + ([BreakOff(0, true)] + []), t);
    Then(libs, s, Make(1), [Append(0, full)] + ([LookAgain(1)] + ([BreakOff(0, true)] + [])), t);
    steps := [Make(1)] + ([Append(0, full)] + ([LookAgain(1)] + ([BreakOff(0, true)] + [])));
  }

  /** If syncing the file fails after the loser has read it, the next starter gets another key. */
  lemma BrokenWriteDiverges(libs: Libs, k1: Keypair, k2: Keypair, k3: Keypair)
    requires Lawful(libs) && RefusesPartial(libs)
    ensures exists steps, t ::
              && Leads(libs, File(None, map[]), steps, t)
              && t.starters == map[0 := Over(Err(Io)), 1 := Over(Ok(k1)), 2 := Over(Ok(k3))]
  {
    hide Leads, Lawful, RefusesPartial;
    var start := File(None, map[]);
    var a, s := FirstMakesRun(libs, k1, k2);
    var b, t := ReadThenBroken(libs, s, k1, k2);
    var c, u := AloneSucceeds(libs, t, 2, k3);
    LeadsOn(libs, start, a, s, b, t);
    LeadsOn(libs, start, a + b, t, c, u);
    assert u.starters == map[0 := Over(Err(Io)), 1 := Over(Ok(k1)), 2 := Over(Ok(k3))];
  }

  /** If the winner's write breaks off before anything is in the file, a loser finds it gone. */
  lemma WinnerMayVanish(libs: Libs, k1: Keypair, k2: Keypair)
    ensures exists steps, t ::
              && Leads(libs, File(None, map[]), steps, t)
              && t.starters == map[0 := Over(Err(Io)), 1 := Over(Err(WinnerUnavailable))]
  {
    hide Leads, FileText;
    var start := File(None, map[]);
    var a, s := FirstMakesRun(libs, k1, k2);
    var s1 := Act(libs, s, Make(1));
    var s2 := Act(libs, s1, BreakOff(0, true));
    var t := Act(libs, s2, LookAgain(1));
    NoMore(libs, t);
    Then(libs, s2, LookAgain(1), [], t);
    Then(libs, s1, BreakOff(0, true), [LookAgain(1)] + [], t);
    Then(libs, s, Make(1), [BreakOff(0, true)] + ([LookAgain(1)] + []), t);
    LeadsOn(libs, start, a, s, [Make(1)] + ([BreakOff(0, true)] + ([LookAgain(1)] + [])), t);
    assert t.starters == map[0 := Over(Err(Io)), 1 := Over(Err(WinnerUnavailable))];
  }

  /** A run from any stored content; a file written out is taken away only if `late`. */
  ghost predicate RunLate(libs: Libs, store: Option<Raw>, steps: seq<FileStep>, t: File, late: bool) {
    Leads(libs, File(store, map[]), steps, t) && (late || KeepsWhole(libs, File(store, map[]), steps, t))
  }

  /** A run from any stored content; writes break off and take the file away only if `breaks`. */
  ghost predicate RunBreaks(libs: Libs, store: Option<Raw>, steps: seq<FileStep>, t: File, breaks: bool) {
    Leads(libs, File(store, map[]), steps, t) && (breaks || Unbroken(steps))
  }

  /**
   The two promises and exactly what each needs. Successes agree in all runs if and only if no file
   written out is taken away; a loser always finds the winner's file if and only if none is.
   */
  lemma FilePromisesExact(libs: Libs, allowed: bool)
    requires Lawful(libs) && RefusesPartial(libs)
    ensures (forall store, steps, t :: RunLate(libs, store, steps, t, allowed) ==> SameKey(t)) <==> !allowed
    ensures (forall store, steps, t :: RunBreaks(libs, store, steps, t, allowed) ==> NobodyMissesWinner(t))
            <==> !allowed
  {
    hide Leads, KeepsWhole, Lawful, RefusesPartial;
    if allowed {
      BrokenWriteDiverges(libs, 0, 1, 2);
      var steps, t :| && Leads(libs, File(None, map[]), steps, t)
                      && t.starters == map[0 := Over(Err(Io)), 1 := Over(Ok(0)), 2 := Over(Ok(2))];
      assert RunLate(libs, None, steps, t, allowed) && t.starters[1] != t.starters[2];
      WinnerMayVanish(libs, 0, 1);
      var steps', t' :| && Leads(libs, File(None, map[]), steps', t')
                        && t'.starters == map[0 := Over(Err(Io)), 1 := Over(Err(WinnerUnavailable))];
      assert RunBreaks(libs, None, steps', t', allowed) && 1 in t'.starters;
    } else {
      forall store, steps, t | RunLate(libs, store, steps, t, allowed) ensures SameKey(t) {
        FileSuccessesAgree(libs, store, steps, t);
      }
      forall store, steps, t | RunBreaks(libs, store, steps, t, allowed) ensures NobodyMissesWinner(t) {
        WinnerStaysRun(libs, File(store, map[]), steps, t);
      }
    }
  }
}
