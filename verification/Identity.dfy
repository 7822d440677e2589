/**
 Creating the node identity: any number of starters read the key, generate one if it
 is missing, try to create it and, when another won, read the winner's.
 */
module Identity {
  import opened Base
  import opened Texts

  /** A keypair, by its protobuf encoding and the parser the code calls on it. */
  type Keypair = nat

  datatype Libs = Libs(toProtobuf: Keypair -> seq<byte>, fromProtobuf: seq<byte> -> Option<Keypair>)

  ghost predicate Lawful(libs: Libs) {
    forall k: Keypair {:trigger libs.toProtobuf(k)} :: libs.fromProtobuf(libs.toProtobuf(k)) == Some(k)
  }

  /** What is stored under the identity's name. */
  datatype Raw = Text(text: string) | NotUtf8

  datatype Error = Io | BadText | WinnerUnavailable

  function Encode(libs: Libs, k: Keypair): Raw { Text(HexEncode(libs.toProtobuf(k))) }

  function Decode(libs: Libs, raw: Raw): (r: Result<Keypair, Error>)
    ensures r.Err? ==> r.error == BadText
  {
    match raw
    case NotUtf8 => Err(BadText)
    case Text(text) =>
      match HexDecode(Trim(text))
      case None => Err(BadText)
      case Some(bytes) => match libs.fromProtobuf(bytes) case Some(k) => Ok(k) case None => Err(BadText)
  }

  lemma {:induction false} HexHasNoSpace(bs: seq<byte>)
    ensures forall i :: 0 <= i < |HexEncode(bs)| ==> !IsWhitespace(HexEncode(bs)[i])
  {
    if bs != [] { HexHasNoSpace(bs[1..]); }
  }

  /** A stored key reads back as the key that was stored. */
  lemma DecodeEncode(libs: Libs, k: Keypair)
    requires Lawful(libs)
    ensures Decode(libs, Encode(libs, k)) == Ok(k)
  {
    var bytes := libs.toProtobuf(k);
    HexHasNoSpace(bytes);
    HexDecodeEncode(bytes);
    assert Trim(HexEncode(bytes)) == HexEncode(bytes);
  }

  /** White space around the stored text does not matter. */
  lemma DecodePadded(libs: Libs, a: string, k: Keypair, b: string)
    requires Lawful(libs) && Blank(a) && Blank(b)
    ensures Decode(libs, Text(a + HexEncode(libs.toProtobuf(k)) + b)) == Ok(k)
  {
    hide IsWhitespace, Trim, HexEncode, HexDecode;
    var bytes := libs.toProtobuf(k);
    HexHasNoSpace(bytes);
    HexDecodeEncode(bytes);
    TrimExactly(a, HexEncode(bytes), b);
  }

  // ---- starters as interleaved steps ----

  type StarterId = nat

  datatype Pc =
    | Reading
    | Creating(key: Keypair)
    | Checked(key: Keypair)          // only with a two-part create: saw nothing, about to write
    | Rereading
    | Done(result: Result<Keypair, Error>)

  datatype State = State(store: Option<Raw>, starters: map<StarterId, Pc>)

  datatype Step =
    | Begin(id: StarterId)
    | Read(id: StarterId, generated: Keypair)
    | Create(id: StarterId)                       // atomic create-if-absent
    | Reread(id: StarterId)
    | Fail(id: StarterId, wrote: bool)            // storage error; a failed create may still have stored the key
    | Check(id: StarterId)                        // the trait's default create: first look,
    | Write(id: StarterId)                        // then write

  predicate Enabled(s: State, step: Step) {
    match step
    case Begin(id) => id !in s.starters
    case Read(id, _) => id in s.starters && s.starters[id].Reading?
    case Create(id) => id in s.starters && s.starters[id].Creating?
    case Reread(id) => id in s.starters && s.starters[id].Rereading?
    case Fail(id, wrote) => id in s.starters && !s.starters[id].Done?
        && (wrote ==> s.starters[id].Creating? && s.store == None)
    case Check(id) => id in s.starters && s.starters[id].Creating?
    case Write(id) => id in s.starters && s.starters[id].Checked?
  }

  function At(s: State, id: StarterId, pc: Pc): State { s.(starters := s.starters[id := pc]) }

  function Do(libs: Libs, s: State, step: Step): State
    requires Enabled(s, step)
  {
    match step
    case Begin(id) => At(s, id, Reading)
    case Read(id, generated) =>
      At(s, id, if s.store.Some? then Done(Decode(libs, s.store.value)) else Creating(generated))
    case Create(id) =>
      if s.store.Some? then At(s, id, Rereading)
      else At(s, id, Done(Ok(s.starters[id].key))).(store := Some(Encode(libs, s.starters[id].key)))
    case Reread(id) =>
      At(s, id, Done(if s.store.Some? then Decode(libs, s.store.value) else Err(WinnerUnavailable)))
    case Fail(id, wrote) =>
      At(s, id, Done(Err(Io))).(store := if wrote then Some(Encode(libs, s.starters[id].key)) else s.store)
    case Check(id) => if s.store.Some? then At(s, id, Rereading) else At(s, id, Checked(s.starters[id].key))
    case Write(id) => At(s, id, Done(Ok(s.starters[id].key))).(store := Some(Encode(libs, s.starters[id].key)))
  }

  ghost predicate Runs(libs: Libs, s: State, steps: seq<Step>)
    decreases steps
  {
    steps == [] || (Enabled(s, steps[0]) && Runs(libs, Do(libs, s, steps[0]), steps[1..]))
  }

  ghost function Reach(libs: Libs, s: State, steps: seq<Step>): State
    requires Runs(libs, s, steps)
    decreases steps
  {
    if steps == [] then s else Reach(libs, Do(libs, s, steps[0]), steps[1..])
  }

  ghost predicate Atomic(steps: seq<Step>) {
    forall i :: 0 <= i < |steps| ==> !steps[i].Check? && !steps[i].Write?
  }

  /** Every success is the stored key, and whoever is to read the winner's key finds one. */
  ghost predicate Agreed(libs: Libs, s: State) {
    forall id :: id in s.starters ==>
      match s.starters[id]
      case Done(Ok(k)) => s.store.Some? && Decode(libs, s.store.value) == Ok(k)
      case Done(Err(e)) => e != WinnerUnavailable
      case Rereading => s.store.Some?
      case Checked(_) => false
      case _ => true
  }

  lemma StepAgrees(libs: Libs, s: State, step: Step)
    requires Lawful(libs) && Agreed(libs, s) && Enabled(s, step) && !step.Check? && !step.Write?
    ensures Agreed(libs, Do(libs, s, step)) && (s.store.Some? ==> Do(libs, s, step).store == s.store)
  {
    if step.Create? { DecodeEncode(libs, s.starters[step.id].key); }
    hide Decode, Encode, Lawful;
  }

  /**
   With an atomic create and no deletes: once a key is stored it is never replaced,
   every starter that succeeds returns it, and none finds the winning key missing.
   */
  lemma {:induction false} OneIdentity(libs: Libs, s: State, steps: seq<Step>)
    requires Lawful(libs) && Agreed(libs, s) && Runs(libs, s, steps) && Atomic(steps)
    ensures var t := Reach(libs, s, steps);
            Agreed(libs, t) && (s.store.Some? ==> t.store == s.store)
    decreases steps
  {
    if steps != [] {
      StepAgrees(libs, s, steps[0]);
      OneIdentity(libs, Do(libs, s, steps[0]), steps[1..]);
    }
  }

  /** In particular any two successes of any run, started on any store, are the same key. */
  lemma SuccessesAgree(libs: Libs, store: Option<Raw>, steps: seq<Step>, a: StarterId, b: StarterId)
    requires Lawful(libs) && Runs(libs, State(store, map[]), steps) && Atomic(steps)
    requires var t := Reach(libs, State(store, map[]), steps);
             && a in t.starters && t.starters[a].Done? && t.starters[a].result.Ok?
             && b in t.starters && t.starters[b].Done? && t.starters[b].result.Ok?
    ensures var t := Reach(libs, State(store, map[]), steps);
            && t.starters[a] == t.starters[b]
            && t.store.Some? && Decode(libs, t.store.value) == t.starters[a].result
            && (store.Some? ==> t.store == store)
  {
    OneIdentity(libs, State(store, map[]), steps);
  }

  /** Alone on an empty store a starter keeps the key it generated, and the next one gets that key. */
  lemma FirstKeepsItsKey(libs: Libs, a: StarterId, b: StarterId, k: Keypair, other: Keypair)
    requires Lawful(libs) && a != b
    ensures var steps := [Begin(a), Read(a, k)] + ([Create(a), Begin(b)] + [Read(b, other)]);
            && Runs(libs, State(None, map[]), steps) && Atomic(steps)
            && Reach(libs, State(None, map[]), steps) ==
               State(Some(Encode(libs, k)), map[a := Done(Ok(k)), b := Done(Ok(k))])
  {
    hide Runs, Reach, Encode, Decode;
    DecodeEncode(libs, k);
    var s0 := State(None, map[]);
    var s2 := Do(libs, Do(libs, s0, Begin(a)), Read(a, k));
    var s4 := Do(libs, Do(libs, s2, Create(a)), Begin(b));
    TwoMore(libs, s2, Create(a), Begin(b), [Read(b, other)]);
    TwoMore(libs, s0, Begin(a), Read(a, k), [Create(a), Begin(b)] + [Read(b, other)]);
    OneMore(libs, s4, Read(b, other));
    assert Do(libs, s4, Read(b, other)).starters == map[a := Done(Ok(k)), b := Done(Ok(k))];
  }

  lemma OneMore(libs: Libs, s: State, step: Step)
    requires Enabled(s, step)
    ensures Runs(libs, s, [step]) && Reach(libs, s, [step]) == Do(libs, s, step)
  {
    assert [step][1..] == [];
    Nothing(libs, Do(libs, s, step));
  }

  /** The default two-part create of the storage interface does not give this: two starters can keep different keys. */
  lemma TwoPartCreateDiverges(libs: Libs, k1: Keypair, k2: Keypair)
    requires k1 != k2
    ensures exists steps :: && Runs(libs, State(None, map[]), steps)
                            && Reach(libs, State(None, map[]), steps).starters
                               == map[0 := Done(Ok(k1)), 1 := Done(Ok(k2))]
  {
    hide Runs, Reach, Encode;
    var s0 := State(None, map[]);
    var s2 := Do(libs, Do(libs, s0, Begin(0)), Begin(1));
    var s4 := Do(libs, Do(libs, s2, Read(0, k1)), Read(1, k2));
    var s6 := Do(libs, Do(libs, s4, Check(0)), Check(1));
    var s8 := Do(libs, Do(libs, s6, Write(0)), Write(1));
    assert s8.starters == map[0 := Done(Ok(k1)), 1 := Done(Ok(k2))];
    var writes: seq<Step> := [Write(0), Write(1)] + [];
    var checks := [Check(0), Check(1)] + writes;
    var loads := [Read(0, k1), Read(1, k2)] + checks;
    TwoMore(libs, s6, Write(0), Write(1), []);
    TwoMore(libs, s4, Check(0), Check(1), writes);
    TwoMore(libs, s2, Read(0, k1), Read(1, k2), checks);
    TwoMore(libs, s0, Begin(0), Begin(1), loads);
    Nothing(libs, s8);
  }

  lemma Nothing(libs: Libs, s: State)
    ensures Runs(libs, s, []) && Reach(libs, s, []) == s
  {}

  lemma TwoMore(libs: Libs, s: State, a: Step, b: Step, rest: seq<Step>)
    requires Enabled(s, a) && Enabled(Do(libs, s, a), b)
    ensures var t := Do(libs, Do(libs, s, a), b);
            (Runs(libs, s, [a, b] + rest) <==> Runs(libs, t, rest))
            && (Runs(libs, t, rest) ==> Reach(libs, s, [a, b] + rest) == Reach(libs, t, rest))
  {
    hide Do, Enabled;
    var steps := [a, b] + rest;
    assert steps[1..] == [b] + rest && steps[1..][1..] == rest;
  }
}
