/**
 Reassembly. The reference keeps nothing but the open entries and finds every byte
 count by scanning them; the reassembler below carries running counters instead.
 */
module Reassembly {
  import opened Base
  import opened AppMessages
  import opened Fragmentation

  datatype Key = Key(author: PeerId, nonceHex: string, topic: string)

  type Chunks = seq<Option<seq<byte>>>

  datatype Entry = Entry(meta: Meta, chunks: Chunks, bytes: nat, created: nat)

  type Entries = map<Key, Entry>

  /** A push reads the clock to expire entries, and again when it opens one. */
  datatype Push = Push(author: PeerId, fragment: Fragment, now: nat, entered: nat)

  type Outcome = Result<Option<AppMessage>, AppError>

  function KeyOf(p: Push): Key { Key(p.author, p.fragment.meta.nonceHex, p.fragment.meta.topic) }

  // ---- chunks ----

  /** The chunks present, in index order. */
  function Assemble(chunks: Chunks): seq<byte> {
    if chunks == [] then []
    else
      var last := chunks[|chunks| - 1];
      Assemble(chunks[..|chunks| - 1]) + (if last.Some? then last.value else [])
  }

  predicate Complete(chunks: Chunks) { forall i :: 0 <= i < |chunks| ==> chunks[i].Some? }

  function Blank(total: nat): Chunks { seq(total, _ => None) }

  lemma {:induction false} AssembleBlank(total: nat)
    ensures Assemble(Blank(total)) == []
  {
    if total > 0 {
      AssembleBlank(total - 1);
      assert Blank(total)[..total - 1] == Blank(total - 1);
    }
  }

  lemma {:induction false} AssembleFill(chunks: Chunks, i: nat, c: seq<byte>)
    requires i < |chunks| && chunks[i] == None
    ensures |Assemble(chunks[i := Some(c)])| == |Assemble(chunks)| + |c|
  {
    var n := |chunks| - 1;
    var filled := chunks[i := Some(c)];
    if i < n {
      AssembleFill(chunks[..n], i, c);
      assert filled[..n] == chunks[..n][i := Some(c)];
    } else {
      assert filled[..n] == chunks[..n];
    }
  }

  ghost predicate LengthsFit(meta: Meta, chunks: Chunks) {
    && meta.total == DivCeil(meta.payloadLen) && |chunks| <= meta.total
    && forall i :: 0 <= i < |chunks| && chunks[i].Some? ==> |chunks[i].value| == ExpectedLen(meta, i)
  }

  /** Complete chunks of the expected lengths always add up to the announced payload length. */
  lemma {:induction false} CompleteLength(meta: Meta, chunks: Chunks)
    requires meta.total > 0 && LengthsFit(meta, chunks) && Complete(chunks)
    ensures |Assemble(chunks)| == if |chunks| == meta.total then meta.payloadLen else |chunks| * FRAGMENT_BYTES
  {
    if chunks != [] {
      CompleteLength(meta, chunks[..|chunks| - 1]);
    }
  }

  /** The chunks of a payload, put side by side, are the payload as far as they reach. */
  lemma {:induction false} AssembleChunks(payload: seq<byte>, chunks: Chunks)
    requires forall i :: 0 <= i < |chunks| ==> chunks[i] == Some(Chunk(payload, i))
    ensures Assemble(chunks) == payload[..Reach(|payload|, |chunks|)]
  {
    if chunks != [] {
      var n := |chunks| - 1;
      AssembleChunks(payload, chunks[..n]);
      assert chunks[n] == Some(Chunk(payload, n));
      var from, to := Reach(|payload|, n), Reach(|payload|, n + 1);
      assert payload[..from] + payload[from..to] == payload[..to];
    }
  }

  // ---- bytes held ----

  function Weight(k: Key, e: Entry, who: Option<PeerId>): nat {
    if who.None? || who.value == k.author then e.bytes else 0
  }

  /** Bytes in the open entries of one author, or of everyone. */
  ghost function Held(es: Entries, who: Option<PeerId>): nat
    decreases |es|
  {
    if es == map[] then 0
    else
      var k :| k in es;
      assert |es - {k}| < |es| by { assert es == (es - {k})[k := es[k]]; }
      Weight(k, es[k], who) + Held(es - {k}, who)
  }

  lemma {:induction false} HeldTake(es: Entries, k: Key, who: Option<PeerId>)
    requires k in es
    ensures Held(es, who) == Weight(k, es[k], who) + Held(es - {k}, who)
    decreases |es|
  {
    var c :| c in es && Held(es, who) == Weight(c, es[c], who) + Held(es - {c}, who);
    assert es == (es - {c})[c := es[c]];
    if c != k {
      HeldTake(es - {c}, k, who);
      assert es - {c} - {k} == es - {k} - {c};
      assert es - {k} == (es - {k} - {c})[c := es[c]];
      HeldTake(es - {k}, c, who);
    }
  }

  lemma HeldPut(es: Entries, k: Key, e: Entry, who: Option<PeerId>)
    ensures Held(es[k := e], who) == Weight(k, e, who) + Held(es - {k}, who)
  {
    HeldTake(es[k := e], k, who);
    assert es[k := e] - {k} == es - {k};
  }

  lemma {:induction false} HeldDrop(es: Entries, gone: set<Key>, who: Option<PeerId>)
    ensures Held(es - gone, who) <= Held(es, who)
    decreases gone
  {
    if gone == {} {
      assert es - gone == es;
    } else {
      var k :| k in gone;
      HeldDrop(es, gone - {k}, who);
      var rest := es - (gone - {k});
      assert es - gone == rest - {k};
      if k in rest { HeldTake(rest, k, who); } else { assert rest - {k} == rest; }
    }
  }

  // ---- the reference ----

  function Age(now: nat, created: nat): nat { if now < created then 0 else now - created }

  function Expired(es: Entries, now: nat): set<Key> {
    set k | k in es && Age(now, es[k].created) >= EXPIRY_NS
  }

  function Live(es: Entries, now: nat): Entries { es - Expired(es, now) }

  /** What every open entry satisfies: at least one chunk is there and at least one is missing. */
  ghost predicate EntryOk(libs: Libs, k: Key, e: Entry) {
    && e.meta.nonceHex == k.nonceHex && e.meta.topic == k.topic && e.meta.sourcePeerId == libs.peerText(k.author)
    && FRAGMENT_BYTES < e.meta.payloadLen <= MAX_APP_MESSAGE_BYTES
    && |e.chunks| == e.meta.total && LengthsFit(e.meta, e.chunks)
    && e.bytes == |Assemble(e.chunks)|
    && !Complete(e.chunks)
    && exists i :: 0 <= i < |e.chunks| && e.chunks[i].Some?
  }

  ghost predicate Inv(libs: Libs, es: Entries) {
    && (forall k :: k in es ==> EntryOk(libs, k, es[k]))
    && Held(es, None) <= MAX_BYTES_GLOBAL
    && forall p: PeerId :: Held(es, Some(p)) <= MAX_BYTES_PER_PEER
  }

  ghost predicate Fits(es: Entries, p: Push) {
    && Held(es, Some(p.author)) + |p.fragment.payload| <= MAX_BYTES_PER_PEER
    && Held(es, None) + |p.fragment.payload| <= MAX_BYTES_GLOBAL
  }

  function EntryFor(es: Entries, p: Push): Entry {
    if KeyOf(p) in es then es[KeyOf(p)] else Entry(p.fragment.meta, Blank(p.fragment.meta.total), 0, p.entered)
  }

  function Fill(e: Entry, f: Fragment): Entry
    requires f.index < |e.chunks|
  {
    e.(chunks := e.chunks[f.index := Some(f.payload)], bytes := e.bytes + |f.payload|)
  }

  function MessageOf(meta: Meta, payload: seq<byte>): AppMessage {
    AppMessage(meta.messageSchema, meta.networkId, meta.topic, meta.sourcePeerId, meta.targetPeerId,
               meta.timestampNs, meta.nonceHex, payload)
  }

  function Deliver(libs: Libs, meta: Meta, payload: seq<byte>): Outcome {
    if |payload| != meta.payloadLen || libs.hashHex(payload) != meta.payloadHashHex then Err(HashMismatch)
    else match ValidateAppMessage(libs.parsePeer, MessageOf(meta, payload))
      case Some(e) => Err(e)
      case None => Ok(Some(MessageOf(meta, payload)))
  }

  predicate Checked(libs: Libs, p: Push) { ValidateFragment(libs, p.fragment) == None }

  /** Store a chunk of a matching entry; the last one missing closes the entry and hands the message on. */
  function AddSpec(libs: Libs, es: Entries, p: Push): (Entries, Outcome)
    requires p.fragment.index < |EntryFor(es, p).chunks|
  {
    var e := EntryFor(es, p);
    if e.chunks[p.fragment.index].Some? then (es, Ok(None))
    else
      var filled := Fill(e, p.fragment);
      if Complete(filled.chunks) then (es - {KeyOf(p)}, Deliver(libs, filled.meta, Assemble(filled.chunks)))
      else (es[KeyOf(p) := filled], Ok(None))
  }

  /** One push, once expired entries are gone. */
  ghost function Admit(libs: Libs, es: Entries, p: Push): (Entries, Outcome)
    requires Checked(libs, p) && Inv(libs, es)
  {
    if p.fragment.meta.sourcePeerId != libs.peerText(p.author) then (es, Err(WrongAuthor))
    else if !Fits(es, p) then (es, Err(CeilingExceeded))
    else if EntryFor(es, p).meta != p.fragment.meta then (es, Err(MetadataMismatch))
    else AddSpec(libs, es, p)
  }

  lemma DropKeepsInv(libs: Libs, es: Entries, gone: set<Key>)
    requires Inv(libs, es)
    ensures Inv(libs, es - gone)
  {
    HeldDrop(es, gone, None);
    forall p: PeerId ensures Held(es - gone, Some(p)) <= MAX_BYTES_PER_PEER {
      HeldDrop(es, gone, Some(p));
    }
  }

  ghost function PushSpec(libs: Libs, es: Entries, p: Push): (Entries, Outcome)
    requires Checked(libs, p) && Inv(libs, es)
  {
    DropKeepsInv(libs, es, Expired(es, p.now));
    Admit(libs, Live(es, p.now), p)
  }

  /** A fresh or open entry that takes a new chunk. */
  lemma FillEntry(libs: Libs, es: Entries, p: Push)
    requires Checked(libs, p) && Inv(libs, es)
    requires p.fragment.meta.sourcePeerId == libs.peerText(p.author)
    requires EntryFor(es, p).meta == p.fragment.meta && EntryFor(es, p).chunks[p.fragment.index] == None
    ensures var filled := Fill(EntryFor(es, p), p.fragment);
            && LengthsFit(filled.meta, filled.chunks) && filled.bytes == |Assemble(filled.chunks)|
            && (Complete(filled.chunks) || EntryOk(libs, KeyOf(p), filled))
  {
    var e, f := EntryFor(es, p), p.fragment;
    AssembleBlank(f.meta.total);
    AssembleFill(e.chunks, f.index, f.payload);
    assert Fill(e, f).chunks[f.index].Some?;
  }

  /** Adding the chunk adds its bytes to the author's and to the global total, and to no one else's. */
  lemma FillHeld(es: Entries, p: Push, who: Option<PeerId>)
    requires p.fragment.index < |EntryFor(es, p).chunks|
    ensures Held(es[KeyOf(p) := Fill(EntryFor(es, p), p.fragment)], who)
              == Held(es, who) + (if who.None? || who.value == p.author then |p.fragment.payload| else 0)
  {
    var k := KeyOf(p);
    HeldPut(es, k, Fill(EntryFor(es, p), p.fragment), who);
    if k in es { HeldTake(es, k, who); } else { assert es - {k} == es; }
  }

  lemma FillKeepsInv(libs: Libs, es: Entries, p: Push)
    requires Checked(libs, p) && Inv(libs, es) && Fits(es, p)
    requires EntryFor(es, p).meta == p.fragment.meta && EntryFor(es, p).chunks[p.fragment.index] == None
    requires EntryOk(libs, KeyOf(p), Fill(EntryFor(es, p), p.fragment))
    ensures Inv(libs, es[KeyOf(p) := Fill(EntryFor(es, p), p.fragment)])
  {
    var after := es[KeyOf(p) := Fill(EntryFor(es, p), p.fragment)];
    FillHeld(es, p, None);
    forall a: PeerId ensures Held(after, Some(a)) <= MAX_BYTES_PER_PEER {
      FillHeld(es, p, Some(a));
    }
  }

  /** Every push, of any checked fragment, keeps the invariant; nothing it holds ever exceeds a ceiling. */
  lemma PushKeepsInv(libs: Libs, es: Entries, p: Push)
    requires Checked(libs, p) && Inv(libs, es)
    ensures Inv(libs, PushSpec(libs, es, p).0)
  {
    DropKeepsInv(libs, es, Expired(es, p.now));
    var live, k, f := Live(es, p.now), KeyOf(p), p.fragment;
    var e := EntryFor(live, p);
    if f.meta.sourcePeerId == libs.peerText(p.author) && Fits(live, p) && e.meta == f.meta
        && e.chunks[f.index] == None {
      FillEntry(libs, live, p);
      if Complete(Fill(e, f).chunks) {
        DropKeepsInv(libs, live, {k});
      } else {
        FillKeepsInv(libs, live, p);
      }
    }
  }

  // ---- what a push does, by what is held ----

  /** The entries younger than thirty seconds. */
  function Young(es: Entries, now: nat): Entries {
    map k | k in es && now < es[k].created + 30_000_000_000 :: es[k]
  }

  lemma LiveIsYoung(es: Entries, now: nat)
    ensures Live(es, now) == Young(es, now)
  {}

  predicate Misattributed(libs: Libs, p: Push) { p.fragment.meta.sourcePeerId != libs.peerText(p.author) }

  /** Two mebibytes per author or eight in all would be exceeded. */
  ghost predicate OverCeiling(held: Entries, p: Push) {
    || Held(held, Some(p.author)) + |p.fragment.payload| > 2_097_152
    || Held(held, None) + |p.fragment.payload| > 8_388_608
  }

  predicate Clashes(held: Entries, p: Push) { KeyOf(p) in held && held[KeyOf(p)].meta != p.fragment.meta }

  /** Which pushes are refused, with which error, and that they change nothing. */
  lemma RefusedExactly(libs: Libs, es: Entries, p: Push)
    requires Checked(libs, p) && Inv(libs, es)
    ensures var (after, r) := PushSpec(libs, es, p); var held := Young(es, p.now);
            && (r == Err(WrongAuthor) <==> Misattributed(libs, p))
            && (r == Err(CeilingExceeded) <==> !Misattributed(libs, p) && OverCeiling(held, p))
            && (r == Err(MetadataMismatch) <==>
                  !Misattributed(libs, p) && !OverCeiling(held, p) && Clashes(held, p))
            && (Misattributed(libs, p) || OverCeiling(held, p) || Clashes(held, p) ==> after == held)
  {
    hide Held, EntryOk, Inv, Checked, Age, Assemble;
    DropKeepsInv(libs, es, Expired(es, p.now));
    LiveIsYoung(es, p.now);
    var held := Young(es, p.now);
    hide Live, Young;
    AdmitCases(libs, held, p);
  }

  lemma AdmitCases(libs: Libs, held: Entries, p: Push)
    requires Checked(libs, p) && Inv(libs, held)
    ensures var r := Admit(libs, held, p).1;
            && (r == Err(WrongAuthor) <==> Misattributed(libs, p))
            && (r == Err(CeilingExceeded) <==> !Misattributed(libs, p) && OverCeiling(held, p))
            && (r == Err(MetadataMismatch) <==>
                  !Misattributed(libs, p) && !OverCeiling(held, p) && Clashes(held, p))
    ensures Misattributed(libs, p) || OverCeiling(held, p) || Clashes(held, p) ==> Admit(libs, held, p).0 == held
  {
    if EntryFor(held, p).meta == p.fragment.meta { AddedOutcome(libs, held, p); }
    hide Held, Inv, Checked, AddSpec;
  }

  lemma AddedOutcome(libs: Libs, held: Entries, p: Push)
    requires Checked(libs, p) && Inv(libs, held) && EntryFor(held, p).meta == p.fragment.meta
    ensures p.fragment.index < |EntryFor(held, p).chunks|
    ensures var r := AddSpec(libs, held, p).1;
            r != Err(WrongAuthor) && r != Err(CeilingExceeded) && r != Err(MetadataMismatch)
  {
    hide Held, LengthsFit, Assemble, Fill, Complete, TopicAccepted;
  }

  function ChunkAt(es: Entries, k: Key, i: nat): Option<seq<byte>> {
    if k in es && i < |es[k].chunks| then es[k].chunks[i] else None
  }

  /** The chunks of the push's message once its own is among them. */
  function Gathered(held: Entries, p: Push): Chunks {
    seq(p.fragment.meta.total, i requires 0 <= i < p.fragment.meta.total =>
      if i == p.fragment.index && ChunkAt(held, KeyOf(p), i) == None then Some(p.fragment.payload)
      else ChunkAt(held, KeyOf(p), i))
  }

  ghost predicate Admissible(libs: Libs, held: Entries, p: Push) {
    !Misattributed(libs, p) && !OverCeiling(held, p) && !Clashes(held, p)
  }

  ghost predicate OthersKept(held: Entries, after: Entries, key: Key) {
    forall k :: k != key ==> (k in after <==> k in held) && (k in after ==> after[k] == held[k])
  }

  lemma AdmissibleAdds(libs: Libs, held: Entries, p: Push)
    requires Checked(libs, p) && Inv(libs, held) && Admissible(libs, held, p)
    ensures EntryFor(held, p).meta == p.fragment.meta && p.fragment.index < |EntryFor(held, p).chunks|
    ensures Admit(libs, held, p) == AddSpec(libs, held, p)
    ensures |EntryFor(held, p).chunks| == p.fragment.meta.total
    ensures Gathered(held, p) == if EntryFor(held, p).chunks[p.fragment.index].Some? then EntryFor(held, p).chunks
              else Fill(EntryFor(held, p), p.fragment).chunks
    ensures EntryFor(held, p).chunks[p.fragment.index].Some? ==> KeyOf(p) in held && !Complete(Gathered(held, p))
  {
    hide Held, LengthsFit, Assemble, AddSpec;
  }

  /**
   Any other push adds its chunk unless that is there already. The last one missing closes the
   entry and delivers the message if the hash is right; every other entry stays as it is.
   */
  lemma AddedExactly(libs: Libs, es: Entries, p: Push)
    requires Checked(libs, p) && Inv(libs, es) && Admissible(libs, Young(es, p.now), p)
    ensures var (after, r) := PushSpec(libs, es, p); var held, k := Young(es, p.now), KeyOf(p);
            var chunks := Gathered(held, p);
            && OthersKept(held, after, k)
            && (k in after <==> !Complete(chunks))
            && (k in after ==>
                  && r == Ok(None) && after[k].meta == p.fragment.meta && after[k].chunks == chunks
                  && after[k].created == if k in held then held[k].created else p.entered)
            && (k !in after ==>
                  r == if libs.hashHex(Assemble(chunks)) == p.fragment.meta.payloadHashHex
                       then Ok(Some(MessageOf(p.fragment.meta, Assemble(chunks)))) else Err(HashMismatch))
  {
    hide Held, EntryOk, Age, Assemble, Admissible, Inv, Checked, ValidateFragment, MessageOf;
    DropKeepsInv(libs, es, Expired(es, p.now));
    LiveIsYoung(es, p.now);
    var held := Young(es, p.now);
    hide Live, Young, Gathered;
    AdmissibleAdds(libs, held, p);
    if Complete(Gathered(held, p)) { DeliveredIfHashed(libs, held, p); }
    hide Complete;
  }

  lemma DeliveredIfHashed(libs: Libs, held: Entries, p: Push)
    requires Checked(libs, p) && Inv(libs, held) && Admissible(libs, held, p) && Complete(Gathered(held, p))
    ensures var meta, bytes := p.fragment.meta, Assemble(Gathered(held, p));
            Deliver(libs, meta, bytes) ==
            if libs.hashHex(bytes) == meta.payloadHashHex then Ok(Some(MessageOf(meta, bytes))) else Err(HashMismatch)
  {
    AdmissibleAdds(libs, held, p);
    FillEntry(libs, held, p);
    CompleteLength(p.fragment.meta, Gathered(held, p));
    hide Assemble, Gathered, Inv, Complete, LengthsFit, Admissible;
  }
}
