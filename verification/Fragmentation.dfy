/**
 Fragmentation of large application payloads and their reassembly from fragments
 arriving in any order, under per-author and global byte ceilings and an expiry.
 */
module Fragmentation {
  import opened Base
  import opened AppMessages

  const FRAGMENT_SCHEMA_VERSION: u16 := 1
  const FRAGMENT_BYTES: nat := 16 * 1024
  const MAX_FRAGMENTS: nat := 64
  const MAX_FRAGMENT_WIRE_BYTES: nat := 128 * 1024
  const MAX_MESSAGE_WIRE_BYTES: nat := 6 * MAX_APP_MESSAGE_BYTES
  const MAX_BYTES_PER_PEER: nat := 2 * MAX_APP_MESSAGE_BYTES
  const MAX_BYTES_GLOBAL: nat := 8 * MAX_APP_MESSAGE_BYTES
  const EXPIRY_NS: nat := 30 * NS_PER_SEC

  /** The fields all fragments of one message agree on. */
  datatype Meta = Meta(
    messageSchema: u16, networkId: u32, topic: string,
    sourcePeerId: string, targetPeerId: Option<string>,
    timestampNs: u64, nonceHex: string, payloadHashHex: string,
    payloadLen: nat, total: nat)

  datatype Fragment = Fragment(fragmentSchema: u16, meta: Meta, index: nat, payload: seq<byte>)

  /** The libraries the code calls: identity text, the payload hash and JSON. */
  datatype Libs = Libs(
    parsePeer: PeerParser,
    peerText: PeerId -> string,
    hashHex: seq<byte> -> string,
    fragmentJson: Fragment -> seq<byte>,
    parseFragment: seq<byte> -> Option<Fragment>,
    messageJson: AppMessage -> seq<byte>)

  predicate IsHashText(s: string) {
    |s| == 64 && forall i :: 0 <= i < |s| ==> HexValue(s[i]).Some?
  }

  ghost predicate Lawful(libs: Libs) {
    && (forall b {:trigger libs.hashHex(b)} :: IsHashText(libs.hashHex(b)))
    && (forall f {:trigger libs.fragmentJson(f)} :: libs.parseFragment(libs.fragmentJson(f)) == Some(f))
  }

  // ---- splitting ----

  function DivCeil(n: nat): nat { (n + FRAGMENT_BYTES - 1) / FRAGMENT_BYTES }

  /** How many bytes the first `count` chunks cover. */
  function Reach(len: nat, count: nat): (r: nat)
    ensures r <= len
  {
    if count * FRAGMENT_BYTES <= len then count * FRAGMENT_BYTES else len
  }

  lemma ReachAll(len: nat)
    ensures Reach(len, DivCeil(len)) == len
  {}

  /** The chunk of `payload` that travels under `index`. */
  function Chunk(payload: seq<byte>, index: nat): seq<byte> {
    payload[Reach(|payload|, index)..Reach(|payload|, index + 1)]
  }

  function MetaOf(libs: Libs, m: AppMessage): Meta {
    Meta(m.schemaVersion, m.networkId, m.topic, m.sourcePeerId, m.targetPeerId, m.timestampNs, m.nonceHex,
         libs.hashHex(m.payload), |m.payload|, DivCeil(|m.payload|))
  }

  function FragmentAt(libs: Libs, m: AppMessage, index: nat): Fragment
    requires index < DivCeil(|m.payload|)
  {
    Fragment(FRAGMENT_SCHEMA_VERSION, MetaOf(libs, m), index, Chunk(m.payload, index))
  }

  function FragmentWire(libs: Libs, m: AppMessage, index: nat): seq<byte>
    requires index < DivCeil(|m.payload|)
  {
    libs.fragmentJson(FragmentAt(libs, m, index))
  }

  function FragmentMessage(libs: Libs, m: AppMessage): Result<seq<seq<byte>>, AppError> {
    match ValidateAppMessage(libs.parsePeer, m)
    case Some(e) => Err(e)
    case None =>
      if |m.payload| <= FRAGMENT_BYTES then
        if |libs.messageJson(m)| > MAX_MESSAGE_WIRE_BYTES then Err(WireTooLong) else Ok([libs.messageJson(m)])
      else if DivCeil(|m.payload|) > MAX_FRAGMENTS then Err(BadIndexOrTotal)
      else
        if exists i :: 0 <= i < DivCeil(|m.payload|) && |FragmentWire(libs, m, i)| > MAX_FRAGMENT_WIRE_BYTES
            then Err(WireTooLong)
        else Ok(seq(DivCeil(|m.payload|), i requires 0 <= i < DivCeil(|m.payload|) => FragmentWire(libs, m, i)))
  }

  function ExpectedLen(meta: Meta, index: nat): nat
    requires index < meta.total && meta.total == DivCeil(meta.payloadLen)
  {
    if index + 1 == meta.total then meta.payloadLen - FRAGMENT_BYTES * (meta.total - 1) else FRAGMENT_BYTES
  }

  function ValidateFragment(libs: Libs, f: Fragment): Option<AppError> {
    var m := f.meta;
    if f.fragmentSchema != FRAGMENT_SCHEMA_VERSION || m.messageSchema != APP_MESSAGE_SCHEMA_VERSION
        then Some(UnsupportedSchema)
    else match CheckNames(libs.parsePeer, m.topic, m.sourcePeerId, m.targetPeerId)
      case Some(e) => Some(e)
      case None =>
        if m.payloadLen > MAX_APP_MESSAGE_BYTES || m.payloadLen <= FRAGMENT_BYTES then Some(BadFragmentedLength)
        else if m.total != DivCeil(m.payloadLen) || m.total == 0 || m.total > MAX_FRAGMENTS || f.index >= m.total
            then Some(BadIndexOrTotal)
        else if |f.payload| != ExpectedLen(m, f.index) then Some(BadFragmentLength)
        else if !IsHashText(m.payloadHashHex) then Some(BadHashText)
        else None
  }

  function DecodeFragment(libs: Libs, raw: seq<byte>): Result<Fragment, AppError> {
    if |raw| > MAX_FRAGMENT_WIRE_BYTES then Err(WireTooLong)
    else match libs.parseFragment(raw)
      case None => Err(Undecodable)
      case Some(f) => match ValidateFragment(libs, f) case Some(e) => Err(e) case None => Ok(f)
  }

  /** A message large enough to be split that passed its own checks. */
  predicate Splittable(libs: Libs, m: AppMessage) {
    ValidateAppMessage(libs.parsePeer, m) == None && |m.payload| > FRAGMENT_BYTES
  }

  lemma ChunkLength(payload: seq<byte>, index: nat)
    requires index < DivCeil(|payload|)
    ensures |Chunk(payload, index)| ==
              if index + 1 == DivCeil(|payload|) then |payload| - FRAGMENT_BYTES * (DivCeil(|payload|) - 1)
                  else FRAGMENT_BYTES
  {
    var n, from, to := DivCeil(|payload|), Reach(|payload|, index), Reach(|payload|, index + 1);
    assert FRAGMENT_BYTES * (n - 1) < |payload| <= FRAGMENT_BYTES * n;
    assert from == FRAGMENT_BYTES * index;
    assert to == if index + 1 == n then |payload| else FRAGMENT_BYTES * (index + 1);
    assert |payload[from..to]| == to - from;
  }

  /** Every fragment the sender makes passes the receiver's checks. */
  lemma FragmentsValidate(libs: Libs, m: AppMessage, index: nat)
    requires Lawful(libs) && Splittable(libs, m) && index < DivCeil(|m.payload|)
    ensures ValidateFragment(libs, FragmentAt(libs, m, index)) == None
  {
    ChunkLength(m.payload, index);
  }

  /** `f` is fragment number `f.index` of `m`, whatever hash it announces. */
  predicate IsFragmentOf(libs: Libs, f: Fragment, m: AppMessage) {
    && f.index < DivCeil(|m.payload|) && f.payload == Chunk(m.payload, f.index) && f.fragmentSchema == 1
    && f.meta == MetaOf(libs, m).(payloadHashHex := f.meta.payloadHashHex)
  }

  lemma ChunkRange(len: nat, index: nat)
    requires index < DivCeil(len)
    ensures Reach(len, index + 1) - Reach(len, index) ==
              (if index + 1 == DivCeil(len) then len - FRAGMENT_BYTES * (DivCeil(len) - 1) else FRAGMENT_BYTES)
  {
    assert FRAGMENT_BYTES * (DivCeil(len) - 1) < len <= FRAGMENT_BYTES * DivCeil(len);
    assert Reach(len, index) == FRAGMENT_BYTES * index;
  }

  /** Some payload of the announced length with the fragment's bytes in their place. */
  lemma SomePayload(f: Fragment) returns (payload: seq<byte>)
    requires f.meta.total == DivCeil(f.meta.payloadLen) && f.index < f.meta.total
    requires |f.payload| == ExpectedLen(f.meta, f.index)
    ensures |payload| == f.meta.payloadLen && Chunk(payload, f.index) == f.payload
  {
    var from, to := Reach(f.meta.payloadLen, f.index), Reach(f.meta.payloadLen, f.index + 1);
    ChunkRange(f.meta.payloadLen, f.index);
    hide Reach, DivCeil;
    payload := seq(from, _ => 0) + f.payload + seq(f.meta.payloadLen - to, _ => 0);
    assert payload[from..to] == f.payload;
  }

  lemma MessageBehind(libs: Libs, f: Fragment) returns (m: AppMessage)
    requires ValidateFragment(libs, f) == None
    ensures Splittable(libs, m) && IsFragmentOf(libs, f, m) && IsHashText(f.meta.payloadHashHex)
  {
    var payload := SomePayload(f);
    var t := f.meta;
    m := AppMessage(t.messageSchema, t.networkId, t.topic, t.sourcePeerId, t.targetPeerId, t.timestampNs, t.nonceHex,
                    payload);
  }

  /** The fragments that pass are exactly those of messages that pass, up to the hash they announce. */
  lemma AcceptedIffFragment(libs: Libs, f: Fragment)
    ensures ValidateFragment(libs, f) == None <==>
              IsHashText(f.meta.payloadHashHex) && exists m :: Splittable(libs, m) && IsFragmentOf(libs, f, m)
  {
    if ValidateFragment(libs, f) == None { var _ := MessageBehind(libs, f); }
    forall m | Splittable(libs, m) && IsFragmentOf(libs, f, m) && IsHashText(f.meta.payloadHashHex)
      ensures ValidateFragment(libs, f) == None
    {
      ChunkLength(m.payload, f.index);
    }
  }

  /** A message that need not be split goes out whole; one that fails its own checks does not go out. */
  lemma WholeOrNot(libs: Libs, m: AppMessage)
    requires !Splittable(libs, m)
    ensures var r, invalid := FragmentMessage(libs, m), ValidateAppMessage(libs.parsePeer, m);
            && (r.Ok? <==> invalid == None && |libs.messageJson(m)| <= MAX_MESSAGE_WIRE_BYTES)
            && (r.Ok? ==> r.value == [libs.messageJson(m)]) && (invalid.Some? ==> r == Err(invalid.value))
  {}

  /** Splitting succeeds unless some encoding is too long, and each wire decodes to its own fragment. */
  lemma WiresDecode(libs: Libs, m: AppMessage)
    requires Lawful(libs) && Splittable(libs, m)
    ensures var r := FragmentMessage(libs, m);
            && (r.Ok? <==> forall i :: 0 <= i < DivCeil(|m.payload|) ==>
                |FragmentWire(libs, m, i)| <= MAX_FRAGMENT_WIRE_BYTES)
            && (r.Ok? ==> |r.value| == DivCeil(|m.payload|)
                          && forall i :: 0 <= i < |r.value| ==>
                              DecodeFragment(libs, r.value[i]) == Ok(FragmentAt(libs, m, i)))
  {
    var r := FragmentMessage(libs, m);
    if r.Ok? {
      forall i | 0 <= i < |r.value|
        ensures DecodeFragment(libs, r.value[i]) == Ok(FragmentAt(libs, m, i))
      {
        assert r.value[i] == FragmentWire(libs, m, i);
        FragmentsValidate(libs, m, i);
      }
    }
  }
}
