/**
 Heartbeats: the binary frame, the acceptance checks, and replay protection over
 every sequence of received frames.
 */
module Heartbeat {
  import opened Base
  import opened ReplayCache

  const HEARTBEAT_SCHEMA_VERSION: u16 := 2
  const ENTROPY_BYTES: nat := 32
  const NONCE_BYTES: nat := 32
  const MAGIC: seq<byte> := [0x50, 0x32, 0x50, 0x48]
  const FIXED_WIRE_BYTES: nat := 80
  const MAX_CONFIGURED_WIRE_BYTES: nat := 1024 * 1024

  datatype Envelope = Envelope(schemaVersion: u16, peerId: string, timestampNs: u64, nonceHex: string,
      entropy: seq<byte>)

  /** The libraries the code calls: peer identity text and bytes, and the BLAKE3 hash. */
  datatype Libs = Libs(
    peerText: PeerId -> string,
    parsePeer: string -> Option<PeerId>,
    peerBytes: PeerId -> seq<byte>,
    peerFromBytes: seq<byte> -> Option<PeerId>,
    hash: seq<byte> -> seq<byte>)

  /** Printing then parsing, and either direction of the byte form, give the same identity back. */
  ghost predicate Lawful(libs: Libs) {
    && (forall p: PeerId {:trigger libs.peerText(p)} :: libs.parsePeer(libs.peerText(p)) == Some(p))
    && (forall p: PeerId {:trigger libs.peerBytes(p)} :: libs.peerFromBytes(libs.peerBytes(p)) == Some(p))
    && (forall b {:trigger libs.peerFromBytes(b)} ::
          libs.peerFromBytes(b).Some? ==> libs.peerBytes(libs.peerFromBytes(b).value) == b)
  }

  datatype CodecError = BadPeerText | PeerTooLong | BadNonce | BadEntropyLength
                      | Truncated | BadMagic | BadLength | BadPeerBytes

  function DecodeNonce(nonceHex: string): Option<seq<byte>> {
    match HexDecode(nonceHex)
    case Some(bs) => if |bs| == NONCE_BYTES then Some(bs) else None
    case None => None
  }

  // ---- the frame ----

  function Frame(schema: u16, peer: seq<byte>, stamp: u64, nonce: seq<byte>, entropy: seq<byte>): seq<byte> {
    MAGIC + ToBe(schema, 2) + ToBe(|peer|, 2) + peer + ToBe(stamp, 8) + nonce + entropy
  }

  function EncodeSpec(libs: Libs, env: Envelope): Result<seq<byte>, CodecError> {
    match libs.parsePeer(env.peerId)
    case None => Err(BadPeerText)
    case Some(p) =>
      if |libs.peerBytes(p)| > 0xFFFF then Err(PeerTooLong)
      else if DecodeNonce(env.nonceHex) == None then Err(BadNonce)
      else if |env.entropy| != ENTROPY_BYTES then Err(BadEntropyLength)
      else Ok(Frame(env.schemaVersion, libs.peerBytes(p), env.timestampNs, DecodeNonce(env.nonceHex).value,
          env.entropy))
  }

  /** The fields of a frame by position, when the length field agrees with the data's length. */
  function DecodeSpec(libs: Libs, data: seq<byte>): Result<Envelope, CodecError> {
    if |data| < FIXED_WIRE_BYTES then Err(Truncated)
    else if data[..4] != MAGIC then Err(BadMagic)
    else
      var n := FromBe(data[6..8]);
      if |data| != FIXED_WIRE_BYTES + n then Err(BadLength)
      else match libs.peerFromBytes(data[8..8 + n])
        case None => Err(BadPeerBytes)
        case Some(p) =>
          ToFromBe(data[4..6]); ToFromBe(data[8 + n..16 + n]); Widths();
          Ok(Envelope(FromBe(data[4..6]), libs.peerText(p), FromBe(data[8 + n..16 + n]),
                      HexEncode(data[16 + n..48 + n]), data[48 + n..]))
  }

  method EncodeHeartbeatWire(libs: Libs, env: Envelope) returns (r: Result<seq<byte>, CodecError>)
    ensures r == EncodeSpec(libs, env)
  {
    var peer := libs.parsePeer(env.peerId);
    if peer.None? { return Err(BadPeerText); }
    var peerBytes := libs.peerBytes(peer.value);
    if |peerBytes| > 0xFFFF { return Err(PeerTooLong); }
    var nonce := DecodeNonce(env.nonceHex);
    if nonce.None? { return Err(BadNonce); }
    if |env.entropy| != ENTROPY_BYTES { return Err(BadEntropyLength); }
    var wire := MAGIC;
    wire := wire + ToBe(env.schemaVersion, 2);
    wire := wire + ToBe(|peerBytes|, 2);
    wire := wire + peerBytes;
    wire := wire + ToBe(env.timestampNs, 8);
    wire := wire + nonce.value;
    wire := wire + env.entropy;
    return Ok(wire);
  }

  /** Read a big-endian integer of `width` bytes at the cursor and move past it. */
  method ReadUint(data: seq<byte>, cursor: nat, width: nat) returns (r: Result<nat, CodecError>, next: nat)
    ensures r.Ok? <==> cursor + width <= |data|
    ensures r.Ok? ==> next == cursor + width && r.value < Pow256(width)
                      && data[cursor..next] == ToBe(r.value, width)
    ensures r.Err? ==> r.error == Truncated && next == cursor
  {
    if cursor + width > |data| { return Err(Truncated), cursor; }
    next := cursor + width;
    ToFromBe(data[cursor..next]);
    r := Ok(FromBe(data[cursor..next]));
  }

  method DecodeHeartbeatWire(libs: Libs, data: seq<byte>) returns (r: Result<Envelope, CodecError>)
    ensures r == DecodeSpec(libs, data)
  {
    hide FromBe, ToBe, Pow256, HexEncode;
    if |data| < FIXED_WIRE_BYTES { return Err(Truncated); }
    if data[..|MAGIC|] != MAGIC { return Err(BadMagic); }
    Widths();
    var cursor := |MAGIC|;
    var schema, c1 := ReadUint(data, cursor, 2);
    cursor := c1;
    var peerLen, c2 := ReadUint(data, cursor, 2);
    cursor := c2;
    FromToBe(schema.value, 2);
    FromToBe(peerLen.value, 2);
    if |data| != FIXED_WIRE_BYTES + peerLen.value { return Err(BadLength); }
    var peerEnd := cursor + peerLen.value;
    var peer := libs.peerFromBytes(data[cursor..peerEnd]);
    if peer.None? { return Err(BadPeerBytes); }
    cursor := peerEnd;
    var stamp, c3 := ReadUint(data, cursor, 8);
    cursor := c3;
    FromToBe(stamp.value, 8);
    var nonce := data[cursor..cursor + NONCE_BYTES];
    cursor := cursor + NONCE_BYTES;
    var entropy := data[cursor..cursor + ENTROPY_BYTES];
    assert entropy == data[cursor..];
    return Ok(Envelope(schema.value, libs.peerText(peer.value), stamp.value, HexEncode(nonce), entropy));
  }

  /** Where each field of a frame lies. */
  lemma FrameLayout(schema: u16, peer: seq<byte>, stamp: u64, nonce: seq<byte>, entropy: seq<byte>)
    requires |peer| <= 0xFFFF && |nonce| == NONCE_BYTES && |entropy| == ENTROPY_BYTES
    ensures var d, n := Frame(schema, peer, stamp, nonce, entropy), |peer|;
            && |d| == FIXED_WIRE_BYTES + n && d[..4] == MAGIC
            && d[4..6] == ToBe(schema, 2) && d[6..8] == ToBe(n, 2) && d[8..8 + n] == peer
            && d[8 + n..16 + n] == ToBe(stamp, 8) && d[16 + n..48 + n] == nonce && d[48 + n..] == entropy
  {}

  /** Any data of the right length is the frame of its own fields. */
  lemma FrameOfFields(d: seq<byte>)
    requires |d| >= FIXED_WIRE_BYTES && d[..4] == MAGIC && |d| == FIXED_WIRE_BYTES + FromBe(d[6..8])
    ensures var n := FromBe(d[6..8]);
            && FromBe(d[4..6]) < 0x1_0000 && FromBe(d[8 + n..16 + n]) <= U64_MAX
            && d == Frame(FromBe(d[4..6]), d[8..8 + n], FromBe(d[8 + n..16 + n]), d[16 + n..48 + n], d[48 + n..])
  {
    var n := FromBe(d[6..8]);
    Widths();
    ToFromBe(d[4..6]);
    ToFromBe(d[6..8]);
    ToFromBe(d[8 + n..16 + n]);
    assert d == d[..4] + d[4..6] + d[6..8] + d[8..8 + n] + d[8 + n..16 + n] + d[16 + n..48 + n] + d[48 + n..];
  }

  /** The same envelope with its identity and nonce text in canonical form. */
  function Canonical(libs: Libs, env: Envelope): Envelope
    requires libs.parsePeer(env.peerId).Some?
  {
    env.(peerId := libs.peerText(libs.parsePeer(env.peerId).value), nonceHex := LowerHex(env.nonceHex))
  }

  lemma DecodeEncoded(libs: Libs, env: Envelope)
    requires Lawful(libs) && EncodeSpec(libs, env).Ok?
    ensures DecodeSpec(libs, EncodeSpec(libs, env).value) == Ok(Canonical(libs, env))
  {
    var peer := libs.peerBytes(libs.parsePeer(env.peerId).value);
    var nonce := DecodeNonce(env.nonceHex).value;
    FrameLayout(env.schemaVersion, peer, env.timestampNs, nonce, env.entropy);
    Widths();
    FromToBe(env.schemaVersion, 2);
    FromToBe(|peer|, 2);
    FromToBe(env.timestampNs, 8);
    HexEncodeDecode(env.nonceHex, nonce);
  }

  lemma EncodeDecoded(libs: Libs, data: seq<byte>)
    requires Lawful(libs) && DecodeSpec(libs, data).Ok?
    ensures EncodeSpec(libs, DecodeSpec(libs, data).value) == Ok(data)
  {
    hide FromBe, ToBe, HexEncode, HexDecode;
    var n := FromBe(data[6..8]);
    ToFromBe(data[6..8]);
    Widths();
    FrameOfFields(data);
    HexDecodeEncode(data[16 + n..48 + n]);
    assert libs.peerBytes(libs.peerFromBytes(data[8..8 + n]).value) == data[8..8 + n];
  }

  /** A byte string is accepted if and only if it is the encoding of some envelope. */
  lemma AcceptedIffEncoding(libs: Libs, data: seq<byte>)
    requires Lawful(libs)
    ensures DecodeSpec(libs, data).Ok? <==> exists env :: EncodeSpec(libs, env) == Ok(data)
  {
    if DecodeSpec(libs, data).Ok? { EncodeDecoded(libs, data); }
    forall env | EncodeSpec(libs, env) == Ok(data)
      ensures DecodeSpec(libs, data).Ok?
    {
      DecodeEncoded(libs, env);
    }
  }

  // ---- configuration ----

  datatype ReputationConfig = ReputationConfig(acceptReward: int, invalidPenalty: int, decayStep: int,
      decayIntervalSecs: u64)

  datatype SecurityConfig = SecurityConfig(
    maxWireBytes: nat,
    maxAgeSecs: u64, maxSkewSecs: u64, cacheCapacity: nat, cacheTtlSecs: u64,
    appMaxAgeSecs: u64, appMaxSkewSecs: u64, appCacheCapacity: nat, appCacheTtlSecs: u64,
    reputation: ReputationConfig)

  predicate ValidReputation(r: ReputationConfig) {
    r.acceptReward > 0 && r.invalidPenalty > 0 && r.decayStep > 0 && r.decayIntervalSecs != 0
  }

  /** One side's limits: a positive age, skew within it, a cache that holds something and outlives both. */
  predicate ValidLimits(ageSecs: u64, skewSecs: u64, capacity: nat, ttlSecs: u64) {
    ageSecs != 0 && skewSecs <= ageSecs && capacity != 0 && ttlSecs != 0 && SatAdd(ageSecs, skewSecs) <= ttlSecs
  }

  predicate Validate(cfg: SecurityConfig) {
    && 0 < cfg.maxWireBytes <= MAX_CONFIGURED_WIRE_BYTES
    && ValidLimits(cfg.maxAgeSecs, cfg.maxSkewSecs, cfg.cacheCapacity, cfg.cacheTtlSecs)
    && ValidLimits(cfg.appMaxAgeSecs, cfg.appMaxSkewSecs, cfg.appCacheCapacity, cfg.appCacheTtlSecs)
    && ValidReputation(cfg.reputation)
  }

  function WindowOf(ageSecs: u64, skewSecs: u64, capacity: nat, ttlSecs: u64): Window {
    Window(SatMul(ageSecs, NS_PER_SEC), SatMul(skewSecs, NS_PER_SEC), SatMul(ttlSecs, NS_PER_SEC),
           if capacity < 1 then 1 else capacity)
  }

  function HeartbeatWindow(cfg: SecurityConfig): Window {
    WindowOf(cfg.maxAgeSecs, cfg.maxSkewSecs, cfg.cacheCapacity, cfg.cacheTtlSecs)
  }

  function AppWindow(cfg: SecurityConfig): Window {
    WindowOf(cfg.appMaxAgeSecs, cfg.appMaxSkewSecs, cfg.appCacheCapacity, cfg.appCacheTtlSecs)
  }

  /**
   Exactly which limits are sound: those that pass the check in seconds, and those whose time to
   live saturates in nanoseconds. By UncoveredAcceptsTwice all others accept some copy twice.
   */
  lemma CoversInSeconds(ageSecs: u64, skewSecs: u64, capacity: nat, ttlSecs: u64)
    ensures Covers(WindowOf(ageSecs, skewSecs, capacity, ttlSecs)) <==>
              SatAdd(ageSecs, skewSecs) <= ttlSecs || ttlSecs * NS_PER_SEC >= U64_MAX
  {
    var sum := ageSecs + skewSecs;
    assert ageSecs * NS_PER_SEC + skewSecs * NS_PER_SEC == sum * NS_PER_SEC;
    if sum <= ttlSecs { assert sum * NS_PER_SEC <= ttlSecs * NS_PER_SEC; }
    if sum > ttlSecs { assert sum * NS_PER_SEC > ttlSecs * NS_PER_SEC; }
  }

  /** The check made in seconds still holds in nanoseconds when any product saturates. */
  lemma ValidatedConfigCovers(cfg: SecurityConfig)
    requires Validate(cfg)
    ensures Covers(HeartbeatWindow(cfg)) && HeartbeatWindow(cfg).capacity == cfg.cacheCapacity
    ensures Covers(AppWindow(cfg)) && AppWindow(cfg).capacity == cfg.appCacheCapacity
  {}

  // ---- acceptance ----

  datatype Key = Key(source: PeerId, schemaVersion: u16, timestampNs: u64, nonce: seq<byte>)

  datatype Decision = Accept | Reject | IgnoreDuplicate | RejectOversize

  /** Everything but the replay cache: the checks on one decoded envelope. */
  predicate Verify(libs: Libs, source: PeerId, env: Envelope, now: u64, cfg: SecurityConfig) {
    && env.schemaVersion == HEARTBEAT_SCHEMA_VERSION
    && env.peerId == libs.peerText(source)
    && |env.entropy| == ENTROPY_BYTES
    && !(forall i :: 0 <= i < |env.entropy| ==> env.entropy[i] == 0)
    && DecodeNonce(env.nonceHex).Some?
    && libs.hash(env.entropy) == DecodeNonce(env.nonceHex).value
    && Fresh(HeartbeatWindow(cfg), env.timestampNs, now)
  }

  function ReplayKey(source: PeerId, env: Envelope): Option<Key> {
    match DecodeNonce(env.nonceHex)
    case None => None
    case Some(nonce) => Some(Key(source, env.schemaVersion, env.timestampNs, nonce))
  }

  datatype Arrival = Arrival(source: PeerId, data: seq<byte>, now: u64)

  /** The key a received frame would be remembered under, or why it is turned away at once. */
  function Screen(libs: Libs, cfg: SecurityConfig, f: Arrival): (r: Result<Key, Decision>)
    ensures r.Err? ==> r.error != Accept
  {
    if |f.data| > cfg.maxWireBytes then Err(RejectOversize)
    else match DecodeSpec(libs, f.data)
      case Err(_) => Err(Reject)
      case Ok(env) =>
        if Verify(libs, f.source, env, f.now, cfg) then Ok(ReplayKey(f.source, env).value) else Err(Reject)
  }

  ghost function Decide(libs: Libs, cfg: SecurityConfig, h: seq<Accepted<Key>>, f: Arrival): Decision {
    match Screen(libs, cfg, f)
    case Err(d) => d
    case Ok(key) =>
      var w := HeartbeatWindow(cfg);
      if Remembered(h, w.capacity, w.ttl, key, f.now) then IgnoreDuplicate else Accept
  }

  ghost function After(libs: Libs, cfg: SecurityConfig, h: seq<Accepted<Key>>, f: Arrival): seq<Accepted<Key>> {
    if Decide(libs, cfg, h, f) == Accept then h + [Accepted(Screen(libs, cfg, f).value, f.now)] else h
  }

  // ---- what is accepted, in terms of the bytes ----

  /** The stamp lies within the configured skew and age of `now`, in exact arithmetic. */
  predicate Timely(ageSecs: u64, skewSecs: u64, stamp: u64, now: u64) {
    stamp <= now + skewSecs * 1_000_000_000 && now <= stamp + ageSecs * 1_000_000_000
  }

  /** One of the last `capacity` acceptances, and at least the last one, was of `key` and is not outlived. */
  ghost predicate Seen<K>(h: seq<Accepted<K>>, capacity: nat, ttlSecs: u64, key: K, now: u64) {
    exists i :: && 0 <= i < |h| && (|h| - capacity <= i || i == |h| - 1)
                && h[i].key == key && now <= h[i].at + ttlSecs * 1_000_000_000
  }

  /** The bytes are the frame of `source`'s own heartbeat: its entropy is not blank and its nonce hashes it. */
  ghost predicate Genuine(libs: Libs, f: Arrival, stamp: u64, entropy: seq<byte>) {
    var peer, nonce := libs.peerBytes(f.source), libs.hash(entropy);
    && |peer| <= 0xFFFF && |nonce| == 32 && |entropy| == 32
    && (exists i :: 0 <= i < |entropy| && entropy[i] != 0)
    && f.data == Frame(2, peer, stamp, nonce, entropy)
  }

  /** What a genuine frame is remembered under. */
  function Mark(libs: Libs, source: PeerId, stamp: u64, entropy: seq<byte>): Key {
    Key(source, 2, stamp, libs.hash(entropy))
  }

  lemma TimelyIsFresh(ageSecs: u64, skewSecs: u64, capacity: nat, ttlSecs: u64, stamp: u64, now: u64)
    ensures Fresh(WindowOf(ageSecs, skewSecs, capacity, ttlSecs), stamp, now) <==>
              Timely(ageSecs, skewSecs, stamp, now)
  {}

  lemma SeenIsRemembered<K>(h: seq<Accepted<K>>, age: u64, skew: u64, capacity: nat, ttlSecs: u64, key: K, now: u64)
    ensures var w := WindowOf(age, skew, capacity, ttlSecs);
            Remembered(h, w.capacity, w.ttl, key, now) <==> Seen(h, capacity, ttlSecs, key, now)
  {
    var w := WindowOf(age, skew, capacity, ttlSecs);
    if Remembered(h, w.capacity, w.ttl, key, now) {
      var i :| 0 <= i < |h| && |h| - w.capacity <= i && h[i].key == key && SatSub(now, h[i].at) <= w.ttl;
      assert now <= h[i].at + ttlSecs * NS_PER_SEC;
    }
    if Seen(h, capacity, ttlSecs, key, now) {
      var i :| && 0 <= i < |h| && (|h| - capacity <= i || i == |h| - 1)
               && h[i].key == key && now <= h[i].at + ttlSecs * 1_000_000_000;
      assert |h| - w.capacity <= i && SatSub(now, h[i].at) <= w.ttl;
    }
  }

  lemma GenuineDecodes(libs: Libs, f: Arrival, stamp: u64, entropy: seq<byte>)
    requires Lawful(libs) && Genuine(libs, f, stamp, entropy)
    ensures DecodeSpec(libs, f.data) ==
              Ok(Envelope(2, libs.peerText(f.source), stamp, HexEncode(libs.hash(entropy)), entropy))
    ensures DecodeNonce(HexEncode(libs.hash(entropy))) == Some(libs.hash(entropy))
  {
    hide HexEncode, HexDecode, ToBe, FromBe, Frame;
    var peer, nonce := libs.peerBytes(f.source), libs.hash(entropy);
    FrameLayout(2, peer, stamp, nonce, entropy);
    Widths();
    FromToBe(2, 2);
    FromToBe(|peer|, 2);
    FromToBe(stamp, 8);
    HexDecodeEncode(nonce);
  }

  lemma GenuinePasses(libs: Libs, cfg: SecurityConfig, f: Arrival, stamp: u64, entropy: seq<byte>)
    requires Lawful(libs) && Genuine(libs, f, stamp, entropy) && |f.data| <= cfg.maxWireBytes
    ensures Screen(libs, cfg, f) ==
              if Timely(cfg.maxAgeSecs, cfg.maxSkewSecs, stamp, f.now) then Ok(Mark(libs, f.source, stamp, entropy))
              else Err(Reject)
  {
    hide Lawful, DecodeSpec, DecodeNonce, HexEncode, Frame, Fresh, Timely;
    GenuineDecodes(libs, f, stamp, entropy);
    TimelyIsFresh(cfg.maxAgeSecs, cfg.maxSkewSecs, cfg.cacheCapacity, cfg.cacheTtlSecs, stamp, f.now);
  }

  lemma PassedIsGenuine(libs: Libs, cfg: SecurityConfig, f: Arrival) returns (stamp: u64, entropy: seq<byte>)
    requires Lawful(libs) && Screen(libs, cfg, f).Ok?
    ensures Genuine(libs, f, stamp, entropy) && |f.data| <= cfg.maxWireBytes
  {
    hide HexEncode, HexDecode, ToBe, FromBe, Frame, Fresh;
    var n := FromBe(f.data[6..8]);
    ToFromBe(f.data[6..8]);
    Widths();
    FrameOfFields(f.data);
    HexDecodeEncode(f.data[16 + n..48 + n]);
    stamp, entropy := FromBe(f.data[8 + n..16 + n]), f.data[48 + n..];
    assert libs.parsePeer(libs.peerText(f.source)) == Some(f.source);
    assert libs.peerFromBytes(f.data[8..8 + n]) == Some(f.source);
  }

  /**
   Exactly which bytes get which answer, given all earlier acceptances. At most one stamp and
   entropy fit a frame, so the clauses exclude each other.
   */
  lemma DecidedExactly(libs: Libs, cfg: SecurityConfig, h: seq<Accepted<Key>>, f: Arrival)
    requires Lawful(libs)
    ensures Decide(libs, cfg, h, f) == RejectOversize <==> |f.data| > cfg.maxWireBytes
    ensures Decide(libs, cfg, h, f) == Accept <==>
              |f.data| <= cfg.maxWireBytes && exists stamp, entropy ::
                && Genuine(libs, f, stamp, entropy) && Timely(cfg.maxAgeSecs, cfg.maxSkewSecs, stamp, f.now)
                && !Seen(h, cfg.cacheCapacity, cfg.cacheTtlSecs, Mark(libs, f.source, stamp, entropy), f.now)
    ensures Decide(libs, cfg, h, f) == IgnoreDuplicate <==>
              |f.data| <= cfg.maxWireBytes && exists stamp, entropy ::
                && Genuine(libs, f, stamp, entropy) && Timely(cfg.maxAgeSecs, cfg.maxSkewSecs, stamp, f.now)
                && Seen(h, cfg.cacheCapacity, cfg.cacheTtlSecs, Mark(libs, f.source, stamp, entropy), f.now)
    ensures forall stamp, entropy ::
              Genuine(libs, f, stamp, entropy) && Decide(libs, cfg, h, f) == Accept ==>
                After(libs, cfg, h, f) == h + [Accepted(Mark(libs, f.source, stamp, entropy), f.now)]
    ensures Decide(libs, cfg, h, f) != Accept ==> After(libs, cfg, h, f) == h
  {
    hide Lawful, Genuine, Timely, Seen, Remembered, Mark;
    forall stamp, entropy | Genuine(libs, f, stamp, entropy) && |f.data| <= cfg.maxWireBytes
      ensures Screen(libs, cfg, f) ==
                if Timely(cfg.maxAgeSecs, cfg.maxSkewSecs, stamp, f.now) then Ok(Mark(libs, f.source, stamp, entropy))
                else Err(Reject)
    {
      GenuinePasses(libs, cfg, f, stamp, entropy);
    }
    ScreenSize(libs, cfg, f);
    hide Screen, DecodeSpec, Verify;
    if Screen(libs, cfg, f).Ok? {
      var stamp, entropy := PassedIsGenuine(libs, cfg, f);
      var key := Screen(libs, cfg, f).value;
      SeenIsRemembered(h, cfg.maxAgeSecs, cfg.maxSkewSecs, cfg.cacheCapacity, cfg.cacheTtlSecs, key, f.now);
    }
  }

  lemma ScreenSize(libs: Libs, cfg: SecurityConfig, f: Arrival)
    ensures Screen(libs, cfg, f) == Err(RejectOversize) <==> |f.data| > cfg.maxWireBytes
    ensures Screen(libs, cfg, f) != Err(IgnoreDuplicate)
  {}

  method ValidateHeartbeatWire(libs: Libs, f: Arrival, cfg: SecurityConfig, cache: Cache<Key>)
    returns (decision: Decision, envelope: Option<Envelope>)
    requires cache.Valid() && cache.clock <= f.now
    requires cache.capacity == HeartbeatWindow(cfg).capacity && cache.ttl == HeartbeatWindow(cfg).ttl
    modifies cache
    ensures cache.Valid() && cache.clock <= f.now
    ensures decision == Decide(libs, cfg, old(cache.history), f)
    ensures cache.history == After(libs, cfg, old(cache.history), f)
    ensures Lawful(libs) ==> (decision == Accept <==>
              |f.data| <= cfg.maxWireBytes && exists stamp, entropy ::
                && Genuine(libs, f, stamp, entropy) && Timely(cfg.maxAgeSecs, cfg.maxSkewSecs, stamp, f.now)
                && !Seen(old(cache.history), cfg.cacheCapacity, cfg.cacheTtlSecs,
                         Mark(libs, f.source, stamp, entropy), f.now))
    ensures decision == Accept ==> envelope.Some? && DecodeSpec(libs, f.data) == Ok(envelope.value)
  {
    if Lawful(libs) { DecidedExactly(libs, cfg, cache.history, f); }
    hide Lawful, Genuine, Timely, Seen, Mark;
    if |f.data| > cfg.maxWireBytes { return RejectOversize, None; }
    var decoded := DecodeHeartbeatWire(libs, f.data);
    if decoded.Err? { return Reject, None; }
    var env := decoded.value;
    if !Verify(libs, f.source, env, f.now, cfg) { return Reject, Some(env); }
    var isNew := cache.CheckAndInsert(ReplayKey(f.source, env).value, f.now);
    return if isNew then Accept else IgnoreDuplicate, Some(env);
  }

  // ---- whole runs ----

  ghost predicate InOrder(run: seq<Arrival>) {
    forall i, j :: 0 <= i < j < |run| ==> run[i].now <= run[j].now
  }

  /** The acceptances a run of received frames leaves behind, oldest first. */
  ghost function History(libs: Libs, cfg: SecurityConfig, run: seq<Arrival>): seq<Accepted<Key>> {
    if run == [] then [] else After(libs, cfg, History(libs, cfg, run[..|run| - 1]), run[|run| - 1])
  }

  lemma {:induction false} SoundWhenCovered(libs: Libs, cfg: SecurityConfig, run: seq<Arrival>)
    requires Covers(HeartbeatWindow(cfg)) && InOrder(run)
    ensures var h := History(libs, cfg, run);
            && Sound(HeartbeatWindow(cfg), (k: Key) => k.timestampNs, h)
            && (forall i :: 0 <= i < |h| ==> run != [] && h[i].at <= run[|run| - 1].now)
  {
    if run != [] {
      var front, last := run[..|run| - 1], run[|run| - 1];
      SoundWhenCovered(libs, cfg, front);
      var h := History(libs, cfg, front);
      if Decide(libs, cfg, h, last) == Accept {
        SoundExtend(HeartbeatWindow(cfg), (k: Key) => k.timestampNs, h, Screen(libs, cfg, last).value, last.now);
      }
    }
  }

  /**
   Whatever frames arrive, no heartbeat is accepted a second time until at least
   `capacity` others have been accepted in between.
   */
  lemma HeartbeatNeverReplayed(libs: Libs, cfg: SecurityConfig, run: seq<Arrival>)
    requires Validate(cfg) && InOrder(run)
    ensures var h := History(libs, cfg, run);
            && Sound(HeartbeatWindow(cfg), (k: Key) => k.timestampNs, h)
            && (forall i :: 0 <= i < |h| ==> run != [] && h[i].at <= run[|run| - 1].now)
            && (forall i, j :: 0 <= i < j < |h| && h[i].key == h[j].key ==> j - i - 1 >= cfg.cacheCapacity)
  {
    ValidatedConfigCovers(cfg);
    SoundWhenCovered(libs, cfg, run);
  }

  /** Equal keys are accepted only with at least the cache's capacity of other acceptances in between. */
  ghost predicate ReplayFree(libs: Libs, cfg: SecurityConfig, run: seq<Arrival>) {
    var h := History(libs, cfg, run);
    forall i, j :: 0 <= i < j < |h| && h[i].key == h[j].key ==> j - i - 1 >= HeartbeatWindow(cfg).capacity
  }

  /** A heartbeat of `p` that passes every check but freshness, and its key. */
  lemma SomeHeartbeat(libs: Libs, cfg: SecurityConfig, p: PeerId, stamp: u64) returns (data: seq<byte>, key: Key)
    requires Lawful(libs) && (forall b :: |libs.hash(b)| == NONCE_BYTES)
    requires |libs.peerBytes(p)| <= 0xFFFF && FIXED_WIRE_BYTES + |libs.peerBytes(p)| <= cfg.maxWireBytes
    ensures key.timestampNs == stamp
    ensures forall now :: Fresh(HeartbeatWindow(cfg), stamp, now) ==>
                            Screen(libs, cfg, Arrival(p, data, now)) == Ok(key)
  {
    hide Frame, HexEncode, HexDecode, ToBe, FromBe;
    var entropy: seq<byte> := seq(ENTROPY_BYTES, _ => 1);
    assert entropy[0] == 1;
    var nonce := libs.hash(entropy);
    HexDecodeEncode(nonce);
    var env := Envelope(HEARTBEAT_SCHEMA_VERSION, libs.peerText(p), stamp, HexEncode(nonce), entropy);
    FrameLayout(HEARTBEAT_SCHEMA_VERSION, libs.peerBytes(p), stamp, nonce, entropy);
    DecodeEncoded(libs, env);
    data, key := EncodeSpec(libs, env).value, Key(p, HEARTBEAT_SCHEMA_VERSION, stamp, nonce);
    CanonicalNonce(libs, env, nonce);
  }

  lemma CanonicalNonce(libs: Libs, env: Envelope, nonce: seq<byte>)
    requires env.nonceHex == HexEncode(nonce) && libs.parsePeer(env.peerId).Some?
    ensures Canonical(libs, env).nonceHex == env.nonceHex
  {
    hide HexDecode;
    HexDecodeEncode(nonce);
    HexEncodeDecode(HexEncode(nonce), nonce);
  }

  /** A window that does not cover: one heartbeat arrives twice, the second time just past the time to live. */
  lemma UncoveredReplays(libs: Libs, cfg: SecurityConfig, p: PeerId, data: seq<byte>, key: Key)
    requires !Covers(HeartbeatWindow(cfg)) && key.timestampNs == HeartbeatWindow(cfg).skew
    requires forall now :: Fresh(HeartbeatWindow(cfg), key.timestampNs, now) ==>
                             Screen(libs, cfg, Arrival(p, data, now)) == Ok(key)
    ensures HeartbeatWindow(cfg).ttl < U64_MAX
    ensures var run := [Arrival(p, data, 0), Arrival(p, data, HeartbeatWindow(cfg).ttl + 1)];
            InOrder(run) && !ReplayFree(libs, cfg, run)
  {
    hide Screen, Covers, Fresh;
    var w := HeartbeatWindow(cfg);
    UncoveredAcceptsTwice(w, key, key.timestampNs);
    var a, b := Arrival(p, data, 0), Arrival(p, data, w.ttl + 1);
    assert [a][..0] == [] && [a, b][..1] == [a];
    assert History(libs, cfg, []) == [];
    assert History(libs, cfg, [a]) == [Accepted(key, 0)];
    var h := History(libs, cfg, [a, b]);
    assert h == [Accepted(key, 0), Accepted(key, w.ttl + 1)] && h[0].key == h[1].key;
  }

  /**
   Whatever the limits, given one peer whose heartbeats fit the wire limit: all runs are free of
   replays if and only if the window covers.
   */
  lemma ReplayFreeExact(libs: Libs, cfg: SecurityConfig, p: PeerId)
    requires Lawful(libs) && (forall b :: |libs.hash(b)| == NONCE_BYTES)
    requires |libs.peerBytes(p)| <= 0xFFFF && FIXED_WIRE_BYTES + |libs.peerBytes(p)| <= cfg.maxWireBytes
    ensures (forall run :: InOrder(run) ==> ReplayFree(libs, cfg, run)) <==> Covers(HeartbeatWindow(cfg))
  {
    hide History, Covers, Screen, Lawful, Fresh;
    if Covers(HeartbeatWindow(cfg)) {
      forall run | InOrder(run) ensures ReplayFree(libs, cfg, run) { SoundWhenCovered(libs, cfg, run); }
    } else {
      var data, key := SomeHeartbeat(libs, cfg, p, HeartbeatWindow(cfg).skew);
      UncoveredReplays(libs, cfg, p, data, key);
    }
  }

  lemma {:induction false} HistoryGrows(libs: Libs, cfg: SecurityConfig, run: seq<Arrival>, k: nat)
    requires k <= |run|
    ensures History(libs, cfg, run[..k]) <= History(libs, cfg, run)
  {
    if k < |run| {
      HistoryGrows(libs, cfg, run[..|run| - 1], k);
      assert run[..|run| - 1][..k] == run[..k];
    } else {
      assert run[..k] == run;
    }
  }

  lemma SameKey(libs: Libs, cfg: SecurityConfig, a: Arrival, b: Arrival)
    requires a.source == b.source && a.data == b.data
    requires Screen(libs, cfg, a).Ok? && Screen(libs, cfg, b).Ok?
    ensures Screen(libs, cfg, a) == Screen(libs, cfg, b)
  {}

  lemma HistoryStep(libs: Libs, cfg: SecurityConfig, run: seq<Arrival>, k: nat)
    requires k < |run|
    ensures History(libs, cfg, run[..k + 1]) == After(libs, cfg, History(libs, cfg, run[..k]), run[k])
  {
    assert run[..k + 1][..k] == run[..k];
  }

  /** The same bytes from the same source: two acceptances have `capacity` other acceptances between them. */
  lemma SameFrameNotAcceptedAgain(libs: Libs, cfg: SecurityConfig, run: seq<Arrival>, i: nat, j: nat)
    requires Validate(cfg) && InOrder(run) && i < j < |run|
    requires run[i].source == run[j].source && run[i].data == run[j].data
    requires Decide(libs, cfg, History(libs, cfg, run[..i]), run[i]) == Accept
    requires Decide(libs, cfg, History(libs, cfg, run[..j]), run[j]) == Accept
    ensures |History(libs, cfg, run[..j])| - |History(libs, cfg, run[..i + 1])| >= cfg.cacheCapacity
  {
    hide Screen, Remembered, Sound;
    var before, between := History(libs, cfg, run[..i]), History(libs, cfg, run[..j]);
    var key := Screen(libs, cfg, run[i]).value;
    SameKey(libs, cfg, run[i], run[j]);
    HistoryStep(libs, cfg, run, i);
    HistoryStep(libs, cfg, run, j);
    assert before + [Accepted(key, run[i].now)] <= between by {
      assert run[..j][..i + 1] == run[..i + 1];
      HistoryGrows(libs, cfg, run[..j], i + 1);
    }
    var h := between + [Accepted(key, run[j].now)];
    assert h[|before|] == Accepted(key, run[i].now);
    HeartbeatNeverReplayed(libs, cfg, run[..j + 1]);
    assert h == History(libs, cfg, run[..j + 1]);
    assert h[|between|] == Accepted(key, run[j].now);
  }
}
