/** Freshness and replay protection for application envelopes. */
module AppSecurity {
  import opened Base
  import opened AppMessages
  import opened ReplayCache
  import opened Heartbeat

  datatype AppKey = AppKey(source: PeerId, timestampNs: u64, nonce: seq<byte>)

  datatype AppDecision = AcceptApp | RejectApp | IgnoreAppDuplicate

  datatype AppArrival = AppArrival(source: PeerId, message: AppMessage, now: u64)

  lemma HexLength(s: string)
    ensures HexDecode(s).Some? ==> |s| == 2 * |HexDecode(s).value|
  {
    if HexDecode(s).Some? { HexEncodeDecode(s, HexDecode(s).value); }
  }

  /** The length test comes first here; the outcome is that of the heartbeat's nonce decoding. */
  function DecodeAppNonce(nonceHex: string): (r: Option<seq<byte>>)
    ensures r == DecodeNonce(nonceHex)
  {
    HexLength(nonceHex);
    if |nonceHex| != NONCE_BYTES * 2 then None else HexDecode(nonceHex)
  }

  function ScreenApp(cfg: SecurityConfig, a: AppArrival): Option<AppKey> {
    match DecodeAppNonce(a.message.nonceHex)
    case None => None
    case Some(nonce) =>
      if forall i :: 0 <= i < |nonce| ==> nonce[i] == 0 then None
      else if !Fresh(AppWindow(cfg), a.message.timestampNs, a.now) then None
      else Some(AppKey(a.source, a.message.timestampNs, nonce))
  }

  ghost function DecideApp(cfg: SecurityConfig, h: seq<Accepted<AppKey>>, a: AppArrival): AppDecision {
    match ScreenApp(cfg, a)
    case None => RejectApp
    case Some(key) =>
      var w := AppWindow(cfg);
      if Remembered(h, w.capacity, w.ttl, key, a.now) then IgnoreAppDuplicate else AcceptApp
  }

  ghost function AfterApp(cfg: SecurityConfig, h: seq<Accepted<AppKey>>, a: AppArrival): seq<Accepted<AppKey>> {
    if DecideApp(cfg, h, a) == AcceptApp then h + [Accepted(ScreenApp(cfg, a).value, a.now)] else h
  }

  /** The envelope's nonce is the text of 32 bytes, in either letter case, that are not all zero. */
  ghost predicate NamesNonce(m: AppMessage, nonce: seq<byte>) {
    |nonce| == 32 && (exists i :: 0 <= i < |nonce| && nonce[i] != 0) && LowerHex(m.nonceHex) == HexEncode(nonce)
  }

  lemma ScreenedExactly(cfg: SecurityConfig, a: AppArrival, nonce: seq<byte>)
    requires NamesNonce(a.message, nonce)
    ensures ScreenApp(cfg, a) ==
              if Timely(cfg.appMaxAgeSecs, cfg.appMaxSkewSecs, a.message.timestampNs, a.now)
              then Some(AppKey(a.source, a.message.timestampNs, nonce)) else None
  {
    hide HexDecode, HexEncode, LowerHex, Fresh, Timely;
    HexDecodeLower(a.message.nonceHex, nonce);
    HexLength(a.message.nonceHex);
    TimelyIsFresh(cfg.appMaxAgeSecs, cfg.appMaxSkewSecs, cfg.appCacheCapacity, cfg.appCacheTtlSecs,
                  a.message.timestampNs, a.now);
  }

  lemma PassedNamesNonce(cfg: SecurityConfig, a: AppArrival)
    requires ScreenApp(cfg, a).Some?
    ensures NamesNonce(a.message, ScreenApp(cfg, a).value.nonce)
  {
    hide HexDecode, HexEncode, LowerHex, Fresh;
    HexEncodeDecode(a.message.nonceHex, DecodeAppNonce(a.message.nonceHex).value);
  }

  /** Exactly which envelopes get which answer, given all earlier acceptances. */
  lemma AppDecidedExactly(cfg: SecurityConfig, h: seq<Accepted<AppKey>>, a: AppArrival)
    ensures var stamp := a.message.timestampNs;
            && (DecideApp(cfg, h, a) == AcceptApp <==> exists nonce ::
                  && NamesNonce(a.message, nonce) && Timely(cfg.appMaxAgeSecs, cfg.appMaxSkewSecs, stamp, a.now)
                  && !Seen(h, cfg.appCacheCapacity, cfg.appCacheTtlSecs, AppKey(a.source, stamp, nonce), a.now))
            && (DecideApp(cfg, h, a) == IgnoreAppDuplicate <==> exists nonce ::
                  && NamesNonce(a.message, nonce) && Timely(cfg.appMaxAgeSecs, cfg.appMaxSkewSecs, stamp, a.now)
                  && Seen(h, cfg.appCacheCapacity, cfg.appCacheTtlSecs, AppKey(a.source, stamp, nonce), a.now))
    ensures forall nonce :: NamesNonce(a.message, nonce) && DecideApp(cfg, h, a) == AcceptApp ==>
              AfterApp(cfg, h, a) == h + [Accepted(AppKey(a.source, a.message.timestampNs, nonce), a.now)]
    ensures DecideApp(cfg, h, a) != AcceptApp ==> AfterApp(cfg, h, a) == h
  {
    hide NamesNonce, Timely, Seen, Remembered, ScreenApp;
    forall nonce | NamesNonce(a.message, nonce)
      ensures ScreenApp(cfg, a) ==
                if Timely(cfg.appMaxAgeSecs, cfg.appMaxSkewSecs, a.message.timestampNs, a.now)
                then Some(AppKey(a.source, a.message.timestampNs, nonce)) else None
    {
      ScreenedExactly(cfg, a, nonce);
    }
    if ScreenApp(cfg, a).Some? {
      var key := ScreenApp(cfg, a).value;
      PassedNamesNonce(cfg, a);
      SeenIsRemembered(h, cfg.appMaxAgeSecs, cfg.appMaxSkewSecs, cfg.appCacheCapacity, cfg.appCacheTtlSecs,
                       key, a.now);
    }
  }

  method ValidateAppMessageSecurity(a: AppArrival, cfg: SecurityConfig, cache: Cache<AppKey>)
    returns (decision: AppDecision)
    requires cache.Valid() && cache.clock <= a.now
    requires cache.capacity == AppWindow(cfg).capacity && cache.ttl == AppWindow(cfg).ttl
    modifies cache
    ensures cache.Valid() && cache.clock <= a.now
    ensures decision == DecideApp(cfg, old(cache.history), a)
    ensures cache.history == AfterApp(cfg, old(cache.history), a)
  {
    var nonce := DecodeAppNonce(a.message.nonceHex);
    if nonce.None? { return RejectApp; }
    if forall i :: 0 <= i < |nonce.value| ==> nonce.value[i] == 0 { return RejectApp; }
    if !Fresh(AppWindow(cfg), a.message.timestampNs, a.now) { return RejectApp; }
    var isNew := cache.CheckAndInsert(AppKey(a.source, a.message.timestampNs, nonce.value), a.now);
    return if isNew then AcceptApp else IgnoreAppDuplicate;
  }

  ghost predicate AppInOrder(run: seq<AppArrival>) {
    forall i, j :: 0 <= i < j < |run| ==> run[i].now <= run[j].now
  }

  ghost function AppHistory(cfg: SecurityConfig, run: seq<AppArrival>): seq<Accepted<AppKey>> {
    if run == [] then [] else AfterApp(cfg, AppHistory(cfg, run[..|run| - 1]), run[|run| - 1])
  }

  lemma {:induction false} AppSoundWhenCovered(cfg: SecurityConfig, run: seq<AppArrival>)
    requires Covers(AppWindow(cfg)) && AppInOrder(run)
    ensures var h := AppHistory(cfg, run);
            && Sound(AppWindow(cfg), (k: AppKey) => k.timestampNs, h)
            && (forall i :: 0 <= i < |h| ==> run != [] && h[i].at <= run[|run| - 1].now)
  {
    if run != [] {
      var front, last := run[..|run| - 1], run[|run| - 1];
      AppSoundWhenCovered(cfg, front);
      var h := AppHistory(cfg, front);
      if DecideApp(cfg, h, last) == AcceptApp {
        SoundExtend(AppWindow(cfg), (k: AppKey) => k.timestampNs, h, ScreenApp(cfg, last).value, last.now);
      }
    }
  }

  /** No application envelope is accepted again before `capacity` others were accepted in between. */
  lemma AppMessageNeverReplayed(cfg: SecurityConfig, run: seq<AppArrival>)
    requires Validate(cfg) && AppInOrder(run)
    ensures var h := AppHistory(cfg, run);
            && Sound(AppWindow(cfg), (k: AppKey) => k.timestampNs, h)
            && (forall i :: 0 <= i < |h| ==> run != [] && h[i].at <= run[|run| - 1].now)
            && (forall i, j :: 0 <= i < j < |h| && h[i].key == h[j].key ==> j - i - 1 >= cfg.appCacheCapacity)
  {
    ValidatedConfigCovers(cfg);
    AppSoundWhenCovered(cfg, run);
  }

  /** Equal keys are accepted only with at least the cache's capacity of other acceptances in between. */
  ghost predicate AppReplayFree(cfg: SecurityConfig, run: seq<AppArrival>) {
    var h := AppHistory(cfg, run);
    forall i, j :: 0 <= i < j < |h| && h[i].key == h[j].key ==> j - i - 1 >= AppWindow(cfg).capacity
  }

  /** An envelope that passes every check but freshness, and its key. */
  lemma SomeEnvelope(cfg: SecurityConfig, stamp: u64, source: PeerId) returns (m: AppMessage, key: AppKey)
    ensures key.timestampNs == stamp
    ensures forall now :: Fresh(AppWindow(cfg), stamp, now) ==> ScreenApp(cfg, AppArrival(source, m, now)) == Some(key)
  {
    hide HexEncode, HexDecode;
    var nonce: seq<byte> := seq(NONCE_BYTES, _ => 1);
    HexDecodeEncode(nonce);
    assert nonce[0] == 1;
    m := AppMessage(0, 0, "", "", None, stamp, HexEncode(nonce), []);
    key := AppKey(source, stamp, nonce);
  }

  /** A window that does not cover: one envelope arrives twice, the second time just past the time to live. */
  lemma UncoveredAppReplays(cfg: SecurityConfig, m: AppMessage, source: PeerId, key: AppKey)
    requires !Covers(AppWindow(cfg)) && key.timestampNs == AppWindow(cfg).skew
    requires forall now :: Fresh(AppWindow(cfg), key.timestampNs, now) ==>
                             ScreenApp(cfg, AppArrival(source, m, now)) == Some(key)
    ensures AppWindow(cfg).ttl < U64_MAX
    ensures var run := [AppArrival(source, m, 0), AppArrival(source, m, AppWindow(cfg).ttl + 1)];
            AppInOrder(run) && !AppReplayFree(cfg, run)
  {
    hide ScreenApp, Covers, Fresh;
    var w := AppWindow(cfg);
    UncoveredAcceptsTwice(w, key, key.timestampNs);
    var a, b := AppArrival(source, m, 0), AppArrival(source, m, w.ttl + 1);
    assert [a][..0] == [] && [a, b][..1] == [a];
    assert AppHistory(cfg, []) == [];
    assert AppHistory(cfg, [a]) == [Accepted(key, 0)];
    var h := AppHistory(cfg, [a, b]);
    assert h == [Accepted(key, 0), Accepted(key, w.ttl + 1)] && h[0].key == h[1].key;
  }

  /** Whatever the limits: all runs are free of replays if and only if the window covers. */
  lemma AppReplayFreeExact(cfg: SecurityConfig)
    ensures (forall run :: AppInOrder(run) ==> AppReplayFree(cfg, run)) <==> Covers(AppWindow(cfg))
  {
    hide AppHistory, Covers, ScreenApp, Fresh;
    if Covers(AppWindow(cfg)) {
      forall run | AppInOrder(run) ensures AppReplayFree(cfg, run) { AppSoundWhenCovered(cfg, run); }
    } else {
      var m, key := SomeEnvelope(cfg, AppWindow(cfg).skew, 0);
      UncoveredAppReplays(cfg, m, 0, key);
    }
  }
}
