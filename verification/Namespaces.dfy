/** Discovery namespace names: normalization of segments and the derived namespace string. */
module Namespaces {
  import opened Base
  import opened Texts
  import opened HashInputs

  const DISCOVERY_NAMESPACE_PREFIX: string := "p2p-net"
  const MAX_DISCOVERY_APP_ID_LEN: nat := 64
  const MAX_DISCOVERY_TAG_LEN: nat := 256

  // ---- segments ----

  predicate Kept(c: char) { 'a' <= c <= 'z' || '0' <= c <= '9' || c == '-' || c == '_' || c == '.' }

  function MapChar(c: char): (r: char)
    ensures Kept(r) && (Kept(c) ==> r == c)
    ensures 'A' <= c <= 'Z' ==> r as int - 'a' as int == c as int - 'A' as int
    ensures !Kept(c) && !('A' <= c <= 'Z') ==> r == '-'
  {
    if 'A' <= c <= 'Z' then ((c as int - 'A' as int) + 'a' as int) as char
    else if Kept(c) then c else '-'
  }

  function MapChars(s: string): string { seq(|s|, i requires 0 <= i < |s| => MapChar(s[i])) }

  predicate HasDouble(s: string) { exists i :: 0 <= i < |s| - 1 && s[i] == '-' && s[i + 1] == '-' }

  /** One left-to-right pass replacing each pair of dashes by one. */
  function ReplacePairs(s: string): string {
    if |s| < 2 then s
    else if s[0] == '-' && s[1] == '-' then "-" + ReplacePairs(s[2..])
    else [s[0]] + ReplacePairs(s[1..])
  }

  /** Every run of dashes becomes one dash. */
  function Collapse(s: string): string {
    if s == "" then "" else Put(s[0], Collapse(s[1..]))
  }

  function Put(c: char, rest: string): string {
    if c == '-' && rest != "" && rest[0] == '-' then rest else [c] + rest
  }

  lemma {:induction false} CollapseHead(s: string)
    ensures (Collapse(s) == "" <==> s == "") && (s != "" ==> Collapse(s)[0] == s[0])
  {
    if s != "" { CollapseHead(s[1..]); }
  }

  lemma {:induction false} CollapseReplace(s: string)
    ensures Collapse(ReplacePairs(s)) == Collapse(s)
  {
    if |s| >= 2 {
      if s[0] == '-' && s[1] == '-' {
        CollapseReplace(s[2..]);
        CollapseHead(s[1..]);
        assert ("-" + ReplacePairs(s[2..]))[1..] == ReplacePairs(s[2..]);
        assert s[1..][1..] == s[2..];
      } else {
        CollapseReplace(s[1..]);
        assert ([s[0]] + ReplacePairs(s[1..]))[1..] == ReplacePairs(s[1..]);
      }
    }
  }

  lemma {:induction false} ReplaceShrinks(s: string)
    ensures |ReplacePairs(s)| <= |s| && (HasDouble(s) ==> |ReplacePairs(s)| < |s|)
  {
    if |s| >= 2 {
      if s[0] == '-' && s[1] == '-' {
        ReplaceShrinks(s[2..]);
      } else {
        ReplaceShrinks(s[1..]);
        if HasDouble(s) {
          var i :| 0 <= i < |s| - 1 && s[i] == '-' && s[i + 1] == '-';
          assert s[1..][i - 1] == '-' && s[1..][i] == '-';
        }
      }
    }
  }

  lemma {:induction false} CollapseSingle(s: string)
    requires !HasDouble(s)
    ensures Collapse(s) == s
  {
    if s != "" {
      forall i | 0 <= i < |s[1..]| - 1 ensures !(s[1..][i] == '-' && s[1..][i + 1] == '-') {
        assert s[1..][i] == s[i + 1] && s[1..][i + 1] == s[i + 2];
      }
      CollapseSingle(s[1..]);
      assert |s| > 1 ==> !(s[0] == '-' && s[1] == '-');
      assert s == [s[0]] + s[1..];
    }
  }

  /** Replacing pairs until none is left ends, and is the one-pass collapse of dash runs. */
  method CollapseDashes(s: string) returns (out: string)
    ensures out == Collapse(s) && !HasDouble(out)
  {
    out := s;
    while HasDouble(out)
      invariant Collapse(out) == Collapse(s)
      decreases |out|
    {
      ReplaceShrinks(out);
      CollapseReplace(out);
      out := ReplacePairs(out);
    }
    CollapseSingle(out);
  }

  function TrimDashStart(s: string): string { if s != "" && s[0] == '-' then TrimDashStart(s[1..]) else s }
  function TrimDashEnd(s: string): string { if s != "" && s[|s| - 1] == '-' then TrimDashEnd(s[..|s| - 1]) else s }

  function Normalized(value: string): string { TrimDashEnd(TrimDashStart(Collapse(MapChars(Trim(value))))) }

  /** Normal forms: lower-case segments without leading, trailing or doubled dashes. */
  predicate Normal(s: string) {
    && s != "" && (forall i :: 0 <= i < |s| ==> Kept(s[i]))
    && !HasDouble(s) && s[0] != '-' && s[|s| - 1] != '-'
  }

  /** Some character survives as more than a dash. */
  predicate Significant(value: string) { exists i :: 0 <= i < |Trim(value)| && MapChar(Trim(value)[i]) != '-' }

  method NormalizeNamespaceSegment(value: string) returns (r: Option<string>)
    ensures r.Some? <==> Significant(value)
    ensures r.Some? ==> r.value == Normalized(value) && Normal(r.value)
  {
    hide Trim, Collapse, HasDouble, TrimDashStart, TrimDashEnd, MapChar;
    var trimmed := Trim(value);
    if trimmed == "" { return None; }
    var out := "";
    for i := 0 to |trimmed|
      invariant out == MapChars(trimmed[..i])
    {
      out := out + [MapChar(trimmed[i])];
      assert out == MapChars(trimmed[..i + 1]);
    }
    assert trimmed[..|trimmed|] == trimmed;
    NormalizedIs(value);
    out := CollapseDashes(out);
    out := TrimDashEnd(TrimDashStart(out));
    if out == "" { return None; }
    return Some(out);
  }

  lemma NormalizedIs(value: string)
    ensures Normalized(value) != "" <==> Significant(value)
    ensures Normalized(value) != "" ==> Normal(Normalized(value))
  {
    hide Trim, Collapse, HasDouble, TrimDashStart, TrimDashEnd, MapChar;
    var m := MapChars(Trim(value));
    var c := Collapse(m);
    var a := TrimDashStart(c);
    CollapseSound(m);
    TrimStartSound(c);
    TrimEndSound(a);
    assert forall x :: x in m ==> Kept(x);
    var n := TrimDashEnd(a);
    assert SameSignificant(m, n);
    assert n != "" ==> n[0] in n;
    assert Significant(value) <==> exists x :: x in m && x != '-' by {
      assert forall i :: 0 <= i < |m| ==> m[i] == MapChar(Trim(value)[i]);
      if Significant(value) {
        var i :| 0 <= i < |Trim(value)| && MapChar(Trim(value)[i]) != '-';
        assert m[i] in m;
      }
    }
  }

  ghost predicate SameSignificant(s: string, t: string) {
    && (forall x :: x in t ==> x in s)
    && (forall x :: x in s && x != '-' ==> x in t)
  }

  lemma {:induction false} CollapseSound(s: string)
    ensures SameSignificant(s, Collapse(s)) && !HasDouble(Collapse(s))
  {
    if s != "" {
      CollapseSound(s[1..]);
      CollapseHead(s[1..]);
      var rest := Collapse(s[1..]);
      assert s == [s[0]] + s[1..];
      PutSingle(s[0], rest);
    }
  }

  lemma PutSingle(c: char, rest: string)
    requires !HasDouble(rest)
    ensures !HasDouble(Put(c, rest))
    ensures forall x :: x in Put(c, rest) ==> x == c || x in rest
    ensures forall x :: x in rest || (x == c && x != '-') ==> x in Put(c, rest)
  {
    var p := [c] + rest;
    forall i | 0 < i < |p| - 1 ensures !(p[i] == '-' && p[i + 1] == '-') {
      assert p[i] == rest[i - 1] && p[i + 1] == rest[i];
    }
  }

  lemma {:induction false} TrimStartSound(s: string)
    requires !HasDouble(s)
    ensures SameSignificant(s, TrimDashStart(s)) && !HasDouble(TrimDashStart(s))
    ensures TrimDashStart(s) != "" ==> TrimDashStart(s)[0] != '-'
  {
    if s != "" && s[0] == '-' {
      var t := s[1..];
      forall i | 0 <= i < |t| - 1 ensures !(t[i] == '-' && t[i + 1] == '-') {
        assert t[i] == s[i + 1] && t[i + 1] == s[i + 2];
      }
      TrimStartSound(t);
      assert s == [s[0]] + t;
    }
  }

  lemma {:induction false} TrimEndSound(s: string)
    requires !HasDouble(s) && (s != "" ==> s[0] != '-')
    ensures SameSignificant(s, TrimDashEnd(s)) && !HasDouble(TrimDashEnd(s))
    ensures TrimDashEnd(s) != "" ==> TrimDashEnd(s)[0] != '-' && TrimDashEnd(s)[|TrimDashEnd(s)| - 1] != '-'
  {
    if s != "" && s[|s| - 1] == '-' {
      var t := s[..|s| - 1];
      forall i | 0 <= i < |t| - 1 ensures !(t[i] == '-' && t[i + 1] == '-') {
        assert t[i] == s[i] && t[i + 1] == s[i + 1];
      }
      TrimEndSound(t);
      assert s == t + [s[|s| - 1]];
    }
  }

  /** The maximal runs of characters other than dashes. */
  function Words(s: string): (words: seq<string>)
    ensures s != "" && s[0] != '-' ==> words != []
  {
    if s == "" then []
    else
      var rest := Words(s[1..]);
      if s[0] == '-' then rest
      else if |s| == 1 || s[1] == '-' then [[s[0]]] + rest
      else [[s[0]] + rest[0]] + rest[1..]
  }

  lemma WordsCons(c: char, s: string, t: string)
    requires Words(s) == Words(t) && (s == "" <==> t == "") && (s != "" ==> s[0] == t[0])
    ensures Words([c] + s) == Words([c] + t)
  {
    assert ([c] + s)[1..] == s && ([c] + t)[1..] == t;
  }

  lemma {:induction false} CollapseWords(s: string)
    ensures Words(Collapse(s)) == Words(s)
  {
    if s != "" {
      CollapseWords(s[1..]);
      CollapseHead(s[1..]);
      WordsCons(s[0], Collapse(s[1..]), s[1..]);
      assert s == [s[0]] + s[1..];
      var rest := Collapse(s[1..]);
      hide Collapse;
      assert ([s[0]] + rest)[1..] == rest;
    }
  }

  lemma {:induction false} DashEndWords(s: string)
    ensures Words(s + "-") == Words(s)
  {
    if s == "" {
      assert s + "-" == "-" && "-"[1..] == "";
    } else {
      DashEndWords(s[1..]);
      assert s + "-" == [s[0]] + (s[1..] + "-") && ([s[0]] + (s[1..] + "-"))[1..] == s[1..] + "-";
    }
  }

  lemma {:induction false} TrimStartWords(s: string)
    ensures Words(TrimDashStart(s)) == Words(s)
  {
    if s != "" && s[0] == '-' { TrimStartWords(s[1..]); }
  }

  lemma {:induction false} TrimEndWords(s: string)
    ensures Words(TrimDashEnd(s)) == Words(s)
  {
    if s != "" && s[|s| - 1] == '-' {
      TrimEndWords(s[..|s| - 1]);
      DashEndWords(s[..|s| - 1]);
      assert s == s[..|s| - 1] + "-";
    }
  }

  /** Normalization keeps every word of the mapped text, in order, and only single dashes between them. */
  lemma NormalizedWords(value: string)
    ensures Words(Normalized(value)) == Words(MapChars(Trim(value)))
  {
    hide Words, Collapse, TrimDashStart, TrimDashEnd, Trim, MapChars;
    var m := MapChars(Trim(value));
    CollapseWords(m);
    TrimStartWords(Collapse(m));
    TrimEndWords(TrimDashStart(Collapse(m)));
  }

  /** The normal forms are exactly what normalization leaves alone, so it is idempotent. */
  lemma NormalIsFixed(s: string)
    ensures Normal(s) <==> s != "" && Normalized(s) == s
  {
    NormalizedIs(s);
    if Normal(s) {
      assert Trim(s) == s;
      assert MapChars(s) == s;
      CollapseSingle(s);
    }
  }

  lemma NormalizedTwice(value: string)
    ensures Normalized(Normalized(value)) == Normalized(value)
  {
    NormalizedIs(value);
    NormalIsFixed(Normalized(value));
  }

  // ---- the derived namespace ----

  datatype Privacy = Hashed | ReadableUnsafe

  datatype DiscoveryNamespace = DiscoveryNamespace(
    networkId: u32, appId: string, namespace: string, tagFingerprintHex: string, privacy: Privacy)

  /** UTF-8 encoding and the hash function, as the code calls them. */
  datatype Libs = Libs(utf8: string -> Bytes, hashHex: Bytes -> string)

  predicate IsAscii(s: string) { forall i :: 0 <= i < |s| ==> s[i] < '\U{80}' }

  predicate SlashFree(s: string) { '/' !in s }

  ghost predicate Lawful(libs: Libs) {
    && (forall s :: IsAscii(s) ==> libs.utf8(s) == Ascii(s))
    && (forall s, t :: libs.utf8(s) == libs.utf8(t) ==> s == t)
    && (forall b {:trigger libs.hashHex(b)} :: |libs.hashHex(b)| == 64 && IsHex(libs.hashHex(b)))
  }

  predicate IsHex(s: string) { forall i :: 0 <= i < |s| ==> 'a' <= s[i] <= 'f' || '0' <= s[i] <= '9' }

  function Digit(d: nat): char
    requires d < 10
  {
    ('0' as int + d) as char
  }

  function Decimal(n: nat): string { if n < 10 then [Digit(n)] else Decimal(n / 10) + [Digit(n % 10)] }

  lemma {:induction false} DecimalDetermines(m: nat, n: nat)
    requires Decimal(m) == Decimal(n)
    ensures m == n
    decreases m + n
  {
    DecimalDigits(m);
    DecimalDigits(n);
    var s := Decimal(m);
    assert s[|s| - 1] == Digit(m % 10) == Digit(n % 10);
    if m >= 10 && n >= 10 {
      assert s[..|s| - 1] == Decimal(m / 10) && s[..|s| - 1] == Decimal(n / 10);
      DecimalDetermines(m / 10, n / 10);
    }
  }

  lemma {:induction false} DecimalDigits(n: nat)
    ensures Decimal(n) != "" && (|Decimal(n)| == 1 <==> n < 10) && SlashFree(Decimal(n))
  {
    if n >= 10 { DecimalDigits(n / 10); }
  }

  predicate LengthOk(libs: Libs, value: string, max: nat) { Trim(value) != "" && |libs.utf8(Trim(value))| <= max }

  function Path(network: u32, app: string, segment: string): string {
    DISCOVERY_NAMESPACE_PREFIX + ("/" + (Decimal(network) + ("/" + (app + ("/" + segment)))))
  }

  function Fingerprint(libs: Libs, network: u32, app: string, tag: string): string {
    libs.hashHex(TagInput(network, libs.utf8(app), libs.utf8(tag)))
  }

  /** What a derived namespace says about the arguments it was derived from. */
  ghost predicate Derived(libs: Libs, network: u32, appId: string, tag: string, privacy: Privacy,
      d: DiscoveryNamespace) {
    && d.networkId == network && d.privacy == privacy && d.appId == Normalized(appId) && Normal(d.appId)
    && d.tagFingerprintHex == Fingerprint(libs, network, d.appId, tag)
    && (privacy.ReadableUnsafe? ==> Normal(Normalized(tag)))
    && d.namespace == Path(network, d.appId, if privacy.Hashed? then d.tagFingerprintHex else Normalized(tag))
  }

  lemma NothingSignificant(value: string)
    requires Trim(value) == ""
    ensures !Significant(value)
  {}

  method BuildDiscoveryNamespace(libs: Libs, network: u32, appId: string, tag: string, privacy: Privacy,
      allowReadableTags: bool)
    returns (r: Option<DiscoveryNamespace>)
    ensures r.Some? <==>
              && Trim(tag) != "" && |libs.utf8(Trim(appId))| <= 64 && |libs.utf8(Trim(tag))| <= 256
              && (privacy.ReadableUnsafe? ==> allowReadableTags && Significant(tag))
              && Significant(appId)
    ensures r.Some? ==> Derived(libs, network, appId, tag, privacy, r.value)
  {
    hide Normalized, Normal, Significant, TagInput, Decimal;
    if Trim(appId) == "" { NothingSignificant(appId); }
    if !LengthOk(libs, appId, MAX_DISCOVERY_APP_ID_LEN) || !LengthOk(libs, tag, MAX_DISCOVERY_TAG_LEN) { return None; }
    if privacy.ReadableUnsafe? && !allowReadableTags { return None; }
    var app := NormalizeNamespaceSegment(appId);
    if app.None? { return None; }
    var fingerprint := Fingerprint(libs, network, app.value, tag);
    var segment := fingerprint;
    if privacy.ReadableUnsafe? {
      var readable := NormalizeNamespaceSegment(tag);
      if readable.None? { return None; }
      segment := readable.value;
    }
    return Some(DiscoveryNamespace(network, app.value, Path(network, app.value, segment), fingerprint, privacy));
  }

  lemma {:induction false} SplitAtSlash(x: string, y: string, r: string, t: string)
    requires SlashFree(x) && SlashFree(y) && x + ("/" + r) == y + ("/" + t)
    ensures x == y && r == t
  {
    var u, v := x + ("/" + r), y + ("/" + t);
    if x == "" || y == "" {
      assert u[0] == v[0];
      assert u[1..] == v[1..];
      assert x == "" ==> u[1..] == r;
      assert y == "" ==> v[1..] == t;
    } else {
      assert u[0] == v[0] && u[1..] == v[1..];
      assert u[1..] == x[1..] + ("/" + r) && v[1..] == y[1..] + ("/" + t);
      SplitAtSlash(x[1..], y[1..], r, t);
      assert x == [x[0]] + x[1..] && y == [y[0]] + y[1..];
    }
  }

  lemma PathDetermines(m: u32, a: string, s: string, n: u32, b: string, t: string)
    requires SlashFree(a) && SlashFree(b) && Path(m, a, s) == Path(n, b, t)
    ensures m == n && a == b && s == t
  {
    hide Decimal;
    var x, y := a + ("/" + s), b + ("/" + t);
    SamePrefix(DISCOVERY_NAMESPACE_PREFIX, "/" + (Decimal(m) + ("/" + x)), "/" + (Decimal(n) + ("/" + y)));
    SamePrefix("/", Decimal(m) + ("/" + x), Decimal(n) + ("/" + y));
    DecimalDigits(m);
    DecimalDigits(n);
    SplitAtSlash(Decimal(m), Decimal(n), x, y);
    DecimalDetermines(m, n);
    SplitAtSlash(a, b, s, t);
  }

  /**
   Two hashed namespaces are the same text only for the same network, the same normalized
   application and the same tag, unless the hash function itself collides.
   */
  lemma HashedNamespaceDetermines(libs: Libs, m: u32, a: string, s: string, d: DiscoveryNamespace,
                                  n: u32, b: string, t: string, e: DiscoveryNamespace)
    requires Lawful(libs)
    requires Derived(libs, m, a, s, Hashed, d) && Derived(libs, n, b, t, Hashed, e)
    requires d.namespace == e.namespace
    ensures m == n && d.appId == e.appId
    ensures var i, j := TagInput(m, libs.utf8(d.appId), libs.utf8(s)), TagInput(n, libs.utf8(e.appId), libs.utf8(t));
            s == t || (i != j && libs.hashHex(i) == libs.hashHex(j))
  {
    hide Normalized, TagInput, Decimal, Path;
    NormalIsPlain(d.appId);
    NormalIsPlain(e.appId);
    PathDetermines(m, d.appId, d.tagFingerprintHex, n, e.appId, e.tagFingerprintHex);
    var i, j := TagInput(m, libs.utf8(d.appId), libs.utf8(s)), TagInput(n, libs.utf8(e.appId), libs.utf8(t));
    if i == j { TagInputDetermines(m, libs.utf8(d.appId), libs.utf8(s), n, libs.utf8(e.appId), libs.utf8(t)); }
  }

  /** A normal segment has no separator and its bytes have no NUL. */
  lemma NormalIsPlain(s: string)
    requires Normal(s)
    ensures SlashFree(s) && IsAscii(s) && NulFree(Ascii(s))
  {}

  predicate Plain(s: string) { forall c :: c in s ==> '\0' < c < '\U{80}' }

  lemma PlainIsAscii(s: string)
    requires Plain(s)
    ensures IsAscii(s) && NulFree(Ascii(s))
  {
    assert forall i :: 0 <= i < |s| ==> s[i] in s;
  }

  lemma {:induction false} DecimalPlain(n: nat)
    ensures Plain(Decimal(n))
  {
    if n >= 10 { DecimalPlain(n / 10); }
  }

  lemma DerivedIsPlain(libs: Libs, network: u32, appId: string, tag: string, privacy: Privacy, d: DiscoveryNamespace)
    requires Lawful(libs) && Derived(libs, network, appId, tag, privacy, d)
    ensures Plain(d.namespace)
  {
    hide Decimal, Normalized, TagInput;
    DecimalPlain(network);
    assert Plain(d.tagFingerprintHex) by { assert IsHex(d.tagFingerprintHex); }
  }

  lemma DerivedLength(libs: Libs, network: u32, appId: string, tag: string, d: DiscoveryNamespace)
    requires Lawful(libs) && Derived(libs, network, appId, tag, Hashed, d)
    ensures |d.namespace| == 74 + |Decimal(network)| + |d.appId|
  {
    hide Decimal, Normalized, TagInput;
  }

  /** The rendezvous protocol's limit on a namespace, in bytes; its constructor makes no other demand. */
  const MAX_RENDEZVOUS_NAMESPACE: nat := 255

  predicate RendezvousAccepts(namespace: Bytes) { |namespace| <= MAX_RENDEZVOUS_NAMESPACE }

  /**
   Two namespaces derived from tags, in order, collide with one hand-written namespace: the two
   with a NUL between them. That one is accepted as a rendezvous namespace unless network and
   application ids are long.
   */
  lemma CustomNamespaceCollides(libs: Libs, n: u32, a: string, s: string, d: DiscoveryNamespace,
                                b: string, t: string, e: DiscoveryNamespace)
    requires Lawful(libs)
    requires Derived(libs, n, a, s, Hashed, d) && Derived(libs, n, b, t, Hashed, e)
    requires Less(libs.utf8(d.namespace), libs.utf8(e.namespace))
    ensures var x, y, custom := libs.utf8(d.namespace), libs.utf8(e.namespace),
        libs.utf8(d.namespace + "\0" + e.namespace);
            && IdentifyInput(n, [custom]) == IdentifyInput(n, [x, y])
            && AllNulFree([x, y]) && Ascending([x, y]) && Ascending([custom])
            && (RendezvousAccepts(custom) <==> 2 * |Decimal(n)| + |d.appId| + |e.appId| <= 106)
  {
    hide Derived, IdentifyInput, Less, Plain;
    DerivedIsPlain(libs, n, a, s, Hashed, d);
    DerivedIsPlain(libs, n, b, t, Hashed, e);
    PlainIsAscii(d.namespace);
    PlainIsAscii(e.namespace);
    DerivedLength(libs, n, a, s, d);
    DerivedLength(libs, n, b, t, e);
    var text := d.namespace + "\0" + e.namespace;
    assert IsAscii(text);
    assert Ascii(text) == Ascii(d.namespace) + [0] + Ascii(e.namespace);
    NulNamespaceCollides(n, Ascii(d.namespace), Ascii(e.namespace));
  }
}
