/** The byte strings fed to the hash function, and what each of them determines. */
module HashInputs {
  import opened Base

  type Bytes = seq<byte>

  /** The bytes of an ASCII literal. */
  function Ascii(s: string): Bytes
    requires forall i :: 0 <= i < |s| ==> s[i] < '\U{80}'
  {
    seq(|s|, i requires 0 <= i < |s| => s[i] as int)
  }

  const DISCOVERY_NAMESPACE_HASH_CONTEXT: string := "p2p-net.discovery.namespace.v1"
  const APPLICATION_COMPATIBILITY_CONTEXT: string := "p2p-net.application.compatibility.v1"
  const MESSAGE_ID_DOMAIN: string := "p2p-net/gossipsub-message-id/v2\0"

  ghost predicate NulFree(b: Bytes) { 0 !in b }

  lemma {:induction false} NotShorter(x: Bytes, y: Bytes, r: Bytes, t: Bytes)
    requires NulFree(y) && (r == [] || r[0] == 0) && x + r == y + t
    ensures |x| >= |y|
  {
    if x == [] {
      assert x + r == r;
    } else if y != [] {
      assert (x + r)[0] == (y + t)[0];
      assert x[1..] + r == (x + r)[1..] && y[1..] + t == (y + t)[1..];
      NotShorter(x[1..], y[1..], r, t);
    }
  }

  /** A NUL ends the first field: two readings of the same bytes agree on it. */
  lemma SplitAtNul(x: Bytes, y: Bytes, r: Bytes, t: Bytes)
    requires NulFree(x) && NulFree(y)
    requires (r == [] || r[0] == 0) && (t == [] || t[0] == 0)
    requires x + r == y + t
    ensures x == y && r == t
  {
    NotShorter(x, y, r, t);
    NotShorter(y, x, t, r);
    assert (x + r)[..|x|] == x && (y + t)[..|y|] == y;
    assert (x + r)[|x|..] == r && (y + t)[|y|..] == t;
  }

  /** A fixed-width field first: both fields are determined. */
  lemma FixedWidth(m: nat, n: nat, width: nat, x: Bytes, y: Bytes)
    requires m < Pow256(width) && n < Pow256(width)
    requires ToBe(m, width) + x == ToBe(n, width) + y
    ensures m == n && x == y
  {
    hide ToBe, Pow256;
    assert (ToBe(m, width) + x)[..width] == ToBe(m, width) && (ToBe(n, width) + y)[..width] == ToBe(n, width);
    FromToBe(m, width);
    FromToBe(n, width);
    SamePrefix(ToBe(m, width), x, y);
  }

  // ---- discovery tags ----

  function TagInput(network: u32, app: Bytes, tag: Bytes): Bytes {
    Ascii(DISCOVERY_NAMESPACE_HASH_CONTEXT) + (ToBe(network, 4) + ([0] + (app + ([0] + tag))))
  }

  /** Where each field lies. */
  lemma TagInputLayout(network: u32, app: Bytes, tag: Bytes)
    ensures var d, n := TagInput(network, app, tag), |app|;
            && |d| == 36 + n + |tag| && d[..30] == Ascii(DISCOVERY_NAMESPACE_HASH_CONTEXT)
            && d[30..34] == ToBe(network, 4) && d[34] == 0 && d[35..35 + n] == app && d[35 + n] == 0
            && d[36 + n..] == tag
  {
    hide ToBe;
  }

  /** With NUL-free application ids the input determines network, application and tag. */
  lemma TagInputDetermines(n: u32, a: Bytes, t: Bytes, n': u32, a': Bytes, t': Bytes)
    requires NulFree(a) && NulFree(a')
    requires TagInput(n, a, t) == TagInput(n', a', t')
    ensures n == n' && a == a' && t == t'
  {
    Widths();
    hide Ascii;
    SamePrefix(Ascii(DISCOVERY_NAMESPACE_HASH_CONTEXT), ToBe(n, 4) + ([0] + (a + ([0] + t))),
        ToBe(n', 4) + ([0] + (a' + ([0] + t'))));
    FixedWidth(n, n', 4, [0] + (a + ([0] + t)), [0] + (a' + ([0] + t')));
    SamePrefix([0], a + ([0] + t), a' + ([0] + t'));
    SplitAtNul(a, a', [0] + t, [0] + t');
    SamePrefix([0], t, t');
  }

  /** An application id holding a NUL is never determined: cutting it there gives the same input. */
  lemma TagInputAmbiguous(n: u32, a: Bytes, t: Bytes)
    requires !NulFree(a)
    ensures exists b, u :: NulFree(b) && b != a && TagInput(n, b, u) == TagInput(n, a, t)
  {
    var b, rest := CutAtNul(a);
    var u := rest + ([0] + t);
    assert b + ([0] + u) == a + ([0] + t);
    assert TagInput(n, b, u) == TagInput(n, a, t);
  }

  lemma {:induction false} CutAtNul(a: Bytes) returns (b: Bytes, rest: Bytes)
    requires !NulFree(a)
    ensures NulFree(b) && a == b + [0] + rest
  {
    if a[0] == 0 {
      b, rest := [], a[1..];
    } else {
      b, rest := CutAtNul(a[1..]);
      b := [a[0]] + b;
    }
  }

  // ---- gossip message ids ----

  datatype Message = Message(source: Option<Bytes>, topic: Bytes, data: Bytes)

  /** Every length fits the eight bytes it is written in. */
  predicate Sized(m: Message) {
    (m.source.Some? ==> |m.source.value| <= U64_MAX) && |m.topic| <= U64_MAX && |m.data| <= U64_MAX
  }

  function Field(x: Bytes): Bytes { ToBe(|x|, 8) + x }

  function AuthorField(m: Message): Bytes {
    match m.source
    case Some(source) => [1] + Field(source)
    case None => [0]
  }

  function MessageInput(m: Message): Bytes {
    Ascii(MESSAGE_ID_DOMAIN) + (AuthorField(m) + (Field(m.topic) + Field(m.data)))
  }

  /** Where each field lies; an author moves the rest back by its length field and itself. */
  lemma MessageInputLayout(m: Message)
    ensures var d, author := MessageInput(m), if m.source.Some? then 8 + |m.source.value| else 0;
            var topic := 33 + author; var data := topic + 8 + |m.topic|;
            && |d| == data + 8 + |m.data| && d[..32] == Ascii(MESSAGE_ID_DOMAIN)
            && d[32] == (if m.source.Some? then 1 else 0)
            && (m.source.Some? ==> d[33..41] == ToBe(|m.source.value|, 8) && d[41..topic] == m.source.value)
            && d[topic..topic + 8] == ToBe(|m.topic|, 8) && d[topic + 8..data] == m.topic
            && d[data..data + 8] == ToBe(|m.data|, 8) && d[data + 8..] == m.data
  {
    hide ToBe, Ascii;
    AuthorLayout(m);
    var a, t, x := AuthorField(m), Field(m.topic), Field(m.data);
    hide AuthorField;
    var domain := Ascii(MESSAGE_ID_DOMAIN);
    assert |domain| == 32 by { DomainLength(); }
    var d := MessageInput(m);
    assert d[32..32 + |a|] == a;
    assert d[32 + |a|..] == t + x;
  }

  lemma DomainLength()
    ensures |Ascii(MESSAGE_ID_DOMAIN)| == 32
  {}

  lemma AuthorLayout(m: Message)
    ensures var a := AuthorField(m);
            if m.source.None? then a == [0]
            else && |a| == 9 + |m.source.value| && a[0] == 1 && a[1..9] == ToBe(|m.source.value|, 8)
                 && a[9..] == m.source.value
  {
    hide ToBe;
  }

  /** A length-prefixed field is determined whatever follows it. */
  lemma FieldDetermines(x: Bytes, y: Bytes, r: Bytes, t: Bytes)
    requires |x| <= U64_MAX && |y| <= U64_MAX
    requires Field(x) + r == Field(y) + t
    ensures x == y && r == t
  {
    hide ToBe, Pow256;
    Widths();
    assert Field(x) + r == ToBe(|x|, 8) + (x + r);
    assert Field(y) + t == ToBe(|y|, 8) + (y + t);
    FixedWidth(|x|, |y|, 8, x + r, y + t);
    assert (x + r)[..|x|] == x && (y + t)[..|y|] == y;
    SamePrefix(x, r, t);
  }

  /** The input determines author, topic and payload. */
  lemma MessageInputDetermines(m: Message, n: Message)
    requires Sized(m) && Sized(n)
    requires MessageInput(m) == MessageInput(n)
    ensures m == n
  {
    hide Ascii, Field;
    var r, t := Field(m.topic) + Field(m.data), Field(n.topic) + Field(n.data);
    SamePrefix(Ascii(MESSAGE_ID_DOMAIN), AuthorField(m) + r, AuthorField(n) + t);
    assert (AuthorField(m) + r)[0] == (AuthorField(n) + t)[0];
    assert m.source.Some? <==> n.source.Some?;
    if m.source.Some? {
      assert AuthorField(m) + r == [1] + (Field(m.source.value) + r);
      assert AuthorField(n) + t == [1] + (Field(n.source.value) + t);
      SamePrefix([1], Field(m.source.value) + r, Field(n.source.value) + t);
      FieldDetermines(m.source.value, n.source.value, r, t);
    } else {
      SamePrefix([0], r, t);
    }
    FieldDetermines(m.topic, n.topic, Field(m.data), Field(n.data));
    assert Field(m.data) + [] == Field(m.data) && Field(n.data) + [] == Field(n.data);
    FieldDetermines(m.data, n.data, [], []);
  }

  /** The hasher is fed piece by piece. */
  method FeedMessageId(m: Message) returns (fed: Bytes)
    ensures fed == MessageInput(m)
  {
    hide Ascii, ToBe;
    fed := Ascii(MESSAGE_ID_DOMAIN);
    match m.source {
      case Some(source) =>
        fed := fed + [1];
        fed := fed + ToBe(|source|, 8);
        fed := fed + source;
      case None => fed := fed + [0];
    }
    assert fed == Ascii(MESSAGE_ID_DOMAIN) + AuthorField(m);
    fed := fed + ToBe(|m.topic|, 8);
    fed := fed + m.topic;
    fed := fed + ToBe(|m.data|, 8);
    fed := fed + m.data;
    assert fed == Ascii(MESSAGE_ID_DOMAIN) + (AuthorField(m) + (Field(m.topic) + Field(m.data)));
  }

  // ---- application compatibility ----

  /** Byte-wise dictionary order. */
  predicate Less(a: Bytes, b: Bytes) {
    b != [] && (a == [] || a[0] < b[0] || (a[0] == b[0] && Less(a[1..], b[1..])))
  }

  lemma {:induction false} LessStrict(a: Bytes, b: Bytes)
    requires Less(a, b)
    ensures a != b && !Less(b, a)
  {
    if a != [] && a[0] == b[0] { LessStrict(a[1..], b[1..]); }
  }

  ghost predicate Ascending(names: seq<Bytes>) {
    forall i, j :: 0 <= i < j < |names| ==> Less(names[i], names[j])
  }

  ghost predicate Sorted(names: seq<Bytes>) {
    forall i, j :: 0 <= i < j < |names| ==> names[i] == names[j] || Less(names[i], names[j])
  }

  /** There is one strictly ascending list of a set. */
  lemma {:induction false} OneAscending(a: seq<Bytes>, b: seq<Bytes>)
    requires Ascending(a) && Ascending(b) && Elems(a) == Elems(b)
    ensures a == b
    decreases |a|
  {
    hide Less;
    EmptyElems(b);
    if a != [] {
      SameHead(a, b);
      TailElems(a);
      TailElems(b);
      OneAscending(a[1..], b[1..]);
      assert a == [a[0]] + a[1..] && b == [b[0]] + b[1..];
    }
  }

  lemma EmptyElems(b: seq<Bytes>)
    ensures Elems(b) == {} <==> b == []
  {
    if b != [] { assert b[0] in Elems(b); }
  }

  lemma SameHead(a: seq<Bytes>, b: seq<Bytes>)
    requires Ascending(a) && Ascending(b) && Elems(a) == Elems(b) && a != []
    ensures b != [] && a[0] == b[0]
  {
    hide Less;
    assert a[0] in Elems(b);
    var j :| 0 <= j < |b| && b[j] == a[0];
    assert b[0] in Elems(a);
    var i :| 0 <= i < |a| && a[i] == b[0];
    if j > 0 && i > 0 {
      LessStrict(a[0], a[i]);
      assert false;
    }
  }

  lemma TailElems(a: seq<Bytes>)
    requires Ascending(a) && a != []
    ensures Ascending(a[1..]) && Elems(a[1..]) == Elems(a) - {a[0]}
  {
    hide Less;
    assert a == [a[0]] + a[1..];
    forall i | 0 < i < |a| ensures a[i] != a[0] { LessStrict(a[0], a[i]); }
  }

  /** Dropping neighbouring repeats from a sorted list leaves each name once. */
  method DedupSorted(names: seq<Bytes>) returns (out: seq<Bytes>)
    requires Sorted(names)
    ensures Ascending(out) && Elems(out) == Elems(names)
  {
    hide Less;
    out := [];
    for i := 0 to |names|
      invariant Ascending(out) && Elems(out) == Elems(names[..i])
      invariant (out == [] <==> i == 0) && (i > 0 ==> out[|out| - 1] == names[i - 1])
    {
      assert names[..i + 1] == names[..i] + [names[i]];
      assert Elems(names[..i + 1]) == Elems(names[..i]) + {names[i]};
      if out == [] || out[|out| - 1] != names[i] {
        ghost var before := out;
        forall k | 0 <= k < |out| ensures Less(out[k], names[i]) {
          assert out[k] in Elems(names[..i]);
          StillBelow(names, i, out, k);
        }
        out := out + [names[i]];
        assert Elems(out) == Elems(before) + {names[i]};
      } else {
        assert names[i] in Elems(out);
      }
    }
    assert names[..|names|] == names;
  }

  lemma StillBelow(names: seq<Bytes>, i: nat, out: seq<Bytes>, k: nat)
    requires Sorted(names) && 0 < i < |names| && k < |out| && Ascending(out)
    requires out[k] in names[..i] && out[|out| - 1] == names[i - 1] != names[i]
    ensures Less(out[k], names[i])
  {
    hide Less;
    var j :| 0 <= j < i && names[j] == out[k];
    assert names[j] == names[i] || Less(names[j], names[i]);
    if names[j] == names[i] {
      assert Less(names[i - 1], names[i]);
      assert names[j] == names[i - 1] || Less(names[j], names[i - 1]);
      LessStrict(names[i - 1], names[i]);
      assert false;
    }
  }

  function Joined(names: seq<Bytes>): Bytes {
    if names == [] then [] else [0] + names[0] + Joined(names[1..])
  }

  function IdentifyInput(network: u32, names: seq<Bytes>): Bytes {
    Ascii(APPLICATION_COMPATIBILITY_CONTEXT) + (ToBe(network, 4) + Joined(names))
  }

  ghost predicate AllNulFree(names: seq<Bytes>) { forall b :: b in names ==> NulFree(b) }

  lemma {:induction false} JoinedDetermines(a: seq<Bytes>, b: seq<Bytes>)
    requires AllNulFree(a) && AllNulFree(b) && Joined(a) == Joined(b)
    ensures a == b
  {
    if a != [] && b != [] {
      assert Joined(a) == [0] + (a[0] + Joined(a[1..])) && Joined(b) == [0] + (b[0] + Joined(b[1..]));
      SamePrefix([0], a[0] + Joined(a[1..]), b[0] + Joined(b[1..]));
      SplitAtNul(a[0], b[0], Joined(a[1..]), Joined(b[1..]));
      JoinedDetermines(a[1..], b[1..]);
      assert a == [a[0]] + a[1..] && b == [b[0]] + b[1..];
    }
  }

  /** The pieces of a name between its NULs. */
  function Cut(name: Bytes): (pieces: seq<Bytes>)
    ensures pieces != []
  {
    if name == [] then [[]]
    else
      var rest := Cut(name[1..]);
      if name[0] == 0 then [[]] + rest else [[name[0]] + rest[0]] + rest[1..]
  }

  function CutAll(names: seq<Bytes>): seq<Bytes> {
    if names == [] then [] else Cut(names[0]) + CutAll(names[1..])
  }

  lemma JoinedCons(first: Bytes, tail: seq<Bytes>)
    ensures Joined([first] + tail) == [0] + (first + Joined(tail))
  {
    assert ([first] + tail)[1..] == tail;
  }

  lemma {:induction false} CutNulFree(name: Bytes)
    ensures AllNulFree(Cut(name))
  {
    if name != [] {
      var rest := Cut(name[1..]);
      CutNulFree(name[1..]);
      assert rest == [rest[0]] + rest[1..] && NulFree(rest[0]);
    }
  }

  lemma {:induction false} JoinedCut(name: Bytes)
    ensures Joined(Cut(name)) == [0] + name
  {
    hide Joined;
    if name == [] {
      JoinedNothing();
      JoinedCons([], []);
      assert [name] + [] == Cut(name);
    } else {
      var rest := Cut(name[1..]);
      JoinedCut(name[1..]);
      assert rest == [rest[0]] + rest[1..] && name == [name[0]] + name[1..];
      if name[0] == 0 {
        JoinedCons([], rest);
      } else {
        JoinedCons(rest[0], rest[1..]);
        SamePrefix([0], rest[0] + Joined(rest[1..]), name[1..]);
        JoinedCons([name[0]] + rest[0], rest[1..]);
        assert [name[0]] + rest[0] + Joined(rest[1..]) == [name[0]] + (rest[0] + Joined(rest[1..]));
      }
    }
  }

  lemma JoinedNothing()
    ensures Joined([]) == []
  {}

  lemma {:induction false} JoinedConcat(a: seq<Bytes>, b: seq<Bytes>)
    ensures Joined(a + b) == Joined(a) + Joined(b)
  {
    hide Joined;
    if a == [] {
      JoinedNothing();
      assert a + b == b;
    } else {
      JoinedConcat(a[1..], b);
      JoinedCons(a[0], a[1..]);
      JoinedCons(a[0], a[1..] + b);
      assert a == [a[0]] + a[1..] && a + b == [a[0]] + (a[1..] + b);
      assert [0] + (a[0] + (Joined(a[1..]) + Joined(b))) == [0] + (a[0] + Joined(a[1..])) + Joined(b);
    }
  }

  lemma {:induction false} JoinedCutAll(names: seq<Bytes>)
    ensures Joined(CutAll(names)) == Joined(names) && AllNulFree(CutAll(names))
  {
    if names != [] {
      JoinedCut(names[0]);
      CutNulFree(names[0]);
      JoinedCutAll(names[1..]);
      JoinedConcat(Cut(names[0]), CutAll(names[1..]));
    }
  }

  lemma {:induction false} CutAllNulFree(names: seq<Bytes>)
    requires AllNulFree(names)
    ensures CutAll(names) == names
  {
    JoinedCutAll(names);
    JoinedDetermines(CutAll(names), names);
  }

  /**
   The exact condition, for all lists of names: the same bytes are fed exactly when the networks
   agree and cutting every name at its NULs gives the same pieces in the same order.
   */
  lemma SameInputIffSamePieces(m: u32, a: seq<Bytes>, n: u32, b: seq<Bytes>)
    ensures IdentifyInput(m, a) == IdentifyInput(n, b) <==> m == n && CutAll(a) == CutAll(b)
  {
    hide Ascii, Joined, CutAll;
    Widths();
    JoinedCutAll(a);
    JoinedCutAll(b);
    if IdentifyInput(m, a) == IdentifyInput(n, b) {
      SamePrefix(Ascii(APPLICATION_COMPATIBILITY_CONTEXT), ToBe(m, 4) + Joined(a), ToBe(n, 4) + Joined(b));
      FixedWidth(m, n, 4, Joined(a), Joined(b));
      JoinedDetermines(CutAll(a), CutAll(b));
    }
  }

  /** Two nodes feed the same bytes exactly when they share the network and the set of NUL-free namespaces. */
  lemma IdentifyInputDetermines(m: u32, a: seq<Bytes>, n: u32, b: seq<Bytes>)
    requires Ascending(a) && Ascending(b) && AllNulFree(a) && AllNulFree(b)
    ensures IdentifyInput(m, a) == IdentifyInput(n, b) <==> m == n && Elems(a) == Elems(b)
  {
    hide IdentifyInput, Less, CutAll;
    SameInputIffSamePieces(m, a, n, b);
    CutAllNulFree(a);
    CutAllNulFree(b);
    if Elems(a) == Elems(b) { OneAscending(a, b); }
  }

  /** One name made of two others, in order, with a NUL between them feeds the same bytes as the two. */
  lemma NulNamespaceCollides(n: u32, x: Bytes, y: Bytes)
    ensures IdentifyInput(n, [x + [0] + y]) == IdentifyInput(n, [x, y])
    ensures Less(x, y) ==> Ascending([x + [0] + y]) && Ascending([x, y])
  {
    hide Ascii, ToBe;
    assert [x, y][1..] == [y] && [y][1..] == [];
    assert Joined([y]) == [0] + y + [] && Joined([x, y]) == [0] + x + Joined([y]);
    assert [x + [0] + y][1..] == [];
    assert Joined([x + [0] + y]) == [0] + (x + [0] + y) + [];
    assert Joined([x + [0] + y]) == Joined([x, y]);
  }

  /** The library's sort: an ordered rearrangement. */
  ghost predicate Sorts(sort: seq<Bytes> -> seq<Bytes>) {
    forall s: seq<Bytes> :: Sorted(sort(s)) && Elems(sort(s)) == Elems(s)
  }

  method FeedNamespaces(sort: seq<Bytes> -> seq<Bytes>, network: u32, names: seq<Bytes>) returns (fed: Bytes)
    requires Sorts(sort)
    ensures exists used :: Ascending(used) && Elems(used) == Elems(names) && fed == IdentifyInput(network, used)
  {
    hide Ascii, Less;
    var unique := DedupSorted(sort(names));
    fed := Ascii(APPLICATION_COMPATIBILITY_CONTEXT);
    fed := fed + ToBe(network, 4);
    ghost var start := fed;
    for i := 0 to |unique|
      invariant fed == start + Joined(unique[..i])
    {
      fed := fed + [0];
      fed := fed + unique[i];
      JoinedPush(unique, i);
    }
    assert unique[..|unique|] == unique;
    assert fed == IdentifyInput(network, unique);
  }

  lemma {:induction false} JoinedPush(names: seq<Bytes>, i: nat)
    requires i < |names|
    ensures Joined(names[..i + 1]) == Joined(names[..i]) + [0] + names[i]
  {
    if i > 0 {
      JoinedPush(names[1..], i - 1);
      assert names[1..][..i] == names[..i + 1][1..] && names[1..][..i - 1] == names[..i][1..];
    } else {
      assert names[..1] == [names[0]];
    }
  }
}
