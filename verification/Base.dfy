/** Machine integers, failure values and byte-level encodings shared by every component. */
module Base {

  const U64_MAX: int := 0xFFFF_FFFF_FFFF_FFFF
  const NS_PER_SEC: int := 1_000_000_000

  type byte = x: int | 0 <= x < 256
  type u16 = x: int | 0 <= x < 0x1_0000
  type u32 = x: int | 0 <= x < 0x1_0000_0000
  type u64 = x: int | 0 <= x <= U64_MAX

  /** Peer identities are opaque; only equality and their total order are ever used. */
  type PeerId = nat

  datatype Option<+T> = None | Some(value: T)
  datatype Result<+T, +E> = Ok(value: T) | Err(error: E)

  function SatAdd(a: u64, b: u64): u64 { if a + b > U64_MAX then U64_MAX else a + b }
  function SatSub(a: u64, b: u64): u64 { if a < b then 0 else a - b }
  function SatMul(a: u64, b: u64): u64 {
    MulNonNegative(a, b);
    if a * b > U64_MAX then U64_MAX else a * b
  }

  lemma MulNonNegative(a: nat, b: nat)
    ensures 0 <= a * b
  {}

  ghost predicate NoDup<T>(s: seq<T>) {
    forall i, j :: 0 <= i < j < |s| ==> s[i] != s[j]
  }

  function Elems<T>(s: seq<T>): set<T> { set x | x in s }

  lemma SamePrefix<T>(p: seq<T>, x: seq<T>, y: seq<T>)
    requires p + x == p + y
    ensures x == y
  {
    assert (p + x)[|p|..] == x && (p + y)[|p|..] == y;
  }

  /** A duplicate-free sequence has as many entries as its set of elements. */
  lemma {:induction false} NoDupCount<T>(s: seq<T>)
    requires NoDup(s)
    ensures |Elems(s)| == |s|
  {
    if s != [] {
      var front, last := s[..|s| - 1], s[|s| - 1];
      NoDupCount(front);
      assert last !in front;
      assert s == front + [last];
      assert Elems(s) == Elems(front) + {last};
    }
  }

  /** Keep the first occurrence of each element. */
  function Dedup<T(==)>(s: seq<T>): seq<T> {
    if s == [] then []
    else
      var front, last := Dedup(s[..|s| - 1]), s[|s| - 1];
      if last in front then front else front + [last]
  }

  lemma {:induction false} DedupElems<T>(s: seq<T>)
    ensures NoDup(Dedup(s)) && |Dedup(s)| <= |s|
    ensures forall x :: x in Dedup(s) <==> x in s
  {
    if s != [] {
      DedupElems(s[..|s| - 1]);
      assert s == s[..|s| - 1] + [s[|s| - 1]];
    }
  }

  /** `x` occurs in `s` before `y` first does. */
  ghost predicate FirstBefore<T>(s: seq<T>, x: T, y: T) {
    exists k :: 0 <= k < |s| && s[k] == x && y !in s[..k + 1]
  }

  ghost predicate InFirstOrder<T>(s: seq<T>, d: seq<T>) {
    forall i, j :: 0 <= i < j < |d| ==> FirstBefore(s, d[i], d[j])
  }

  lemma FirstBeforeLonger<T>(s: seq<T>, last: T, x: T, y: T)
    requires FirstBefore(s, x, y) || (x in s && y == last && last !in s)
    ensures FirstBefore(s + [last], x, y)
  {
    var k :| 0 <= k < |s| && s[k] == x && (FirstBefore(s, x, y) ==> y !in s[..k + 1]);
    assert (s + [last])[k] == x && (s + [last])[..k + 1] == s[..k + 1];
  }

  /** What is kept stands in the order of first occurrences. */
  lemma {:induction false} DedupFirsts<T>(s: seq<T>)
    ensures InFirstOrder(s, Dedup(s))
  {
    hide Dedup;
    DedupNothing<T>();
    if s != [] {
      var front, last := s[..|s| - 1], s[|s| - 1];
      var d, e := Dedup(front), Dedup(s);
      DedupFirsts(front);
      assert s == front + [last];
      DedupPush(front, last);
      forall i, j | 0 <= i < j < |e| ensures FirstBefore(s, e[i], e[j]) {
        DedupPush(front, e[i]);
        if j < |d| {
          assert FirstBefore(front, d[i], d[j]);
        } else {
          assert e[j] == last && last !in d;
        }
        FirstBeforeLonger(front, last, e[i], e[j]);
      }
    }
  }

  lemma DedupPush<T>(s: seq<T>, x: T)
    ensures x in Dedup(s) <==> x in s
    ensures Dedup(s + [x]) == if x in s then Dedup(s) else Dedup(s) + [x]
  {
    DedupElems(s);
    assert (s + [x])[..|s|] == s;
  }

  lemma DedupNothing<T>()
    ensures Dedup<T>([]) == []
  {}

  lemma {:induction false} DedupFixed<T>(s: seq<T>)
    requires NoDup(s)
    ensures Dedup(s) == s
  {
    if s != [] {
      DedupFixed(s[..|s| - 1]);
      assert s == s[..|s| - 1] + [s[|s| - 1]];
    }
  }

  lemma {:induction false} WithinRange(s: set<nat>, lo: nat, hi: nat)
    requires forall x :: x in s ==> lo <= x < hi
    ensures |s| <= if lo <= hi then hi - lo else 0
    decreases hi
  {
    if lo >= hi {
      assert s == {};
    } else {
      WithinRange(s - {hi - 1}, lo, hi - 1);
      if hi - 1 in s { assert |s - {hi - 1}| == |s| - 1; } else { assert s - {hi - 1} == s; }
    }
  }

  lemma {:induction false} HoldsRange(s: set<nat>, lo: nat, hi: nat)
    requires forall x :: lo <= x < hi ==> x in s
    ensures |s| >= hi - lo
    decreases hi
  {
    if lo < hi {
      HoldsRange(s - {hi - 1}, lo, hi - 1);
      assert |s - {hi - 1}| == |s| - 1;
    }
  }

  lemma SubsetSize<T>(a: set<T>, b: set<T>)
    requires a <= b
    ensures |a| <= |b| && (|a| == |b| ==> a == b)
  {
    assert b == a + (b - a);
  }

  lemma SetSizes<T>(s: set<T>, x: T)
    ensures |s + {x}| == if x in s then |s| else |s| + 1
    ensures |s - {x}| == if x in s then |s| - 1 else |s|
  {
    if x in s { assert s + {x} == s; } else { assert s - {x} == s; }
  }

  predicate IsLeast(s: set<nat>, a: nat) { a in s && forall x :: x in s ==> a <= x }

  lemma {:induction false} LeastExists(s: set<nat>)
    requires s != {}
    ensures exists a :: IsLeast(s, a)
    decreases |s|
  {
    var one :| one in s;
    var rest := s - {one};
    assert s == rest + {one};
    if rest == {} {
      assert IsLeast(s, one);
    } else {
      LeastExists(rest);
      var a :| IsLeast(rest, a);
      assert IsLeast(s, if one < a then one else a);
    }
  }

  // ---- big-endian integers ----

  /** The low `width` bytes of `n`, most significant first. */
  function ToBe(n: nat, width: nat): (bs: seq<byte>)
    ensures |bs| == width
  {
    if width == 0 then [] else ToBe(n / 256, width - 1) + [n % 256]
  }

  function FromBe(bs: seq<byte>): (n: nat) {
    if bs == [] then 0 else FromBe(bs[..|bs| - 1]) * 256 + bs[|bs| - 1]
  }

  function Pow256(width: nat): nat {
    if width == 0 then 1 else 256 * Pow256(width - 1)
  }

  lemma {:induction false} FromToBe(n: nat, width: nat)
    requires n < Pow256(width)
    ensures FromBe(ToBe(n, width)) == n
  {
    if width > 0 {
      FromToBe(n / 256, width - 1);
      assert ToBe(n, width)[..width - 1] == ToBe(n / 256, width - 1);
    }
  }

  lemma {:induction false} ToFromBe(bs: seq<byte>)
    ensures FromBe(bs) < Pow256(|bs|)
    ensures ToBe(FromBe(bs), |bs|) == bs
  {
    if bs != [] {
      var front := bs[..|bs| - 1];
      ToFromBe(front);
      assert FromBe(bs) / 256 == FromBe(front);
      assert bs == front + [bs[|bs| - 1]];
    }
  }

  /** The most significant byte comes first. */
  lemma {:induction false} FromBeHead(bs: seq<byte>)
    requires bs != []
    ensures FromBe(bs) == bs[0] * Pow256(|bs| - 1) + FromBe(bs[1..])
  {
    var n := |bs| - 1;
    if n > 0 {
      var front, last := bs[..n], bs[n];
      FromBeHead(front);
      assert bs[1..][..n - 1] == front[1..] && bs[1..][n - 1] == last;
      assert FromBe(bs) == FromBe(front) * 256 + last && FromBe(bs[1..]) == FromBe(front[1..]) * 256 + last;
      assert Pow256(n) == 256 * Pow256(n - 1);
      hide FromBe, Pow256;
      ShiftHead(bs[0], Pow256(n - 1), FromBe(front[1..]), last);
    }
  }

  lemma ShiftHead(head: nat, weight: nat, rest: nat, last: nat)
    ensures (head * weight + rest) * 256 + last == head * (256 * weight) + (rest * 256 + last)
  {}

  lemma Widths()
    ensures Pow256(2) == 0x1_0000
    ensures Pow256(4) == 0x1_0000_0000
    ensures Pow256(8) == U64_MAX + 1
  {
    assert Pow256(3) == 256 * Pow256(2);
    assert Pow256(5) == 256 * Pow256(4);
    assert Pow256(6) == 256 * Pow256(5);
    assert Pow256(7) == 256 * Pow256(6);
  }

  // ---- hexadecimal text ----

  function HexValue(c: char): Option<nat> {
    if '0' <= c <= '9' then Some(c as nat - '0' as nat)
    else if 'a' <= c <= 'f' then Some(c as nat - 'a' as nat + 10)
    else if 'A' <= c <= 'F' then Some(c as nat - 'A' as nat + 10)
    else None
  }

  function HexDigit(n: nat): char
    requires n < 16
  {
    if n < 10 then ('0' as nat + n) as char else ('a' as nat + n - 10) as char
  }

  function LowerHexDigit(c: char): char {
    if 'A' <= c <= 'F' then (c as nat - 'A' as nat + 'a' as nat) as char else c
  }

  function LowerHex(s: string): string {
    seq(|s|, i requires 0 <= i < |s| => LowerHexDigit(s[i]))
  }

  function HexEncode(bs: seq<byte>): string {
    if bs == [] then "" else [HexDigit(bs[0] / 16), HexDigit(bs[0] % 16)] + HexEncode(bs[1..])
  }

  /** Either letter case is accepted; odd lengths and other characters are not. */
  function HexDecode(s: string): Option<seq<byte>> {
    if s == "" then Some([])
    else if |s| == 1 then None
    else match (HexValue(s[0]), HexValue(s[1]), HexDecode(s[2..]))
      case (Some(hi), Some(lo), Some(rest)) => Some([hi * 16 + lo] + rest)
      case _ => None
  }

  lemma {:induction false} HexDecodeEncode(bs: seq<byte>)
    ensures HexDecode(HexEncode(bs)) == Some(bs)
  {
    if bs != [] {
      HexDecodeEncode(bs[1..]);
      var s := HexEncode(bs);
      assert s[2..] == HexEncode(bs[1..]);
      assert bs == [bs[0]] + bs[1..];
    }
  }

  lemma HexPair(hi: char, lo: char)
    requires HexValue(hi).Some? && HexValue(lo).Some?
    ensures var b := HexValue(hi).value * 16 + HexValue(lo).value;
            0 <= b < 256 && HexDigit(b / 16) == LowerHexDigit(hi) && HexDigit(b % 16) == LowerHexDigit(lo)
  {}

  lemma {:induction false} HexEncodeDecode(s: string, bs: seq<byte>)
    requires HexDecode(s) == Some(bs)
    ensures |s| == 2 * |bs|
    ensures HexEncode(bs) == LowerHex(s)
  {
    hide HexValue, HexDigit, LowerHexDigit;
    if s != "" {
      var rest := HexDecode(s[2..]).value;
      HexEncodeDecode(s[2..], rest);
      HexPair(s[0], s[1]);
      assert bs[1..] == rest;
      assert LowerHex(s) == [LowerHexDigit(s[0]), LowerHexDigit(s[1])] + LowerHex(s[2..]);
    }
  }

  lemma LowerDigit(c: char, n: nat)
    requires n < 16 && LowerHexDigit(c) == HexDigit(n)
    ensures HexValue(c) == Some(n)
  {}

  /** A text is decoded exactly to the bytes whose hexadecimal form it is, up to letter case. */
  lemma {:induction false} HexDecodeLower(s: string, bs: seq<byte>)
    requires LowerHex(s) == HexEncode(bs)
    ensures HexDecode(s) == Some(bs)
  {
    hide HexValue, HexDigit, LowerHexDigit;
    assert |LowerHex(s)| == |s|;
    if bs != [] {
      assert LowerHex(s)[0] == LowerHexDigit(s[0]) && LowerHex(s)[1] == LowerHexDigit(s[1]);
      LowerDigit(s[0], bs[0] / 16);
      LowerDigit(s[1], bs[0] % 16);
      assert LowerHex(s)[2..] == LowerHex(s[2..]);
      HexDecodeLower(s[2..], bs[1..]);
      assert bs == [bs[0]] + bs[1..];
    }
  }
}
