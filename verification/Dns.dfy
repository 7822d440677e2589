/** Recursive `/dnsaddr` resolution over arbitrary DNS answers. */
module Dns {
  import opened Base

  const MAX_DNSADDR_RECURSION: nat := 8
  const MAX_DNSADDR_RECORDS_PER_LOOKUP: nat := 32
  const MAX_DNSADDR_TOTAL_RECORDS: nat := 128
  const MAX_DNSADDR_TXT_BYTES: nat := 4096
  const DNSADDR_PREFIX: string := "dnsaddr="

  datatype Ip = V4(bits: nat) | V6(bits: nat)

  datatype Protocol =
    | Dnsaddr(name: string) | Dns(name: string) | Dns4(name: string) | Dns6(name: string)
    | Address(ip: Ip) | Other(code: nat, text: string)

  type Multiaddr = seq<Protocol>

  /**
   Where one lookup happens: the record numbers followed from the requested address.
   Every lookup of a resolution has a path of its own, so answers indexed by path may
   differ from one lookup to the next in any way.
   */
  type Path = seq<nat>

  /** The resolvers and the text routines the code calls; `None` is a failure. */
  datatype Libs = Libs(
    txt: (Path, string) -> Option<seq<string>>,
    hosts: (Path, string) -> Option<seq<Ip>>,
    utf8Len: string -> nat,
    parse: string -> Option<Multiaddr>)

  predicate HasDnsaddr(addr: Multiaddr) { exists i :: 0 <= i < |addr| && addr[i].Dnsaddr? }

  predicate IsHost(p: Protocol) { p.Dns? || p.Dns4? || p.Dns6? }

  predicate EndsWith(addr: Multiaddr, suffix: seq<Protocol>) {
    |suffix| <= |addr| && addr[|addr| - |suffix|..] == suffix
  }

  function TrimDots(s: string): string { if s != "" && s[|s| - 1] == '.' then TrimDots(s[..|s| - 1]) else s }

  function QueryName(domain: string): string { "_dnsaddr." + TrimDots(domain) + "." }

  /** The record's value, when it is well-formed text for a multiaddr of acceptable size. */
  function RecordAddr(libs: Libs, record: string): Option<Multiaddr> {
    if !(DNSADDR_PREFIX <= record) then None
    else
      var raw := record[|DNSADDR_PREFIX|..];
      if libs.utf8Len(raw) > MAX_DNSADDR_TXT_BYTES then None else libs.parse(raw)
  }

  /** The name asked for, and what followed it. */
  predicate Splits(addr: Multiaddr, k: nat) {
    k < |addr| && addr[k].Dnsaddr? && forall i :: 0 <= i < k ==> !addr[i].Dnsaddr?
  }

  function Suffix(addr: Multiaddr): seq<Protocol> {
    if addr == [] then [] else if addr[0].Dnsaddr? then addr[1..] else Suffix(addr[1..])
  }

  method SplitFirstDnsaddr(addr: Multiaddr) returns (r: Option<(string, seq<Protocol>)>)
    ensures r.None? <==> !HasDnsaddr(addr)
    ensures r.Some? ==> exists k: nat :: Splits(addr, k) && addr[k].name == r.value.0
    ensures r.Some? ==> r.value.1 == Suffix(addr) && r.value.0 == FirstName(addr)
  {
    var domain: Option<string> := None;
    var suffix: seq<Protocol> := [];
    ghost var at: nat := 0;
    for i := 0 to |addr|
      invariant domain.None? ==> suffix == [] && forall j :: 0 <= j < i ==> !addr[j].Dnsaddr?
      invariant domain.Some? ==>
          at < i && Splits(addr, at) && addr[at].name == domain.value && suffix == addr[at + 1..i]
    {
      if domain.None? {
        if addr[i].Dnsaddr? { domain, at := Some(addr[i].name), i; }
      } else {
        suffix := suffix + [addr[i]];
      }
    }
    if domain.Some? {
      SuffixAt(addr, at);
      assert addr[at + 1..|addr|] == addr[at + 1..];
      return Some((domain.value, suffix));
    }
    return None;
  }

  function FirstName(addr: Multiaddr): string {
    if addr == [] then "" else if addr[0].Dnsaddr? then addr[0].name else FirstName(addr[1..])
  }

  lemma {:induction false} SuffixAt(addr: Multiaddr, k: nat)
    requires Splits(addr, k)
    ensures Suffix(addr) == addr[k + 1..] && FirstName(addr) == addr[k].name
  {
    if k > 0 {
      assert Splits(addr[1..], k - 1);
      SuffixAt(addr[1..], k - 1);
      assert addr[1..][k..] == addr[k + 1..];
    }
  }

  // ---- lists ----

  function Keep(addrs: seq<Multiaddr>, suffix: seq<Protocol>): seq<Multiaddr> {
    if addrs == [] then []
    else
      var front, last := Keep(addrs[..|addrs| - 1], suffix), addrs[|addrs| - 1];
      if EndsWith(last, suffix) then front + [last] else front
  }

  lemma {:induction false} KeepElems(addrs: seq<Multiaddr>, suffix: seq<Protocol>)
    ensures |Keep(addrs, suffix)| <= |addrs|
    ensures forall a :: a in Keep(addrs, suffix) <==> a in addrs && EndsWith(a, suffix)
  {
    if addrs != [] {
      KeepElems(addrs[..|addrs| - 1], suffix);
      assert addrs == addrs[..|addrs| - 1] + [addrs[|addrs| - 1]];
    }
  }

  /** Removing repeats before or after the filter is the same. */
  lemma {:induction false} KeepDedup(addrs: seq<Multiaddr>, suffix: seq<Protocol>)
    ensures Keep(Dedup(addrs), suffix) == Dedup(Keep(addrs, suffix))
  {
    if addrs != [] {
      var init, last := addrs[..|addrs| - 1], addrs[|addrs| - 1];
      KeepDedup(init, suffix);
      DedupElems(Keep(init, suffix));
      KeepElems(init, suffix);
      DedupElems(init);
      var d := Dedup(init);
      assert last !in d ==> (d + [last])[..|d|] == d;
      var f := Keep(init, suffix);
      assert EndsWith(last, suffix) ==> (f + [last])[..|f|] == f;
    }
  }

  /** Removing repeats from the parts first changes nothing. */
  lemma {:induction false} DedupConcat<T>(a: seq<T>, b: seq<T>)
    ensures Dedup(a + b) == Dedup(Dedup(a) + Dedup(b))
    decreases |b|
  {
    hide Dedup;
    DedupElems(a);
    if b == [] {
      DedupNothing<T>();
      assert a + b == a && Dedup(a) + [] == Dedup(a);
      DedupFixed(Dedup(a));
    } else {
      var init, last := b[..|b| - 1], b[|b| - 1];
      var c := Dedup(a) + Dedup(init);
      DedupConcat(a, init);
      DedupElems(init);
      DedupPush(a + init, last);
      DedupPush(init, last);
      DedupPush(c, last);
      assert a + b == a + init + [last] && b == init + [last];
      assert last !in init ==> Dedup(a) + Dedup(b) == c + [last];
    }
  }

  method DedupMultiaddrs(addrs: seq<Multiaddr>) returns (out: seq<Multiaddr>)
    ensures out == Dedup(addrs)
  {
    out := [];
    for i := 0 to |addrs|
      invariant out == Dedup(addrs[..i])
    {
      assert addrs[..i + 1][..i] == addrs[..i];
      if addrs[i] !in out { out := out + [addrs[i]]; }
    }
    assert addrs[..|addrs|] == addrs;
  }

  method Retain(addrs: seq<Multiaddr>, suffix: seq<Protocol>) returns (out: seq<Multiaddr>)
    ensures out == Keep(addrs, suffix)
  {
    out := [];
    for i := 0 to |addrs|
      invariant out == Keep(addrs[..i], suffix)
    {
      assert addrs[..i + 1][..i] == addrs[..i];
      if EndsWith(addrs[i], suffix) { out := out + [addrs[i]]; }
    }
    assert addrs[..|addrs|] == addrs;
  }

  // ---- host names ----

  predicate Allows(host: Protocol, ip: Ip) { host.Dns? || (host.Dns4? && ip.V4?) || (host.Dns6? && ip.V6?) }

  function FirstHost(addr: Multiaddr): (k: nat)
    ensures k <= |addr| && (k < |addr| ==> IsHost(addr[k])) && forall i :: 0 <= i < k ==> !IsHost(addr[i])
  {
    if addr == [] || IsHost(addr[0]) then 0 else 1 + FirstHost(addr[1..])
  }

  /** The address with its host name replaced by each admissible answer. */
  function Swaps(addr: Multiaddr, k: nat, ips: seq<Ip>): seq<Multiaddr>
    requires k < |addr|
  {
    if ips == [] then []
    else
      var front, last := Swaps(addr, k, ips[..|ips| - 1]), ips[|ips| - 1];
      if Allows(addr[k], last) then front + [addr[k := Address(last)]] else front
  }

  function HostAddrs(libs: Libs, addr: Multiaddr, path: Path): Option<seq<Multiaddr>> {
    var k := FirstHost(addr);
    if k == |addr| then Some([addr])
    else match libs.hosts(path, addr[k].name)
      case None => None
      case Some(ips) => if Swaps(addr, k, ips) == [] then None else Some(Swaps(addr, k, ips))
  }

  lemma {:induction false} SwapsElems(addr: Multiaddr, k: nat, ips: seq<Ip>)
    requires k < |addr|
    ensures forall a :: a in Swaps(addr, k, ips) <==>
        exists ip :: ip in ips && Allows(addr[k], ip) && a == addr[k := Address(ip)]
  {
    if ips != [] {
      var init, last := ips[..|ips| - 1], ips[|ips| - 1];
      SwapsElems(addr, k, init);
      assert ips == init + [last];
    }
  }

  /** The host lookup gives `ip`, of the family the name asks for: `/dns4` IPv4, `/dns6` IPv6, `/dns` either. */
  predicate Usable(libs: Libs, host: Protocol, path: Path, ip: Ip)
    requires IsHost(host)
  {
    && libs.hosts(path, host.name).Some? && ip in libs.hosts(path, host.name).value
    && (host.Dns4? ==> ip.V4?) && (host.Dns6? ==> ip.V6?)
  }

  lemma FirstHostIs(addr: Multiaddr, k: nat)
    requires k < |addr| && IsHost(addr[k]) && forall i :: 0 <= i < k ==> !IsHost(addr[i])
    ensures FirstHost(addr) == k
  {}

  /** The first host name is replaced by each usable address in turn; without one the address does not resolve. */
  lemma HostAddrsExactly(libs: Libs, addr: Multiaddr, path: Path, k: nat)
    requires k < |addr| && IsHost(addr[k]) && forall i :: 0 <= i < k ==> !IsHost(addr[i])
    ensures HostAddrs(libs, addr, path).Some? <==> exists ip :: Usable(libs, addr[k], path, ip)
    ensures HostAddrs(libs, addr, path).Some? ==>
              forall a :: a in HostAddrs(libs, addr, path).value <==>
                exists ip :: Usable(libs, addr[k], path, ip) && a == addr[k := Address(ip)]
  {
    hide FirstHost, Swaps;
    FirstHostIs(addr, k);
    var answer := libs.hosts(path, addr[k].name);
    if answer.Some? {
      SwapsElems(addr, k, answer.value);
      forall ip ensures Usable(libs, addr[k], path, ip) <==> ip in answer.value && Allows(addr[k], ip) {}
      if ip :| Usable(libs, addr[k], path, ip) {
        assert addr[k := Address(ip)] in Swaps(addr, k, answer.value);
      } else {
        NoSwaps(addr, k, answer.value);
      }
    }
  }

  lemma {:induction false} NoSwaps(addr: Multiaddr, k: nat, ips: seq<Ip>)
    requires k < |addr| && forall ip :: ip in ips ==> !Allows(addr[k], ip)
    ensures Swaps(addr, k, ips) == []
  {
    if ips != [] { NoSwaps(addr, k, ips[..|ips| - 1]); }
  }

  method ResolveOrdinary(libs: Libs, addr: Multiaddr, path: Path) returns (r: Option<seq<Multiaddr>>)
    ensures r.Some? <==> HostAddrs(libs, addr, path).Some?
    ensures r.Some? ==> r.value == Dedup(HostAddrs(libs, addr, path).value)
  {
    var k := FirstHost(addr);
    if k == |addr| {
      DedupFixed([addr]);
      return Some([addr]);
    }
    var answer := libs.hosts(path, addr[k].name);
    if answer.None? { return None; }
    var ips := answer.value;
    var out := [];
    for i := 0 to |ips|
      invariant out == Swaps(addr, k, ips[..i])
    {
      assert ips[..i + 1][..i] == ips[..i];
      if Allows(addr[k], ips[i]) { out := out + [addr[k := Address(ips[i])]]; }
    }
    assert ips[..|ips|] == ips;
    if out == [] { return None; }
    var unique := DedupMultiaddrs(out);
    return Some(unique);
  }

  // ---- what a resolution should find ----

  /** The records of one lookup, when it is acceptable. */
  function Answer(libs: Libs, addr: Multiaddr, path: Path): Option<seq<string>> {
    if |path| > MAX_DNSADDR_RECURSION || !HasDnsaddr(addr) then None
    else match libs.txt(path, QueryName(FirstName(addr)))
      case None => None
      case Some(records) => if 0 < |records| <= MAX_DNSADDR_RECORDS_PER_LOOKUP then Some(records) else None
  }

  /**
   Every address below `addr` that carries the suffix of each `/dnsaddr` on the way to it,
   repeats included; `None` when anything on the way fails.
   */
  function Leaves(libs: Libs, addr: Multiaddr, path: Path): Option<seq<Multiaddr>>
    decreases 9 - |path|, 1, 0
  {
    match Answer(libs, addr, path)
    case None => None
    case Some(records) => LeavesOf(libs, records, Suffix(addr), path, |records|)
  }

  /** What the first `n` records of a lookup contribute. */
  function LeavesOf(libs: Libs, records: seq<string>, suffix: seq<Protocol>, path: Path, n: nat): Option<seq<Multiaddr>>
    requires n <= |records| && |path| <= MAX_DNSADDR_RECURSION
    decreases 9 - |path|, 0, n
  {
    if n == 0 then Some([])
    else
      var before, one := LeavesOf(libs, records, suffix, path, n - 1),
          RecordLeaves(libs, records[n - 1], path + [n - 1]);
      if before.None? || one.None? then None else Some(before.value + Keep(one.value, suffix))
  }

  function RecordLeaves(libs: Libs, record: string, path: Path): Option<seq<Multiaddr>>
    requires |path| <= MAX_DNSADDR_RECURSION + 1
    decreases 9 - |path|, 2, 0
  {
    match RecordAddr(libs, record)
    case None => None
    case Some(addr) => if HasDnsaddr(addr) then Leaves(libs, addr, path) else HostAddrs(libs, addr, path)
  }

  lemma HostAddrsOk(libs: Libs, addr: Multiaddr, path: Path)
    requires !HasDnsaddr(addr) && HostAddrs(libs, addr, path).Some?
    ensures forall a :: a in HostAddrs(libs, addr, path).value ==> !HasDnsaddr(a)
  {
    var k := FirstHost(addr);
    if k < |addr| { SwapsElems(addr, k, libs.hosts(path, addr[k].name).value); }
  }

  /** No `/dnsaddr` survives, and each address carries the suffix that was asked for. */
  lemma {:induction false} LeavesOk(libs: Libs, addr: Multiaddr, path: Path)
    requires Leaves(libs, addr, path).Some?
    ensures forall a :: a in Leaves(libs, addr, path).value ==> !HasDnsaddr(a) && EndsWith(a, Suffix(addr))
    decreases 9 - |path|, 1, 0
  {
    hide HasDnsaddr, EndsWith, Suffix, LeavesOf;
    var records := Answer(libs, addr, path).value;
    LeavesOfOk(libs, records, Suffix(addr), path, |records|);
  }

  lemma {:induction false} LeavesOfOk(libs: Libs, records: seq<string>, suffix: seq<Protocol>, path: Path, n: nat)
    requires n <= |records| && |path| <= MAX_DNSADDR_RECURSION
    requires LeavesOf(libs, records, suffix, path, n).Some?
    ensures forall a :: a in LeavesOf(libs, records, suffix, path, n).value ==> !HasDnsaddr(a) && EndsWith(a, suffix)
    decreases 9 - |path|, 0, n
  {
    hide HasDnsaddr, EndsWith, Keep, RecordLeaves;
    if n > 0 {
      LeavesOfOk(libs, records, suffix, path, n - 1);
      RecordLeavesOk(libs, records[n - 1], path + [n - 1]);
      KeepElems(RecordLeaves(libs, records[n - 1], path + [n - 1]).value, suffix);
    }
  }

  lemma {:induction false} RecordLeavesOk(libs: Libs, record: string, path: Path)
    requires |path| <= MAX_DNSADDR_RECURSION + 1
    requires RecordLeaves(libs, record, path).Some?
    ensures forall a :: a in RecordLeaves(libs, record, path).value ==> !HasDnsaddr(a)
    decreases 9 - |path|, 2, 0
  {
    hide HasDnsaddr, EndsWith, Leaves, HostAddrs, Suffix;
    var addr := RecordAddr(libs, record).value;
    if HasDnsaddr(addr) { LeavesOk(libs, addr, path); } else { HostAddrsOk(libs, addr, path); }
  }

  // ---- budgets ----

  /** How many addresses the lookups below `addr` give before any suffix is applied. */
  function Load(libs: Libs, addr: Multiaddr, path: Path): nat
    decreases 9 - |path|, 1, 0
  {
    match Answer(libs, addr, path)
    case None => 0
    case Some(records) => LoadOf(libs, records, path, |records|)
  }

  function LoadOf(libs: Libs, records: seq<string>, path: Path, n: nat): nat
    requires n <= |records| && |path| <= MAX_DNSADDR_RECURSION
    decreases 9 - |path|, 0, n
  {
    if n == 0 then 0 else LoadOf(libs, records, path, n - 1) + RecordLoad(libs, records[n - 1], path + [n - 1])
  }

  function RecordLoad(libs: Libs, record: string, path: Path): nat
    requires |path| <= MAX_DNSADDR_RECURSION + 1
    decreases 9 - |path|, 2, 0
  {
    match RecordAddr(libs, record)
    case None => 0
    case Some(addr) =>
      if HasDnsaddr(addr) then Load(libs, addr, path)
      else if HostAddrs(libs, addr, path).None? then 0 else |HostAddrs(libs, addr, path).value|
  }

  lemma {:induction false} LeavesWithinLoad(libs: Libs, addr: Multiaddr, path: Path)
    requires Leaves(libs, addr, path).Some?
    ensures |Leaves(libs, addr, path).value| <= Load(libs, addr, path)
    decreases 9 - |path|, 1, 0
  {
    hide LeavesOf, LoadOf, Suffix;
    var records := Answer(libs, addr, path).value;
    LeavesOfWithinLoad(libs, records, Suffix(addr), path, |records|);
  }

  lemma {:induction false} LeavesOfWithinLoad(libs: Libs, records: seq<string>, suffix: seq<Protocol>, path: Path,
      n: nat)
    requires n <= |records| && |path| <= MAX_DNSADDR_RECURSION
    requires LeavesOf(libs, records, suffix, path, n).Some?
    ensures |LeavesOf(libs, records, suffix, path, n).value| <= LoadOf(libs, records, path, n)
    decreases 9 - |path|, 0, n
  {
    hide Keep, RecordLeaves, RecordLoad;
    if n > 0 {
      LeavesOfWithinLoad(libs, records, suffix, path, n - 1);
      RecordWithinLoad(libs, records[n - 1], path + [n - 1]);
      KeepElems(RecordLeaves(libs, records[n - 1], path + [n - 1]).value, suffix);
    }
  }

  lemma {:induction false} RecordWithinLoad(libs: Libs, record: string, path: Path)
    requires |path| <= MAX_DNSADDR_RECURSION + 1
    requires RecordLeaves(libs, record, path).Some?
    ensures |RecordLeaves(libs, record, path).value| <= RecordLoad(libs, record, path)
    decreases 9 - |path|, 2, 0
  {
    hide HasDnsaddr, Leaves, Load, HostAddrs;
    var addr := RecordAddr(libs, record).value;
    if HasDnsaddr(addr) { LeavesWithinLoad(libs, addr, path); }
  }

  lemma {:induction false} Prefixes(libs: Libs, records: seq<string>, suffix: seq<Protocol>, path: Path, k: nat, n: nat)
    requires k <= n <= |records| && |path| <= MAX_DNSADDR_RECURSION
    ensures LeavesOf(libs, records, suffix, path, n).Some? ==> LeavesOf(libs, records, suffix, path, k).Some?
    ensures forall total: nat :: FitsOf(libs, records, suffix, path, total, n) ==>
        FitsOf(libs, records, suffix, path, total, k)
    ensures LoadOf(libs, records, path, k) <= LoadOf(libs, records, path, n)
    decreases n
  {
    hide Keep, RecordLeaves, RecordLoad, RecordFits, OutLen;
    if k < n { Prefixes(libs, records, suffix, path, k, n - 1); }
  }

  // ---- the running budget ----

  /** Addresses collected from the first `n` records: each record's own list has no repeats. */
  function OutLen(libs: Libs, records: seq<string>, suffix: seq<Protocol>, path: Path, n: nat): nat
    requires n <= |records| && |path| <= MAX_DNSADDR_RECURSION
  {
    if n == 0 then 0
    else
      var one := RecordLeaves(libs, records[n - 1], path + [n - 1]);
      OutLen(libs, records, suffix, path, n - 1) + if one.None? then 0 else |Keep(Dedup(one.value), suffix)|
  }

  /** The budget is never exceeded, at any depth, when `total` addresses are already counted. */
  predicate Fits(libs: Libs, addr: Multiaddr, path: Path, total: nat)
    decreases 9 - |path|, 1, 0
  {
    && total <= MAX_DNSADDR_TOTAL_RECORDS
    && match Answer(libs, addr, path)
       case None => true
       case Some(records) => FitsOf(libs, records, Suffix(addr), path, total, |records|)
  }

  predicate FitsOf(libs: Libs, records: seq<string>, suffix: seq<Protocol>, path: Path, total: nat, n: nat)
    requires n <= |records| && |path| <= MAX_DNSADDR_RECURSION
    decreases 9 - |path|, 0, n
  {
    n == 0 ||
    (&& FitsOf(libs, records, suffix, path, total, n - 1)
     && RecordFits(libs, records[n - 1], path + [n - 1], total + OutLen(libs, records, suffix, path, n - 1) + 1)
     && total + OutLen(libs, records, suffix, path, n) <= MAX_DNSADDR_TOTAL_RECORDS)
  }

  predicate RecordFits(libs: Libs, record: string, path: Path, total: nat)
    requires |path| <= MAX_DNSADDR_RECURSION + 1
    decreases 9 - |path|, 2, 0
  {
    match RecordAddr(libs, record)
    case None => true
    case Some(addr) => HasDnsaddr(addr) ==> Fits(libs, addr, path, total)
  }

  /** Room for everything below `addr`, filtered or not, is room enough. */
  lemma {:induction false} RoomyFits(libs: Libs, addr: Multiaddr, path: Path, total: nat)
    requires Leaves(libs, addr, path).Some? && Roomy(libs, addr, path, total)
    ensures Fits(libs, addr, path, total)
    decreases 9 - |path|, 1, 0
  {
    hide LeavesOf, LoadOf, FitsOf, Suffix;
    var records := Answer(libs, addr, path).value;
    RoomyFitsOf(libs, records, Suffix(addr), path, total, |records|);
  }

  lemma {:induction false} RoomyFitsOf(libs: Libs, records: seq<string>, suffix: seq<Protocol>, path: Path, total: nat,
      n: nat)
    requires n <= |records| && |path| <= MAX_DNSADDR_RECURSION
    requires LeavesOf(libs, records, suffix, path, n).Some?
    requires total + LoadOf(libs, records, path, n) + MAX_DNSADDR_RECURSION - |path| <= MAX_DNSADDR_TOTAL_RECORDS
    ensures FitsOf(libs, records, suffix, path, total, n)
        && OutLen(libs, records, suffix, path, n) <= LoadOf(libs, records, path, n)
    decreases 9 - |path|, 0, n
  {
    hide Keep, RecordLeaves, RecordLoad, RecordFits, Dedup;
    if n > 0 {
      RoomyFitsOf(libs, records, suffix, path, total, n - 1);
      KeptWithinLoad(libs, records[n - 1], path + [n - 1], suffix);
      RoomyRecordFits(libs, records[n - 1], path + [n - 1], total + OutLen(libs, records, suffix, path, n - 1) + 1);
    }
  }

  lemma {:induction false} RoomyRecordFits(libs: Libs, record: string, path: Path, total: nat)
    requires |path| <= MAX_DNSADDR_RECURSION + 1 && RecordLeaves(libs, record, path).Some?
    requires total + RecordLoad(libs, record, path) + MAX_DNSADDR_RECURSION - |path| <= MAX_DNSADDR_TOTAL_RECORDS
    ensures RecordFits(libs, record, path, total)
    decreases 9 - |path|, 2, 0
  {
    hide HasDnsaddr, Leaves, Load, Fits, HostAddrs;
    var addr := RecordAddr(libs, record).value;
    if HasDnsaddr(addr) { RoomyFits(libs, addr, path, total); }
  }

  /** Lookups a resolution with `levels` levels left can make. */
  function LookupBound(levels: nat): nat {
    if levels == 0 then 0 else 1 + MAX_DNSADDR_RECORDS_PER_LOOKUP * LookupBound(levels - 1)
  }

  /** Enough room for everything below `addr`, one unit for each level still open. */
  predicate Roomy(libs: Libs, addr: Multiaddr, path: Path, total: nat) {
    total + Load(libs, addr, path) + MAX_DNSADDR_RECURSION - |path| <= MAX_DNSADDR_TOTAL_RECORDS
  }

  /** What one resolution answers: the leaves without repeats, exactly when they exist and the budget lasts. */
  predicate Resolves(libs: Libs, addr: Multiaddr, path: Path, total: nat, r: Option<seq<Multiaddr>>) {
    var leaves := Leaves(libs, addr, path);
    && (r.Some? <==> leaves.Some? && Fits(libs, addr, path, total))
    && (r.Some? ==> r.value == Dedup(leaves.value) && total + |r.value| <= MAX_DNSADDR_TOTAL_RECORDS)
  }

  /** One lookup level for each entry of `levels`; none is deeper than the ninth. */
  predicate Bounded(levels: seq<nat>, depth: nat) {
    && (forall l :: l in levels ==> depth <= l <= MAX_DNSADDR_RECURSION)
    && (depth <= 9 ==> |levels| <= LookupBound(9 - depth))
    && (depth > 9 ==> levels == [])
  }

  method ResolveDnsaddr(libs: Libs, addr: Multiaddr, path: Path, total: nat)
    returns (r: Option<seq<Multiaddr>>, levels: seq<nat>)
    ensures Resolves(libs, addr, path, total, r)
    ensures Bounded(levels, |path|)
    decreases 9 - |path|, 1, 0
  {
    hide LeavesOf, FitsOf, Dedup, LookupBound, HasDnsaddr, Suffix, FirstName, Splits;
    levels := [];
    BoundAtLeastOne(|path|);
    if |path| > MAX_DNSADDR_RECURSION { return None, levels; }
    if total > MAX_DNSADDR_TOTAL_RECORDS { return None, levels; }
    var split := SplitFirstDnsaddr(addr);
    if split.None? { return None, levels; }
    levels := [|path|];
    var answer := libs.txt(path, QueryName(split.value.0));
    if answer.None? { return None, levels; }
    var records := answer.value;
    if |records| == 0 || |records| > MAX_DNSADDR_RECORDS_PER_LOOKUP { return None, levels; }
    var below;
    r, below := ResolveRecords(libs, records, split.value.1, path, total);
    LevelsTotal(|below|, |records|, |path|);
    levels := levels + below;
  }

  method ResolveRecords(libs: Libs, records: seq<string>, suffix: seq<Protocol>, path: Path, total: nat)
    returns (r: Option<seq<Multiaddr>>, levels: seq<nat>)
    requires 0 < |records| <= MAX_DNSADDR_RECORDS_PER_LOOKUP && |path| <= MAX_DNSADDR_RECURSION
    requires total <= MAX_DNSADDR_TOTAL_RECORDS
    ensures r.Some? <==>
              && LeavesOf(libs, records, suffix, path, |records|).Some?
              && FitsOf(libs, records, suffix, path, total, |records|)
    ensures r.Some? ==>
              && r.value == Dedup(LeavesOf(libs, records, suffix, path, |records|).value)
              && total + |r.value| <= MAX_DNSADDR_TOTAL_RECORDS
    ensures forall l :: l in levels ==> |path| < l <= MAX_DNSADDR_RECURSION
    ensures |levels| <= |records| * LookupBound(8 - |path|)
    decreases 9 - |path|, 0, 0
  {
    hide LeavesOf, FitsOf, RecordLeaves, RecordFits, OutLen, LookupBound, Dedup, Keep;
    levels, r := [], None;
    var out := [];
    EmptyPrefix(libs, records, suffix, path);
    for i := 0 to |records|
      invariant LeavesOf(libs, records, suffix, path, i).Some?
      invariant Dedup(out) == Dedup(LeavesOf(libs, records, suffix, path, i).value)
      invariant FitsOf(libs, records, suffix, path, total, i)
      invariant |out| == OutLen(libs, records, suffix, path, i) && total + |out| <= MAX_DNSADDR_TOTAL_RECORDS
      invariant forall l :: l in levels ==> |path| < l <= MAX_DNSADDR_RECURSION
      invariant |levels| <= i * LookupBound(8 - |path|)
    {
      Prefixes(libs, records, suffix, path, i + 1, |records|);
      NextRecord(libs, records, suffix, path, i);
      NextFits(libs, records, suffix, path, total, i);
      var resolved, below := ResolveRecord(libs, records[i], path + [i], total + |out| + 1);
      LevelsStep(i, |records|, LookupBound(8 - |path|));
      levels := levels + below;
      if resolved.None? { return; }
      var kept := Retain(resolved.value, suffix);
      Absorb(out, LeavesOf(libs, records, suffix, path, i).value, RecordLeaves(libs, records[i], path + [i]).value,
          suffix);
      out := out + kept;
      if total + |out| > MAX_DNSADDR_TOTAL_RECORDS { return; }
    }
    var unique := DedupMultiaddrs(out);
    DedupElems(out);
    r := Some(unique);
  }

  lemma EmptyPrefix(libs: Libs, records: seq<string>, suffix: seq<Protocol>, path: Path)
    requires |path| <= MAX_DNSADDR_RECURSION
    ensures LeavesOf(libs, records, suffix, path, 0) == Some([]) && OutLen(libs, records, suffix, path, 0) == 0
    ensures forall total: nat :: FitsOf(libs, records, suffix, path, total, 0)
  {}

  lemma NextFits(libs: Libs, records: seq<string>, suffix: seq<Protocol>, path: Path, total: nat, i: nat)
    requires i < |records| && |path| <= MAX_DNSADDR_RECURSION
    ensures var one := RecordLeaves(libs, records[i], path + [i]);
            OutLen(libs, records, suffix, path, i + 1) ==
            OutLen(libs, records, suffix, path, i) + if one.None? then 0 else |Keep(Dedup(one.value), suffix)|
    ensures FitsOf(libs, records, suffix, path, total, i + 1) <==>
              && FitsOf(libs, records, suffix, path, total, i)
              && RecordFits(libs, records[i], path + [i], total + OutLen(libs, records, suffix, path, i) + 1)
              && total + OutLen(libs, records, suffix, path, i + 1) <= MAX_DNSADDR_TOTAL_RECORDS
  {
    hide Keep, RecordLeaves, RecordFits, Dedup;
  }

  lemma NextRecord(libs: Libs, records: seq<string>, suffix: seq<Protocol>, path: Path, i: nat)
    requires i < |records| && |path| <= MAX_DNSADDR_RECURSION
    requires LeavesOf(libs, records, suffix, path, i).Some?
    ensures var one := RecordLeaves(libs, records[i], path + [i]);
            LeavesOf(libs, records, suffix, path, i + 1) ==
            if one.None? then None else Some(LeavesOf(libs, records, suffix, path, i).value + Keep(one.value, suffix))
  {
    hide Keep, RecordLeaves;
  }

  lemma LevelsTotal(below: nat, n: nat, depth: nat)
    requires depth <= MAX_DNSADDR_RECURSION && n <= MAX_DNSADDR_RECORDS_PER_LOOKUP
        && below <= n * LookupBound(8 - depth)
    ensures 1 + below <= LookupBound(9 - depth)
  {
    var bound := LookupBound(8 - depth);
    assert n * bound <= MAX_DNSADDR_RECORDS_PER_LOOKUP * bound;
  }

  lemma BoundAtLeastOne(depth: nat)
    ensures depth <= MAX_DNSADDR_RECURSION ==> LookupBound(9 - depth) >= 1
  {}

  lemma LevelsStep(i: nat, n: nat, bound: nat)
    requires i < n
    ensures i * bound + bound == (i + 1) * bound <= n * bound
  {}

  lemma KeptWithinLoad(libs: Libs, record: string, path: Path, suffix: seq<Protocol>)
    requires |path| <= MAX_DNSADDR_RECURSION + 1
    requires RecordLeaves(libs, record, path).Some?
    ensures |Keep(Dedup(RecordLeaves(libs, record, path).value), suffix)| <= RecordLoad(libs, record, path)
  {
    hide RecordLeaves, RecordLoad, Keep, Dedup;
    RecordWithinLoad(libs, record, path);
    DedupElems(RecordLeaves(libs, record, path).value);
    KeepElems(Dedup(RecordLeaves(libs, record, path).value), suffix);
  }

  /** Filtering and joining repeat-free parts loses nothing against doing it once at the end. */
  lemma Absorb(out: seq<Multiaddr>, before: seq<Multiaddr>, one: seq<Multiaddr>, suffix: seq<Protocol>)
    requires Dedup(out) == Dedup(before)
    ensures Dedup(out + Keep(Dedup(one), suffix)) == Dedup(before + Keep(one, suffix))
  {
    hide Dedup, Keep;
    var kept := Keep(one, suffix);
    KeepDedup(one, suffix);
    DedupElems(kept);
    DedupFixed(Dedup(kept));
    DedupConcat(out, Dedup(kept));
    DedupConcat(before, kept);
  }

  method ResolveRecord(libs: Libs, record: string, path: Path, total: nat)
    returns (r: Option<seq<Multiaddr>>, levels: seq<nat>)
    requires |path| <= MAX_DNSADDR_RECURSION + 1
    ensures r.Some? <==> RecordLeaves(libs, record, path).Some? && RecordFits(libs, record, path, total)
    ensures r.Some? ==> r.value == Dedup(RecordLeaves(libs, record, path).value)
    ensures Bounded(levels, |path|)
    decreases 9 - |path|, 2, 0
  {
    hide HasDnsaddr, Leaves, Fits, HostAddrs, LookupBound, Dedup;
    levels := [];
    var candidate := RecordAddr(libs, record);
    if candidate.None? { return None, levels; }
    if HasDnsaddr(candidate.value) {
      r, levels := ResolveDnsaddr(libs, candidate.value, path, total);
    } else {
      r := ResolveOrdinary(libs, candidate.value, path);
    }
  }

  /**
   Resolution as callers see it. Whatever the answers, it ends after at most nine levels
   of lookups, and a success is duplicate-free, within budget, free of `/dnsaddr`, and
   made of exactly the reachable addresses that carry the requested suffix.
   */
  method ResolveMultiaddr(libs: Libs, enabled: bool, addr: Multiaddr)
      returns (r: Option<seq<Multiaddr>>, levels: seq<nat>)
    ensures forall l :: l in levels ==> l <= MAX_DNSADDR_RECURSION
    ensures |levels| <= LookupBound(9)
    ensures HasDnsaddr(addr) && !enabled ==> r.None? && levels == []
    ensures HasDnsaddr(addr) && r.Some? ==>
              && NoDup(r.value) && |r.value| <= MAX_DNSADDR_TOTAL_RECORDS
              && (forall a :: a in r.value ==> !HasDnsaddr(a) && EndsWith(a, Suffix(addr)))
              && Leaves(libs, addr, []).Some? && r.value == Dedup(Leaves(libs, addr, []).value)
    ensures HasDnsaddr(addr) && enabled ==> (r.Some? <==> Leaves(libs, addr, []).Some? && Fits(libs, addr, [], 0))
    ensures HasDnsaddr(addr) && enabled && Leaves(libs, addr, []).Some? && Load(libs, addr, []) <= 120 ==> r.Some?
    ensures !HasDnsaddr(addr) ==> levels == [] && (r.Some? <==> HostAddrs(libs, addr, []).Some?)
    ensures !HasDnsaddr(addr) && r.Some? ==> r.value == Dedup(HostAddrs(libs, addr, []).value)
  {
    hide Leaves, Load, Fits, HostAddrs, LookupBound, Dedup, EndsWith, Suffix, HasDnsaddr, NoDup;
    if HasDnsaddr(addr) {
      if !enabled { return None, []; }
      if Leaves(libs, addr, []).Some? && Load(libs, addr, []) <= 120 { RoomyFits(libs, addr, [], 0); }
      r, levels := ResolveDnsaddr(libs, addr, [], 0);
      if r.Some? {
        LeavesOk(libs, addr, []);
        DedupElems(Leaves(libs, addr, []).value);
      }
    } else {
      levels := [];
      r := ResolveOrdinary(libs, addr, []);
    }
  }
}
