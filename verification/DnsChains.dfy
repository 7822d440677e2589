/**
 What `/dnsaddr` resolution finds, without its recursion: chains of records that lead from the
 requested address to addresses that name no `/dnsaddr` any more.
 */
module DnsChains {
  import opened Base
  import opened Dns

  // ---- one lookup ----

  /** The lookup for the first `/dnsaddr` name of `addr` gives `records`; `suffix` is what follows the name. */
  ghost predicate Asked(libs: Libs, addr: Multiaddr, path: Path, records: seq<string>, suffix: seq<Protocol>) {
    exists k: nat :: && Splits(addr, k) && suffix == addr[k + 1..]
                     && libs.txt(path, "_dnsaddr." + TrimDots(addr[k].name) + ".") == Some(records)
  }

  /** The record is the text of an address, of at most 4096 bytes. */
  predicate Announces(libs: Libs, record: string, next: Multiaddr) {
    "dnsaddr=" <= record && libs.utf8Len(record[8..]) <= 4096 && libs.parse(record[8..]) == Some(next)
  }

  ghost predicate Readable(libs: Libs, record: string) { exists next :: Announces(libs, record, next) }

  ghost predicate AllReadable(libs: Libs, records: seq<string>) {
    forall i :: 0 <= i < |records| ==> Readable(libs, records[i])
  }

  lemma {:induction false} FirstDnsaddr(addr: Multiaddr) returns (k: nat)
    requires HasDnsaddr(addr)
    ensures Splits(addr, k)
  {
    if addr[0].Dnsaddr? {
      k := 0;
    } else {
      var i :| 0 <= i < |addr| && addr[i].Dnsaddr?;
      assert addr[1..][i - 1] == addr[i];
      k := FirstDnsaddr(addr[1..]);
      k := k + 1;
    }
  }

  lemma AskedIs(libs: Libs, addr: Multiaddr, path: Path, records: seq<string>, suffix: seq<Protocol>)
    ensures Asked(libs, addr, path, records, suffix) <==>
              && HasDnsaddr(addr) && suffix == Suffix(addr)
              && libs.txt(path, QueryName(FirstName(addr))) == Some(records)
  {
    hide Suffix, FirstName, TrimDots;
    if HasDnsaddr(addr) {
      var k := FirstDnsaddr(addr);
      SuffixAt(addr, k);
    }
  }

  lemma AnnouncesIs(libs: Libs, record: string, next: Multiaddr)
    ensures Announces(libs, record, next) <==> RecordAddr(libs, record) == Some(next)
  {}

  lemma ReadableIs(libs: Libs, record: string)
    ensures Readable(libs, record) <==> RecordAddr(libs, record).Some?
  {
    hide RecordAddr, Announces;
    forall next { AnnouncesIs(libs, record, next); }
    if RecordAddr(libs, record).Some? { assert Announces(libs, record, RecordAddr(libs, record).value); }
  }

  // ---- chains ----

  /** Record number `i` of the lookup for `addr` announces `next`. */
  ghost predicate Hop(libs: Libs, addr: Multiaddr, path: Path, i: nat, next: Multiaddr) {
    exists records, suffix :: && Asked(libs, addr, path, records, suffix)
                              && i < |records| && Announces(libs, records[i], next)
  }

  /** Following record `nums[0]`, then `nums[1]`, and so on leads through `hops`. */
  ghost predicate Chain(libs: Libs, addr: Multiaddr, path: Path, nums: seq<nat>, hops: seq<Multiaddr>) {
    && |hops| == |nums| + 1 && hops[0] == addr
    && forall j :: 0 <= j < |nums| ==> Hop(libs, hops[j], path + nums[..j], nums[j], hops[j + 1])
  }

  /** Nothing fails here: an acceptable lookup within the ninth level, or a host that resolves. */
  ghost predicate Succeeds(libs: Libs, addr: Multiaddr, path: Path) {
    if !HasDnsaddr(addr) then HostAddrs(libs, addr, path).Some?
    else
      && |path| <= 8
      && exists records, suffix ::
           Asked(libs, addr, path, records, suffix) && 1 <= |records| <= 32 && AllReadable(libs, records)
  }

  /** `a` is found at the end of the chain and carries the suffix of each name on the way. */
  ghost predicate EndsAt(libs: Libs, path: Path, nums: seq<nat>, hops: seq<Multiaddr>, a: Multiaddr)
    requires |hops| == |nums| + 1
  {
    && !HasDnsaddr(hops[|nums|]) && HostAddrs(libs, hops[|nums|], path + nums).Some?
    && a in HostAddrs(libs, hops[|nums|], path + nums).value
    && forall j :: 0 <= j < |nums| ==> EndsWith(a, Suffix(hops[j]))
  }

  lemma ChainTail(libs: Libs, addr: Multiaddr, path: Path, nums: seq<nat>, hops: seq<Multiaddr>)
    requires Chain(libs, addr, path, nums, hops) && nums != []
    ensures Hop(libs, addr, path, nums[0], hops[1])
    ensures Chain(libs, hops[1], path + [nums[0]], nums[1..], hops[1..])
    ensures path + [nums[0]] + nums[1..] == path + nums
  {
    hide Hop;
    var p, n, h := path + [nums[0]], nums[1..], hops[1..];
    assert path + nums[..0] == path;
    forall j | 0 <= j < |n| ensures Hop(libs, h[j], p + n[..j], n[j], h[j + 1]) {
      assert Hop(libs, hops[j + 1], path + nums[..j + 1], nums[j + 1], hops[j + 2]);
      assert p + n[..j] == path + nums[..j + 1];
    }
  }

  lemma ChainCons(libs: Libs, addr: Multiaddr, path: Path, i: nat, next: Multiaddr, nums: seq<nat>,
                  hops: seq<Multiaddr>)
    requires Hop(libs, addr, path, i, next) && Chain(libs, next, path + [i], nums, hops)
    ensures Chain(libs, addr, path, [i] + nums, [addr] + hops)
    ensures path + [i] + nums == path + ([i] + nums) && ([addr] + hops)[|[i] + nums|] == hops[|nums|]
  {
    hide Hop;
    var n, h := [i] + nums, [addr] + hops;
    forall j | 0 <= j < |n| ensures Hop(libs, h[j], path + n[..j], n[j], h[j + 1]) {
      if j == 0 {
        assert path + n[..0] == path;
      } else {
        assert Hop(libs, hops[j - 1], path + [i] + nums[..j - 1], nums[j - 1], hops[j]);
        assert path + [i] + nums[..j - 1] == path + n[..j];
      }
    }
  }

  lemma ChainStart(libs: Libs, addr: Multiaddr, path: Path)
    ensures Chain(libs, addr, path, [], [addr]) && path + [] == path
  {}

  lemma EndsTail(libs: Libs, path: Path, nums: seq<nat>, hops: seq<Multiaddr>, a: Multiaddr)
    requires |hops| == |nums| + 1 && nums != []
    ensures EndsAt(libs, path, nums, hops, a) <==>
              EndsWith(a, Suffix(hops[0])) && EndsAt(libs, path + [nums[0]], nums[1..], hops[1..], a)
  {
    hide EndsWith, Suffix, HasDnsaddr, HostAddrs;
    assert path + [nums[0]] + nums[1..] == path + nums;
    assert forall j :: 0 <= j < |nums[1..]| ==> hops[1..][j] == hops[j + 1];
    if EndsWith(a, Suffix(hops[0])) && EndsAt(libs, path + [nums[0]], nums[1..], hops[1..], a) {
      forall j | 0 <= j < |nums| ensures EndsWith(a, Suffix(hops[j])) {
        if j > 0 { assert hops[j] == hops[1..][j - 1]; }
      }
    }
  }

  // ---- the recursion against the chains ----

  /** What the resolution gives for an address, whichever kind it is. */
  function Found(libs: Libs, addr: Multiaddr, path: Path): Option<seq<Multiaddr>> {
    if HasDnsaddr(addr) then Leaves(libs, addr, path) else HostAddrs(libs, addr, path)
  }

  lemma RecordIs(libs: Libs, record: string, path: Path)
    requires |path| <= MAX_DNSADDR_RECURSION + 1
    ensures RecordLeaves(libs, record, path) ==
              match RecordAddr(libs, record) case None => None case Some(next) => Found(libs, next, path)
  {
    hide Leaves, HostAddrs, HasDnsaddr, RecordAddr;
  }

  lemma {:induction false} LeavesOfAll(libs: Libs, records: seq<string>, suffix: seq<Protocol>, path: Path, n: nat)
    requires n <= |records| && |path| <= MAX_DNSADDR_RECURSION
    ensures LeavesOf(libs, records, suffix, path, n).Some? <==>
              forall i: nat :: i < n ==> RecordLeaves(libs, records[i], path + [i]).Some?
  {
    hide RecordLeaves, Keep;
    if n > 0 { LeavesOfAll(libs, records, suffix, path, n - 1); }
  }

  ghost predicate FromRecord(libs: Libs, record: string, path: Path, suffix: seq<Protocol>, a: Multiaddr)
    requires |path| <= MAX_DNSADDR_RECURSION + 1
  {
    var one := RecordLeaves(libs, record, path);
    one.Some? && a in one.value && EndsWith(a, suffix)
  }

  lemma {:induction false} LeavesOfElems(libs: Libs, records: seq<string>, suffix: seq<Protocol>, path: Path, n: nat,
                                         a: Multiaddr)
    requires n <= |records| && |path| <= MAX_DNSADDR_RECURSION
    requires LeavesOf(libs, records, suffix, path, n).Some?
    ensures a in LeavesOf(libs, records, suffix, path, n).value <==>
              exists i: nat :: i < n && FromRecord(libs, records[i], path + [i], suffix, a)
  {
    hide RecordLeaves, Keep, EndsWith;
    if n > 0 {
      LeavesOfElems(libs, records, suffix, path, n - 1, a);
      KeepElems(RecordLeaves(libs, records[n - 1], path + [n - 1]).value, suffix);
      assert FromRecord(libs, records[n - 1], path + [n - 1], suffix, a) <==>
             a in Keep(RecordLeaves(libs, records[n - 1], path + [n - 1]).value, suffix);
    }
  }

  /** A lookup succeeds exactly when its answer is acceptable and every record of it is. */
  lemma SucceedsIs(libs: Libs, addr: Multiaddr, path: Path)
    requires HasDnsaddr(addr)
    ensures Succeeds(libs, addr, path) <==>
              Answer(libs, addr, path).Some? && AllReadable(libs, Answer(libs, addr, path).value)
  {
    hide HasDnsaddr, Asked, AllReadable, Suffix, FirstName, QueryName;
    forall records, suffix { AskedIs(libs, addr, path, records, suffix); }
    if Answer(libs, addr, path).Some? {
      assert Asked(libs, addr, path, Answer(libs, addr, path).value, Suffix(addr));
    }
  }

  /** The hops from an address are the readable records of its lookup. */
  lemma HopIs(libs: Libs, addr: Multiaddr, path: Path, i: nat, next: Multiaddr)
    requires Answer(libs, addr, path).Some?
    ensures Hop(libs, addr, path, i, next) <==>
              var records := Answer(libs, addr, path).value;
              i < |records| && RecordAddr(libs, records[i]) == Some(next)
  {
    hide HasDnsaddr, Asked, Announces, RecordAddr, Suffix, FirstName, QueryName;
    var all := Answer(libs, addr, path).value;
    forall records, suffix { AskedIs(libs, addr, path, records, suffix); }
    forall record { AnnouncesIs(libs, record, next); }
    assert HasDnsaddr(addr);
    assert Asked(libs, addr, path, all, Suffix(addr));
  }

  ghost predicate AllSucceed(libs: Libs, addr: Multiaddr, path: Path) {
    forall nums, hops :: Chain(libs, addr, path, nums, hops) ==> Succeeds(libs, hops[|nums|], path + nums)
  }

  lemma AllSucceedHere(libs: Libs, addr: Multiaddr, path: Path)
    requires AllSucceed(libs, addr, path)
    ensures Succeeds(libs, addr, path)
  {
    hide Succeeds, Chain;
    ChainStart(libs, addr, path);
    var none: seq<nat> := [];
    assert [addr][|none|] == addr && Chain(libs, addr, path, none, [addr]);
  }

  lemma AllSucceedNext(libs: Libs, addr: Multiaddr, path: Path, i: nat, next: Multiaddr)
    requires AllSucceed(libs, addr, path) && Hop(libs, addr, path, i, next)
    ensures AllSucceed(libs, next, path + [i])
  {
    hide Succeeds, Hop;
    forall nums, hops | Chain(libs, next, path + [i], nums, hops)
      ensures Succeeds(libs, hops[|nums|], path + [i] + nums)
    {
      ChainCons(libs, addr, path, i, next, nums, hops);
    }
  }

  lemma ChainEnds(libs: Libs, addr: Multiaddr, path: Path, nums: seq<nat>, hops: seq<Multiaddr>)
    requires !HasDnsaddr(addr) && Chain(libs, addr, path, nums, hops)
    ensures nums == [] && hops == [addr]
  {
    if nums != [] {
      ChainTail(libs, addr, path, nums, hops);
    }
  }

  /** Resolution comes to an end without a failure exactly when nothing on any chain fails. */
  lemma {:induction false} FoundIffAllSucceed(libs: Libs, addr: Multiaddr, path: Path)
    ensures Found(libs, addr, path).Some? <==> AllSucceed(libs, addr, path)
    decreases 9 - |path|
  {
    hide HasDnsaddr, Succeeds, AllSucceed, Leaves, HostAddrs, Chain, Hop;
    if !HasDnsaddr(addr) {
      HostIffAllSucceed(libs, addr, path);
    } else if Answer(libs, addr, path).None? {
      SucceedsIs(libs, addr, path);
      if AllSucceed(libs, addr, path) { AllSucceedHere(libs, addr, path); }
      NoLeaves(libs, addr, path);
    } else {
      var records := Answer(libs, addr, path).value;
      forall i: nat | i < |records| && RecordAddr(libs, records[i]).Some?
        ensures Found(libs, RecordAddr(libs, records[i]).value, path + [i]).Some? <==>
                AllSucceed(libs, RecordAddr(libs, records[i]).value, path + [i])
      {
        FoundIffAllSucceed(libs, RecordAddr(libs, records[i]).value, path + [i]);
      }
      LookupIffAllSucceed(libs, addr, path);
    }
  }

  lemma NoLeaves(libs: Libs, addr: Multiaddr, path: Path)
    requires Answer(libs, addr, path).None?
    ensures Leaves(libs, addr, path).None?
  {}

  lemma HostIffAllSucceed(libs: Libs, addr: Multiaddr, path: Path)
    requires !HasDnsaddr(addr)
    ensures HostAddrs(libs, addr, path).Some? <==> AllSucceed(libs, addr, path)
  {
    hide HasDnsaddr, HostAddrs, Chain;
    if AllSucceed(libs, addr, path) { AllSucceedHere(libs, addr, path); }
    forall nums, hops | Chain(libs, addr, path, nums, hops) && HostAddrs(libs, addr, path).Some?
      ensures |hops| == |nums| + 1 && Succeeds(libs, hops[|nums|], path + nums)
    {
      ChainEnds(libs, addr, path, nums, hops);
      assert path + [] == path;
    }
    ChainSizes(libs, addr, path);
  }

  lemma ChainSizes(libs: Libs, addr: Multiaddr, path: Path)
    ensures forall nums, hops :: Chain(libs, addr, path, nums, hops) ==> |hops| == |nums| + 1
  {}

  /** The same for one lookup, given it for the address of every record. */
  lemma LookupIffAllSucceed(libs: Libs, addr: Multiaddr, path: Path)
    requires HasDnsaddr(addr) && Answer(libs, addr, path).Some?
    requires forall i: nat :: i < |Answer(libs, addr, path).value| ==>
        var next := RecordAddr(libs, Answer(libs, addr, path).value[i]);
        next.Some? ==> (Found(libs, next.value, path + [i]).Some? <==> AllSucceed(libs, next.value, path + [i]))
    ensures Leaves(libs, addr, path).Some? <==> AllSucceed(libs, addr, path)
  {
    hide HasDnsaddr, Succeeds, AllSucceed, HostAddrs, Chain, Hop, RecordAddr, Found, LeavesOf, RecordLeaves;
    var records := Answer(libs, addr, path).value;
    LeavesOfAll(libs, records, Suffix(addr), path, |records|);
    forall i: nat | i < |records|
      ensures RecordLeaves(libs, records[i], path + [i]).Some? <==>
              var next := RecordAddr(libs, records[i]); next.Some? && AllSucceed(libs, next.value, path + [i])
    {
      RecordIs(libs, records[i], path + [i]);
    }
    forall i: nat | i < |records| { ReadableIs(libs, records[i]); }
    SucceedsIs(libs, addr, path);
    if AllSucceed(libs, addr, path) {
      AllSucceedHere(libs, addr, path);
      forall i: nat | i < |records| ensures RecordLeaves(libs, records[i], path + [i]).Some? {
        assert Readable(libs, records[i]);
        var next := RecordAddr(libs, records[i]).value;
        HopIs(libs, addr, path, i, next);
        AllSucceedNext(libs, addr, path, i, next);
      }
    }
    if Leaves(libs, addr, path).Some? {
      assert forall i: nat :: i < |records| ==> RecordLeaves(libs, records[i], path + [i]).Some?;
      AllFromRecords(libs, addr, path);
    }
  }

  lemma AllFromRecords(libs: Libs, addr: Multiaddr, path: Path)
    requires HasDnsaddr(addr) && Answer(libs, addr, path).Some?
    requires forall i: nat :: i < |Answer(libs, addr, path).value| ==>
        && RecordAddr(libs, Answer(libs, addr, path).value[i]).Some?
        && AllSucceed(libs, RecordAddr(libs, Answer(libs, addr, path).value[i]).value, path + [i])
    ensures AllSucceed(libs, addr, path)
  {
    hide HasDnsaddr, Succeeds, HostAddrs, Hop, RecordAddr;
    var records := Answer(libs, addr, path).value;
    forall i: nat | i < |records| { ReadableIs(libs, records[i]); }
    SucceedsIs(libs, addr, path);
    forall nums, hops | Chain(libs, addr, path, nums, hops) ensures Succeeds(libs, hops[|nums|], path + nums) {
      if nums == [] {
        assert path + nums == path;
      } else {
        ChainTail(libs, addr, path, nums, hops);
        HopIs(libs, addr, path, nums[0], hops[1]);
        assert Chain(libs, hops[1], path + [nums[0]], nums[1..], hops[1..]);
        assert hops[1..][|nums[1..]|] == hops[|nums|];
      }
    }
  }

  ghost predicate Reachable(libs: Libs, addr: Multiaddr, path: Path, a: Multiaddr) {
    exists nums, hops :: Chain(libs, addr, path, nums, hops) && EndsAt(libs, path, nums, hops, a)
  }

  /** The addresses found are exactly those at the end of a chain that carry every suffix on the way. */
  lemma {:induction false} FoundIffReachable(libs: Libs, addr: Multiaddr, path: Path, a: Multiaddr)
    requires Found(libs, addr, path).Some?
    ensures a in Found(libs, addr, path).value <==> Reachable(libs, addr, path, a)
    decreases 9 - |path|
  {
    hide HasDnsaddr, Reachable, Leaves, HostAddrs;
    if !HasDnsaddr(addr) {
      HostReachable(libs, addr, path, a);
    } else {
      LeavesNeedAnswer(libs, addr, path);
      var records := Answer(libs, addr, path).value;
      forall i: nat | i < |records|
        ensures RecordAddr(libs, records[i]).Some?
        ensures var next := RecordAddr(libs, records[i]).value;
                && Found(libs, next, path + [i]).Some?
                && (a in Found(libs, next, path + [i]).value <==> Reachable(libs, next, path + [i], a))
      {
        RecordsFound(libs, addr, path, i);
        FoundIffReachable(libs, RecordAddr(libs, records[i]).value, path + [i], a);
      }
      LookupReachable(libs, addr, path, a);
    }
  }

  lemma LeavesNeedAnswer(libs: Libs, addr: Multiaddr, path: Path)
    requires Leaves(libs, addr, path).Some?
    ensures Answer(libs, addr, path).Some? && |path| <= MAX_DNSADDR_RECURSION
    ensures var records := Answer(libs, addr, path).value;
            Leaves(libs, addr, path) == LeavesOf(libs, records, Suffix(addr), path, |records|)
  {
    hide LeavesOf;
  }

  lemma RecordsFound(libs: Libs, addr: Multiaddr, path: Path, i: nat)
    requires Leaves(libs, addr, path).Some? && Answer(libs, addr, path).Some? && |path| <= MAX_DNSADDR_RECURSION
    requires i < |Answer(libs, addr, path).value|
    ensures RecordAddr(libs, Answer(libs, addr, path).value[i]).Some?
    ensures Found(libs, RecordAddr(libs, Answer(libs, addr, path).value[i]).value, path + [i]).Some?
  {
    hide Leaves, LeavesOf, RecordLeaves, Found;
    LeavesNeedAnswer(libs, addr, path);
    var records := Answer(libs, addr, path).value;
    LeavesOfAll(libs, records, Suffix(addr), path, |records|);
    RecordIs(libs, records[i], path + [i]);
  }

  lemma HostReachable(libs: Libs, addr: Multiaddr, path: Path, a: Multiaddr)
    requires !HasDnsaddr(addr) && HostAddrs(libs, addr, path).Some?
    ensures a in HostAddrs(libs, addr, path).value <==> Reachable(libs, addr, path, a)
  {
    hide HasDnsaddr, HostAddrs, Chain;
    ChainStart(libs, addr, path);
    ChainSizes(libs, addr, path);
    assert path + [] == path;
    if a in HostAddrs(libs, addr, path).value { assert EndsAt(libs, path, [], [addr], a); }
    if Reachable(libs, addr, path, a) {
      var nums, hops :| Chain(libs, addr, path, nums, hops) && EndsAt(libs, path, nums, hops, a);
      ChainEnds(libs, addr, path, nums, hops);
    }
  }

  lemma LookupReachable(libs: Libs, addr: Multiaddr, path: Path, a: Multiaddr)
    requires HasDnsaddr(addr) && Leaves(libs, addr, path).Some? && Answer(libs, addr, path).Some?
    requires forall i: nat :: i < |Answer(libs, addr, path).value| ==>
        var record := Answer(libs, addr, path).value[i];
        && RecordAddr(libs, record).Some?
        && Found(libs, RecordAddr(libs, record).value, path + [i]).Some?
        && (a in Found(libs, RecordAddr(libs, record).value, path + [i]).value <==>
            Reachable(libs, RecordAddr(libs, record).value, path + [i], a))
    ensures a in Leaves(libs, addr, path).value <==> Reachable(libs, addr, path, a)
  {
    hide HasDnsaddr, Leaves, LeavesOf, RecordLeaves, RecordAddr, Found, Reachable, EndsWith, Suffix;
    LeavesNeedAnswer(libs, addr, path);
    var records, suffix := Answer(libs, addr, path).value, Suffix(addr);
    LeavesOfElems(libs, records, suffix, path, |records|, a);
    forall i: nat | i < |records|
      ensures FromRecord(libs, records[i], path + [i], suffix, a) <==>
              EndsWith(a, suffix) && Reachable(libs, RecordAddr(libs, records[i]).value, path + [i], a)
    {
      RecordIs(libs, records[i], path + [i]);
    }
    ReachableByRecord(libs, addr, path, a);
  }

  /** Chains from an address start with one of its records. */
  lemma ReachableByRecord(libs: Libs, addr: Multiaddr, path: Path, a: Multiaddr)
    requires HasDnsaddr(addr) && Answer(libs, addr, path).Some?
    requires forall i: nat :: i < |Answer(libs, addr, path).value| ==>
        RecordAddr(libs, Answer(libs, addr, path).value[i]).Some?
    ensures Reachable(libs, addr, path, a) <==> exists i: nat ::
              && i < |Answer(libs, addr, path).value| && EndsWith(a, Suffix(addr))
              && Reachable(libs, RecordAddr(libs, Answer(libs, addr, path).value[i]).value, path + [i], a)
  {
    hide HasDnsaddr, RecordAddr, EndsWith, Suffix, Chain, Hop, EndsAt;
    var records := Answer(libs, addr, path).value;
    if Reachable(libs, addr, path, a) {
      ChainSizes(libs, addr, path);
      var nums, hops :| Chain(libs, addr, path, nums, hops) && EndsAt(libs, path, nums, hops, a);
      NotYetEnded(libs, addr, path, nums, hops, a);
      ChainTail(libs, addr, path, nums, hops);
      EndsTail(libs, path, nums, hops, a);
      HopIs(libs, addr, path, nums[0], hops[1]);
      assert Reachable(libs, hops[1], path + [nums[0]], a);
    }
    forall i: nat | i < |records| && EndsWith(a, Suffix(addr))
        && Reachable(libs, RecordAddr(libs, records[i]).value, path + [i], a)
      ensures Reachable(libs, addr, path, a)
    {
      var next := RecordAddr(libs, records[i]).value;
      ChainSizes(libs, next, path + [i]);
      var nums, hops :| Chain(libs, next, path + [i], nums, hops) && EndsAt(libs, path + [i], nums, hops, a);
      HopIs(libs, addr, path, i, next);
      ChainCons(libs, addr, path, i, next, nums, hops);
      assert ([i] + nums)[1..] == nums && ([addr] + hops)[1..] == hops;
      EndsTail(libs, path, [i] + nums, [addr] + hops, a);
    }
  }

  lemma NotYetEnded(libs: Libs, addr: Multiaddr, path: Path, nums: seq<nat>, hops: seq<Multiaddr>, a: Multiaddr)
    requires HasDnsaddr(addr) && Chain(libs, addr, path, nums, hops) && EndsAt(libs, path, nums, hops, a)
    ensures nums != [] && hops[0] == addr
  {
    hide HasDnsaddr, Hop;
  }

  /**
   Resolution of a `/dnsaddr` address, for all answers of the resolvers: it can succeed exactly
   when nothing fails on any chain from it, and what it collects are exactly the addresses at the
   chains' ends that carry every suffix on the way.
   */
  lemma LeavesExactly(libs: Libs, addr: Multiaddr)
    requires HasDnsaddr(addr)
    ensures Leaves(libs, addr, []).Some? <==> AllSucceed(libs, addr, [])
    ensures Leaves(libs, addr, []).Some? ==>
              forall a :: a in Leaves(libs, addr, []).value <==> Reachable(libs, addr, [], a)
  {
    hide HasDnsaddr, AllSucceed, Reachable, Leaves;
    FoundIffAllSucceed(libs, addr, []);
    if Leaves(libs, addr, []).Some? {
      forall a { FoundIffReachable(libs, addr, [], a); }
    }
  }
}
