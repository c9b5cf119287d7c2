/**
  The two address allocators: NextAvailableIP for VM interfaces and FindAvailableIP for
  floating addresses. Both scan a block upwards with a 32-bit counter; both are shown to
  return the least free host address, so they agree with each other.
  */
module Ipam {
  import opened Common
  import opened Ipv4

  /** How the text of a stored address parses. */
  datatype UsedText = Bare(ip: Addr) | WithPrefix(ip: Addr, ones: Prefix) | NotIPv4 {
    predicate HasAddr() {
      !NotIPv4?
    }
  }

  /** How the text of a block parses. */
  datatype BlockText = Block(cidr: Cidr) | Malformed | NotV4

  datatype Allocation =
    | Allocated(ip: Addr, ones: Prefix, gateway: Addr)
    | Exhausted(gateway: Addr)
    | BadBlock

  ghost function UsedAddrs(used: seq<UsedText>): set<Addr> {
    set i | 0 <= i < |used| && used[i].HasAddr() :: used[i].ip
  }

  /** The least address in [lo, hi) that is not used. */
  ghost function FirstFree(lo: int, hi: int, used: set<Addr>): (r: Option<Addr>)
    requires 0 <= lo && hi <= TWO32
    ensures r.Some? ==> lo <= r.value < hi && r.value !in used
    ensures r.Some? ==> forall a: Addr :: lo <= a < r.value ==> a in used
    ensures r.None? ==> forall a: Addr :: lo <= a < hi ==> a in used
    decreases hi - lo
  {
    if lo >= hi then None
    else if lo !in used then Some(lo)
    else FirstFree(lo + 1, hi, used)
  }

  /** The address a block hands out next, free of any machine arithmetic. */
  ghost function Pick(c: Cidr, used: set<Addr>): Option<Addr> {
    FirstFree(Network(c) + 2, Broadcast(c), used)
  }

  /** `a` is the least unused address strictly between gateway and broadcast. */
  ghost predicate IsLeastFree(c: Cidr, used: set<Addr>, a: Addr) {
    && IsHost(c, a)
    && a !in used
    && forall b: Addr :: IsHost(c, b) && b < a ==> b in used
  }

  ghost predicate Full(c: Cidr, used: set<Addr>) {
    forall a: Addr :: IsHost(c, a) ==> a in used
  }

  /** Pick is characterised by leastness, and fails exactly when no host address is free. */
  lemma PickIsLeastFree(c: Cidr, used: set<Addr>)
    ensures Pick(c, used).None? <==> Full(c, used)
    ensures forall a: Addr :: Pick(c, used) == Some(a) <==> IsLeastFree(c, used, a)
  {
    forall a: Addr | IsLeastFree(c, used, a)
      ensures Pick(c, used) == Some(a)
    {
      assert IsHost(c, a);
      if Pick(c, used).Some? {
        assert IsHost(c, Pick(c, used).value);
      }
    }
    if Pick(c, used).Some? {
      assert IsHost(c, Pick(c, used).value);
    }
  }

  /** In a block of one or two addresses the 32-bit counter may wrap, but nothing is a host. */
  lemma WrapMeansNoHosts(c: Cidr)
    ensures Network(c) + 2 >= TWO32 ==> forall a: int :: !IsHost(c, a)
  {
    BlockFits(c);
  }

  method CollectUsed(used: seq<UsedText>) returns (usedSet: set<Addr>)
    ensures usedSet == UsedAddrs(used)
  {
    usedSet := {};
    for i := 0 to |used|
      invariant usedSet == UsedAddrs(used[..i])
    {
      assert used[..i + 1] == used[..i] + [used[i]];
      if used[i].HasAddr() {
        usedSet := usedSet + {used[i].ip};
      }
      assert forall j :: 0 <= j < i ==> used[..i + 1][j] == used[..i][j];
      assert used[..i + 1][i] == used[i];
    }
    assert used[..|used|] == used;
  }

  /** What the allocators treat as taken: the stored addresses and three reserved ones. */
  function Taken(c: Cidr, used: set<Addr>): set<Addr> {
    used + {Network(c), Wrap(Network(c) + 1), Broadcast(c)}
  }

  /** Every address the counter has passed was taken or lay outside the block. */
  ghost predicate Passed(c: Cidr, taken: set<Addr>, upTo: int) {
    forall a: Addr :: Wrap(Network(c) + 2) <= a < upTo ==> a in taken || !Contains(c, a)
  }

  lemma PassOne(c: Cidr, taken: set<Addr>, candidate: Addr)
    requires Passed(c, taken, candidate)
    requires candidate in taken || !Contains(c, candidate)
    ensures Passed(c, taken, candidate + 1)
  {
  }

  lemma PassedHosts(c: Cidr, used: set<Addr>, upTo: int)
    requires Passed(c, Taken(c, used), upTo)
    ensures forall a: Addr :: IsHost(c, a) && a < upTo ==> a in used
  {
    forall a: Addr | IsHost(c, a) && a < upTo
      ensures a in used
    {
      WrapMeansNoHosts(c);
      ContainsIsInterval(c, a);
      assert Wrap(Network(c) + 2) <= a;
    }
  }

  lemma FoundIsPick(c: Cidr, used: set<Addr>, a: Addr)
    requires Passed(c, Taken(c, used), a)
    requires a !in Taken(c, used) && Contains(c, a)
    ensures Pick(c, used) == Some(a)
  {
    ContainsIsInterval(c, a);
    assert a != Network(c) && a != Broadcast(c);
    BlockFits(c);
    assert Network(c) + 1 == Wrap(Network(c) + 1);
    assert IsHost(c, a);
    PassedHosts(c, used, a);
    assert IsLeastFree(c, used, a);
    PickIsLeastFree(c, used);
  }

  lemma PassedAllMeansNone(c: Cidr, used: set<Addr>, upTo: int)
    requires Passed(c, Taken(c, used), upTo) && Broadcast(c) <= upTo
    ensures Pick(c, used) == None
  {
    PassedHosts(c, used, upTo);
    PickIsLeastFree(c, used);
  }

  /** The scan shared by both allocators, with the counter kept in 32 bits. */
  method Scan(c: Cidr, used: set<Addr>) returns (r: Option<Addr>)
    ensures r == Pick(c, used)
  {
    var broadcast := Broadcast(c);
    var taken := Taken(c, used);
    var candidate := Wrap(Network(c) + 2);
    while candidate < broadcast
      invariant Passed(c, taken, candidate)
    {
      if candidate !in taken && Contains(c, candidate) {
        FoundIsPick(c, used, candidate);
        return Some(candidate);
      }
      PassOne(c, taken, candidate);
      candidate := Wrap(candidate + 1);
    }
    PassedAllMeansNone(c, used, candidate);
    return None;
  }

  method NextAvailableIP(block: BlockText, used: seq<UsedText>) returns (r: Allocation)
    ensures r.BadBlock? <==> !block.Block?
    ensures block.Block? ==> r.gateway == Wrap(Network(block.cidr) + 1)
    ensures block.Block? ==> (r.Exhausted? <==> Full(block.cidr, UsedAddrs(used)))
    ensures r.Allocated? ==> IsLeastFree(block.cidr, UsedAddrs(used), r.ip) && r.ones == block.cidr.ones
    ensures r.Allocated? ==> Pick(block.cidr, UsedAddrs(used)) == Some(r.ip)
  {
    if !block.Block? {
      return BadBlock;
    }
    var c := block.cidr;
    var gateway := Wrap(Network(c) + 1);
    var usedSet := CollectUsed(used);
    var pick := Scan(c, usedSet);
    PickIsLeastFree(c, usedSet);
    match pick
    case Some(a) => r := Allocated(a, c.ones, gateway);
    case None => r := Exhausted(gateway);
  }

  /** A row of the floating address table. */
  datatype FloatingRow = FloatingRow(address: UsedText, organization: string)

  /** The rows of the floating table a query for this block and organization reads. */
  ghost predicate Selected(row: FloatingRow, c: Cidr, organization: string) {
    && row.address.HasAddr()
    && Contains(c, row.address.ip)
    && (organization != "" ==> row.organization == organization)
  }

  ghost function SelectedAddrs(rows: seq<FloatingRow>, c: Cidr, organization: string): set<Addr> {
    set i | 0 <= i < |rows| && Selected(rows[i], c, organization) :: rows[i].address.ip
  }

  /** The text names an address inside the block rather than the block; PostgreSQL's cidr type refuses it. */
  predicate HostBits(c: Cidr) {
    c.ip != Network(c)
  }

  /** FindAvailableIP; `used` is what the query returns when the database accepts the block text. */
  method FindAvailableIP(block: BlockText, used: seq<UsedText>) returns (r: Option<Addr>)
    ensures !block.Block? ==> r.None?
    ensures block.Block? && block.cidr.ip != Network(block.cidr) ==> r.None?
    ensures block.Block? && block.cidr.ip == Network(block.cidr) ==>
              && r == Pick(block.cidr, UsedAddrs(used))
              && (r.None? <==> Full(block.cidr, UsedAddrs(used)))
              && (r.Some? ==> IsLeastFree(block.cidr, UsedAddrs(used), r.value))
  {
    if !block.Block? {
      return None;
    }
    var c := block.cidr;
    PickIsLeastFree(c, UsedAddrs(used));
    if Broadcast(c) - Network(c) <= 2 {
      return None;
    }
    if HostBits(c) {
      return None;
    }
    var usedSet := CollectUsed(used);
    r := Scan(c, usedSet);
  }

  /** Addresses outside the block do not influence the pick. */
  lemma OnlyTheBlockMatters(c: Cidr, used: set<Addr>, used': set<Addr>)
    requires forall a: Addr :: Contains(c, a) ==> (a in used <==> a in used')
    ensures Pick(c, used) == Pick(c, used')
  {
    PickIsLeastFree(c, used);
    PickIsLeastFree(c, used');
    forall a: Addr | IsHost(c, a)
      ensures a in used <==> a in used'
    {
      ContainsIsInterval(c, a);
    }
    if Pick(c, used).Some? {
      assert IsLeastFree(c, used', Pick(c, used).value);
    }
  }

  /** The floating allocator sees only rows of the block, the interface allocator sees every
      text. For the same addresses they pick the same one or both fail, exactly when the block text
      has no host bits or there is nothing to pick. */
  method AllocatorsAgree(block: BlockText, rows: seq<FloatingRow>, texts: seq<UsedText>, returned: seq<UsedText>)
      returns (nic: Allocation, floating: Option<Addr>)
    requires |texts| == |rows| && forall i :: 0 <= i < |rows| ==> texts[i] == rows[i].address
    requires block.Block? ==> UsedAddrs(returned) == SelectedAddrs(rows, block.cidr, "")
    ensures !block.Block? ==> nic.BadBlock? && floating.None?
    ensures block.Block? ==>
              ((nic.Allocated? <==> floating.Some?) <==>
               block.cidr.ip == Network(block.cidr) || Full(block.cidr, UsedAddrs(texts)))
    ensures nic.Allocated? && floating.Some? ==> nic.ip == floating.value
  {
    nic := NextAvailableIP(block, texts);
    floating := FindAvailableIP(block, returned);
    if block.Block? {
      SameAddressesInBlock(block.cidr, rows, texts, returned);
      OnlyTheBlockMatters(block.cidr, UsedAddrs(texts), UsedAddrs(returned));
      PickIsLeastFree(block.cidr, UsedAddrs(texts));
    }
  }

  /** 10.0.0.5/29 names a block with free addresses that only the interface allocator serves. */
  lemma AllocatorsMayDisagree()
    ensures
      var c := Cidr(0x0A00_0005, 29);
      HostBits(c) && !Full(c, {}) && Pick(c, {}) == Some(0x0A00_0002)
  {
    var c := Cidr(0x0A00_0005, 29);
    assert BlockIndex(0x0A00_0005, 31) == 0x500_0002;
    assert BlockIndex(0x0A00_0005, 30) == 0x280_0001;
    assert Masked(0x0A00_0005, 31) == 0x0A00_0004;
    assert Masked(0x0A00_0005, 29) == 0x0A00_0000;
    PickIsLeastFree(c, {});
    assert IsLeastFree(c, {}, 0x0A00_0002);
  }

  lemma SameAddressesInBlock(c: Cidr, rows: seq<FloatingRow>, texts: seq<UsedText>, returned: seq<UsedText>)
    requires |texts| == |rows| && forall i :: 0 <= i < |rows| ==> texts[i] == rows[i].address
    requires UsedAddrs(returned) == SelectedAddrs(rows, c, "")
    ensures forall a: Addr :: Contains(c, a) ==> (a in UsedAddrs(texts) <==> a in UsedAddrs(returned))
  {
    forall a: Addr | Contains(c, a)
      ensures a in UsedAddrs(texts) <==> a in UsedAddrs(returned)
    {
      if a in UsedAddrs(texts) {
        var i :| 0 <= i < |texts| && texts[i].HasAddr() && texts[i].ip == a;
        assert Selected(rows[i], c, "");
      }
    }
  }

  /** The address column is unique across organizations (migrations/network/000001_init.up.sql:56-63). */
  ghost predicate FloatingInsertAccepted(rows: seq<FloatingRow>, a: Addr) {
    forall i :: 0 <= i < |rows| && rows[i].address.HasAddr() ==> rows[i].address.ip != a
  }

  lemma SelectedIsSomeRow(rows: seq<FloatingRow>, c: Cidr, organization: string, a: Addr)
    ensures a in SelectedAddrs(rows, c, organization) <==>
            exists i :: 0 <= i < |rows| && Selected(rows[i], c, organization) && rows[i].address.ip == a
  {
  }

  /** But the query filters by organization: what it picks can be inserted exactly when looking at the
      rows of all organizations would have led to the same pick. */
  lemma FloatingPickCommitsIff(rows: seq<FloatingRow>, c: Cidr, organization: string, a: Addr)
    requires Pick(c, SelectedAddrs(rows, c, organization)) == Some(a)
    ensures FloatingInsertAccepted(rows, a) <==>
            Pick(c, SelectedAddrs(rows, c, "")) == Pick(c, SelectedAddrs(rows, c, organization))
  {
    var own, all := SelectedAddrs(rows, c, organization), SelectedAddrs(rows, c, "");
    PickIsLeastFree(c, own);
    PickIsLeastFree(c, all);
    assert IsLeastFree(c, own, a);
    ContainsIsInterval(c, a);
    forall b: Addr | b in own
      ensures b in all
    {
      SelectedIsSomeRow(rows, c, organization, b);
      var i :| 0 <= i < |rows| && Selected(rows[i], c, organization) && rows[i].address.ip == b;
      assert Selected(rows[i], c, "");
    }
    SelectedIsSomeRow(rows, c, "", a);
    if !FloatingInsertAccepted(rows, a) {
      var i :| 0 <= i < |rows| && rows[i].address.HasAddr() && rows[i].address.ip == a;
      assert Selected(rows[i], c, "");
      assert a in all;
    } else {
      assert IsLeastFree(c, all, a);
    }
  }

  /** Organization "b" is offered 10.0.0.2 in 10.0.0.0/29 although organization "a" holds it. */
  lemma FloatingPickMayNotCommit()
    ensures
      var c, rows := Cidr(0x0A00_0000, 29), [FloatingRow(Bare(0x0A00_0002), "a")];
      Pick(c, SelectedAddrs(rows, c, "b")) == Some(0x0A00_0002) && !FloatingInsertAccepted(rows, 0x0A00_0002)
  {
    var c, rows := Cidr(0x0A00_0000, 29), [FloatingRow(Bare(0x0A00_0002), "a")];
    assert Masked(0x0A00_0000, 29) == 0x0A00_0000;
    var used := SelectedAddrs(rows, c, "b");
    forall a: Addr
      ensures a !in used
    {
      SelectedIsSomeRow(rows, c, "b", a);
    }
    PickIsLeastFree(c, used);
    assert IsLeastFree(c, used, 0x0A00_0002);
    assert rows[0].address.HasAddr() && rows[0].address.ip == 0x0A00_0002;
  }

  // ---------------------------------------------------------------- capacity

  /** The addresses issued by k rounds of allocate-and-commit from an empty table. */
  ghost function Issued(c: Cidr, k: nat): (s: Option<seq<Addr>>) {
    if k == 0 then Some([])
    else
      match Issued(c, k - 1)
      case None => None
      case Some(sofar) =>
        match Pick(c, set a | a in sofar)
        case None => None
        case Some(a) => Some(sofar + [a])
  }

  /** The number of host addresses in a block. */
  function Capacity(c: Cidr): (n: nat) {
    if c.ones <= 30 then SmallPrefixHasRoom(c.ones); BlockSize(c.ones) - 3 else 0
  }

  ghost function CountUp(from: Addr, k: nat): (s: seq<Addr>)
    requires from + k <= TWO32
    ensures |s| == k
  {
    seq(k, i requires 0 <= i < k => from + i)
  }

  lemma CapacitySpansHosts(c: Cidr)
    ensures forall a: int :: IsHost(c, a) <==> Network(c) + 2 <= a < Network(c) + 2 + Capacity(c)
    ensures Capacity(c) > 0 ==> Network(c) + 2 + Capacity(c) <= TWO32
    ensures c.ones <= 30 <==> Capacity(c) > 0
  {
    SmallPrefixHasRoom(c.ones);
    BlockFits(c);
  }

  /** When the k lowest hosts are used, the next one is picked; when all are, none is. */
  lemma PickAfterLowest(c: Cidr, k: nat, used: set<Addr>)
    requires k <= Capacity(c)
    requires forall a: Addr :: a in used <==> Network(c) + 2 <= a < Network(c) + 2 + k
    ensures k < Capacity(c) ==> Network(c) + 2 + k < TWO32 && Pick(c, used) == Some(Network(c) + 2 + k)
    ensures k == Capacity(c) ==> Pick(c, used) == None
  {
    CapacitySpansHosts(c);
    PickIsLeastFree(c, used);
    if k < Capacity(c) {
      assert IsLeastFree(c, used, Network(c) + 2 + k);
    } else {
      assert Full(c, used);
    }
  }

  lemma CountUpElements(from: Addr, k: nat)
    requires from + k <= TWO32
    ensures forall a: Addr :: a in CountUp(from, k) <==> from <= a < from + k
    ensures from + k < TWO32 ==> CountUp(from, k) + [from + k] == CountUp(from, k + 1)
  {
    forall a: Addr | from <= a < from + k
      ensures a in CountUp(from, k)
    {
      assert CountUp(from, k)[a - from] == a;
    }
  }

  /** Allocation from empty issues network+2, network+3, ... in order, exactly capacity many times. */
  lemma {:induction false} IssuesInOrder(c: Cidr, k: nat)
    ensures Issued(c, k).Some? <==> k <= Capacity(c)
    ensures 0 < k <= Capacity(c) ==> Network(c) + 2 + k <= TWO32 && Issued(c, k) == Some(CountUp(Network(c) + 2, k))
  {
    if k > 0 {
      IssuesInOrder(c, k - 1);
      CapacitySpansHosts(c);
      if k <= Capacity(c) + 1 {
        var sofar := Issued(c, k - 1).value;
        if k > 1 {
          CountUpElements(Network(c) + 2, k - 1);
        }
        PickAfterLowest(c, k - 1, set a | a in sofar);
        if k == 1 && 1 <= Capacity(c) {
          assert sofar + [Network(c) + 2] == CountUp(Network(c) + 2, 1);
        }
      }
    }
  }

  lemma {:induction false} RangeSize(lo: int, n: nat, range: set<int>)
    requires forall a :: a in range <==> lo <= a < lo + n
    ensures |range| == n
  {
    if n == 0 {
      assert forall a :: a !in range;
    } else {
      RangeSize(lo, n - 1, range - {lo + n - 1});
    }
  }

  lemma {:induction false} ListSetSize<T>(s: seq<T>, elems: set<T>)
    requires forall x :: x in elems ==> x in s
    ensures |elems| <= |s|
  {
    if s == [] {
      assert elems == {};
    } else {
      ListSetSize(s[1..], elems - {s[0]});
    }
  }

  /** Pigeonhole: fewer stored texts than host addresses leave an address to give. */
  lemma ShortListLeavesRoom(c: Cidr, used: seq<UsedText>)
    requires |used| < Capacity(c)
    ensures Pick(c, UsedAddrs(used)).Some?
  {
    PickIsLeastFree(c, UsedAddrs(used));
    if Full(c, UsedAddrs(used)) {
      CapacitySpansHosts(c);
      var lo, n := Network(c) + 2, Capacity(c);
      var hosts: set<int> := set a | lo <= a < lo + n && IsHost(c, a);
      RangeSize(lo, n, hosts);
      var addrs: seq<int> := seq(|used|, i requires 0 <= i < |used| => if used[i].HasAddr() then used[i].ip else -1);
      forall a | a in hosts
        ensures a in addrs
      {
        assert IsHost(c, a);
        var i :| 0 <= i < |used| && used[i].HasAddr() && used[i].ip == a;
        assert addrs[i] == a;
      }
      ListSetSize(addrs, hosts);
    }
  }

  /** The bound is tight: a block can be full with exactly capacity many texts. */
  lemma CapacityIsTight(c: Cidr)
    ensures exists used: seq<UsedText> :: |used| == Capacity(c) && Pick(c, UsedAddrs(used)).None?
  {
    CapacitySpansHosts(c);
    var lo, n := Network(c) + 2, Capacity(c);
    var used: seq<UsedText> := seq(n, i requires 0 <= i < n => Bare(lo + i));
    PickIsLeastFree(c, UsedAddrs(used));
    forall a: Addr | IsHost(c, a)
      ensures a in UsedAddrs(used)
    {
      assert used[a - lo] == Bare(a);
    }
  }
}
