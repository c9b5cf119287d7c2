/**
  IPv4 addresses as 32-bit unsigned integers, and CIDR blocks (section 3.1 of RFC 4632).
  */
module Ipv4 {

  const TWO32: int := 0x1_0000_0000

  type Addr = x: int | 0 <= x < 0x1_0000_0000

  type Prefix = n: int | 0 <= n <= 32

  /** What Go's uint32 arithmetic keeps of a mathematical result. */
  function Wrap(x: int): Addr {
    x % TWO32
  }

  /** The number of addresses that share an n-bit prefix. */
  function BlockSize(ones: Prefix): (s: nat)
    ensures s >= 1
    decreases 32 - ones
  {
    if ones == 32 then 1 else 2 * BlockSize(ones + 1)
  }

  /** The number of blocks with an n-bit prefix. */
  function BlockCount(ones: Prefix): (n: nat)
    ensures n >= 1
  {
    if ones == 0 then 1 else 2 * BlockCount(ones - 1)
  }

  /** An address together with a prefix length, as net.ParseCIDR returns them. */
  datatype Cidr = Cidr(ip: Addr, ones: Prefix)

  /** The leading n bits of an address, read as a number; equal numbers mean equal prefixes. */
  function BlockIndex(a: Addr, ones: Prefix): nat
    decreases 32 - ones
  {
    if ones == 32 then a else BlockIndex(a, ones + 1) / 2
  }

  /** The address with every bit after the first n cleared, one bit at a time from the right. */
  function Masked(a: Addr, ones: Prefix): int
    decreases 32 - ones
  {
    if ones == 32 then a
    else if BlockIndex(a, ones + 1) % 2 == 1 then Masked(a, ones + 1) - BlockSize(ones + 1)
    else Masked(a, ones + 1)
  }

  function Network(c: Cidr): (n: Addr)
    ensures n <= c.ip
  {
    MaskedBounds(c.ip, c.ones);
    Masked(c.ip, c.ones)
  }

  function Broadcast(c: Cidr): (b: Addr)
    ensures Network(c) <= b
  {
    BlockFits(c);
    Network(c) + BlockSize(c.ones) - 1
  }

  /** net.IPNet.Contains: both addresses agree once masked. */
  predicate Contains(c: Cidr, a: Addr) {
    Network(Cidr(a, c.ones)) == Network(c)
  }

  /** The addresses that can be given to a machine: not the network, gateway or broadcast address. */
  predicate IsHost(c: Cidr, a: int) {
    Network(c) + 1 < a < Broadcast(c)
  }

  lemma CountPerByte(ones: Prefix)
    requires ones <= 24
    ensures BlockCount(ones + 8) == 256 * BlockCount(ones)
  {
    assert BlockCount(ones + 4) == 16 * BlockCount(ones) by {
      assert BlockCount(ones + 2) == 4 * BlockCount(ones);
    }
    assert BlockCount(ones + 6) == 4 * BlockCount(ones + 4);
  }

  lemma AllBlocks()
    ensures BlockCount(32) == TWO32
  {
    CountPerByte(0);
    CountPerByte(8);
    CountPerByte(16);
    CountPerByte(24);
  }

  lemma {:induction false} SizesFillTheSpace(ones: Prefix)
    ensures BlockCount(ones) * BlockSize(ones) == TWO32
    decreases 32 - ones
  {
    if ones == 32 {
      AllBlocks();
    } else {
      SizesFillTheSpace(ones + 1);
      DoubledFactor(BlockCount(ones), BlockSize(ones + 1));
    }
  }

  lemma MulGap(d: int, s: int)
    requires s > 0
    ensures d >= 1 ==> d * s >= s
    ensures d <= 0 ==> d * s <= 0
  {
  }

  lemma MulSub(m: int, k: int, s: int)
    ensures (m - k) * s == m * s - k * s
  {
  }

  /** Multiples of s lie at least s apart. */
  lemma MulLess(k: int, m: int, s: int)
    requires s > 0
    ensures k < m ==> k * s + s <= m * s
    ensures k * s < m * s ==> k < m
  {
    MulSub(m, k, s);
    MulGap(m - k, s);
  }

  lemma {:induction false} MaskedIsIndexTimesSize(a: Addr, ones: Prefix)
    ensures Masked(a, ones) == BlockIndex(a, ones) * BlockSize(ones)
    decreases 32 - ones
  {
    if ones < 32 {
      MaskedIsIndexTimesSize(a, ones + 1);
      SplitInTwo(BlockIndex(a, ones + 1), BlockSize(ones + 1));
    }
  }

  lemma {:induction false} IndexBounds(a: Addr, ones: Prefix)
    ensures BlockIndex(a, ones) * BlockSize(ones) <= a < BlockIndex(a, ones) * BlockSize(ones) + BlockSize(ones)
    decreases 32 - ones
  {
    if ones < 32 {
      IndexBounds(a, ones + 1);
      SplitInTwo(BlockIndex(a, ones + 1), BlockSize(ones + 1));
    }
  }

  /** Masking rounds down to a multiple of the block size, and the block ends within 32 bits. */
  lemma MaskedBounds(a: Addr, ones: Prefix)
    ensures 0 <= Masked(a, ones) <= a < Masked(a, ones) + BlockSize(ones) <= TWO32
  {
    var k, s := BlockIndex(a, ones), BlockSize(ones);
    MaskedIsIndexTimesSize(a, ones);
    IndexBounds(a, ones);
    MulGap(k, s);
    SizesFillTheSpace(ones);
    MulLess(k, BlockCount(ones), s);
  }

  lemma BlockFits(c: Cidr)
    ensures Network(c) + BlockSize(c.ones) <= TWO32
  {
    MaskedBounds(c.ip, c.ones);
  }

  /** Two addresses whose masked forms are one block size apart or closer have the same one. */
  lemma SameBlock(a: Addr, b: Addr, ones: Prefix)
    requires Masked(b, ones) <= a < Masked(b, ones) + BlockSize(ones)
    ensures BlockIndex(a, ones) == BlockIndex(b, ones)
  {
    var s, j, k := BlockSize(ones), BlockIndex(a, ones), BlockIndex(b, ones);
    MaskedIsIndexTimesSize(b, ones);
    IndexBounds(a, ones);
    MulLess(j, k, s);
    MulLess(k, j, s);
  }

  lemma {:induction false} IndexDecidesMask(a: Addr, b: Addr, ones: Prefix)
    requires BlockIndex(a, ones) == BlockIndex(b, ones)
    ensures Masked(a, ones) == Masked(b, ones)
  {
    MaskedIsIndexTimesSize(a, ones);
    MaskedIsIndexTimesSize(b, ones);
  }

  /** Masked comparison is the same as lying between the network and broadcast addresses. */
  lemma ContainsIsInterval(c: Cidr, a: Addr)
    ensures Contains(c, a) <==> Network(c) <= a <= Broadcast(c)
    ensures Contains(c, a) <==> BlockIndex(a, c.ones) == BlockIndex(c.ip, c.ones)
  {
    MaskedBounds(a, c.ones);
    if Network(c) <= a <= Broadcast(c) {
      SameBlock(a, c.ip, c.ones);
    }
    if BlockIndex(a, c.ones) == BlockIndex(c.ip, c.ones) {
      IndexDecidesMask(a, c.ip, c.ones);
    }
  }

  /** An address of a block names the same block. */
  lemma MemberNamesBlock(c: Cidr, a: Addr)
    requires Contains(c, a)
    ensures Network(Cidr(a, c.ones)) == Network(c)
    ensures Broadcast(Cidr(a, c.ones)) == Broadcast(c)
  {
  }

  /** Agreement on a longer prefix is agreement on every shorter one. */
  lemma {:induction false} LongerPrefixDecides(a: Addr, b: Addr, short: Prefix, long: Prefix)
    requires short <= long
    requires BlockIndex(a, long) == BlockIndex(b, long)
    ensures BlockIndex(a, short) == BlockIndex(b, short)
    decreases long - short
  {
    if short < long {
      LongerPrefixDecides(a, b, short + 1, long);
    }
  }

  lemma SplitInTwo(k: int, s: int)
    requires s > 0
    ensures k * s == (k / 2) * (2 * s) + (if k % 2 == 1 then s else 0)
  {
    DoubledFactor(k / 2, s);
    if k % 2 == 0 {
      assert k == 2 * (k / 2);
    } else {
      assert k == 2 * (k / 2) + 1;
      MulSub(k, 1, s);
    }
  }

  lemma DoubledFactor(h: int, s: int)
    ensures (2 * h) * s == h * (2 * s)
  {
  }

  ghost predicate Within(inner: Cidr, outer: Cidr) {
    forall a: Addr :: Contains(inner, a) ==> Contains(outer, a)
  }

  ghost predicate Disjoint(inner: Cidr, outer: Cidr) {
    forall a: Addr :: !(Contains(inner, a) && Contains(outer, a))
  }

  /** CIDR blocks are nested or disjoint, and one membership test tells which. */
  lemma BlocksNestOrSplit(outer: Cidr, inner: Cidr)
    requires outer.ones <= inner.ones
    ensures Contains(outer, Network(inner)) ==> Within(inner, outer)
    ensures !Contains(outer, Network(inner)) ==> Disjoint(inner, outer)
  {
    var base := Network(inner);
    ContainsIsInterval(inner, base);
    forall a: Addr | Contains(inner, a)
      ensures Contains(outer, a) <==> Contains(outer, base)
    {
      ContainsIsInterval(inner, a);
      LongerPrefixDecides(a, base, outer.ones, inner.ones);
      ContainsIsInterval(outer, a);
      ContainsIsInterval(outer, base);
    }
  }

  /** A longer prefix means a smaller block. */
  lemma {:induction false} SizeGrows(short: Prefix, long: Prefix)
    requires short <= long
    ensures short < long ==> BlockSize(short) > BlockSize(long)
    decreases long - short
  {
    if short < long {
      SizeGrows(short + 1, long);
    }
  }

  lemma SmallPrefixHasRoom(ones: Prefix)
    ensures ones <= 30 <==> BlockSize(ones) >= 4
    ensures ones >= 31 <==> BlockSize(ones) <= 2
  {
    assert BlockSize(31) == 2;
    assert BlockSize(30) == 4;
    if ones <= 30 {
      SizeGrows(ones, 30);
    }
  }
}
