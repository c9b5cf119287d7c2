/**
  The gateway of an address, computed three times in the system: by a byte-wise increment with
  carry in the control plane, by 32-bit arithmetic in the node agent, and by the allocator.
  */
module Gateways {
  import opened Common
  import opened Ipv4
  import opened Ipam

  /** How an interface's address text parses. */
  datatype AddrText = CidrText(cidr: Cidr) | BareText(ip: Addr) | BadText

  /** The big-endian bytes of an address. */
  function ToBytes(a: Addr): (b: seq<Byte>)
    ensures |b| == 4
  {
    [a / 0x100_0000, a / 0x1_0000 % 256, a / 0x100 % 256, a % 256]
  }

  function FromBytes(b: seq<Byte>): (a: Addr)
    requires |b| == 4
  {
    b[0] as int * 0x100_0000 + b[1] as int * 0x1_0000 + b[2] as int * 0x100 + b[3]
  }

  lemma BytesRoundTrip(a: Addr)
    ensures FromBytes(ToBytes(a)) == a
  {
    var hi, mid := a / 0x1_0000, a / 0x100;
    assert hi == (a / 0x100_0000) * 256 + hi % 256;
    assert mid == hi * 256 + mid % 256;
    assert a == mid * 256 + a % 256;
  }

  /** The successor of the network address; a bare address counts as part of a /24. */
  function GatewayFor(text: AddrText): Option<Addr> {
    match text
    case CidrText(c) => Some(Wrap(Network(c) + 1))
    case BareText(ip) => Some(ip - ip % 256 + 1)
    case BadText => None
  }

  lemma RoundDown(ip: Addr, k: int, s: int)
    requires s == 256 && k * s <= ip < k * s + s
    ensures k * s == ip - ip % 256
  {
  }

  /** With 256 addresses to a block, masking clears the last byte. */
  lemma LastByteCleared(ip: Addr, ones: Prefix)
    requires BlockSize(ones) == 256
    ensures Masked(ip, ones) == ip - ip % 256
  {
    MaskedIsIndexTimesSize(ip, ones);
    IndexBounds(ip, ones);
    RoundDown(ip, BlockIndex(ip, ones), BlockSize(ones));
  }

  /** The place value of the byte that is next to be incremented. */
  function Weight(i: int): int
    requires -1 <= i <= 3
  {
    if i == 3 then 1 else if i == 2 then 0x100 else if i == 1 then 0x1_0000 else if i == 0 then 0x100_0000 else TWO32
  }

  lemma SetByte(s: seq<Byte>, i: nat, b: Byte)
    requires |s| == 4 && i < 4
    ensures b as int == s[i] as int + 1 ==> FromBytes(s[i := b]) == FromBytes(s) + Weight(i)
    ensures s[i] == 255 && b == 0 ==> FromBytes(s[i := b]) + Weight(i - 1) == FromBytes(s) + Weight(i)
    ensures i == 3 ==> FromBytes(s[i := b]) == FromBytes(s) - s[3] + b
  {
    if i == 0 {
    } else if i == 1 {
    } else if i == 2 {
    } else {
    }
  }

  /** A byte incremented in eight bits. */
  function NextByte(b: Byte): Byte {
    if b == 255 then 0 else b + 1
  }

  /** The buffer after incrementing position i, carrying to the left. */
  function Carried(s: seq<Byte>, i: int): (r: seq<Byte>)
    requires |s| == 4 && -1 <= i <= 3
    ensures |r| == 4
    decreases i
  {
    if i < 0 then s
    else
      var s' := s[i := NextByte(s[i])];
      if s'[i] != 0 then s' else Carried(s', i - 1)
  }

  /** Carrying adds the place value of its position, in 32 bits. */
  lemma {:induction false} CarriedAdds(s: seq<Byte>, i: int)
    requires |s| == 4 && -1 <= i <= 3
    ensures FromBytes(Carried(s, i)) == FromBytes(s) + Weight(i)
         || FromBytes(Carried(s, i)) == FromBytes(s) + Weight(i) - TWO32
    decreases i
  {
    if i >= 0 {
      SetByte(s, i, NextByte(s[i]));
      if s[i] == 255 {
        CarriedAdds(s[i := 0], i - 1);
      }
    }
  }

  /** Adds one to a big-endian buffer in place, carrying from the right and dropping the last carry. */
  method Increment(gw: array<Byte>)
    requires gw.Length == 4
    modifies gw
    ensures gw[..] == Carried(old(gw[..]), 3)
  {
    ghost var before := gw[..];
    var i := 3;
    while i >= 0
      invariant -1 <= i <= 3
      invariant Carried(gw[..], i) == Carried(before, 3)
    {
      ghost var s := gw[..];
      gw[i] := NextByte(gw[i]);
      assert gw[..] == s[i := NextByte(s[i])];
      if gw[i] != 0 {
        return;
      }
      i := i - 1;
    }
  }

  /** Increments a copy of the address byte by byte. */
  method Successor(a: Addr) returns (r: Addr)
    ensures r == Wrap(a + 1)
  {
    var base := ToBytes(a);
    BytesRoundTrip(a);
    var gw := new Byte[4](i requires 0 <= i < 4 => base[i]);
    assert gw[..] == base;
    Increment(gw);
    CarriedAdds(base, 3);
    r := FromBytes(gw[..]);
  }

  /** parseCIDR: a bare address is read as part of a /24. */
  method NetworkOfBare(ip: Addr) returns (network: Addr)
    ensures network == ip - ip % 256
  {
    assert BlockSize(24) == 256;
    LastByteCleared(ip, 24);
    network := Network(Cidr(ip, 24));
  }

  /** gatewayFromIP: takes a bare address as part of a /24 and increments the network address. */
  method GatewayByCarry(text: AddrText) returns (r: Option<Addr>)
    ensures r == GatewayFor(text)
  {
    match text {
      case BadText =>
        r := None;
      case CidrText(c) =>
        var gw := Successor(Network(c));
        r := Some(gw);
      case BareText(ip) =>
        var network := NetworkOfBare(ip);
        var gw := Successor(network);
        r := Some(gw);
    }
  }

  /** gatewayFromCIDR: assembles a uint32, adds one and takes the bytes back out. */
  method GatewayByWord(text: AddrText) returns (r: Option<Addr>)
    ensures r == GatewayFor(text)
  {
    match text {
      case BadText =>
        r := None;
      case BareText(ip) =>
        var v4 := ToBytes(ip);
        BytesRoundTrip(ip);
        SetByte(v4, 3, 1);
        v4 := v4[3 := 1];
        r := Some(FromBytes(v4));
      case CidrText(c) =>
        var network := Network(c);
        BytesRoundTrip(network);
        var gw := ToBytes(network);
        var val: int := FromBytes(gw);
        val := Wrap(val + 1);
        gw := ToBytes(val);
        BytesRoundTrip(val);
        r := Some(FromBytes(gw));
    }
  }

  /** For an issued address both computations find the gateway the allocator reserved, which
      is a different address of the same block that no allocation ever returns. */
  lemma IssuedAddressFindsItsGateway(c: Cidr, used: set<Addr>, a: Addr)
    requires Pick(c, used) == Some(a)
    ensures GatewayFor(CidrText(Cidr(a, c.ones))) == Some(Wrap(Network(c) + 1))
    ensures Contains(c, Wrap(Network(c) + 1))
    ensures forall used': set<Addr> :: Pick(c, used') != Some(Wrap(Network(c) + 1))
  {
    PickIsLeastFree(c, used);
    assert IsLeastFree(c, used, a);
    ContainsIsInterval(c, a);
    MemberNamesBlock(c, a);
    BlockFits(c);
    var gateway := Wrap(Network(c) + 1);
    assert gateway == Network(c) + 1;
    ContainsIsInterval(c, gateway);
    forall used': set<Addr>
      ensures Pick(c, used') != Some(gateway)
    {
      PickIsLeastFree(c, used');
      assert !IsLeastFree(c, used', gateway);
    }
  }
}
