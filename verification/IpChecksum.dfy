/** The IP header and pseudo-header checksums of asm/checksum.h against RFC 1071. */
module IpChecksum {
  import opened OnesComplement
  import opened Words

  /** The checksum of a message as the little-endian 16-bit number that goes into the packet. */
  function MemChecksum(b: seq<Byte>): U16 { Swap16(NetChecksum(b)) }

  /** A 16-bit value standing for the little-endian sum is the complement of the checksum. */
  lemma ComplementIsChecksum(v: U16, b: seq<Byte>)
    requires Same(v, LeSum(b))
    ensures 0xffff - v == MemChecksum(b)
  {
    hide Same, LeSum, OcSum, NetWords, Swap16;
    ByteOrderIndependence(v, b);
    SwapComplements(OcSum(NetWords(b)));
  }

  lemma SwapComplements(v: U16)
    ensures Swap16(0xffff - v) == 0xffff - Swap16(v)
  {
    LowByte(255 - v / 256, 255 - v % 256);
    assert 256 * (255 - v / 256) + (255 - v % 256) == 0xffff - v;
  }

  // ---- ip_fast_csum ----

  /** shrl $16; addw; adcl $0: the two halves with end-around carry. */
  function Halves(v: U32): (r: U16)
    ensures Same(r, v)
  {
    var s := v / 0x1_0000 + v % 0x1_0000;
    var r := s % 0x1_0000 + s / 0x1_0000;
    SameUp(r, v, v / 0x1_0000 + s / 0x1_0000);
    r
  }

  /** For headers of five words and more the ADC loop yields the Internet checksum; shorter counts fall
      out at "jbe" with the low half of the first word. */
  method IpFastCsum(iph: seq<Byte>, ihl: U32) returns (r: U16)
    requires 4 <= |iph| && 4 * ihl as int <= |iph|
    ensures ihl >= 5 ==> r == MemChecksum(iph[0..4 * ihl as int])
    ensures ihl <= 4 ==> r == Load32(iph, 0) % 0x1_0000
  {
    hide Same, LeSum, Load32, MemChecksum, Adc, Holds, Halves;
    if ihl <= 4 {
      return Load32(iph, 0) % 0x1_0000;
    }
    var acc := AdcChain(iph, ihl);
    HeldIsChecksum(acc, iph[0..4 * ihl as int]);
    acc := Adc(acc, 0);
    r := 0xffff - Halves(acc.sum);
  }

  /** One addl and ihl - 2 adcl instructions, the last ihl - 4 of them in the loop. */
  method AdcChain(iph: seq<Byte>, ihl: U32) returns (acc: Acc)
    requires 5 <= ihl && 4 * ihl as int <= |iph|
    ensures Holds(acc, LeSum(iph[0..4 * ihl as int]))
  {
    hide Same, LeSum, Load32, Adc, Holds;
    acc := Acc(Load32(iph, 0), false);
    FirstLoadHolds(acc, iph);
    NextWordHolds(acc, iph, 4);
    acc := Adc(acc, Load32(iph, 4));
    NextWordHolds(acc, iph, 8);
    acc := Adc(acc, Load32(iph, 8));
    NextWordHolds(acc, iph, 12);
    acc := Adc(acc, Load32(iph, 12));
    var p, left := 0, ihl as int - 4;
    while left != 0
      invariant 0 <= left && p == 4 * (ihl as int - 4 - left)
      invariant 0 <= p && p + 16 + 4 * left <= |iph|
      invariant Holds(acc, LeSum(iph[0..p + 16]))
    {
      NextWordHolds(acc, iph, p + 16);
      acc := Adc(acc, Load32(iph, p + 16));
      p := p + 4;
      left := left - 1;
    }
  }

  lemma NextWordHolds(acc: Acc, b: seq<Byte>, p: nat)
    requires p % 2 == 0 && p + 4 <= |b| && Holds(acc, LeSum(b[0..p]))
    ensures Holds(Adc(acc, Load32(b, p)), LeSum(b[0..p + 4]))
  {
    hide LeSum, Load32, Adc, Holds;
    AdcLoadHolds(acc, b, p, LeSum(b[0..p]));
    LeSumJoins(b, 0, p, p + 4);
  }

  /** The last carry goes in, and the folded complement is the checksum. */
  lemma HeldIsChecksum(acc: Acc, b: seq<Byte>)
    requires Holds(acc, LeSum(b))
    ensures 0xffff - Halves(Adc(acc, 0).sum) == MemChecksum(b)
  {
    hide Same, LeSum, MemChecksum, Adc, Halves, Holds;
    AdcFinishes(acc, LeSum(b));
    var s := Adc(acc, 0).sum;
    SameTrans(Halves(s), s, LeSum(b));
    ComplementIsChecksum(Halves(s), b);
  }

  lemma FirstLoadHolds(acc: Acc, b: seq<Byte>)
    requires 4 <= |b| && acc == Acc(Load32(b, 0), false)
    ensures Holds(acc, LeSum(b[0..4]))
  {
    Load32IsSame(b, 0);
  }

  // ---- generating and verifying a header ----

  /** The header with f stored in its checksum field, bytes 10 and 11 (section 3.1 of RFC 791). */
  function WithCsum(h: seq<Byte>, f: U16): (r: seq<Byte>)
    requires |h| >= 20
    ensures |r| == |h|
  {
    h[10 := f % 256][11 := f / 256]
  }

  lemma FieldAdds(h: seq<Byte>, f: U16)
    requires |h| >= 20
    ensures LeSum(WithCsum(h, f)) == LeSum(WithCsum(h, 0)) + f
  {
    FieldStands(h, f);
    FieldStands(h, 0);
  }

  lemma FieldStands(h: seq<Byte>, f: U16)
    requires |h| >= 20
    ensures LeSum(WithCsum(h, f)) == LeSum(h[..10]) + f + LeSum(h[12..])
  {
    var r := WithCsum(h, f);
    var field := [f % 256, f / 256];
    LeSumSplits(h[..10], field + h[12..]);
    LeSumSplits(field, h[12..]);
    assert r == h[..10] + (field + h[12..]);
    assert field[2..] == [];
  }

  lemma ChecksumStands(b: seq<Byte>)
    ensures Same(0xffff - MemChecksum(b), LeSum(b))
  {
    hide LeSum, OcSum, NetWords, NetSum, Swap16, Same;
    var net: int := OcSum(NetWords(b));
    OcSumIsSame(b);
    SameScale(net, NetSum(b));
    SwapScales(net);
    SameTrans(Swap16(net), 256 * net, 256 * NetSum(b));
    LeIsScaledNet(b);
    SameSym(LeSum(b), 256 * NetSum(b));
    SameTrans(Swap16(net), 256 * NetSum(b), LeSum(b));
    SwapComplements(net);
  }

  /** Verification adds the stored field to what the rest of the header sums to. */
  lemma VerifyAdds(h: seq<Byte>, f: U16)
    requires |h| >= 20
    ensures 0xffff - MemChecksum(WithCsum(h, f)) == OcAdd(0xffff - MemChecksum(WithCsum(h, 0)), f)
  {
    hide LeSum, MemChecksum;
    var v: U16, s: U16 := 0xffff - MemChecksum(WithCsum(h, 0)), 0xffff - MemChecksum(WithCsum(h, f));
    var n := LeSum(WithCsum(h, 0));
    ChecksumStands(WithCsum(h, 0));
    ChecksumStands(WithCsum(h, f));
    FieldAdds(h, f);
    SameRefl(f);
    SameAdd(v, n, f, f);
    SameBy(OcAdd(v, f), v + f, if v + f > 0xffff then -1 else 0);
    SameTrans(OcAdd(v, f), v + f, n + f);
    SameUnique(s, OcAdd(v, f), n + f);
  }

  /** The header with c in its checksum field in network byte order. */
  function Stamped(h: seq<Byte>, c: U16): (r: seq<Byte>)
    requires |h| >= 20
    ensures |r| == |h|
  {
    h[10 := c / 256][11 := c % 256]
  }

  lemma StampedIsStored(h: seq<Byte>, c: U16)
    requires |h| >= 20
    ensures Stamped(h, c) == WithCsum(h, Swap16(c))
  {
  }

  lemma SwapTwice(v: U16)
    ensures Swap16(Swap16(v)) == v && (Swap16(v) == 0 <==> v == 0) && (Swap16(v) == 0xffff <==> v == 0xffff)
  {
  }

  /** The field that completes a sum to all ones is its complement, or all ones again. */
  lemma Completes(z: U16, f: U16)
    ensures OcAdd(0xffff - z, f) == 0xffff <==> f == z || (z == 0 && f == 0xffff)
  {
  }

  /** Storing the computed checksum always verifies as zero, and besides it only the other zero does:
      0xffff stored where 0 was computed. */
  lemma VerifiesExactly(h: seq<Byte>, c: U16)
    requires |h| >= 20
    ensures var z := NetChecksum(Stamped(h, 0));
            NetChecksum(Stamped(h, c)) == 0 <==> c == z || (z == 0 && c == 0xffff)
  {
    hide NetChecksum, Swap16, Stamped, WithCsum, OcAdd;
    var z, v := NetChecksum(Stamped(h, 0)), NetChecksum(Stamped(h, c));
    StampedIsStored(h, 0);
    StampedIsStored(h, c);
    SwapTwice(0);
    SwapTwice(z);
    SwapTwice(v);
    SwapTwice(c);
    VerifyAdds(h, Swap16(c));
    Completes(Swap16(z), Swap16(c));
  }

  /** Zero the field, compute, store, check. */
  method StampAndVerify(h: seq<Byte>, ihl: U32) returns (c: U16, v: U16)
    requires 5 <= ihl && |h| == 4 * ihl
    ensures Swap16(c) == NetChecksum(Stamped(h, 0)) && v == 0
  {
    hide NetChecksum, Swap16, Stamped, WithCsum;
    var zeroed := WithCsum(h, 0);
    c := IpFastCsum(zeroed, ihl);
    assert zeroed[0..4 * ihl] == zeroed;
    var stored := WithCsum(h, c);
    v := IpFastCsum(stored, ihl);
    assert stored[0..4 * ihl] == stored;
    ghost var z := NetChecksum(zeroed);
    StampedIsStored(h, 0);
    SwapTwice(0);
    SwapTwice(z);
    StampedIsStored(h, z);
    VerifiesExactly(h, z);
  }

  // ---- csum_fold and the pseudo-headers ----

  /** addl; adcl $0xffff; the upper half of the complement. */
  function CsumFold(sum: U32): (r: U16)
    ensures Same(0xffff - r, sum)
  {
    var hi, lo := sum / 0x1_0000, sum % 0x1_0000;
    var s := 0x1_0000 * hi + 0x1_0000 * lo;
    var acc := Adc(Acc(s % 0x1_0000_0000, s >= 0x1_0000_0000), 0xffff);
    var r := (0xffff_ffff - acc.sum) / 0x1_0000;
    SameUp(0xffff - r, sum, hi + if hi + lo > 0xffff then 1 else 0);
    r
  }

  /** Three words added with carry, then the last carry. */
  function CsumTcpudpNofold(saddr: U32, daddr: U32, len: U16, proto: U16, sum: U32): (r: U32)
    ensures Same(r, sum + daddr + saddr + 256 * (len + proto))
  {
    var mid: U32 := 256 * (len + proto);
    var a := Acc(sum, false);
    SameRefl(sum);
    AdcHolds(a, daddr, sum);
    AdcHolds(Adc(a, daddr), saddr, sum + daddr);
    AdcHolds(Adc(Adc(a, daddr), saddr), mid, sum + daddr + saddr);
    AdcFinishes(Adc(Adc(Adc(a, daddr), saddr), mid), sum + daddr + saddr + mid);
    Adc(Adc(Adc(Adc(a, daddr), saddr), mid), 0).sum
  }

  function CsumTcpudpMagic(saddr: U32, daddr: U32, len: U16, proto: U16, sum: U32): U16
  {
    CsumFold(CsumTcpudpNofold(saddr, daddr, len, proto, sum))
  }

  /** Sixteen and thirty-two bits in network order. */
  function Be16(v: U16): (b: seq<Byte>)
    ensures |b| == 2
  {
    [v / 256, v % 256]
  }

  function Be32(v: U32): (b: seq<Byte>)
    ensures |b| == 4
  {
    [v / 0x100_0000, v / 0x1_0000 % 0x100, v / 0x100 % 0x100, v % 0x100]
  }

  lemma Be16Sum(v: U16)
    ensures Same(LeSum(Be16(v)), 256 * v)
  {
    var b := Be16(v);
    assert b[2..] == [];
    assert LeSum(b) == Pair(v % 256, v / 256);
    SameUp(LeSum(b), 256 * v, v / 256);
  }

  /** The 96-bit pseudo-header of section 3.1 of RFC 793; the addresses are in memory order. */
  function Pseudo4(saddr: seq<Byte>, daddr: seq<Byte>, len: U16, proto: U16): seq<Byte>
    requires |saddr| == 4 && |daddr| == 4
  {
    saddr + daddr + Be16(proto) + Be16(len)
  }

  lemma Pseudo4Sum(saddr: seq<Byte>, daddr: seq<Byte>, len: U16, proto: U16)
    requires |saddr| == 4 && |daddr| == 4
    ensures Same(Load32(daddr, 0) + Load32(saddr, 0) + 256 * (len + proto), LeSum(Pseudo4(saddr, daddr, len, proto)))
  {
    hide LeSum, Load32, Be16;
    LeSumSplits(saddr + daddr + Be16(proto), Be16(len));
    LeSumSplits(saddr + daddr, Be16(proto));
    LeSumSplits(saddr, daddr);
    assert saddr[0..4] == saddr && daddr[0..4] == daddr;
    Load32IsSame(saddr, 0);
    Load32IsSame(daddr, 0);
    Be16Sum(len);
    Be16Sum(proto);
    SameSym(LeSum(Be16(len)), 256 * len);
    SameSym(LeSum(Be16(proto)), 256 * proto);
    SameAdd(Load32(daddr, 0), LeSum(daddr), Load32(saddr, 0), LeSum(saddr));
    SameAdd(256 * len, LeSum(Be16(len)), 256 * proto, LeSum(Be16(proto)));
    SameAdd(Load32(daddr, 0) + Load32(saddr, 0), LeSum(daddr) + LeSum(saddr),
            256 * len + 256 * proto, LeSum(Be16(len)) + LeSum(Be16(proto)));
  }

  /** csum_tcpudp_magic is the checksum of the pseudo-header followed by any message that `sum` stands for. */
  lemma TcpudpMagicIsChecksum(saddr: seq<Byte>, daddr: seq<Byte>, len: U16, proto: U16, sum: U32, msg: seq<Byte>)
    requires |saddr| == 4 && |daddr| == 4 && Same(sum, LeSum(msg))
    ensures CsumTcpudpMagic(Load32(saddr, 0), Load32(daddr, 0), len, proto, sum)
         == MemChecksum(Pseudo4(saddr, daddr, len, proto) + msg)
  {
    hide Same, LeSum, Load32, MemChecksum, CsumFold, CsumTcpudpNofold, Be16;
    var s, d, p := Load32(saddr, 0), Load32(daddr, 0), Pseudo4(saddr, daddr, len, proto);
    var r := CsumTcpudpNofold(s, d, len, proto, sum);
    Pseudo4Sum(saddr, daddr, len, proto);
    SameAdd(sum, LeSum(msg), d + s + 256 * (len + proto), LeSum(p));
    LeSumSplits(p, msg);
    SameTrans(r, sum + d + s + 256 * (len + proto), LeSum(p + msg));
    var c := CsumFold(r);
    SameTrans(0xffff - c, r, LeSum(p + msg));
    ComplementIsChecksum(0xffff - c, p + msg);
  }
}
