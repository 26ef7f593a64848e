/** csum_partial for any alignment and length, ip_compute_csum and the IPv6 pseudo-header on top of it. */
module CsumPartial {
  import opened OnesComplement
  import opened Words
  import opened IpChecksum

  /** roll $8 */
  function Rol8(v: U32): (r: U32)
    ensures Same(r, 256 * v)
  {
    var r := v % 0x100_0000 * 0x100 + v / 0x100_0000;
    SameUp(r, 256 * v, 65537 * (v / 0x100_0000));
    r
  }

  /** addl; adcl $0 */
  function AddCarry(eax: U32, w: U32): (r: U32)
    ensures Same(r, eax + w)
  {
    SameRefl(eax);
    AdcHolds(Acc(eax, false), w, eax);
    AdcFinishes(Adc(Acc(eax, false), w), eax + w);
    Adc(Adc(Acc(eax, false), w), 0).sum
  }

  /** addw on the low half; adcl $0 on the whole */
  function AddWord(eax: U32, w: U16): (r: U32)
    ensures Same(r, eax + w)
  {
    var low := eax % 0x1_0000 + w;
    var r := eax / 0x1_0000 * 0x1_0000 + low % 0x1_0000 + low / 0x1_0000;
    SameUp(r, eax + w, low / 0x1_0000);
    r
  }

  /** The last one to three bytes as the code packs them into a register. */
  function Tail(b: seq<Byte>): U32
    requires |b| <= 3
  {
    if |b| == 0 then 0
    else if |b| == 1 then b[0]
    else if |b| == 2 then Pair(b[1], b[0])
    else 0x1_0000 * Pair(b[1], b[0]) + b[2]
  }

  lemma TailIsSame(b: seq<Byte>)
    requires |b| <= 3
    ensures Same(Tail(b), LeSum(b))
  {
    assert |b| == 2 ==> b[2..] == [];
    assert |b| == 3 ==> b[2..] == [b[2]];
    SameBy(Tail(b), LeSum(b), if |b| == 3 then Pair(b[1], b[0]) else 0);
  }

  lemma FreshHolds(eax: U32, n: nat)
    requires Same(eax, n)
    ensures Holds(Acc(eax, false), n)
  {
  }

  /** What has been added so far, plus one more aligned block. */
  lemma NextBlockHolds(acc: Acc, b: seq<Byte>, i: nat, half: nat, base: nat)
    requires i == 2 * half && i + 32 <= |b| && Holds(acc, base + LeSum(b[0..i]))
    ensures Holds(AdcLoads(acc, b, i, 8), base + LeSum(b[0..i + 32]))
  {
    hide LeSum, AdcLoads, Holds;
    AdcLoadsHolds(acc, b, i, 8, base + LeSum(b[0..i]));
    LeSumJoinsAt(b, 0, half, i + 32);
  }

  /** The loop of eight adcl on 32 bytes. */
  method SumBlocks(b: seq<Byte>, blocks: nat, sum: U32) returns (acc: Acc)
    requires 32 * blocks <= |b|
    ensures Holds(acc, sum + LeSum(b[0..32 * blocks]))
  {
    hide Same, LeSum, AdcLoads, Holds;
    var i, left := 0, blocks;
    acc := Acc(sum, false);
    StartHolds(sum, b);
    while left != 0
      invariant 0 <= left && i == 32 * (blocks - left)
      invariant 0 <= i && i + 32 * left <= |b|
      invariant Holds(acc, sum + LeSum(b[0..i]))
    {
      NextBlockHolds(acc, b, i, 16 * (blocks - left), sum);
      acc := AdcLoads(acc, b, i, 8);
      i := i + 32;
      left := left - 1;
    }
  }

  /** shrl $5 and the 0x1c bits: how a length divides into blocks, dwords and a tail. */
  method Divide(n: nat) returns (i: nat, blocks: nat, dwords: nat)
    ensures i == 32 * blocks && i + 4 * dwords <= n <= i + 4 * dwords + 3
  {
    blocks, dwords := n / 32, n % 32 / 4;
    i := 32 * blocks;
    assert n == i + n % 32 && n % 32 == 4 * dwords + n % 32 % 4;
  }

  /** Label 2 onwards: a word-aligned buffer, 32 bytes at a time, then 4, then the tail. */
  method SumAligned(b: seq<Byte>, sum: U32) returns (eax: U32)
    ensures Same(eax, sum + LeSum(b))
  {
    hide Same, LeSum, AdcLoads, Holds, Adc;
    var i, blocks, dwords := Divide(|b|);
    var acc := SumBlocks(b, blocks, sum);
    AdcFinishes(acc, sum + LeSum(b[0..i]));
    eax := Adc(acc, 0).sum;
    FreshHolds(eax, sum + LeSum(b[0..i]));
    AdcLoadsHolds(Acc(eax, false), b, i, dwords, sum + LeSum(b[0..i]));
    LeSumJoinsAt(b, 0, 16 * blocks, i + 4 * dwords);
    acc := AdcLoads(Acc(eax, false), b, i, dwords);
    AdcFinishes(acc, sum + LeSum(b[0..i + 4 * dwords]));
    eax := Adc(acc, 0).sum;
    eax := AddTail(eax, b, i + 4 * dwords, 16 * blocks + 2 * dwords, sum);
  }

  lemma StartHolds(sum: U32, b: seq<Byte>)
    ensures Holds(Acc(sum, false), sum + LeSum(b[0..0]))
  {
    SameRefl(sum);
    assert b[0..0] == [];
  }

  /** Label 4: nothing if the length is a multiple of four. */
  method AddTail(eax: U32, b: seq<Byte>, i: nat, ghost half: nat, ghost base: nat) returns (r: U32)
    requires i == 2 * half && i <= |b| <= i + 3 && Same(eax, base + LeSum(b[0..i]))
    ensures Same(r, base + LeSum(b))
  {
    hide Same, LeSum, Tail, AddCarry;
    var rest := b[i..];
    LeSumJoinsAt(b, 0, half, |b|);
    assert b[0..|b|] == b && b[i..|b|] == rest;
    TailIsSame(rest);
    SameAdd(eax, base + LeSum(b[0..i]), Tail(rest), LeSum(rest));
    if rest == [] {
      LeSumEmpty(rest);
      return eax;
    }
    r := AddCarry(eax, Tail(rest));
    SameTrans(r, eax + Tail(rest), base + LeSum(b));
  }

  /** Label 10: a buffer on a two-byte boundary gives up one word first. */
  method SumEven(addr: nat, b: seq<Byte>, sum: U32) returns (eax: U32)
    requires addr % 2 == 0
    ensures Same(eax, sum + LeSum(b))
  {
    hide Same, LeSum, AddWord;
    if addr % 4 == 2 && |b| >= 2 {
      var w := Pair(b[1], b[0]);
      eax := AddWord(sum, w);
      eax := SumAligned(b[2..], eax);
      WordFirst(b, eax, AddWord(sum, w), sum);
    } else {
      eax := SumAligned(b, sum);
    }
  }

  lemma WordFirst(b: seq<Byte>, r: nat, mid: nat, sum: nat)
    requires |b| >= 2 && Same(mid, sum + Pair(b[1], b[0])) && Same(r, mid + LeSum(b[2..]))
    ensures Same(r, sum + LeSum(b))
  {
    hide Same;
    SameRefl(LeSum(b[2..]));
    SameAdd(mid, sum + Pair(b[1], b[0]), LeSum(b[2..]), LeSum(b[2..]));
    SameTrans(r, mid + LeSum(b[2..]), sum + LeSum(b));
  }

  /** The addition of the first byte at an odd address overflows; the roll that follows drops the carry. */
  predicate LosesCarry(addr: nat, b: seq<Byte>, sum: U32)
  {
    addr % 2 == 1 && |b| > 0 && sum + b[0] > 0xffff_ffff
  }

  /** The result stands for the initial sum plus the message exactly when no carry is lost; a lost carry is worth
      2^32. */
  method CsumPartial(addr: nat, b: seq<Byte>, sum: U32) returns (r: U32)
    ensures Same(r, sum + LeSum(b)) <==> !LosesCarry(addr, b, sum)
    ensures LosesCarry(addr, b, sum) ==>
              sum + LeSum(b) >= 0x1_0000_0000 && Same(r, sum + LeSum(b) - 0x1_0000_0000)
  {
    hide Same, LeSum, Rol8;
    if addr % 2 == 0 {
      r := SumEven(addr, b, sum);
    } else if |b| == 0 {
      r := sum;
      LeSumEmpty(b);
      SameRefl(sum);
    } else {
      var eax: U32 := (sum + b[0]) % 0x1_0000_0000;
      var mid := SumEven(addr + 1, b[1..], Rol8(eax));
      r := Rol8(mid);
      OddStart(b, eax, mid, r);
      if LosesCarry(addr, b, sum) {
        assert eax == sum + b[0] - 0x1_0000_0000;
        CarryMatters(r, sum + LeSum(b), eax + LeSum(b) - b[0]);
      }
    }
  }

  /** A byte 0x01 at an odd address, added to an initial sum of all ones: nothing is left of either. */
  lemma OddByteLosesCarry()
    ensures LosesCarry(1, [1], 0xffff_ffff) && !Same(Rol8(Rol8(0)), 0xffff_ffff + LeSum([1]))
  {
    RolZero();
  }

  lemma RolZero()
    ensures Rol8(0) == 0
  {
  }

  /** Two rotations around the rest of the message cancel. */
  lemma OddStart(b: seq<Byte>, eax: U32, mid: U32, r: U32)
    requires |b| > 0 && r == Rol8(mid) && Same(mid, Rol8(eax) + LeSum(b[1..]))
    ensures LeSum(b) >= b[0] && Same(r, eax + LeSum(b) - b[0])
  {
    hide Same, LeSum, Rol8;
    var rest := LeSum(b[1..]);
    SameScale(mid, Rol8(eax) + rest);
    SameScale(Rol8(eax), 256 * eax);
    TwiceRolled(eax);
    SameTrans(256 * Rol8(eax), 65536 * eax, eax);
    LeSumShifts(b);
    SameSym(LeSum(b) - b[0], 256 * rest);
    SameAdd(256 * Rol8(eax), eax, 256 * rest, LeSum(b) - b[0]);
    SameTrans(r, 256 * mid, 256 * (Rol8(eax) + rest));
    SameTrans(r, 256 * (Rol8(eax) + rest), eax + (LeSum(b) - b[0]));
  }

  lemma TwiceRolled(eax: nat)
    ensures Same(65536 * eax, eax)
  {
    SameBy(65536 * eax, eax, eax);
  }

  lemma CarryMatters(r: nat, n: nat, n': nat)
    requires Same(r, n') && n == n' + 0x1_0000_0000
    ensures !Same(r, n)
  {
  }

  /** A fragment of even length can be summed first and the rest added to its result. */
  lemma FragmentsCompose(a: seq<Byte>, b: seq<Byte>, sum: nat, mid: nat, r: nat)
    requires |a| % 2 == 0 && Same(mid, sum + LeSum(a)) && Same(r, mid + LeSum(b))
    ensures Same(r, sum + LeSum(a + b))
  {
    hide Same, LeSum;
    LeSumSplits(a, b);
    SameRefl(LeSum(b));
    SameAdd(mid, sum + LeSum(a), LeSum(b), LeSum(b));
    SameTrans(r, mid + LeSum(b), sum + LeSum(a + b));
  }

  /** A piece of a message and where it lies. */
  datatype Fragment = Fragment(addr: nat, data: seq<Byte>)

  function Joined(fs: seq<Fragment>): seq<Byte>
  {
    if fs == [] then [] else Joined(fs[..|fs| - 1]) + fs[|fs| - 1].data
  }

  lemma {:induction false} JoinedEven(fs: seq<Fragment>)
    requires forall k :: 0 <= k < |fs| ==> |fs[k].data| % 2 == 0
    ensures |Joined(fs)| % 2 == 0
  {
    if fs != [] {
      JoinedEven(fs[..|fs| - 1]);
    }
  }

  /** The calls that lost their carry, the k-th one having been given sums[k]. */
  function LostCarries(fs: seq<Fragment>, sums: seq<U32>): nat
    requires |fs| == |sums|
  {
    if fs == [] then 0
    else
      var k := |fs| - 1;
      LostCarries(fs[..k], sums[..k]) + if LosesCarry(fs[k].addr, fs[k].data, sums[k]) then 1 else 0
  }

  /** Congruent modulo 65535: equal as one's complement values, but for the two zeros. */
  ghost predicate Congruent(a: int, b: int) { exists k :: By(a, b, k) }

  lemma SameIsCongruent(a: nat, b: nat)
    requires Same(a, b)
    ensures Congruent(a, b)
  {
  }

  /** One call more: a lost carry of 2^32 counts as one. */
  lemma CongruentCall(mid: nat, n: int, r: nat, x: nat, lost: bool)
    requires Congruent(mid, n) && Congruent(r, mid + x - if lost then 0x1_0000_0000 else 0)
    ensures Congruent(r, n + x - if lost then 1 else 0)
  {
    var k :| By(mid, n, k);
    var l :| By(r, mid + x - if lost then 0x1_0000_0000 else 0, l);
    assert By(r, n + x - if lost then 1 else 0, k + l - if lost then 65537 else 0);
  }

  lemma CongruentExactly(r: int, n: int, lost: nat)
    requires Congruent(r, n - lost)
    ensures Congruent(r, n) <==> lost % 65535 == 0
  {
    var k :| By(r, n - lost, k);
    if lost % 65535 == 0 {
      assert By(r, n, k - lost / 65535);
    }
    if Congruent(r, n) {
      var l :| By(r, n, l);
      MultipleOf(lost, k - l);
    }
  }

  lemma MultipleOf(x: int, k: int)
    requires x == 65535 * k
    ensures x % 65535 == 0
  {
  }

  /** A message summed piece by piece, each call fed with the result of the one before, with even lengths for all
      but the last piece. Every lost carry takes one off the final result, modulo 65535, so the result is congruent
      to the whole sum exactly when their number is a multiple of 65535; and with none lost it stands for the
      whole message. */
  method SumFragments(fs: seq<Fragment>, sum: U32) returns (sums: seq<U32>)
    requires forall k :: 0 <= k < |fs| - 1 ==> |fs[k].data| % 2 == 0
    ensures |sums| == |fs| + 1 && sums[0] == sum
    ensures var whole, lost := sum + LeSum(Joined(fs)), LostCarries(fs, sums[..|fs|]);
            && Congruent(sums[|fs|], whole - lost)
            && (Congruent(sums[|fs|], whole) <==> lost % 65535 == 0)
            && (lost == 0 ==> Same(sums[|fs|], whole))
  {
    hide Same, LeSum, LosesCarry, Congruent;
    sums := [sum];
    SameRefl(sum);
    SameIsCongruent(sum, sum);
    LeSumEmpty([]);
    for n := 0 to |fs|
      invariant |sums| == n + 1 && sums[0] == sum
      invariant Congruent(sums[n], sum + LeSum(Joined(fs[..n])) - LostCarries(fs[..n], sums[..n]))
      invariant LostCarries(fs[..n], sums[..n]) == 0 ==> Same(sums[n], sum + LeSum(Joined(fs[..n])))
    {
      var r := CsumPartial(fs[n].addr, fs[n].data, sums[n]);
      NextFragment(fs, n, sum, sums, r);
      sums := sums + [r];
    }
    assert fs[..|fs|] == fs;
    CongruentExactly(sums[|fs|], sum + LeSum(Joined(fs)), LostCarries(fs, sums[..|fs|]));
  }

  lemma NextFragment(fs: seq<Fragment>, n: nat, sum: U32, sums: seq<U32>, r: U32)
    requires n < |fs| && |sums| == n + 1 && forall k :: 0 <= k < |fs| - 1 ==> |fs[k].data| % 2 == 0
    requires Congruent(sums[n], sum + LeSum(Joined(fs[..n])) - LostCarries(fs[..n], sums[..n]))
    requires LostCarries(fs[..n], sums[..n]) == 0 ==> Same(sums[n], sum + LeSum(Joined(fs[..n])))
    requires Same(r, sums[n] + LeSum(fs[n].data)) <==> !LosesCarry(fs[n].addr, fs[n].data, sums[n])
    requires LosesCarry(fs[n].addr, fs[n].data, sums[n]) ==>
               && sums[n] + LeSum(fs[n].data) >= 0x1_0000_0000
               && Same(r, sums[n] + LeSum(fs[n].data) - 0x1_0000_0000)
    ensures var s, more := sum + LeSum(Joined(fs[..n + 1])), sums + [r];
            && Congruent(r, s - LostCarries(fs[..n + 1], more[..n + 1]))
            && (LostCarries(fs[..n + 1], more[..n + 1]) == 0 ==> Same(r, s))
  {
    hide Same, LeSum, LosesCarry, Congruent;
    var mid, b, a := sums[n], fs[n].data, Joined(fs[..n]);
    var lost := LosesCarry(fs[n].addr, b, mid);
    var more := sums + [r];
    assert fs[..n + 1][..n] == fs[..n] && more[..n + 1][..n] == sums[..n] && more[..n + 1][n] == mid;
    JoinedEven(fs[..n]);
    LeSumSplits(a, b);
    SameIsCongruent(r, mid + LeSum(b) - if lost then 0x1_0000_0000 else 0);
    CongruentCall(mid, sum + LeSum(a) - LostCarries(fs[..n], sums[..n]), r, LeSum(b), lost);
    if LostCarries(fs[..n], sums[..n]) == 0 && !lost {
      FragmentsCompose(a, b, sum, mid, r);
    }
  }

  /** ip_compute_csum: the Internet checksum of any buffer at any address. */
  method IpComputeCsum(addr: nat, b: seq<Byte>) returns (r: U16)
    ensures r == MemChecksum(b)
  {
    hide Same, LeSum, MemChecksum, CsumFold;
    var sum := CsumPartial(addr, b, 0);
    r := CsumFold(sum);
    SameTrans(0xffff - r, sum, LeSum(b));
    ComplementIsChecksum(0xffff - r, b);
  }

  // ---- csum_ipv6_magic ----

  /** htonl on a little-endian machine: the register that stores as network order. */
  function Htonl(v: U32): U32 { Load32(Be32(v), 0) }

  /** The pseudo-header of section 8.1 of RFC 2460. */
  function Pseudo6(saddr: seq<Byte>, daddr: seq<Byte>, len: U32, proto: U16): seq<Byte>
    requires |saddr| == 16 && |daddr| == 16
  {
    saddr + daddr + Be32(len) + Be32(proto)
  }

  /** addl and nine adcl over the addresses, the length and the protocol, then the last carry. */
  function CsumIpv6Magic(saddr: seq<Byte>, daddr: seq<Byte>, len: U32, proto: U16, sum: U32): U16
    requires |saddr| == 16 && |daddr| == 16
  {
    var a := AdcLoads(AdcLoads(Acc(sum, false), saddr, 0, 4), daddr, 0, 4);
    CsumFold(Adc(Adc(Adc(a, Htonl(len)), Htonl(proto)), 0).sum)
  }

  lemma HtonlHolds(a: Acc, v: U32, n: nat)
    requires Holds(a, n)
    ensures Holds(Adc(a, Htonl(v)), n + LeSum(Be32(v)))
  {
    hide LeSum, Load32, Adc, Be32, Holds;
    AdcLoadHolds(a, Be32(v), 0, n);
    assert Be32(v)[0..4] == Be32(v);
  }

  lemma AddressHolds(a: Acc, addr: seq<Byte>, n: nat)
    requires |addr| == 16 && Holds(a, n)
    ensures Holds(AdcLoads(a, addr, 0, 4), n + LeSum(addr))
  {
    hide LeSum, AdcLoads, Holds;
    AdcLoadsHolds(a, addr, 0, 4, n);
    assert addr[0..16] == addr;
  }

  lemma Pseudo6Sum(saddr: seq<Byte>, daddr: seq<Byte>, len: U32, proto: U16)
    requires |saddr| == 16 && |daddr| == 16
    ensures LeSum(Pseudo6(saddr, daddr, len, proto))
         == LeSum(saddr) + LeSum(daddr) + LeSum(Be32(len)) + LeSum(Be32(proto))
  {
    hide LeSum, Be32;
    LeSumSplits(saddr + daddr + Be32(len), Be32(proto));
    LeSumSplits(saddr + daddr, Be32(len));
    LeSumSplits(saddr, daddr);
  }

  /** csum_ipv6_magic is the checksum of the pseudo-header followed by any message `sum` stands for. */
  lemma Ipv6MagicIsChecksum(saddr: seq<Byte>, daddr: seq<Byte>, len: U32, proto: U16, sum: U32, msg: seq<Byte>)
    requires |saddr| == 16 && |daddr| == 16 && Same(sum, LeSum(msg))
    ensures CsumIpv6Magic(saddr, daddr, len, proto, sum) == MemChecksum(Pseudo6(saddr, daddr, len, proto) + msg)
  {
    hide LeSum, AdcLoads, Adc, Htonl, Be32, MemChecksum, CsumFold, Same, Pseudo6;
    var n0 := LeSum(msg);
    var a0 := Acc(sum, false);
    var a1 := AdcLoads(a0, saddr, 0, 4);
    var a2 := AdcLoads(a1, daddr, 0, 4);
    var a3 := Adc(a2, Htonl(len));
    var a4 := Adc(a3, Htonl(proto));
    var p := Pseudo6(saddr, daddr, len, proto);
    AddressHolds(a0, saddr, n0);
    AddressHolds(a1, daddr, n0 + LeSum(saddr));
    HtonlHolds(a2, len, n0 + LeSum(saddr) + LeSum(daddr));
    HtonlHolds(a3, proto, n0 + LeSum(saddr) + LeSum(daddr) + LeSum(Be32(len)));
    Pseudo6Sum(saddr, daddr, len, proto);
    PseudoIsEven(saddr, daddr, len, proto);
    LeSumSplits(p, msg);
    AdcFinishes(a4, LeSum(p + msg));
    var c := CsumFold(Adc(a4, 0).sum);
    SameTrans(0xffff - c, Adc(a4, 0).sum, LeSum(p + msg));
    ComplementIsChecksum(0xffff - c, p + msg);
  }

  lemma PseudoIsEven(saddr: seq<Byte>, daddr: seq<Byte>, len: U32, proto: U16)
    requires |saddr| == 16 && |daddr| == 16
    ensures |Pseudo6(saddr, daddr, len, proto)| == 40
  {
  }
}
