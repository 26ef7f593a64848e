/** One's complement sums as RFC 1071 defines them, and why wider words and either byte order give the
    same answer. */
module OnesComplement {
  import opened Words

  type U16 = x: int | 0 <= x < 0x1_0000
  type U32 = x: int | 0 <= x < 0x1_0000_0000

  /** Two bytes as a number. */
  function Pair(hi: int, lo: int): int { 256 * hi + lo }

  // ---- the reference: section 1 of RFC 1071 ----

  /** 16-bit addition with end-around carry. */
  function OcAdd(a: U16, b: U16): U16
  {
    if a + b > 0xffff then a + b - 0xffff else a + b
  }

  function OcSum(ws: seq<U16>): U16
  {
    if ws == [] then 0 else OcAdd(ws[0], OcSum(ws[1..]))
  }

  /** The 16-bit words of a message in network byte order, an odd last byte padded with zero. */
  function NetWords(b: seq<Byte>): seq<U16>
  {
    if |b| == 0 then [] else if |b| == 1 then [Pair(b[0], 0)] else [Pair(b[0], b[1])] + NetWords(b[2..])
  }

  /** The Internet checksum of a message, as a number read in network byte order. */
  function NetChecksum(b: seq<Byte>): U16 { 0xffff - OcSum(NetWords(b)) }

  // ---- congruence modulo 65535 that keeps zero apart ----

  ghost predicate By(a: int, b: int, k: int) { a == b + 65535 * k }

  /** Equal one's complement values: congruent, and zero only together. */
  ghost predicate Same(a: nat, b: nat)
  {
    (a == 0 <==> b == 0) && exists k :: By(a, b, k)
  }

  lemma SameBy(a: nat, b: nat, k: int)
    requires a == b + 65535 * k && (a == 0 <==> b == 0)
    ensures Same(a, b)
  {
    assert By(a, b, k);
  }

  lemma SameUp(a: nat, b: nat, k: int)
    requires b == a + 65535 * k && (a == 0 <==> b == 0)
    ensures Same(a, b)
  {
    SameBy(a, b, -k);
  }

  lemma SameRefl(a: nat)
    ensures Same(a, a)
  {
    SameBy(a, a, 0);
  }

  lemma SameSym(a: nat, b: nat)
    requires Same(a, b)
    ensures Same(b, a)
  {
    var k :| By(a, b, k);
    SameBy(b, a, -k);
  }

  lemma SameTrans(a: nat, b: nat, c: nat)
    requires Same(a, b) && Same(b, c)
    ensures Same(a, c)
  {
    var k :| By(a, b, k);
    var l :| By(b, c, l);
    SameBy(a, c, k + l);
  }

  lemma SameAdd(a: nat, b: nat, c: nat, d: nat)
    requires Same(a, b) && Same(c, d)
    ensures Same(a + c, b + d)
  {
    var k :| By(a, b, k);
    var l :| By(c, d, l);
    SameBy(a + c, b + d, k + l);
  }

  lemma SameScale(a: nat, b: nat)
    requires Same(a, b)
    ensures Same(256 * a, 256 * b)
  {
    var k :| By(a, b, k);
    SameBy(256 * a, 256 * b, 256 * k);
  }

  /** Sixteen bits leave one representative. */
  lemma SameUnique(a: U16, b: U16, n: nat)
    requires Same(a, n) && Same(b, n)
    ensures a == b
  {
  }

  // ---- memory order ----

  /** The sum of the 16-bit words of a message as a little-endian machine reads them. */
  function LeSum(b: seq<Byte>): nat
  {
    if |b| == 0 then 0 else if |b| == 1 then b[0] else Pair(b[1], b[0]) + LeSum(b[2..])
  }

  function NetSum(b: seq<Byte>): nat
  {
    if |b| == 0 then 0 else if |b| == 1 then Pair(b[0], 0) else Pair(b[0], b[1]) + NetSum(b[2..])
  }

  function Swap16(v: U16): U16 { Pair(v % 256, v / 256) }

  lemma {:induction false} OcSumIsSame(b: seq<Byte>)
    ensures Same(OcSum(NetWords(b)), NetSum(b))
  {
    if |b| <= 1 {
      assert |b| == 1 ==> NetWords(b)[1..] == [];
      SameRefl(NetSum(b));
    } else {
      var w: U16, rest := Pair(b[0], b[1]), NetWords(b[2..]);
      OcSumIsSame(b[2..]);
      SameBy(w, w, 0);
      SameAdd(w, w, OcSum(rest), NetSum(b[2..]));
      assert NetWords(b)[1..] == rest;
      SameBy(OcAdd(w, OcSum(rest)), w + OcSum(rest), if w + OcSum(rest) > 0xffff then -1 else 0);
      SameTrans(OcSum(NetWords(b)), w + OcSum(rest), NetSum(b));
    }
  }

  /** Swapping the bytes of every word multiplies the sum by 256. */
  lemma {:induction false} LeIsScaledNet(b: seq<Byte>)
    ensures Same(LeSum(b), 256 * NetSum(b))
  {
    if |b| <= 1 {
      SameUp(LeSum(b), 256 * NetSum(b), if |b| == 0 then 0 else b[0]);
    } else {
      LeIsScaledNet(b[2..]);
      var x, y := Pair(b[1], b[0]), 256 * Pair(b[0], b[1]);
      SameUp(x, y, b[0]);
      SameAdd(x, y, LeSum(b[2..]), 256 * NetSum(b[2..]));
    }
  }

  /** Byte-order independence, section 2(B) of RFC 1071: a 16-bit value that stands for the little-endian
      sum is the network-order sum with its bytes swapped. */
  lemma ByteOrderIndependence(v: U16, b: seq<Byte>)
    requires Same(v, LeSum(b))
    ensures v == Swap16(OcSum(NetWords(b)))
  {
    hide Same;
    var net: int := OcSum(NetWords(b));
    OcSumIsSame(b);
    SameScale(net, NetSum(b));
    SwapScales(net);
    SameTrans(Swap16(net), 256 * net, 256 * NetSum(b));
    LeIsScaledNet(b);
    SameTrans(v, LeSum(b), 256 * NetSum(b));
    SameUnique(v, Swap16(net), 256 * NetSum(b));
  }

  lemma SwapScales(v: U16)
    ensures Same(Swap16(v), 256 * v)
  {
    SameBy(Swap16(v), 256 * v, 0 - v / 256);
  }

  /** Pieces of even length add up. */
  lemma {:induction false} LeSumSplits(a: seq<Byte>, b: seq<Byte>)
    requires |a| % 2 == 0
    ensures LeSum(a + b) == LeSum(a) + LeSum(b)
  {
    if a == [] {
      assert a + b == b;
    } else {
      LeSumSplits(a[2..], b);
      assert (a + b)[2..] == a[2..] + b;
    }
  }

  /** Shifting a message by one byte multiplies its sum by 256, once the first byte is set aside. */
  lemma {:induction false} LeSumShifts(b: seq<Byte>)
    requires |b| > 0
    ensures LeSum(b) >= b[0] && Same(LeSum(b) - b[0], 256 * LeSum(b[1..]))
  {
    if |b| <= 2 {
      SameBy(LeSum(b) - b[0], 256 * LeSum(b[1..]), 0);
    } else {
      var rest := b[2..];
      LeSumShifts(rest);
      assert b[1..][2..] == rest[1..];
      var x, y := Pair(b[1], b[2]), 256 * Pair(b[2], b[1]);
      SameUp(x, y, b[2]);
      SameAdd(x, y, LeSum(rest) - rest[0], 256 * LeSum(rest[1..]));
    }
  }

  // ---- the ADC chain ----

  /** Accumulator and carry flag. */
  datatype Acc = Acc(sum: U32, cf: bool)

  function Carry(cf: bool): nat { if cf then 1 else 0 }

  function Adc(a: Acc, w: U32): Acc
  {
    var s := a.sum + w + Carry(a.cf);
    if s >= 0x1_0000_0000 then Acc(s - 0x1_0000_0000, true) else Acc(s, false)
  }

  /** The accumulator and its pending carry stand for n, and they are never 0xffffffff and 1 at once. */
  ghost predicate Holds(a: Acc, n: nat)
  {
    a.sum + Carry(a.cf) <= 0xffff_ffff && Same(a.sum + Carry(a.cf), n)
  }

  lemma AdcHolds(a: Acc, w: U32, n: nat)
    requires Holds(a, n)
    ensures Holds(Adc(a, w), n + w)
  {
    hide Same;
    var v, r := a.sum + Carry(a.cf), Adc(a, w);
    SameBy(w, w, 0);
    SameAdd(v, n, w, w);
    SameBy(r.sum + Carry(r.cf), v + w, if r.cf then -65537 else 0);
    SameTrans(r.sum + Carry(r.cf), v + w, n + w);
  }

  /** "adcl $0": the last carry goes in and nothing comes out. */
  lemma AdcFinishes(a: Acc, n: nat)
    requires Holds(a, n)
    ensures !Adc(a, 0).cf && Same(Adc(a, 0).sum, n)
  {
  }

  /** A 32-bit load, least significant byte first. */
  function Load32(b: seq<Byte>, i: nat): U32
    requires i + 4 <= |b|
  {
    Pair(b[i + 1], b[i]) + 0x1_0000 * Pair(b[i + 3], b[i + 2])
  }

  lemma Load32IsSame(b: seq<Byte>, i: nat)
    requires i + 4 <= |b|
    ensures Same(Load32(b, i), LeSum(b[i..i + 4]))
  {
    var c := b[i..i + 4];
    assert c[2..][2..] == [];
    assert LeSum(c[2..]) == Pair(b[i + 3], b[i + 2]);
    SameBy(Load32(b, i), LeSum(c), Pair(b[i + 3], b[i + 2]));
  }

  /** m consecutive "adcl" instructions on the words from offset i. */
  function AdcLoads(a: Acc, b: seq<Byte>, i: nat, m: nat): Acc
    requires i + 4 * m <= |b|
  {
    if m == 0 then a else Adc(AdcLoads(a, b, i, m - 1), Load32(b, i + 4 * (m - 1)))
  }

  lemma AdcLoadHolds(a: Acc, b: seq<Byte>, j: nat, n: nat)
    requires j + 4 <= |b| && Holds(a, n)
    ensures Holds(Adc(a, Load32(b, j)), n + LeSum(b[j..j + 4]))
  {
    hide Same, LeSum, Load32;
    var r := Adc(a, Load32(b, j));
    AdcHolds(a, Load32(b, j), n);
    Load32IsSame(b, j);
    SameRefl(n);
    SameAdd(n, n, Load32(b, j), LeSum(b[j..j + 4]));
    SameTrans(r.sum + Carry(r.cf), n + Load32(b, j), n + LeSum(b[j..j + 4]));
  }

  lemma {:induction false} AdcLoadsHolds(a: Acc, b: seq<Byte>, i: nat, m: nat, n: nat)
    requires i + 4 * m <= |b| && Holds(a, n)
    ensures Holds(AdcLoads(a, b, i, m), n + LeSum(b[i..i + 4 * m]))
  {
    hide Holds, Load32, Adc, LeSum;
    if m == 0 {
      LeSumEmpty(b[i..i]);
    } else {
      var j := i + 4 * (m - 1);
      AdcLoadsHolds(a, b, i, m - 1, n);
      AdcLoadHolds(AdcLoads(a, b, i, m - 1), b, j, n + LeSum(b[i..j]));
      LeSumJoins(b, i, j, j + 4);
    }
  }

  lemma LeSumJoins(b: seq<Byte>, i: nat, j: nat, k: nat)
    requires i <= j <= k <= |b| && (j - i) % 2 == 0
    ensures LeSum(b[i..k]) == LeSum(b[i..j]) + LeSum(b[j..k])
  {
    hide LeSum;
    LeSumSplits(b[i..j], b[j..k]);
    assert b[i..j] + b[j..k] == b[i..k];
  }

  /** The same with the length of the first piece given as twice a number. */
  lemma LeSumJoinsAt(b: seq<Byte>, i: nat, half: nat, k: nat)
    requires i + 2 * half <= k <= |b|
    ensures LeSum(b[i..k]) == LeSum(b[i..i + 2 * half]) + LeSum(b[i + 2 * half..k])
  {
    hide LeSum;
    LeSumJoins(b, i, i + 2 * half, k);
  }

  lemma LeSumEmpty(b: seq<Byte>)
    requires b == []
    ensures LeSum(b) == 0
  {
  }
}
