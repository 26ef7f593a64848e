/** Copies and fills that move several bytes at a time, in place on one memory in which source and destination
    may overlap. */
module StringOps {
  import opened Words

  // ---- what a copy should do, and what it does ----

  /** n bytes from `from` to `to`, all read before any is written. */
  function Moved(m: seq<Byte>, to: nat, from: nat, n: nat): (r: seq<Byte>)
    requires to + n <= |m| && from + n <= |m|
    ensures |r| == |m|
  {
    m[..to] + m[from..from + n] + m[to + n..]
  }

  function Sum(units: seq<nat>): nat { if units == [] then 0 else units[0] + Sum(units[1..]) }

  /** One unit after another, upwards: each is read whole and then written whole. */
  function CopyUnits(m: seq<Byte>, to: nat, from: nat, units: seq<nat>): (r: seq<Byte>)
    requires to + Sum(units) <= |m| && from + Sum(units) <= |m|
    ensures |r| == |m|
    decreases |units|
  {
    if units == [] then m
    else CopyUnits(Moved(m, to, from, units[0]), to + units[0], from + units[0], units[1..])
  }

  function Times(w: nat, n: nat): (us: seq<nat>)
    ensures |us| == n
  {
    if n == 0 then [] else [w] + Times(w, n - 1)
  }

  lemma {:induction false} SumTimes(w: nat, n: nat)
    ensures Sum(Times(w, n)) == w * n
  {
    if n > 0 {
      SumTimes(w, n - 1);
      assert Times(w, n)[1..] == Times(w, n - 1);
    }
  }

  lemma Unfold(m: seq<Byte>, to: nat, from: nat, units: seq<nat>)
    requires to + Sum(units) <= |m| && from + Sum(units) <= |m| && units != []
    ensures Sum(units) == units[0] + Sum(units[1..])
    ensures CopyUnits(m, to, from, units)
         == CopyUnits(Moved(m, to, from, units[0]), to + units[0], from + units[0], units[1..])
  {
  }

  lemma {:induction false} SumJoins(us: seq<nat>, vs: seq<nat>)
    ensures Sum(us + vs) == Sum(us) + Sum(vs)
  {
    if us == [] {
      assert us + vs == vs;
    } else {
      assert (us + vs)[1..] == us[1..] + vs;
      SumJoins(us[1..], vs);
    }
  }

  lemma Nothing(m: seq<Byte>, to: nat, from: nat)
    requires to <= |m| && from <= |m|
    ensures Sum([]) == 0 && CopyUnits(m, to, from, []) == m
  {
  }

  lemma {:induction false} CopyJoins(m: seq<Byte>, to: nat, from: nat, us: seq<nat>, vs: seq<nat>)
    requires to + Sum(us) + Sum(vs) <= |m| && from + Sum(us) + Sum(vs) <= |m|
    ensures Sum(us + vs) == Sum(us) + Sum(vs)
    ensures CopyUnits(m, to, from, us + vs)
         == CopyUnits(CopyUnits(m, to, from, us), to + Sum(us), from + Sum(us), vs)
    decreases |us|
  {
    hide Moved, Sum, CopyUnits;
    SumJoins(us, vs);
    if us == [] {
      Nothing(m, to, from);
      assert us + vs == vs;
    } else {
      assert (us + vs)[1..] == us[1..] + vs;
      Unfold(m, to, from, us + vs);
      Unfold(m, to, from, us);
      CopyJoins(Moved(m, to, from, us[0]), to + us[0], from + us[0], us[1..], vs);
    }
  }

  // ---- when the two agree ----

  lemma {:induction false} CopyAgrees(m: seq<Byte>, to: nat, from: nat, units: seq<nat>)
    requires to + Sum(units) <= |m| && from + Sum(units) <= |m|
    requires to <= from || from + Sum(units) <= to
    ensures CopyUnits(m, to, from, units) == Moved(m, to, from, Sum(units))
    decreases |units|
  {
    if units != [] {
      var u, n := units[0], Sum(units[1..]);
      CopyAgrees(Moved(m, to, from, u), to + u, from + u, units[1..]);
      MovedTwice(m, to, from, u, n);
    }
  }

  lemma MovedTwice(m: seq<Byte>, to: nat, from: nat, u: nat, n: nat)
    requires to + u + n <= |m| && from + u + n <= |m| && (to <= from || from + u + n <= to)
    ensures Moved(Moved(m, to, from, u), to + u, from + u, n) == Moved(m, to, from, u + n)
  {
  }

  /** A byte that lies below the destination when the copy starts arrives as it then was. */
  lemma {:induction false} ReadsWhatIsThere(m: seq<Byte>, to: nat, from: nat, units: seq<nat>, k: nat)
    requires to + Sum(units) <= |m| && from + Sum(units) <= |m| && k < Sum(units) && from + k < to
    ensures CopyUnits(m, to, from, units)[to + k] == m[from + k]
    decreases |units|
  {
    var u, next := units[0], Moved(m, to, from, units[0]);
    if k < u {
      WritesAbove(next, to + u, from + u, units[1..], to + k);
    } else {
      ReadsWhatIsThere(next, to + u, from + u, units[1..], k - u);
    }
  }

  lemma {:induction false} WritesAbove(m: seq<Byte>, to: nat, from: nat, units: seq<nat>, p: nat)
    requires to + Sum(units) <= |m| && from + Sum(units) <= |m| && p < to
    ensures CopyUnits(m, to, from, units)[p] == m[p]
    decreases |units|
  {
    if units != [] {
      WritesAbove(Moved(m, to, from, units[0]), to + units[0], from + units[0], units[1..], p);
    }
  }

  ghost predicate AlwaysRight(size: nat, to: nat, from: nat, units: seq<nat>)
    requires to + Sum(units) <= size && from + Sum(units) <= size
  {
    forall m: seq<Byte> :: |m| == size ==> CopyUnits(m, to, from, units) == Moved(m, to, from, Sum(units))
  }

  ghost predicate Positive(units: seq<nat>) { forall k :: 0 <= k < |units| ==> units[k] > 0 }

  function OneAt(size: nat, p: nat): seq<Byte> { seq(size, i => if i == p then 1 else 0) }

  /** An upward copy into its own source is wrong for some memory, as soon as it takes two units: the second one
      reads a byte that the first one has written. */
  lemma OverlapGoesWrong(size: nat, to: nat, from: nat, units: seq<nat>)
    requires to + Sum(units) <= size && from + Sum(units) <= size
    requires Positive(units) && |units| >= 2 && from < to < from + Sum(units)
    ensures !AlwaysRight(size, to, from, units)
  {
    hide CopyUnits, Sum, Moved, OneAt;
    var u, d, n := units[0], to - from, Sum(units);
    var j := if d < u then u else d;
    var m := OneAt(size, from + j - d);
    OneAtLength(size, from + j - d);
    Unfold(m, to, from, units);
    assert n > u by { SumPositive(units[1..]); }
    ReadsWhatIsThere(Moved(m, to, from, u), to + u, from + u, units[1..], j - u);
    MovedAt(m, to, from, u, j - d);
    MovedAt(m, to, from, n, j);
    assert CopyUnits(m, to, from, units)[to + j] != Moved(m, to, from, n)[to + j];
  }

  lemma OneAtLength(size: nat, p: nat)
    ensures |OneAt(size, p)| == size
    ensures forall i :: 0 <= i < size ==> OneAt(size, p)[i] == if i == p then 1 else 0
  {
  }

  lemma MovedAt(m: seq<Byte>, to: nat, from: nat, n: nat, k: nat)
    requires to + n <= |m| && from + n <= |m| && k < n
    ensures Moved(m, to, from, n)[to + k] == m[from + k]
  {
  }

  lemma SumPositive(units: seq<nat>)
    requires Positive(units) && units != []
    ensures Sum(units) > 0
  {
  }

  /** Two bytes copied one place up, one after the other: the first one ends up in both places. */
  lemma TwoBytesUp()
    ensures Sum([1, 1]) == 2
    ensures CopyUnits([1, 0, 0], 1, 0, [1, 1]) == [1, 1, 1] && Moved([1, 0, 0], 1, 0, 2) == [1, 1, 0]
  {
    Two([1, 0, 0], 1, 0, 1, 1);
    assert Moved([1, 0, 0], 1, 0, 1) == [1, 1, 0] && Moved([1, 1, 0], 2, 1, 1) == [1, 1, 1];
  }

  /** A copy by units moves what it should, whatever is in memory, exactly when the destination does not lie
      above the source within it, or when one unit does it all. */
  lemma CopyExactly(size: nat, to: nat, from: nat, units: seq<nat>)
    requires to + Sum(units) <= size && from + Sum(units) <= size && Positive(units)
    ensures AlwaysRight(size, to, from, units)
            <==> to <= from || from + Sum(units) <= to || |units| <= 1
  {
    hide AlwaysRight, Positive, Sum;
    if to <= from || from + Sum(units) <= to {
      RightWhenApart(size, to, from, units);
    } else if |units| == 1 {
      RightInOne(size, to, from, units);
    } else {
      assert units != [] by { Nothing([], 0, 0); }
      OverlapGoesWrong(size, to, from, units);
    }
  }

  lemma RightWhenApart(size: nat, to: nat, from: nat, units: seq<nat>)
    requires to + Sum(units) <= size && from + Sum(units) <= size && (to <= from || from + Sum(units) <= to)
    ensures AlwaysRight(size, to, from, units)
  {
    hide Moved, Sum, CopyUnits;
    forall m: seq<Byte> | |m| == size
      ensures CopyUnits(m, to, from, units) == Moved(m, to, from, Sum(units))
    {
      CopyAgrees(m, to, from, units);
    }
  }

  lemma RightInOne(size: nat, to: nat, from: nat, units: seq<nat>)
    requires to + Sum(units) <= size && from + Sum(units) <= size && |units| == 1
    ensures AlwaysRight(size, to, from, units)
  {
  }

  // ---- the copies ----

  /** movsb, movsw, movsl, or an assignment through a pointer to a char, short or int */
  method Movs(a: array<Byte>, to: nat, from: nat, w: nat)
    requires to + w <= a.Length && from + w <= a.Length
    modifies a
    ensures a[..] == Moved(old(a[..]), to, from, w)
  {
    forall i | 0 <= i < w {
      a[to + i] := a[from + i];
    }
  }

  /** rep movs */
  method RepMovs(a: array<Byte>, to: nat, from: nat, w: nat, count: nat) returns (edi: nat, esi: nat)
    requires to + Sum(Times(w, count)) <= a.Length && from + Sum(Times(w, count)) <= a.Length
    modifies a
    ensures a[..] == CopyUnits(old(a[..]), to, from, Times(w, count))
    ensures edi == to + Sum(Times(w, count)) && esi == from + Sum(Times(w, count))
  {
    hide Moved, CopyUnits, Sum;
    var ecx := count;
    edi, esi := to, from;
    while ecx != 0
      invariant edi + Sum(Times(w, ecx)) == to + Sum(Times(w, count))
      invariant esi + Sum(Times(w, ecx)) == from + Sum(Times(w, count))
      invariant CopyUnits(a[..], edi, esi, Times(w, ecx)) == CopyUnits(old(a[..]), to, from, Times(w, count))
    {
      assert Times(w, ecx)[1..] == Times(w, ecx - 1);
      Unfold(a[..], edi, esi, Times(w, ecx));
      Movs(a, edi, esi, w);
      ecx, edi, esi := ecx - 1, edi + w, esi + w;
    }
    Nothing(a[..], edi, esi);
  }

  function MemcpyUnits(n: nat): seq<nat> { Times(4, n / 4) + Times(1, n % 4) }

  lemma MemcpyUnitsFit(n: nat)
    ensures Sum(MemcpyUnits(n)) == Sum(Times(4, n / 4)) + Sum(Times(1, n % 4)) == n
    ensures Positive(MemcpyUnits(n)) && (|MemcpyUnits(n)| <= 1 <==> n in {0, 1, 4})
  {
    SumJoins(Times(4, n / 4), Times(1, n % 4));
    SumTimes(4, n / 4);
    SumTimes(1, n % 4);
    TimesPositive(4, n / 4);
    TimesPositive(1, n % 4);
  }

  lemma {:induction false} TimesPositive(w: nat, n: nat)
    requires w > 0
    ensures Positive(Times(w, n))
  {
    if n > 0 {
      TimesPositive(w, n - 1);
    }
  }

  /** __memcpy: n/4 dwords, then the bytes that are left. */
  method Memcpy(a: array<Byte>, to: nat, from: nat, n: nat) returns (r: nat)
    requires to + n <= a.Length && from + n <= a.Length
    modifies a
    ensures r == to
    ensures Sum(MemcpyUnits(n)) == n && a[..] == CopyUnits(old(a[..]), to, from, MemcpyUnits(n))
    ensures to <= from || from + n <= to || n in {0, 1, 4} ==> a[..] == Moved(old(a[..]), to, from, n)
  {
    hide Moved, CopyUnits, Sum, Times, Positive;
    MemcpyUnitsFit(n);
    CopyExactly(a.Length, to, from, MemcpyUnits(n));
    CopyJoins(a[..], to, from, Times(4, n / 4), Times(1, n % 4));
    var edi, esi := RepMovs(a, to, from, 4, n / 4);
    if n % 4 != 0 {
      edi, esi := RepMovs(a, edi, esi, 1, n % 4);
    } else {
      Nothing(a[..], edi, esi);
      assert Times(1, n % 4) == [];
    }
    r := to;
  }

  /** __memcpy may be used as a memmove exactly for these overlaps. */
  lemma MemcpyExactly(size: nat, to: nat, from: nat, n: nat)
    requires to + n <= size && from + n <= size
    ensures Sum(MemcpyUnits(n)) == n
    ensures AlwaysRight(size, to, from, MemcpyUnits(n)) <==> to <= from || from + n <= to || n in {0, 1, 4}
  {
    MemcpyUnitsFit(n);
    CopyExactly(size, to, from, MemcpyUnits(n));
  }

  function Tail(k: nat): seq<nat>
  {
    match k
    case 0 => []
    case 1 => [1]
    case 2 => [2]
    case _ => [2, 1]
  }

  function ConstantUnits(n: nat): seq<nat> { Times(4, n / 4) + Tail(n % 4) }

  lemma ConstantUnitsFit(n: nat)
    ensures Sum(ConstantUnits(n)) == Sum(Times(4, n / 4)) + Sum(Tail(n % 4)) == n
    ensures Sum(Times(4, n / 4)) == 4 * (n / 4) && Sum(Tail(n % 4)) == n % 4
    ensures Positive(ConstantUnits(n)) && (|ConstantUnits(n)| <= 1 <==> n in {0, 1, 2, 4})
  {
    SumJoins(Times(4, n / 4), Tail(n % 4));
    SumTimes(4, n / 4);
    TimesPositive(4, n / 4);
    TailSum(n % 4);
  }

  lemma TailSum(k: nat)
    requires k < 4
    ensures Sum(Tail(k)) == k
  {
    if k == 3 {
      assert [2, 1][1..] == [1];
    }
  }

  lemma One(m: seq<Byte>, to: nat, from: nat, u: nat)
    requires to + u <= |m| && from + u <= |m|
    ensures Sum([u]) == u && CopyUnits(m, to, from, [u]) == Moved(m, to, from, u)
  {
  }

  lemma Two(m: seq<Byte>, to: nat, from: nat, u: nat, v: nat)
    requires to + u + v <= |m| && from + u + v <= |m|
    ensures Sum([u, v]) == u + v
    ensures CopyUnits(m, to, from, [u, v]) == Moved(Moved(m, to, from, u), to + u, from + u, v)
  {
    hide Moved;
    assert [u, v][1..] == [v] && Sum([v]) == v;
    Unfold(m, to, from, [u, v]);
    One(Moved(m, to, from, u), to + u, from + u, v);
  }

  /** One more unit at the end. */
  lemma {:induction false} TimesEnd(w: nat, n: nat)
    ensures Times(w, n) + [w] == Times(w, n + 1)
  {
    if n > 0 {
      TimesEnd(w, n - 1);
    }
  }

  method Movsl(a: array<Byte>, ghost m: seq<Byte>, ghost to: nat, ghost from: nat, ghost k: nat, edi: nat, esi: nat)
    requires |m| == a.Length && edi == to + 4 * k && esi == from + 4 * k && edi + 4 <= a.Length && esi + 4 <= a.Length
    requires Sum(Times(4, k)) == 4 * k && a[..] == CopyUnits(m, to, from, Times(4, k))
    modifies a
    ensures Sum(Times(4, k + 1)) == 4 * (k + 1) && a[..] == CopyUnits(m, to, from, Times(4, k + 1))
  {
    hide Moved, CopyUnits, Sum, Times;
    SumTimes(4, k + 1);
    TimesEnd(4, k);
    One(a[..], edi, esi, 4);
    CopyJoins(m, to, from, Times(4, k), [4]);
    Movs(a, edi, esi, 4);
  }

  /** The dwords of a block of less than twenty bytes, one instruction each. */
  method SmallBlock(a: array<Byte>, to: nat, from: nat, n: nat) returns (edi: nat, esi: nat)
    requires n < 20 && to + n <= a.Length && from + n <= a.Length
    modifies a
    ensures edi == to + 4 * (n / 4) && esi == from + 4 * (n / 4) && Sum(Times(4, n / 4)) == 4 * (n / 4)
    ensures a[..] == CopyUnits(old(a[..]), to, from, Times(4, n / 4))
  {
    hide Moved, CopyUnits, Sum, Times;
    ghost var k := 0;
    edi, esi := to, from;
    SumTimes(4, 0);
    Nothing(a[..], to, from);
    assert Times(4, 0) == [];
    if n >= 16 {
      Movsl(a, old(a[..]), to, from, k, edi, esi);
      k, edi, esi := k + 1, edi + 4, esi + 4;
    }
    if n >= 12 {
      Movsl(a, old(a[..]), to, from, k, edi, esi);
      k, edi, esi := k + 1, edi + 4, esi + 4;
    }
    if n >= 8 {
      Movsl(a, old(a[..]), to, from, k, edi, esi);
      k, edi, esi := k + 1, edi + 4, esi + 4;
    }
    if n >= 4 {
      Movsl(a, old(a[..]), to, from, k, edi, esi);
      k, edi, esi := k + 1, edi + 4, esi + 4;
    }
    assert k == n / 4;
  }

  method TailMoves(a: array<Byte>, to: nat, from: nat, k: nat)
    requires k < 4 && to + k <= a.Length && from + k <= a.Length
    modifies a
    ensures Sum(Tail(k)) == k && a[..] == CopyUnits(old(a[..]), to, from, Tail(k))
  {
    hide Moved, CopyUnits, Sum;
    TailSum(k);
    match k {
      case 0 =>
        Nothing(a[..], to, from);
      case 1 =>
        One(a[..], to, from, 1);
        Movs(a, to, from, 1);
      case 2 =>
        One(a[..], to, from, 2);
        Movs(a, to, from, 2);
      case _ =>
        Two(a[..], to, from, 2, 1);
        Movs(a, to, from, 2);
        Movs(a, to + 2, from + 2, 1);
    }
  }

  /** The sizes that the switch handles with one or two assignments. */
  method SmallCopy(a: array<Byte>, to: nat, from: nat, n: nat)
    requires n in {1, 2, 3, 4, 5, 6, 8} && to + n <= a.Length && from + n <= a.Length
    modifies a
    ensures Sum(ConstantUnits(n)) == n && a[..] == CopyUnits(old(a[..]), to, from, ConstantUnits(n))
  {
    hide Moved, CopyUnits, Sum;
    ConstantUnitsFit(n);
    SmallUnits(n);
    if n <= 2 || n == 4 {
      One(a[..], to, from, n);
      Movs(a, to, from, n);
    } else {
      var u := if n == 3 then 2 else 4;
      Two(a[..], to, from, u, n - u);
      Movs(a, to, from, u);
      Movs(a, to + u, from + u, n - u);
    }
  }

  lemma SmallUnits(n: nat)
    requires n in {1, 2, 3, 4, 5, 6, 8}
    ensures ConstantUnits(n) == if n <= 2 || n == 4 then [n] else if n == 3 then [2, 1] else [4, n - 4]
  {
  }

  /** __constant_memcpy */
  method ConstantMemcpy(a: array<Byte>, to: nat, from: nat, n: nat) returns (r: nat)
    requires to + n <= a.Length && from + n <= a.Length
    modifies a
    ensures r == to
    ensures Sum(ConstantUnits(n)) == n && a[..] == CopyUnits(old(a[..]), to, from, ConstantUnits(n))
    ensures to <= from || from + n <= to || n in {0, 1, 2, 4} ==> a[..] == Moved(old(a[..]), to, from, n)
  {
    hide Moved, CopyUnits, Sum, Times, Tail, Positive;
    r := to;
    ConstantUnitsFit(n);
    CopyExactly(a.Length, to, from, ConstantUnits(n));
    if n == 0 {
      Nothing(a[..], to, from);
      assert ConstantUnits(n) == [] by { NoUnits(); }
      return;
    }
    if n in {1, 2, 3, 4, 5, 6, 8} {
      SmallCopy(a, to, from, n);
      return;
    }
    CopyJoins(a[..], to, from, Times(4, n / 4), Tail(n % 4));
    var edi, esi;
    if n >= 20 {
      edi, esi := RepMovs(a, to, from, 4, n / 4);
    } else {
      edi, esi := SmallBlock(a, to, from, n);
    }
    TailMoves(a, edi, esi, n % 4);
  }

  lemma NoUnits()
    ensures ConstantUnits(0) == []
  {
  }

  /** __constant_memcpy may be used as a memmove exactly for these overlaps. */
  lemma ConstantMemcpyExactly(size: nat, to: nat, from: nat, n: nat)
    requires to + n <= size && from + n <= size
    ensures Sum(ConstantUnits(n)) == n
    ensures AlwaysRight(size, to, from, ConstantUnits(n)) <==> to <= from || from + n <= to || n in {0, 1, 2, 4}
  {
    ConstantUnitsFit(n);
    CopyExactly(size, to, from, ConstantUnits(n));
  }

  // ---- the fills ----

  function Filled(m: seq<Byte>, s: nat, n: nat, c: Byte): seq<Byte>
    requires s + n <= |m|
  {
    m[..s] + seq(n, _ => c) + m[s + n..]
  }

  /** The bytes of a 32-bit pattern, as a store lays them out. */
  function Layout(pattern: int): seq<Byte>
  {
    var p1 := pattern / 256;
    var p2 := p1 / 256;
    [pattern % 256, p1 % 256, p2 % 256, p2 / 256 % 256]
  }

  /** The pattern the memset macro makes repeats its byte four times. */
  lemma PatternRepeats(c: int)
    requires 0 <= c < 256
    ensures Layout(0x0101_0101 * c) == [c, c, c, c]
  {
    LowByte(0x1_0101 * c, c);
    LowByte(0x101 * c, c);
    LowByte(c, c);
  }

  /** stosb, stosw, stosl, or an assignment: the low bytes of the pattern. */
  method Stos(a: array<Byte>, s: nat, w: nat, p: seq<Byte>)
    requires w <= |p| && s + w <= a.Length
    modifies a
    ensures a[..] == old(a[..s]) + p[..w] + old(a[s + w..])
  {
    forall i | 0 <= i < w {
      a[s + i] := p[i];
    }
  }

  /** What a fill by dwords with a tail leaves at index i: the pattern over and over, except that the last of
      three odd bytes is the first byte of the pattern again. */
  function FillAt(p: seq<Byte>, n: nat, i: nat): Byte
    requires |p| == 4
  {
    if n % 4 == 3 && i == n - 1 then p[0] else p[i % 4]
  }

  ghost predicate Patterned(m: seq<Byte>, r: seq<Byte>, s: nat, done: nat, p: seq<Byte>, n: nat)
    requires |p| == 4
  {
    && |r| == |m| && s + done <= |m|
    && (forall i :: 0 <= i < done ==> r[s + i] == FillAt(p, n, i))
    && r[..s] == m[..s] && r[s + done..] == m[s + done..]
  }

  /** A dword fill with a pattern is a byte fill exactly when the bytes of the pattern that get used are all c: one
      for a single byte, two for two or three, and otherwise all four. */
  lemma FillExactly(m: seq<Byte>, r: seq<Byte>, s: nat, n: nat, p: seq<Byte>, c: Byte)
    requires |p| == 4 && Patterned(m, r, s, n, p, n)
    ensures r == Filled(m, s, n, c)
            <==> (n >= 1 ==> p[0] == c) && (n >= 2 ==> p[1] == c) && (n >= 4 ==> p[2] == c && p[3] == c)
  {
    hide Filled, Patterned;
    FilledByIndex(m, r, s, n, p, c);
    if n >= 1 { assert FillAt(p, n, 0) == p[0]; }
    if n >= 2 { assert FillAt(p, n, 1) == p[1]; }
    if n >= 4 { assert FillAt(p, n, 2) == p[2] && FillAt(p, n, 3) == p[3]; }
  }

  lemma FilledByIndex(m: seq<Byte>, r: seq<Byte>, s: nat, n: nat, p: seq<Byte>, c: Byte)
    requires |p| == 4 && Patterned(m, r, s, n, p, n)
    ensures r == Filled(m, s, n, c) <==> forall i :: 0 <= i < n ==> FillAt(p, n, i) == c
  {
    hide FillAt;
    if r == Filled(m, s, n, c) {
      forall i | 0 <= i < n ensures FillAt(p, n, i) == c {
        assert r[s + i] == c;
      }
    }
    if forall i :: 0 <= i < n ==> FillAt(p, n, i) == c {
      assert r == r[..s] + r[s..s + n] + r[s + n..];
      var mid := r[s..s + n];
      forall i | 0 <= i < n ensures mid[i] == c {
        assert r[s + i] == FillAt(p, n, i);
      }
      assert mid == seq(n, _ => c);
    }
  }

  method StosStep(a: array<Byte>, ghost m: seq<Byte>, s: nat, done: nat, w: nat, p: seq<Byte>, ghost n: nat)
    requires |p| == 4 && w <= 4 && done + w <= n && s + n <= a.Length && Patterned(m, a[..], s, done, p, n)
    requires forall j :: 0 <= j < w ==> FillAt(p, n, done + j) == p[j]
    modifies a
    ensures Patterned(m, a[..], s, done + w, p, n)
  {
    hide FillAt;
    ghost var before := a[..];
    Stos(a, s + done, w, p);
    forall i | 0 <= i < done + w ensures a[..][s + i] == FillAt(p, n, i) {
      if i < done {
        assert a[..][s + i] == before[s + i];
      } else {
        assert a[..][s + done + (i - done)] == p[i - done];
        assert FillAt(p, n, done + (i - done)) == p[i - done];
      }
    }
    assert a[..][..s] == before[..s];
    assert a[..][s + (done + w)..] == before[s + done..][w..];
  }

  /** rep stosl, n/4 times */
  method RepStosl(a: array<Byte>, s: nat, p: seq<Byte>, n: nat) returns (done: nat)
    requires |p| == 4 && s + n <= a.Length
    modifies a
    ensures done == 4 * (n / 4) && Patterned(old(a[..]), a[..], s, done, p, n)
  {
    hide Patterned, FillAt;
    var ecx := n / 4;
    ghost var k := 0;
    done := 0;
    PatternedNone(a[..], s, p, n);
    while ecx != 0
      invariant 0 <= ecx && k + ecx == n / 4 && done == 4 * k
      invariant Patterned(old(a[..]), a[..], s, done, p, n)
    {
      DwordAt(p, n, k);
      StosStep(a, old(a[..]), s, done, 4, p, n);
      done, ecx, k := done + 4, ecx - 1, k + 1;
    }
  }

  lemma PatternedNone(m: seq<Byte>, s: nat, p: seq<Byte>, n: nat)
    requires |p| == 4 && s <= |m|
    ensures Patterned(m, m, s, 0, p, n)
  {
  }

  lemma DwordAt(p: seq<Byte>, n: nat, k: nat)
    requires |p| == 4 && 4 * k + 4 <= n
    ensures forall j :: 0 <= j < 4 ==> FillAt(p, n, 4 * k + j) == p[j]
  {
  }

  lemma TailAt(p: seq<Byte>, done: nat, rest: nat)
    requires |p| == 4 && done % 4 == 0 && rest < 4
    ensures rest >= 2 ==> forall j :: 0 <= j < 2 ==> FillAt(p, done + rest, done + j) == p[j]
    ensures rest == 1 || rest == 3 ==> FillAt(p, done + rest, done + rest - 1) == p[0]
  {
  }

  /** stosw if the count has its second bit set, then stosb if it has its first. */
  method StosTail(a: array<Byte>, ghost m: seq<Byte>, s: nat, p: seq<Byte>, done: nat, rest: nat)
    requires |p| == 4 && done % 4 == 0 && rest < 4 && s + done + rest <= a.Length
    requires Patterned(m, a[..], s, done, p, done + rest)
    modifies a
    ensures Patterned(m, a[..], s, done + rest, p, done + rest)
  {
    hide Patterned, FillAt;
    TailAt(p, done, rest);
    if rest >= 2 {
      StosStep(a, m, s, done, 2, p, done + rest);
    }
    if rest == 1 || rest == 3 {
      StosStep(a, m, s, done + rest - 1, 1, p, done + rest);
    }
  }

  /** rep stosl and what is left */
  method StosAll(a: array<Byte>, s: nat, p: seq<Byte>, n: nat)
    requires |p| == 4 && s + n <= a.Length
    modifies a
    ensures Patterned(old(a[..]), a[..], s, n, p, n)
  {
    hide Patterned;
    var done := RepStosl(a, s, p, n);
    StosTail(a, old(a[..]), s, p, done, n % 4);
  }

  /** __constant_c_memset */
  method ConstantCMemset(a: array<Byte>, s: nat, pattern: int, n: nat) returns (r: nat)
    requires s + n <= a.Length
    modifies a
    ensures r == s && Patterned(old(a[..]), a[..], s, n, Layout(pattern), n)
  {
    hide Patterned, Layout;
    LayoutLength(pattern);
    StosAll(a, s, Layout(pattern), n);
    r := s;
  }

  lemma LayoutLength(pattern: int)
    ensures |Layout(pattern)| == 4
  {
  }

  /** __constant_c_and_count_memset: the same bytes, with single assignments for the small counts. */
  method ConstantCAndCountMemset(a: array<Byte>, s: nat, pattern: int, n: nat) returns (r: nat)
    requires s + n <= a.Length
    modifies a
    ensures r == s && Patterned(old(a[..]), a[..], s, n, Layout(pattern), n)
  {
    hide Patterned, Layout, FillAt;
    r := s;
    var p := Layout(pattern);
    LayoutLength(pattern);
    PatternedNone(a[..], s, p, n);
    if n < 4 {
      TailAt(p, 0, n);
    }
    match n
    case 0 =>
    case 1 =>
      StosStep(a, old(a[..]), s, 0, 1, p, n);
    case 2 =>
      StosStep(a, old(a[..]), s, 0, 2, p, n);
    case 3 =>
      StosStep(a, old(a[..]), s, 0, 2, p, n);
      StosStep(a, old(a[..]), s, 2, 1, p, n);
    case 4 =>
      DwordAt(p, n, 0);
      StosStep(a, old(a[..]), s, 0, 4, p, n);
    case _ =>
      StosAll(a, s, p, n);
  }

  /** __memset_generic: rep stosb */
  method MemsetGeneric(a: array<Byte>, s: nat, c: Byte, n: nat) returns (r: nat)
    requires s + n <= a.Length
    modifies a
    ensures r == s && a[..] == Filled(old(a[..]), s, n, c)
  {
    var ecx, edi := n, s;
    while ecx != 0
      invariant edi + ecx == s + n && ecx >= 0
      invariant forall i :: 0 <= i < a.Length ==> a[i] == if s <= i < edi then c else old(a[i])
    {
      a[edi] := c;
      ecx, edi := ecx - 1, edi + 1;
    }
    r := s;
  }

  /** memset: whichever of the variants the compiler picks, every byte of the range is c and no other changes. */
  method Memset(a: array<Byte>, s: nat, c: int, n: nat, constantC: bool, constantCount: bool) returns (r: nat)
    requires s + n <= a.Length
    modifies a
    ensures r == s && a[..] == Filled(old(a[..]), s, n, c % 256)
  {
    hide Filled, Patterned, Layout;
    if constantC {
      PatternRepeats(c % 256);
      if constantCount {
        r := ConstantCAndCountMemset(a, s, 0x0101_0101 * (c % 256), n);
      } else {
        r := ConstantCMemset(a, s, 0x0101_0101 * (c % 256), n);
      }
      FillExactly(old(a[..]), a[..], s, n, Layout(0x0101_0101 * (c % 256)), c % 256);
    } else {
      r := MemsetGeneric(a, s, c % 256, n);
    }
  }
}
