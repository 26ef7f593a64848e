/** The pair of 8237 DMA controllers with their page registers, seen through eight-bit ports, and the driver
    routines that program them. */
module Dma8237 {
  import opened Words

  type Channel = x: int | 0 <= x < 8

  /** Sixteen-bit address and count registers are reached one byte at a time; each controller has one hidden
      flip-flop that says which byte comes next (false: the low one). */
  datatype Regs = Regs(ff1: bool, ff2: bool, addr: seq<int>, count: seq<int>, page: seq<int>,
                       mode: seq<int>, masked: seq<bool>)

  predicate Word(x: int) { 0 <= x < 0x1_0000 }

  ghost predicate Valid(r: Regs)
  {
    && |r.addr| == |r.count| == |r.page| == |r.mode| == |r.masked| == 8
    && forall d :: 0 <= d < 8 ==> Word(r.addr[d]) && Word(r.count[d]) && 0 <= r.page[d] < 256
  }

  // ---- the device ----

  datatype Register =
    | AddrReg(d: Channel) | CountReg(d: Channel) | PageReg(d: Channel)
    | MaskReg(second: bool) | ModeReg(second: bool) | ClearFfReg(second: bool)
    | Unused

  function Select(port: int): Register
  {
    if 0 <= port < 8 then (if port % 2 == 0 then AddrReg(port / 2) else CountReg(port / 2))
    else if 0xc0 <= port < 0xd0 && port % 2 == 0
    then (if port % 4 == 0 then AddrReg(4 + (port - 0xc0) / 4) else CountReg(4 + (port - 0xc0) / 4))
    else match port
      case 0x0a => MaskReg(false) case 0xd4 => MaskReg(true)
      case 0x0b => ModeReg(false) case 0xd6 => ModeReg(true)
      case 0x0c => ClearFfReg(false) case 0xd8 => ClearFfReg(true)
      case 0x87 => PageReg(0) case 0x83 => PageReg(1) case 0x81 => PageReg(2) case 0x82 => PageReg(3)
      case 0x8b => PageReg(5) case 0x89 => PageReg(6) case 0x8a => PageReg(7)
      case _ => Unused
  }

  function Ff(r: Regs, d: Channel): bool { if d <= 3 then r.ff1 else r.ff2 }

  function Toggled(r: Regs, d: Channel): Regs { if d <= 3 then r.(ff1 := !r.ff1) else r.(ff2 := !r.ff2) }

  /** One byte into the half of a register that the flip-flop points at. */
  function Put(word: int, high: bool, v: Byte): int { if high then word % 256 + 256 * v else word / 256 * 256 + v }

  function Half(word: int, high: bool): int { if high then word / 256 else word % 256 }

  function Numbered(v: int, second: bool): Channel { if second then 4 + v % 4 else v % 4 }

  function Write(r: Regs, v: Byte, port: int): Regs
    requires |r.addr| == |r.count| == |r.page| == |r.mode| == |r.masked| == 8
  {
    match Select(port)
    case AddrReg(d) => Toggled(r.(addr := r.addr[d := Put(r.addr[d], Ff(r, d), v)]), d)
    case CountReg(d) => Toggled(r.(count := r.count[d := Put(r.count[d], Ff(r, d), v)]), d)
    case PageReg(d) => r.(page := r.page[d := v])
    case MaskReg(second) => r.(masked := r.masked[Numbered(v, second) := v / 4 % 2 == 1])
    case ModeReg(second) => r.(mode := r.mode[Numbered(v, second) := v])
    case ClearFfReg(second) => if second then r.(ff2 := false) else r.(ff1 := false)
    case Unused => r
  }

  /** The next byte to move, as the channel will address it: channels 5 to 7 address words and leave bit 0 of
      their page register out. */
  function Address(r: Regs, d: Channel): int
    requires |r.addr| == |r.page| == 8
  {
    if d <= 3 then 0x1_0000 * r.page[d] + r.addr[d] else 0x2_0000 * (r.page[d] / 2) + 2 * r.addr[d]
  }

  /** Bytes left to move, when the channel has been programmed and is not yet done. */
  function Length(r: Regs, d: Channel): int
    requires |r.count| == 8
  {
    if d <= 3 then r.count[d] + 1 else 2 * (r.count[d] + 1)
  }

  /** A sixteen-bit register counted up or down by at most 64K. */
  function Up(w: int, n: int): int { if w + n < 0x1_0000 then w + n else w + n - 0x1_0000 }

  function Down(w: int, n: int): int { if w >= n then w - n else w - n + 0x1_0000 }

  /** One transfer on channel d. The page register takes no part; at terminal count the channel masks itself. */
  function Tick(r: Regs, d: Channel): Regs
    requires |r.addr| == |r.count| == |r.masked| == 8
  {
    r.(addr := r.addr[d := Up(r.addr[d], 1)],
       count := r.count[d := Down(r.count[d], 1)],
       masked := r.masked[d := r.masked[d] || r.count[d] == 0])
  }

  // ---- the driver ----

  function Limit(d: Channel): int { if d <= 3 then 0x1_0000 else 0x2_0000 }

  function Rounded(d: Channel, x: int): int { if d <= 3 then x else x - x % 2 }

  /** What a channel moves when it is asked to move `count` bytes. */
  function Granted(d: Channel, count: int): int
  {
    var n := (if d <= 3 then count else count + count % 2) % Limit(d);
    if n == 0 then Limit(d) else n
  }

  /** x | k, for a number k of two bits. */
  function OrLow(x: Byte, k: int): (r: Byte)
    requires 0 <= k < 4
    ensures r % 2 == 1 <==> x % 2 == 1 || k % 2 == 1
    ensures r / 2 % 2 == 1 <==> x / 2 % 2 == 1 || k / 2 == 1
    ensures r / 4 == x / 4
  {
    var low := x % 4;
    x - low + 2 * (if low / 2 == 1 || k / 2 == 1 then 1 else 0) + (if low % 2 == 1 || k % 2 == 1 then 1 else 0)
  }

  function PagePort(d: Channel): int
    requires d != 4
  {
    match d
    case 0 => 0x87
    case 1 => 0x83
    case 2 => 0x81
    case 3 => 0x82
    case 5 => 0x8b
    case 6 => 0x89
    case _ => 0x8a
  }

  function AddrPort(d: Channel): int { if d <= 3 then 2 * (d % 4) else 4 * (d % 4) + 0xc0 }

  function CountPort(d: Channel): int { if d <= 3 then 2 * (d % 4) + 1 else 4 * (d % 4) + 2 + 0xc0 }

  lemma Ports(d: Channel)
    ensures Select(AddrPort(d)) == AddrReg(d) && Select(CountPort(d)) == CountReg(d)
  {
    match d
    case 0 =>
    case 1 =>
    case 2 =>
    case 3 =>
    case 4 =>
    case 5 =>
    case 6 =>
    case _ => assert d == 7;
  }

  /** The sixteen bits that go into the address register, and into the count register. */
  function AddrWord(d: Channel, a: int): int { (if d <= 3 then a else a / 2) % 0x1_0000 }

  function CountWord(d: Channel, count: int): int
  {
    var c := (count - 1) % 0x1_0000_0000;
    (if d <= 3 then c else c / 2) % 0x1_0000
  }

  lemma PagePorts(d: Channel)
    requires d != 4
    ensures Select(PagePort(d)) == PageReg(d)
  {
  }

  class Controller {
    var r: Regs

    method Outb(v: Byte, port: int)
      requires Valid(r)
      modifies this
      ensures r == Write(old(r), v, port)
    {
      r := Write(r, v, port);
    }

    /** Only the count registers are ever read. */
    method Inb(port: int) returns (v: Byte)
      requires Valid(r) && Select(port).CountReg?
      modifies this
      ensures var d := Select(port).d;
              v == Half(old(r).count[d], Ff(old(r), d)) && r == Toggled(old(r), d)
    {
      var d := Select(port).d;
      WordHalves(r.count[d]);
      v := Half(r.count[d], Ff(r, d));
      r := Toggled(r, d);
    }

    /** Whatever state it was in, and for that controller alone. */
    method ClearFf(d: Channel)
      requires Valid(r)
      modifies this
      ensures r == if d <= 3 then old(r).(ff1 := false) else old(r).(ff2 := false)
    {
      if d <= 3 { Outb(0, 0x0c); } else { Outb(0, 0xd8); }
    }

    method EnableDma(d: Channel)
      requires Valid(r)
      modifies this
      ensures Valid(r) && r == old(r).(masked := old(r).masked[d := false])
    {
      if d <= 3 { Outb(d, 0x0a); } else { Outb(d % 4, 0xd4); }
    }

    method DisableDma(d: Channel)
      requires Valid(r)
      modifies this
      ensures Valid(r) && r == old(r).(masked := old(r).masked[d := true])
    {
      if d <= 3 { Outb(4 + d, 0x0a); } else { Outb(4 + d % 4, 0xd4); }
    }

    /** The channel number goes into the low two bits; a mode that has them clear, as all mode constants have,
        reaches that channel and no other. */
    method SetMode(d: Channel, mode: Byte)
      requires Valid(r)
      modifies this
      ensures Valid(r)
      ensures var v := OrLow(mode, d % 4);
              r == old(r).(mode := old(r).mode[Numbered(v, d > 3) := v])
      ensures mode % 4 == 0 ==> r == old(r).(mode := old(r).mode[d := mode + d % 4])
    {
      if d <= 3 { Outb(OrLow(mode, d % 4), 0x0b); } else { Outb(OrLow(mode, d % 4), 0xd6); }
    }

    /** The page number is a char: only its low byte counts. Channel 4 has no page register. */
    method SetPage(d: Channel, pagenr: int)
      requires Valid(r)
      modifies this
      ensures Valid(r)
      ensures r == if d == 4 then old(r) else old(r).(page := old(r).page[d := Rounded(d, pagenr % 256)])
    {
      hide Select, PagePort;
      if d != 4 {
        PagePorts(d);
        Outb(Rounded(d, pagenr % 256), PagePort(d));
      }
    }

    /** Two writes to the same port, from a clear flip-flop: low byte, high byte, and clear again. */
    method OutWord(w: int, port: int)
      requires Valid(r) && Word(w) && (Select(port).AddrReg? || Select(port).CountReg?)
      requires !Ff(r, Select(port).d)
      modifies this
      ensures Valid(r)
      ensures var d := Select(port).d;
              r == if Select(port).AddrReg? then old(r).(addr := old(r).addr[d := w])
                   else old(r).(count := old(r).count[d := w])
    {
      hide Select, Put, Half, Numbered;
      WordHalves(w);
      TwoPuts(if Select(port).AddrReg? then r.addr[Select(port).d] else r.count[Select(port).d], w);
      Outb(w % 256, port);
      Outb(w / 256, port);
    }

    /** The registers decode to the address that was asked for, modulo 16 MB and, on the word channels, without
        its lowest bit; the flip-flop is clear again and nothing else has changed. */
    method SetAddr(d: Channel, a: int)
      requires Valid(r) && !Ff(r, d) && 0 <= a < 0x1_0000_0000
      modifies this
      ensures Valid(r) && !Ff(r, d)
      ensures d != 4 ==> Address(r, d) == Rounded(d, a % 0x100_0000)
      ensures r == old(r).(addr := old(r).addr[d := r.addr[d]], page := old(r).page[d := r.page[d]])
    {
      hide Select, AddrPort, AddrWord, Rounded;
      Ports(d);
      Located(d, a);
      SetPage(d, a / 0x1_0000);
      OutWord(AddrWord(d, a), AddrPort(d));
    }

    /** The channel will move that many bytes: zero stands for the largest count, larger ones wrap, and on the
        word channels an odd count is rounded up. */
    method SetCount(d: Channel, count: int)
      requires Valid(r) && !Ff(r, d) && 0 <= count < 0x1_0000_0000
      modifies this
      ensures Valid(r) && !Ff(r, d)
      ensures Length(r, d) == Granted(d, count)
      ensures r == old(r).(count := old(r).count[d := r.count[d]])
    {
      hide Select, CountPort, CountWord, Granted;
      Ports(d);
      Counted(d, count);
      OutWord(CountWord(d, count), CountPort(d));
    }

    /** Bytes left, modulo 64K or 128K; the registers come back as they were. */
    method GetResidue(d: Channel) returns (n: int)
      requires Valid(r) && !Ff(r, d)
      modifies this
      ensures r == old(r)
      ensures n == Length(r, d) % Limit(d)
    {
      hide Select, CountPort;
      Ports(d);
      ResidueOf(r.count[d]);
      var port := CountPort(d);
      var low: int := Inb(port);
      var count := (1 + low) % 0x1_0000;
      var high: int := Inb(port);
      count := (count + 256 * high) % 0x1_0000;
      n := if d <= 3 then count else 2 * count;
    }
  }

  lemma WordHalves(w: int)
    requires Word(w)
    ensures 0 <= w % 256 < 256 && 0 <= w / 256 < 256 && w % 256 + 256 * (w / 256) == w
  {
  }

  lemma TwoPuts(was: int, w: int)
    requires Word(w)
    ensures Put(Put(was, false, w % 256), true, w / 256) == w
    ensures Word(was) ==> Word(Put(was, false, w % 256))
  {
  }

  /** How page and address registers make up the address again. */
  lemma Located(d: Channel, a: int)
    requires 0 <= a < 0x1_0000_0000
    ensures Word(AddrWord(d, a)) && 0 <= Rounded(d, a / 0x1_0000 % 256) < 256
    ensures d <= 3 ==> 0x1_0000 * Rounded(d, a / 0x1_0000 % 256) + AddrWord(d, a) == Rounded(d, a % 0x100_0000)
    ensures d > 3 ==>
              0x2_0000 * (Rounded(d, a / 0x1_0000 % 256) / 2) + 2 * AddrWord(d, a) == Rounded(d, a % 0x100_0000)
  {
    if d <= 3 {
      ByteAddress(a);
    } else {
      WordAddress(a);
    }
  }

  lemma ByteAddress(a: int)
    requires 0 <= a < 0x1_0000_0000
    ensures 0x1_0000 * (a / 0x1_0000 % 256) + a % 0x1_0000 == a % 0x100_0000
  {
  }

  lemma WordAddress(a: int)
    requires 0 <= a < 0x1_0000_0000
    ensures var p := a / 0x1_0000 % 256;
            0x2_0000 * ((p - p % 2) / 2) + 2 * (a / 2 % 0x1_0000) == a % 0x100_0000 - a % 0x100_0000 % 2
  {
    var top, rest := a / 0x100_0000, a % 0x100_0000;
    var page, word, bit := rest / 0x2_0000, rest % 0x2_0000 / 2, rest % 2;
    assert rest == 0x2_0000 * page + 2 * word + bit;
    PageDigits(top, page, word, bit);
    WordDigits(top, page, word, bit);
  }

  lemma PageDigits(top: nat, page: nat, word: nat, bit: nat)
    requires page < 128 && word < 0x1_0000 && bit < 2
    ensures var p := (0x100_0000 * top + 0x2_0000 * page + 2 * word + bit) / 0x1_0000 % 256;
            (p - p % 2) / 2 == page
  {
    var h := if word < 0x8000 then 0 else 1;
    HighHalf(256 * top + (2 * page + h), 2 * word + bit - 0x1_0000 * h);
    LowByte(top, 2 * page + h);
  }

  lemma HighHalf(q: int, x: int)
    requires Word(x)
    ensures (0x1_0000 * q + x) / 0x1_0000 == q && (0x1_0000 * q + x) % 0x1_0000 == x
  {
  }

  lemma Halved(x: int, bit: int)
    requires 0 <= bit < 2
    ensures (2 * x + bit) / 2 == x
  {
  }

  lemma WordDigits(top: nat, page: nat, word: nat, bit: nat)
    requires page < 128 && word < 0x1_0000 && bit < 2
    ensures (0x100_0000 * top + 0x2_0000 * page + 2 * word + bit) / 2 % 0x1_0000 == word
  {
    Halved(0x1_0000 * (128 * top + page) + word, bit);
    HighHalf(128 * top + page, word);
  }

  /** How the count register makes up the count again. */
  lemma Counted(d: Channel, count: int)
    requires 0 <= count < 0x1_0000_0000
    ensures Word(CountWord(d, count))
    ensures (if d <= 3 then CountWord(d, count) + 1 else 2 * (CountWord(d, count) + 1)) == Granted(d, count)
  {
    if d <= 3 {
      ByteCount(count);
    } else {
      WordCount(count);
    }
  }

  lemma ByteCount(count: int)
    requires 0 <= count < 0x1_0000_0000
    ensures (count - 1) % 0x1_0000_0000 % 0x1_0000 + 1
         == if count % 0x1_0000 == 0 then 0x1_0000 else count % 0x1_0000
  {
  }

  lemma WordCount(count: int)
    requires 0 <= count < 0x1_0000_0000
    ensures var n := (count + count % 2) % 0x2_0000;
            2 * ((count - 1) % 0x1_0000_0000 / 2 % 0x1_0000 + 1) == if n == 0 then 0x2_0000 else n
  {
  }

  lemma ResidueOf(w: int)
    requires Word(w)
    ensures ((1 + w % 256) % 0x1_0000 + 256 * (w / 256)) % 0x1_0000 == (w + 1) % 0x1_0000
    ensures 2 * ((w + 1) % 0x1_0000) == 2 * (w + 1) % 0x2_0000
  {
  }

  // ---- whole sequences of calls ----

  datatype Call = Addr(d: Channel, a: int) | Count(d: Channel, count: int) | Residue(d: Channel)

  /** Channel 4 cascades the other controller and is never programmed. */
  predicate Proper(c: Call)
  {
    c.d != 4 && (c.Addr? ==> 0 <= c.a < 0x1_0000_0000) && (c.Count? ==> 0 <= c.count < 0x1_0000_0000)
  }

  /** What a driver thinks it has programmed: where each channel starts and how much it moves. */
  datatype Plan = Plan(address: seq<int>, length: seq<int>)

  ghost function View(r: Regs): Plan
    requires Valid(r)
  {
    Plan(seq(8, d requires 0 <= d < 8 => Address(r, d)), seq(8, d requires 0 <= d < 8 => Length(r, d)))
  }

  ghost predicate Full(p: Plan) { |p.address| == |p.length| == 8 }

  ghost function Do(p: Plan, c: Call): (q: Plan)
    requires Full(p)
    ensures Full(q)
  {
    match c
    case Addr(d, a) => p.(address := p.address[d := Rounded(d, a % 0x100_0000)])
    case Count(d, n) => p.(length := p.length[d := Granted(d, n)])
    case Residue(_) => p
  }

  /** The plan, and the residues reported, after a sequence of calls. */
  ghost function After(p: Plan, calls: seq<Call>): (q: Plan)
    requires Full(p)
    ensures Full(q)
  {
    if calls == [] then p else Do(After(p, calls[..|calls| - 1]), calls[|calls| - 1])
  }

  ghost function Reported(p: Plan, calls: seq<Call>): seq<int>
    requires Full(p)
  {
    if calls == [] then []
    else
      var c, before := calls[|calls| - 1], calls[..|calls| - 1];
      Reported(p, before) + if c.Residue? then [After(p, before).length[c.d] % Limit(c.d)] else []
  }

  /** Channels not named by a call, modes, masks and flip-flops. */
  ghost predicate Untouched(r: Regs, s: Regs, calls: seq<Call>)
    requires Valid(r) && Valid(s)
  {
    && r.ff1 == s.ff1 && r.ff2 == s.ff2 && r.mode == s.mode && r.masked == s.masked
    && forall d :: 0 <= d < 8 && (forall k :: 0 <= k < |calls| ==> calls[k].d != d) ==>
         r.addr[d] == s.addr[d] && r.count[d] == s.count[d] && r.page[d] == s.page[d]
  }

  method PerformOne(c: Controller, call: Call) returns (residue: int)
    requires Valid(c.r) && Proper(call) && !Ff(c.r, call.d)
    modifies c
    ensures Valid(c.r) && View(c.r) == Do(View(old(c.r)), call) && Untouched(c.r, old(c.r), [call])
    ensures call.Residue? ==> residue == View(c.r).length[call.d] % Limit(call.d)
  {
    hide Granted, Limit, Rounded;
    residue := 0;
    assert [call][0] == call;
    match call {
      case Addr(d, a) =>
        c.SetAddr(d, a);
      case Count(d, n) =>
        c.SetCount(d, n);
      case Residue(d) =>
        residue := c.GetResidue(d);
    }
  }

  /** Any sequence of calls on any channels programs what it says, once the flip-flops of the controllers it uses
      are clear: they are clear again after each call, so no byte ever lands in the wrong half of a register.
      The other controller, in whatever state, and all other channels stay as they are. */
  method Perform(c: Controller, calls: seq<Call>) returns (residues: seq<int>)
    requires Valid(c.r) && forall k :: 0 <= k < |calls| ==> Proper(calls[k]) && !Ff(c.r, calls[k].d)
    modifies c
    ensures Valid(c.r) && Untouched(c.r, old(c.r), calls)
    ensures View(c.r) == After(View(old(c.r)), calls) && residues == Reported(View(old(c.r)), calls)
  {
    residues := [];
    for k := 0 to |calls|
      invariant Valid(c.r) && Untouched(c.r, old(c.r), calls[..k])
      invariant View(c.r) == After(View(old(c.r)), calls[..k])
      invariant residues == Reported(View(old(c.r)), calls[..k])
    {
      hide View, Do, Limit;
      ghost var before := c.r;
      var n := PerformOne(c, calls[k]);
      assert calls[..k + 1][..k] == calls[..k];
      UntouchedGrows(c.r, before, old(c.r), calls[..k], calls[k]);
      assert calls[..k] + [calls[k]] == calls[..k + 1];
      residues := residues + if calls[k].Residue? then [n] else [];
    }
    assert calls[..|calls|] == calls;
  }

  lemma UntouchedGrows(r: Regs, s: Regs, t: Regs, calls: seq<Call>, c: Call)
    requires Valid(r) && Valid(s) && Valid(t) && Untouched(r, s, [c]) && Untouched(s, t, calls)
    ensures Untouched(r, t, calls + [c])
  {
    var all := calls + [c];
    forall d | 0 <= d < 8 && (forall k :: 0 <= k < |all| ==> all[k].d != d)
      ensures r.addr[d] == t.addr[d] && r.count[d] == t.count[d] && r.page[d] == t.page[d]
    {
      assert all[|calls|].d != d;
      forall k | 0 <= k < |calls| ensures calls[k].d != d {
        assert all[k].d != d;
      }
    }
  }

  // ---- what the channel then touches ----

  ghost function Ticks(r: Regs, d: Channel, n: nat): (t: Regs)
    requires Valid(r)
    ensures Valid(t)
  {
    if n == 0 then r else Tick(Ticks(r, d, n - 1), d)
  }

  lemma {:induction false} TicksAt(r: Regs, d: Channel, n: nat)
    requires Valid(r) && n <= 0x1_0000
    ensures Ticks(r, d, n) == r.(addr := r.addr[d := Up(r.addr[d], n)],
                                 count := r.count[d := Down(r.count[d], n)],
                                 masked := r.masked[d := r.masked[d] || n > r.count[d]])
  {
    if n == 0 {
      assert r.addr[d := r.addr[d]] == r.addr && r.count[d := r.count[d]] == r.count;
      assert r.masked[d := r.masked[d]] == r.masked;
    } else {
      TicksAt(r, d, n - 1);
      UpAndDown(r.addr[d], r.count[d], n);
    }
  }

  lemma UpAndDown(a: int, c: int, n: int)
    requires 0 < n <= 0x1_0000 && Word(a) && Word(c)
    ensures Up(Up(a, n - 1), 1) == Up(a, n)
    ensures Down(Down(c, n - 1), 1) == Down(c, n)
    ensures Down(c, n - 1) == 0 <==> c == n - 1
  {
  }

  function Width(d: Channel): int { if d <= 3 then 1 else 2 }

  /** The addresses channel d puts on the bus, in order, until terminal count. */
  ghost function Touched(r: Regs, d: Channel): seq<int>
    requires Valid(r)
  {
    seq(r.count[d] + 1, k requires 0 <= k => Address(Ticks(r, d, k), d))
  }

  ghost function Block(start: int, width: int, n: nat): seq<int> { seq(n, k => start + width * k) }

  /** A channel moves one unbroken block exactly when the block does not cross its 64K (128K) page: past the end
      the address register wraps and the page register stays. */
  lemma UnbrokenExactly(r: Regs, d: Channel)
    requires Valid(r)
    ensures Touched(r, d) == Block(Address(r, d), Width(d), r.count[d] + 1)
            <==> r.addr[d] + r.count[d] < 0x1_0000
  {
    hide Ticks;
    var n, block := r.count[d] + 1, Block(Address(r, d), Width(d), r.count[d] + 1);
    forall k | 0 <= k < n
      ensures Touched(r, d)[k] == block[k] <==> r.addr[d] + k < 0x1_0000
    {
      TicksAt(r, d, k);
    }
    if r.addr[d] + r.count[d] >= 0x1_0000 {
      assert Touched(r, d)[n - 1] != block[n - 1];
    }
  }

  /** At terminal count the channel is masked and the residue reads zero; before that it reads what is left. */
  lemma ResidueTracks(r: Regs, d: Channel, n: nat)
    requires Valid(r) && n <= r.count[d] + 1
    ensures Length(Ticks(r, d, n), d) % Limit(d) == (Length(r, d) - Width(d) * n) % Limit(d)
    ensures n == r.count[d] + 1 ==> Length(Ticks(r, d, n), d) % Limit(d) == 0 && Ticks(r, d, n).masked[d]
  {
    hide Ticks, Up;
    TicksAt(r, d, n);
  }
}
