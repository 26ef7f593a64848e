/** The floppy driver's two ways of moving data: pseudo-DMA, an interrupt handler that pumps bytes while the
    controller is ready, and a real DMA channel. */
module Floppy {
  import opened Dma8237
  import opened Words

  const DMA_MODE_WRITE: Byte := 0x48

  /** Status port: bit 7 says the data register is ready, bit 5 that the transfer is still on. */
  predicate IsReady(st: Byte) { st / 0x80 % 2 == 1 && st / 0x20 % 2 == 1 }

  predicate IsOver(st: Byte) { st / 0x20 % 2 == 0 }

  /** The two tests as masks: 0xa0 must be all set, 0x20 must be clear. */
  lemma StatusBits(st: Byte)
    ensures IsReady(st) <==> 0xa0 <= st < 0xc0 || 0xe0 <= st
    ensures IsOver(st) <==> st % 0x40 < 0x20
  {
  }

  lemma NotOver()
    ensures !IsOver(0x20)
  {
  }

  /** How many bytes one interrupt pumps: one for each status read in a row that says ready, at most n. */
  ghost function Pumped(status: nat -> Byte, from: nat, n: nat): (k: nat)
    ensures k <= n
    decreases n
  {
    if n > 0 && IsReady(status(from)) then 1 + Pumped(status, from + 1, n - 1) else 0
  }

  lemma PumpOne(status: nat -> Byte, from: nat, n: nat)
    ensures Pumped(status, from, n) == if n > 0 && IsReady(status(from)) then 1 + Pumped(status, from + 1, n - 1) else 0
  {
  }

  /** The pump stops at the first status that does not say ready, or when nothing is left. */
  lemma {:induction false} PumpedStops(status: nat -> Byte, from: nat, n: nat)
    ensures var k := Pumped(status, from, n);
            && (forall p :: from <= p < from + k ==> IsReady(status(p)))
            && (k < n ==> !IsReady(status(from + k)))
    decreases n
  {
    if n > 0 && IsReady(status(from)) {
      PumpedStops(status, from + 1, n - 1);
    }
  }

  /** The status reads of one interrupt that pumps k of n bytes: one for each byte, one that stops the pump short,
      and the last one. */
  function Reads(k: nat, n: nat): nat { if k < n then k + 2 else k + 1 }

  /** How many of n bytes a transfer moves under a sequence of interrupts (true) and disables (false): each
      interrupt pumps what it can, until one sees the end of the transfer or a disable gives up. */
  ghost function MovedBy(status: nat -> Byte, from: nat, n: nat, irqs: seq<bool>): (k: nat)
    ensures k <= n
    decreases |irqs|
  {
    if irqs == [] || !irqs[0] then 0
    else
      var k := Pumped(status, from, n);
      var after := from + Reads(k, n);
      if IsOver(status(after - 1)) then k else k + MovedBy(status, after, n - k, irqs[1..])
  }

  lemma MovedByNothing(status: nat -> Byte, from: nat, n: nat)
    ensures MovedBy(status, from, n, []) == 0
  {
  }

  /** Interrupts that find the controller not ready, and so move nothing. */
  ghost function Idlers(status: nat -> Byte, from: nat, n: nat, irqs: seq<bool>): nat
    decreases |irqs|
  {
    if irqs == [] then 0
    else
      var k := Pumped(status, from, n);
      (if IsReady(status(from)) then 0 else 1) + Idlers(status, from + Reads(k, n), n - k, irqs[1..])
  }

  /** Progress: with interrupts only and a controller that never ends the transfer early, every interrupt that
      finds it ready moves a byte until all are moved; so n of them suffice. */
  lemma {:induction false} ReadyInterruptsMove(status: nat -> Byte, from: nat, n: nat, irqs: seq<bool>)
    requires (forall p :: from <= p ==> !IsOver(status(p))) && false !in irqs
    ensures MovedBy(status, from, n, irqs) == n
            || MovedBy(status, from, n, irqs) + Idlers(status, from, n, irqs) >= |irqs|
    decreases |irqs|
  {
    hide IsReady, IsOver;
    if irqs != [] {
      var k := Pumped(status, from, n);
      assert irqs[0];
      ReadyInterruptsMove(status, from + Reads(k, n), n - k, irqs[1..]);
      PumpOne(status, from, n);
    }
  }

  /** As long as the statuses say ready, one interrupt moves everything. */
  lemma {:induction false} ReadyAllAlong(status: nat -> Byte, from: nat, n: nat)
    requires forall p :: from <= p < from + n ==> IsReady(status(p))
    ensures Pumped(status, from, n) == n && MovedBy(status, from, n, [true]) == n
    decreases n
  {
    PumpedStops(status, from, n);
  }

  /** A controller that is slow after the first byte: the second interrupt moves the second byte. */
  lemma SlowController()
    ensures MovedBy(p => if p == 1 || p == 2 then 0x20 else 0xa0, 0, 2, [true, true]) == 2
  {
    var status: nat -> Byte := p => if p == 1 || p == 2 then 0x20 else 0xa0;
    PumpOne(status, 0, 2);
    PumpOne(status, 1, 1);
    assert Pumped(status, 0, 2) == 1;
    ReadyAllAlong(status, 3, 1);
    assert [true, true][1..] == [true];
  }

  // ---- choosing between the two ----

  /** isa_virt_to_bus */
  function Bus(pageOffset: int, addr: int): int { (addr - pageOffset) % 0x1_0000_0000 }

  /** _CROSS_64KB, in 32-bit unsigned arithmetic. */
  predicate Crosses(addr: int, n: int) { addr / 0x1_0000 != (addr + n - 1) % 0x1_0000_0000 / 0x1_0000 }

  predicate NeedsVirtual(pageOffset: int, highMemory: int, addr: int, n: int)
  {
    addr >= highMemory || Bus(pageOffset, addr) >= 0x100_0000 || Crosses(addr, n)
  }

  /** For a transfer of at most 64K the chooser's tests, on the virtual address and on the first bus address only,
      pass exactly when all bus addresses lie in one 64K page below 16 MB. */
  lemma FitsExactly(pageOffset: int, addr: int, n: int)
    requires pageOffset % 0x1_0000 == 0 && 0 <= addr < 0x1_0000_0000 && 1 <= n <= 0x1_0000
    ensures var bus := Bus(pageOffset, addr);
            bus < 0x100_0000 && !Crosses(addr, n) <==> bus % 0x1_0000 + n <= 0x1_0000 && bus + n <= 0x100_0000
  {
    hide Crosses, Bus;
    CrossesExactly(addr, n);
    SameOffset(pageOffset, addr);
    BusIsWord(pageOffset, addr);
    if Bus(pageOffset, addr) % 0x1_0000 + n <= 0x1_0000 {
      EndOfPage(Bus(pageOffset, addr), n);
    }
  }

  /** The test in full: a buffer that is not empty crosses when it leaves its first page without running around
      the whole address space back into it; an empty one when it starts a page. */
  lemma CrossesExactly(addr: int, n: int)
    requires 0 <= addr < 0x1_0000_0000 && 0 <= n < 0x1_0000_0000
    ensures n > 0 ==> (Crosses(addr, n) <==> 0x1_0000 < addr % 0x1_0000 + n <= 0x1_0000_0000)
    ensures n == 0 ==> (Crosses(addr, n) <==> addr % 0x1_0000 == 0)
  {
  }

  lemma SameOffset(pageOffset: int, addr: int)
    requires pageOffset % 0x1_0000 == 0
    ensures Bus(pageOffset, addr) % 0x1_0000 == addr % 0x1_0000
  {
  }

  lemma EndOfPage(bus: int, n: int)
    requires 0 <= bus && 1 <= n && bus % 0x1_0000 + n <= 0x1_0000
    ensures bus < 0x100_0000 <==> bus + n <= 0x100_0000
  {
  }

  lemma BusIsWord(pageOffset: int, addr: int)
    ensures 0 <= Bus(pageOffset, addr) < 0x1_0000_0000
  {
  }

  /** A channel programmed for a transfer that the chooser left to hardware moves exactly the buffer, byte by
      byte, if and only if the size is between 1 and 64K. */
  lemma HardDmaExactly(r: Regs, d: Channel, pageOffset: int, highMemory: int, addr: int, n: int)
    requires Dma8237.Valid(r) && d <= 3
    requires pageOffset % 0x1_0000 == 0 && 0 <= addr < 0x1_0000_0000 && 0 <= n < 0x1_0000_0000
    requires !NeedsVirtual(pageOffset, highMemory, addr, n)
    requires Address(r, d) == Bus(pageOffset, addr) && Length(r, d) == Granted(d, n)
    ensures Touched(r, d) == Block(Bus(pageOffset, addr), 1, n) <==> 1 <= n <= 0x1_0000
    ensures 1 <= n <= 0x1_0000 ==> Bus(pageOffset, addr) + n <= 0x100_0000
  {
    hide Touched, Bus, Crosses, Block;
    TouchedLength(r, d, Bus(pageOffset, addr), n);
    if 1 <= n <= 0x1_0000 {
      FitsExactly(pageOffset, addr, n);
      LowHalf(r.page[d], r.addr[d]);
      UnbrokenExactly(r, d);
    }
  }

  /** An empty transfer can be left to hardware, and then the channel moves 64K. */
  lemma EmptyMovesAll(r: Regs)
    requires Dma8237.Valid(r) && Address(r, 2) == 1 && Length(r, 2) == Granted(2, 0)
    ensures !NeedsVirtual(0xc000_0000, 0xf800_0000, 0xc000_0001, 0) && Bus(0xc000_0000, 0xc000_0001) == Address(r, 2)
    ensures |Touched(r, 2)| == 0x1_0000
  {
    TouchedLength(r, 2, 0, 0);
  }

  lemma TouchedLength(r: Regs, d: Channel, start: int, n: nat)
    requires Dma8237.Valid(r)
    ensures |Touched(r, d)| == r.count[d] + 1 && |Block(start, 1, n)| == n
  {
  }

  lemma LowHalf(page: int, word: int)
    requires Word(word)
    ensures (0x1_0000 * page + word) % 0x1_0000 == word
  {
  }

  class Driver {
    const mem: array<Byte>              // by virtual address
    const dma: Controller
    const channel: Channel             // FLOPPY_DMA
    const canUseVirtual: int
    const pageOffset: int
    const highMemory: int
    const status: nat -> Byte           // what each read of the status port will return
    const incoming: nat -> Byte         // and each read of the data port

    var polls: nat                     // reads of the status port so far
    var taken: nat                     // reads of the data port so far
    var sent: seq<Byte>                 // writes to the data port so far
    var handed: nat                    // calls of floppy_interrupt so far

    var useVirtual: bool
    var doing: bool                    // doing_pdma
    var writing: bool                  // virtual_dma_mode
    var count: int
    var residue: int
    var next: int                      // virtual_dma_addr

    /** The transfer set up last, and the world as it was then. */
    ghost var start: int
    ghost var size: int
    ghost var before: seq<Byte>
    ghost var sentThen: seq<Byte>
    ghost var takenThen: nat

    constructor (mem: array<Byte>, dma: Controller, channel: Channel, canUseVirtual: int, pageOffset: int,
                 highMemory: int, status: nat -> Byte, incoming: nat -> Byte)
      requires channel <= 3 && Dma8237.Valid(dma.r)
      ensures Valid() && !doing && this.mem == mem && this.dma == dma
    {
      this.mem, this.dma, this.channel, this.canUseVirtual := mem, dma, channel, canUseVirtual;
      this.pageOffset, this.highMemory, this.status, this.incoming := pageOffset, highMemory, status, incoming;
      polls, taken, sent, handed := 0, 0, [], 0;
      useVirtual, doing, writing, count, residue, next := false, false, false, 0, 0, 0;
      start, size, before, sentThen, takenThen := 0, 0, mem[..], [], 0;
    }

    ghost function Moved(): int
      reads this
    {
      size - count - residue
    }

    /** Every byte of the transfer is moved, left to move, or given up, and the moved ones are the first ones. */
    ghost predicate Valid()
      reads this, mem, dma
    {
      && 0 <= start && start + size <= mem.Length
      && 0 <= count && 0 <= residue && 0 <= Moved()
      && next == start + Moved()
      && channel <= 3 && Dma8237.Valid(dma.r)
      && Done(next)
    }

    /** The bytes up to `upto`, and no others, have been moved, once each and in order. */
    ghost predicate Done(upto: int)
      reads `start, `before, `sentThen, `takenThen, `writing, `taken, `sent, mem
    {
      && 0 <= start <= upto <= mem.Length == |before|
      && if writing
         then mem[..] == before && taken == takenThen && sent == sentThen + before[start..upto]
         else && sent == sentThen && taken == takenThen + (upto - start)
              && forall i :: 0 <= i < mem.Length ==>
                   mem[i] == if start <= i < upto then incoming(takenThen + (i - start)) else before[i]
    }

    ghost predicate SameJob(start: int, size: int, before: seq<Byte>, sentThen: seq<Byte>, takenThen: nat)
      reads this
    {
      this.start == start && this.size == size && this.before == before
      && this.sentThen == sentThen && this.takenThen == takenThen
    }

    /** vdma_dma_setup */
    method VirtualSetup(addr: int, n: int, mode: Byte)
      requires 0 <= addr && 0 <= n < 0x8000_0000 && addr + n <= mem.Length && channel <= 3 && Dma8237.Valid(dma.r)
      modifies `doing, `writing, `next, `count, `residue, `start, `size, `before, `sentThen, `takenThen
      ensures Valid() && doing && count == n && residue == 0 && next == addr
      ensures SameJob(addr, n, mem[..], sent, taken) && (writing <==> mode == DMA_MODE_WRITE)
    {
      hide Dma8237.Valid, Done;
      doing, writing := true, mode == DMA_MODE_WRITE;
      next, count, residue := addr, n, 0;
      start, size, before, sentThen, takenThen := addr, n, mem[..], sent, taken;
      NothingDone();
    }

    lemma NothingDone()
      requires 0 <= start <= mem.Length && before == mem[..] && sentThen == sent && takenThen == taken
      ensures Done(start)
    {
      assert sentThen + before[start..start] == sent;
    }

    method Status() returns (st: Byte)
      modifies `polls
      ensures polls == old(polls) + 1 && st == status(old(polls))
    {
      st := status(polls);
      polls := polls + 1;
    }

    /** One turn of the pump. */
    method MoveByte(ptr: int)
      requires 0 <= ptr < mem.Length
      modifies `taken, `sent, mem
      ensures old(Done(ptr)) ==> Done(ptr + 1)
    {
      if writing {
        sent := sent + [mem[ptr]];
      } else {
        mem[ptr] := incoming(taken);
        taken := taken + 1;
      }
    }

    /** The loop of floppy_hardint, with count and pointer in local variables. */
    method Pump()
      requires Valid() && doing
      modifies `polls, `taken, `sent, `count, `next, mem
      ensures Valid()
      ensures var k := Pumped(status, old(polls), old(count));
              count == old(count) - k && polls == old(polls) + k + if count == 0 then 0 else 1
    {
      hide Done, IsReady, Dma8237.Valid, Pumped;
      var lcount, lptr := count, next;
      ghost var k := 0;
      while lcount != 0
        invariant 0 <= k <= count && lcount == count - k && lptr == next + k && polls == old(polls) + k
        invariant Pumped(status, old(polls), count) == k + Pumped(status, polls, lcount)
        invariant Done(lptr)
        modifies `polls, `taken, `sent, mem
        decreases lcount
      {
        PumpOne(status, polls, lcount);
        var st := Status();
        if !IsReady(st) { break; }
        MoveByte(lptr);
        lcount, lptr, k := lcount - 1, lptr + 1, k + 1;
      }
      PumpOne(status, polls, 0);
      count, next := lcount, lptr;
    }

    /** floppy_hardint */
    method HardInt()
      requires Valid()
      modifies this, mem
      ensures Valid() && SameJob(old(start), old(size), old(before), old(sentThen), old(takenThen))
      ensures writing == old(writing)
      ensures !old(doing) ==>
                && !doing && Moved() == old(Moved()) && polls == old(polls) && handed == old(handed) + 1
                && count == old(count) && residue == old(residue)
      ensures old(doing) ==>
                var k := Pumped(status, old(polls), old(count));
                && Moved() == old(Moved()) + k
                && polls == old(polls) + Reads(k, old(count))
                && var over := IsOver(status(polls - 1));
                   && doing == !over && handed == old(handed) + (if over then 1 else 0)
                   && count == (if over then 0 else old(count) - k)
                   && residue == old(residue) + (if over then old(count) - k else 0)
    {
      hide Done, IsOver, Pumped, Dma8237.Valid;
      if !doing {
        handed := handed + 1;
        return;
      }
      Pump();
      var st := Status();
      if st == 0x20 {
        NotOver();
        return;
      }
      if IsOver(st) {
        residue, count, doing := residue + count, 0, false;
        handed := handed + 1;
      }
    }

    /** fd_disable_dma gives up whatever is left. */
    method Disable()
      requires Valid()
      modifies this, dma
      ensures Valid() && SameJob(old(start), old(size), old(before), old(sentThen), old(takenThen))
      ensures writing == old(writing) && !doing && count == 0 && Moved() == old(Moved())
      ensures polls == old(polls) && handed == old(handed)
      ensures dma.r == if canUseVirtual % 2 == 0
                       then old(dma.r).(masked := old(dma.r).masked[channel := true]) else old(dma.r)
    {
      hide Done;
      if canUseVirtual % 2 == 0 {
        dma.DisableDma(channel);
      }
      doing := false;
      residue := residue + count;
      count := 0;
    }

    /** vdma_get_dma_residue */
    method Residue() returns (n: int)
      requires Valid()
      ensures n == size - Moved()
      ensures writing ==> |sent| == |sentThen| + (size - n)
      ensures !writing ==> taken == takenThen + (size - n)
    {
      n := count + residue;
    }

    /** _fd_chose_dma_mode. Where the choice is free, hardware is chosen for a transfer of up to 64K exactly when
        the buffer begins in low memory and lies, on the bus, below 16 MB and within one 64K page. */
    method ChooseMode(addr: int, n: int)
      requires 0 <= addr < 0x1_0000_0000 && 0 <= n < 0x1_0000_0000
      modifies `useVirtual
      ensures canUseVirtual != 2 ==> (useVirtual <==> canUseVirtual % 2 == 1)
      ensures canUseVirtual == 2 && pageOffset % 0x1_0000 == 0 && 1 <= n <= 0x1_0000 ==>
                var bus := Bus(pageOffset, addr);
                !useVirtual <==> addr < highMemory && bus + n <= 0x100_0000 && bus % 0x1_0000 + n <= 0x1_0000
      ensures canUseVirtual == 2 ==> (useVirtual <==> NeedsVirtual(pageOffset, highMemory, addr, n))
      ensures canUseVirtual == 2 && 0x1_0000 < n && addr % 0x1_0000 + n <= 0x1_0000_0000 ==> useVirtual
    {
      hide Crosses, Bus;
      if pageOffset % 0x1_0000 == 0 && 1 <= n <= 0x1_0000 {
        FitsExactly(pageOffset, addr, n);
      }
      CrossesExactly(addr, n);
      if canUseVirtual == 2 {
        useVirtual := NeedsVirtual(pageOffset, highMemory, addr, n);
      } else {
        useVirtual := canUseVirtual % 2 == 1;
      }
    }

    /** hard_dma_setup, whatever state the flip-flop was in. */
    method HardSetup(addr: int, n: int, mode: Byte)
      requires Valid() && 0 <= addr < 0x1_0000_0000 && 0 <= n < 0x1_0000_0000
      modifies `doing, dma
      ensures Valid() && !doing
      ensures Address(dma.r, channel) == Bus(pageOffset, addr) % 0x100_0000
      ensures Length(dma.r, channel) == Granted(channel, n)
      ensures mode % 4 == 0 ==> dma.r.mode == old(dma.r).mode[channel := mode + channel % 4]
      ensures dma.r.masked == old(dma.r).masked[channel := false]
      ensures dma.r.ff2 == old(dma.r).ff2 && !dma.r.ff1
      ensures forall d :: 0 <= d < 8 && d != channel ==>
                && dma.r.addr[d] == old(dma.r).addr[d] && dma.r.count[d] == old(dma.r).count[d]
                && dma.r.page[d] == old(dma.r).page[d]
    {
      hide Done, Bus, Granted;
      doing := false;
      dma.ClearFf(channel);
      dma.SetMode(channel, mode);
      BusIsWord(pageOffset, addr);
      dma.SetAddr(channel, Bus(pageOffset, addr));
      dma.SetCount(channel, n);
      dma.EnableDma(channel);
    }

    /** Choosing and setting up. Where the choice is free (canUseVirtual is 2) and falls on hardware, the channel
        moves exactly the buffer, below 16 MB, unless the buffer is empty. */
    method Start(addr: int, n: int, mode: Byte)
      requires Valid()
      requires 0 <= addr && 0 <= n < 0x8000_0000 && addr + n <= mem.Length <= 0x1_0000_0000
      requires addr < 0x1_0000_0000 && pageOffset % 0x1_0000 == 0
      modifies this, dma
      ensures Valid()
      ensures useVirtual ==> doing && count == n && next == start == addr && size == n && Moved() == 0
      ensures !useVirtual ==> !doing && !dma.r.masked[channel]
      ensures !useVirtual && canUseVirtual == 2 ==>
                && (Touched(dma.r, channel) == Block(Bus(pageOffset, addr), 1, n) <==> n > 0)
                && (n > 0 ==> Bus(pageOffset, addr) + n <= 0x100_0000)
    {
      hide Done, Touched, Crosses, Granted, Block;
      ChooseMode(addr, n);
      if useVirtual {
        VirtualSetup(addr, n, mode);
      } else {
        HardSetup(addr, n, mode);
        if canUseVirtual == 2 {
          HardDmaExactly(dma.r, channel, pageOffset, highMemory, addr, n);
        }
      }
    }

    /** What will have been moved after more interrupts and disables. */
    ghost function Promise(irqs: seq<bool>): int
      requires 0 <= count
      reads this
    {
      Moved() + if doing then MovedBy(status, polls, count, irqs) else 0
    }

    /** One interrupt or disable keeps the promise. */
    method OneEvent(ghost irqs: seq<bool>, irq: bool)
      requires Valid() && irqs != [] && irq == irqs[0]
      modifies this, mem, dma
      ensures Valid() && SameJob(old(start), old(size), old(before), old(sentThen), old(takenThen))
      ensures writing == old(writing) && Promise(irqs[1..]) == old(Promise(irqs))
    {
      hide Done, Pumped, IsOver, Reads, Dma8237.Valid;
      if irq { HardInt(); } else { Disable(); }
    }

    /** A whole transfer, under any device behaviour and any sequence of interrupts (true) and disables (false):
        it gets exactly as far as the statuses let it, the residue tells how far, those bytes were moved once each
        and in order, and nothing else in memory or on the data port changed. */
    method Transfer(addr: int, n: int, mode: Byte, irqs: seq<bool>) returns (left: int)
      requires 0 <= addr && 0 <= n < 0x8000_0000 && addr + n <= mem.Length && channel <= 3 && Dma8237.Valid(dma.r)
      modifies this, mem, dma
      ensures left == n - MovedBy(status, old(polls), n, irqs)
      ensures mode == DMA_MODE_WRITE ==>
                && sent == old(sent) + old(mem[addr..addr + (n - left)])
                && mem[..] == old(mem[..]) && taken == old(taken)
      ensures mode != DMA_MODE_WRITE ==>
                && sent == old(sent) && taken == old(taken) + (n - left)
                && forall i :: 0 <= i < mem.Length ==>
                     mem[i] == if addr <= i < addr + (n - left) then incoming(old(taken) + (i - addr)) else old(mem[i])
    {
      hide MovedBy, Dma8237.Valid;
      VirtualSetup(addr, n, mode);
      assert irqs[0..] == irqs;
      for k := 0 to |irqs|
        invariant Valid() && SameJob(addr, n, old(mem[..]), old(sent), old(taken))
        invariant writing <==> mode == DMA_MODE_WRITE
        invariant Promise(irqs[k..]) == MovedBy(status, old(polls), n, irqs)
      {
        hide Done, Promise, MovedBy, Dma8237.Valid, Moved;
        OneEvent(irqs[k..], irqs[k]);
        assert irqs[k..][1..] == irqs[k + 1..];
      }
      left := Residue();
      assert irqs[|irqs|..] == [];
      MovedByNothing(status, polls, count);
      assert old(mem[..])[addr..addr + (n - left)] == old(mem[addr..addr + (n - left)]);
    }
  }
}
