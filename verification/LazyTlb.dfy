/** Lazy TLB switching: when may a CPU go back to an address space without reloading its page table?

    Every CPU runs switch_mm and enter_lazy_tlb one store at a time, while page tables change, flush requests
    look at the CPU masks, and flush interrupts arrive between any two of its stores. */
module LazyTlb {

  type Mm = nat

  /** What cr3 points at. */
  datatype Table = Kernel | Of(mm: Mm)

  /** The CPU's next access. */
  datatype Pc =
    | Idle
    | SetLazy                                                    // enter_lazy_tlb
    | ClearPrev(prev: Mm, next: Mm) | SetOk(next: Mm)            // switch_mm, another mm
    | SetActive(next: Mm) | SetBit(next: Mm) | Load(next: Mm)
    | SameOk(next: Mm) | TestAndSet(next: Mm) | Reload(next: Mm) // switch_mm, the same mm
    | Halted                                                     // BUG_ON

  /** One CPU: its cpu_tlbstate, the mms whose cpu_vm_mask holds it, the mms a flush interrupt is on its way
      for, and whether its TLB may hold a translation of the loaded table that has changed since. */
  datatype Cpu = Cpu(lazy: bool, active: Mm, mask: set<Mm>, table: Table, stale: bool, pending: set<Mm>, pc: Pc)

  datatype Act =
    | Switch(prev: Mm, next: Mm)
    | EnterLazy
    | Step
    | Interrupt(mm: Mm, kernel: bool)

  datatype Event =
    | On(cpu: nat, act: Act)
    | Change(mm: Mm)                                             // somebody edits the page table of mm
    | Request(mm: Mm)                                            // and then asks the CPUs in its mask to flush

  /** `owed` are the mms whose page table changed and whose flush has not been requested yet. */
  datatype State = State(cpus: seq<Cpu>, owed: set<Mm>)

  function LoadCr3(c: Cpu, mm: Mm): Cpu { c.(table := Of(mm), stale := false) }

  function Perform(c: Cpu, a: Act): Cpu
  {
    match a
    case Switch(prev, next) =>
      if !c.pc.Idle? then c else c.(pc := if prev != next then ClearPrev(prev, next) else SameOk(next))
    case EnterLazy =>
      if !c.pc.Idle? || c.lazy then c else c.(pc := SetLazy)
    case Step => Access(c)
    case Interrupt(mm, kernel) => Handle(c.(pending := c.pending - {mm}), mm, kernel)
  }

  function Access(c: Cpu): Cpu
  {
    match c.pc
    case Idle | Halted => c
    case SetLazy => c.(lazy := true, pc := Idle)
    case ClearPrev(prev, next) => c.(mask := c.mask - {prev}, pc := SetOk(next))
    case SetOk(next) => c.(lazy := false, pc := SetActive(next))
    case SetActive(next) => c.(active := next, pc := SetBit(next))
    case SetBit(next) => c.(mask := c.mask + {next}, pc := Load(next))
    case Load(next) => LoadCr3(c, next).(pc := Idle)
    case SameOk(next) => c.(lazy := false, pc := if c.active == next then TestAndSet(next) else Halted)
    case TestAndSet(next) => c.(mask := c.mask + {next}, pc := if next in c.mask then Idle else Reload(next))
    case Reload(next) => LoadCr3(c, next).(pc := Idle)
  }

  /** The flush interrupt, asked for or not, is ignored for another mm, flushes for the active one, and in lazy
      mode leaves the active one: no more interrupts for it, and maybe no flush either (`kernel` says whether
      the kernel's own page table is loaded on the way). */
  function Handle(c: Cpu, mm: Mm, kernel: bool): Cpu
  {
    if mm != c.active then c
    else if !c.lazy then c.(stale := false)
    else if kernel then c.(mask := c.mask - {mm}, table := Kernel, stale := false)
    else c.(mask := c.mask - {mm})
  }

  function Changed(c: Cpu, mm: Mm): Cpu { if c.table == Of(mm) then c.(stale := true) else c }

  function Requested(c: Cpu, mm: Mm): Cpu { if mm in c.mask then c.(pending := c.pending + {mm}) else c }

  function Exec(s: State, e: Event): State
  {
    match e
    case On(i, a) => if i < |s.cpus| then s.(cpus := s.cpus[i := Perform(s.cpus[i], a)]) else s
    case Change(mm) => State(seq(|s.cpus|, i requires 0 <= i < |s.cpus| => Changed(s.cpus[i], mm)), s.owed + {mm})
    case Request(mm) => State(seq(|s.cpus|, i requires 0 <= i < |s.cpus| => Requested(s.cpus[i], mm)), s.owed - {mm})
  }

  /** At boot every CPU borrows mm 0 and no mask holds it. */
  const BOOTED: Cpu := Cpu(true, 0, {}, Kernel, false, {}, Idle)

  function Run(n: nat, sched: seq<Event>): (s: State)
    ensures |s.cpus| == n
  {
    if sched == [] then State(seq(n, _ => BOOTED), {}) else Exec(Run(n, sched[..|sched| - 1]), sched[|sched| - 1])
  }

  // ---- what every step keeps ----

  /** Interrupts for the active mm reach the CPU, it runs on that mm's table, and anything stale in its TLB
      will be flushed. */
  predicate Tracked(c: Cpu, owed: set<Mm>)
  {
    c.table == Of(c.active) && (c.stale ==> c.active in c.pending || c.active in owed)
  }

  predicate CpuInv(c: Cpu, owed: set<Mm>)
  {
    match c.pc
    case Idle => (c.active in c.mask ==> Tracked(c, owed)) && (!c.lazy ==> c.active in c.mask)
    case SetLazy => !c.lazy && c.active in c.mask && Tracked(c, owed)
    case ClearPrev(_, _) | SetOk(_) | Halted => true
    case SetActive(_) => !c.lazy
    case SetBit(next) => !c.lazy && c.active == next
    case Load(next) => !c.lazy && c.active == next && next in c.mask
    case SameOk(next) => c.active in c.mask ==> Tracked(c, owed)
    case TestAndSet(next) => !c.lazy && c.active == next && (next in c.mask ==> Tracked(c, owed))
    case Reload(next) => !c.lazy && c.active == next && next in c.mask
  }

  ghost predicate Inv(s: State)
  {
    forall i :: 0 <= i < |s.cpus| ==> CpuInv(s.cpus[i], s.owed)
  }

  lemma StepKeepsInv(s: State, e: Event)
    requires Inv(s)
    ensures Inv(Exec(s, e))
  {
  }

  lemma {:induction false} RunKeepsInv(n: nat, sched: seq<Event>)
    ensures Inv(Run(n, sched))
  {
    if sched != [] {
      RunKeepsInv(n, sched[..|sched| - 1]);
      StepKeepsInv(Run(n, sched[..|sched| - 1]), sched[|sched| - 1]);
    }
  }

  // ---- what it is for ----

  /** Out of switch_mm and not lazy: free to use the user half of the address space. */
  predicate Uses(c: Cpu, mm: Mm) { c.pc.Idle? && !c.lazy && c.active == mm }

  /** A CPU that has completed switch_mm to mm, by whichever path, is in mm's mask and on mm's table, and its
      TLB is up to date or will be flushed. */
  lemma SwitchedIsTracked(n: nat, sched: seq<Event>, i: nat, mm: Mm)
    requires i < n && Uses(Run(n, sched).cpus[i], mm)
    ensures var c := Run(n, sched).cpus[i];
            && mm in c.mask && c.table == Of(mm)
            && (c.stale ==> mm in c.pending || mm in Run(n, sched).owed)
  {
    RunKeepsInv(n, sched);
  }

  /** When a flush of mm has been requested and every interrupt for it has been handled, nobody uses mm through a
      stale TLB: CPUs that were lazy or in the middle of switch_mm included. */
  lemma FlushReachesEveryUser(n: nat, sched: seq<Event>, mm: Mm)
    requires mm !in Run(n, sched).owed
    requires forall i :: 0 <= i < n ==> mm !in Run(n, sched).cpus[i].pending
    ensures forall i :: 0 <= i < n && Uses(Run(n, sched).cpus[i], mm) ==> !Run(n, sched).cpus[i].stale
  {
    RunKeepsInv(n, sched);
  }

  /** Coming back to the mm the CPU borrowed: the reload is skipped just when the bit was still set, and then
      the TLB was being kept up to date all along. */
  lemma SkippedReloadIsSound(n: nat, sched: seq<Event>, i: nat)
    requires i < n && Run(n, sched).cpus[i].pc.TestAndSet?
    ensures var s := Run(n, sched); var c := s.cpus[i]; var d := Exec(s, On(i, Step)).cpus[i];
            && (d.pc.Idle? <==> c.pc.next in c.mask)
            && (d.pc.Idle? ==> Uses(d, c.pc.next) && Tracked(d, s.owed))
  {
    RunKeepsInv(n, sched);
  }

  lemma Extend(n: nat, sched: seq<Event>, e: Event)
    ensures Run(n, sched + [e]) == Exec(Run(n, sched), e)
  {
  }

  /** One more action of the only CPU. */
  lemma Alone(sched: seq<Event>, c: Cpu, owed: set<Mm>, a: Act) returns (more: seq<Event>, d: Cpu)
    requires Run(1, sched) == State([c], owed)
    ensures d == Perform(c, a) && Run(1, more) == State([d], owed)
  {
    hide Run, Perform;
    more, d := sched + [On(0, a)], Perform(c, a);
    Extend(1, sched, On(0, a));
  }

  /** A page-table change and its flush request. */
  lemma Edit(sched: seq<Event>, c: Cpu, mm: Mm) returns (more: seq<Event>)
    requires Run(1, sched) == State([c], {}) && c.table == Of(mm)
    ensures Run(1, more) == State([Requested(c.(stale := true), mm)], {})
  {
    hide Run;
    more := sched + [Change(mm)] + [Request(mm)];
    Extend(1, sched, Change(mm));
    Extend(1, sched + [Change(mm)], Request(mm));
    assert Run(1, sched + [Change(mm)]) == State([c.(stale := true)], {mm});
    assert {mm} - {mm} == {};
  }

  /** switch_mm to mm 1 from boot. */
  lemma FirstSwitch() returns (sched: seq<Event>)
    ensures Run(1, sched) == State([Cpu(false, 1, {1}, Of(1), false, {}, Idle)], {})
  {
    hide Run;
    sched := [];
    var c := BOOTED;
    assert Run(1, sched) == State([c], {}) by { BootAlone(); }
    sched, c := Alone(sched, c, {}, Switch(0, 1));
    sched, c := Alone(sched, c, {}, Step);
    sched, c := Alone(sched, c, {}, Step);
    sched, c := Alone(sched, c, {}, Step);
    sched, c := Alone(sched, c, {}, Step);
    sched, c := Alone(sched, c, {}, Step);
    assert c.mask == {1};
  }

  lemma BootAlone()
    ensures Run(1, []) == State([BOOTED], {})
  {
  }

  /** The reload that is not skipped is needed: a CPU that goes lazy, leaves mm 1 at a flush interrupt and comes
      back to mm 1 can have a TLB that is stale and that nobody is going to flush. */
  lemma ReloadIsNeeded() returns (sched: seq<Event>)
    ensures Run(1, sched) == State([Cpu(false, 1, {}, Of(1), true, {}, TestAndSet(1))], {})
  {
    hide Run;
    sched := FirstSwitch();
    var c := Cpu(false, 1, {1}, Of(1), false, {}, Idle);
    sched, c := Alone(sched, c, {}, EnterLazy);
    sched, c := Alone(sched, c, {}, Step);
    sched := Edit(sched, c, 1);
    c := Requested(c.(stale := true), 1);
    assert c == Cpu(true, 1, {1}, Of(1), true, {1}, Idle);
    sched, c := Alone(sched, c, {}, Interrupt(1, false));
    assert c.mask == {} && c.pending == {};
    sched := Edit(sched, c, 1);
    c := Requested(c.(stale := true), 1);
    sched, c := Alone(sched, c, {}, Switch(1, 1));
    sched, c := Alone(sched, c, {}, Step);
  }

  // ---- what the calls do ----

  function Steps(c: Cpu, k: nat): Cpu
    decreases k
  {
    if k == 0 then c else Steps(Access(c), k - 1)
  }

  /** An undisturbed switch_mm: to another mm, or back to the borrowed one with or without its mask bit; asked to
      stay on an mm that is not the active one it stops at the BUG_ON. */
  lemma UndisturbedSwitch(c: Cpu, prev: Mm, next: Mm)
    requires c.pc.Idle?
    ensures var d := Perform(c, Switch(prev, next));
            && (prev != next ==>
                  Steps(d, 5) == Cpu(false, next, c.mask - {prev} + {next}, Of(next), false, c.pending, Idle))
            && (prev == next && c.active == next && next in c.mask ==> Steps(d, 2) == c.(lazy := false))
            && (prev == next && c.active == next && next !in c.mask ==>
                  Steps(d, 3) == c.(lazy := false, mask := c.mask + {next}, table := Of(next), stale := false))
            && (prev == next && c.active != next ==> Steps(d, 1).pc.Halted?)
  {
    hide Access;
    var d := Perform(c, Switch(prev, next));
    SomeSteps(d);
    if prev == next {
      SwitchBack(d, next);
    } else {
      SwitchAway(d, prev, next);
    }
  }

  lemma SomeSteps(c: Cpu)
    ensures Steps(c, 1) == Access(c) && Steps(c, 2) == Access(Access(c)) && Steps(c, 3) == Access(Access(Access(c)))
    ensures Steps(c, 5) == Access(Access(Access(Access(Access(c)))))
  {
    hide Access;
    assert Steps(Access(Access(c)), 3) == Access(Access(Access(Access(Access(c)))));
  }

  lemma SwitchAway(c: Cpu, prev: Mm, next: Mm)
    requires c.pc == ClearPrev(prev, next)
    ensures Access(Access(Access(Access(Access(c)))))
         == Cpu(false, next, c.mask - {prev} + {next}, Of(next), false, c.pending, Idle)
  {
  }

  lemma SwitchBack(c: Cpu, next: Mm)
    requires c.pc == SameOk(next)
    ensures c.active == next && next in c.mask ==> Access(Access(c)) == c.(lazy := false, pc := Idle)
    ensures c.active == next && next !in c.mask ==>
              var d := c.(lazy := false, mask := c.mask + {next}, table := Of(next), stale := false, pc := Idle);
              Access(Access(Access(c))) == d
    ensures c.active != next ==> Access(c).pc.Halted?
  {
    if next in c.mask {
      assert c.mask + {next} == c.mask;
    }
  }

  /** enter_lazy_tlb makes the CPU lazy and does nothing else. */
  lemma UndisturbedLazy(c: Cpu)
    requires c.pc.Idle?
    ensures Steps(Perform(c, EnterLazy), 1) == c.(lazy := true)
  {
    SomeSteps(Perform(c, EnterLazy));
  }

  /** A CPU on its way from prev to next. */
  predicate Switching(c: Cpu, prev: Mm, next: Mm)
  {
    match c.pc
    case ClearPrev(p, n) => p == prev && n == next
    case SetOk(n) => n == next && prev !in c.mask
    case SetActive(n) => n == next && prev !in c.mask && !c.lazy
    case SetBit(n) => n == next && prev !in c.mask && !c.lazy && c.active == next
    case Load(n) => n == next && prev !in c.mask && !c.lazy && c.active == next && next in c.mask
    case _ => false
  }

  predicate Switched(c: Cpu, prev: Mm, next: Mm)
  {
    Uses(c, next) && prev !in c.mask && next in c.mask && c.table == Of(next) && !c.stale
  }

  lemma SwitchAdvances(s: State, e: Event, i: nat, prev: Mm, next: Mm)
    requires i < |s.cpus| && prev != next && Switching(s.cpus[i], prev, next)
    ensures var c := Exec(s, e).cpus[i];
            if c.pc.Idle? then Switched(c, prev, next) else Switching(c, prev, next)
  {
  }

  lemma {:induction false} SwitchOngoing(n: nat, sched: seq<Event>, k: nat, m: nat, i: nat, prev: Mm, next: Mm)
    requires i < n && k < m <= |sched| && prev != next
    requires sched[k] == On(i, Switch(prev, next)) && Run(n, sched[..k]).cpus[i].pc.Idle?
    requires forall j :: k < j < m ==> !Run(n, sched[..j]).cpus[i].pc.Idle?
    ensures var c := Run(n, sched[..m]).cpus[i];
            if c.pc.Idle? then Switched(c, prev, next) else Switching(c, prev, next)
    decreases m
  {
    hide Run, Switching, Switched;
    RunExtends(n, sched, m - 1);
    if m == k + 1 {
      SwitchBegins(Run(n, sched[..k]), i, prev, next);
    } else {
      hide Exec;
      SwitchOngoing(n, sched, k, m - 1, i, prev, next);
      SwitchAdvances(Run(n, sched[..m - 1]), sched[m - 1], i, prev, next);
    }
  }

  lemma SwitchBegins(s: State, i: nat, prev: Mm, next: Mm)
    requires i < |s.cpus| && prev != next && s.cpus[i].pc.Idle?
    ensures var c := Exec(s, On(i, Switch(prev, next))).cpus[i]; !c.pc.Idle? && Switching(c, prev, next)
  {
  }

  lemma RunExtends(n: nat, sched: seq<Event>, k: nat)
    requires k < |sched|
    ensures Run(n, sched[..k + 1]) == Exec(Run(n, sched[..k]), sched[k])
  {
    assert sched[..k + 1][..k] == sched[..k];
  }

  /** Every switch_mm to another mm of every run, with changes, requests and interrupts between any two of its
      stores: when it returns, the CPU has left prev's mask, is in next's, and runs on next's table with nothing
      stale in its TLB. */
  lemma SwitchReturns(n: nat, sched: seq<Event>, k: nat, m: nat, i: nat, prev: Mm, next: Mm)
    requires i < n && k < m <= |sched| && prev != next
    requires sched[k] == On(i, Switch(prev, next)) && Run(n, sched[..k]).cpus[i].pc.Idle?
    requires Run(n, sched[..m]).cpus[i].pc.Idle?
    requires forall j :: k < j < m ==> !Run(n, sched[..j]).cpus[i].pc.Idle?
    ensures Switched(Run(n, sched[..m]).cpus[i], prev, next)
  {
    hide Run, Switching, Switched;
    SwitchOngoing(n, sched, k, m, i, prev, next);
  }
}
