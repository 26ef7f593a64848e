/** A PAE page-table entry: two 32-bit halves written by one lock-serialised writer, one access per step,
    while the hardware walks the entry and sets its accessed and dirty bits. */
module PageTable {

  /** The low half of an entry: the bits this file is about, and the rest of the word. */
  datatype Low = Low(present: bool, rw: bool, accessed: bool, dirty: bool, rest: nat)

  const ZERO: Low := Low(false, false, false, false, 0)

  datatype Pte = Pte(low: Low, high: nat)

  datatype Bit = Rw | Accessed | Dirty

  datatype Op =
    | SetPte(pte: Pte)
    | SetPtePresent(pte: Pte)
    | PteClear
    | GetAndClear
    | ClearFlushDirty
    | ClearFlushYoung
    | SetWrprotect

  /** The writer's next access. */
  datatype Pc =
    | Idle
    | SetHigh(pte: Pte) | SetLow(pte: Pte)                               // set_pte
    | ZeroLow(pte: Pte) | ThenHigh(pte: Pte) | ThenLow(pte: Pte)         // set_pte_present
    | ClearLow | ClearHigh                                               // pte_clear
    | XchgLow | LoadHigh(low: Low) | ZeroHigh(res: Pte)                  // raw_ptep_get_and_clear
    | TestBit(bit: Bit) | ClearBit(bit: Bit)                             // ptep_clear_flush_*, ptep_set_wrprotect

  datatype Event = Call(op: Op) | Step | Hardware(write: bool)

  /** What a call returns to its caller. */
  datatype Ret = Void | Flag(v: bool) | Entry(pte: Pte)

  /** `installed` is the last entry whose low half was stored, less the bits cleared from it since; `ret` is what
      the last call returned. */
  datatype State = State(low: Low, high: nat, pc: Pc, installed: Pte, ret: Ret)

  predicate Has(low: Low, bit: Bit)
  {
    match bit
    case Rw => low.rw
    case Accessed => low.accessed
    case Dirty => low.dirty
  }

  function Without(low: Low, bit: Bit): Low
  {
    match bit
    case Rw => low.(rw := false)
    case Accessed => low.(accessed := false)
    case Dirty => low.(dirty := false)
  }

  function Begin(op: Op): Pc
  {
    match op
    case SetPte(p) => SetHigh(p)
    case SetPtePresent(p) => ZeroLow(p)
    case PteClear => ClearLow
    case GetAndClear => XchgLow
    case ClearFlushDirty => TestBit(Dirty)
    case ClearFlushYoung => TestBit(Accessed)
    case SetWrprotect => ClearBit(Rw)
  }

  /** The walker sets accessed, and on a write to a writable page dirty, in present entries only. */
  predicate Sets(low: Low, write: bool, bit: Bit)
  {
    low.present && (bit.Accessed? || (bit.Dirty? && write && low.rw))
  }

  function Touched(low: Low, write: bool): Low
  {
    low.(accessed := low.accessed || Sets(low, write, Accessed), dirty := low.dirty || Sets(low, write, Dirty))
  }

  function Exec(s: State, e: Event): State
  {
    match e
    case Call(op) => if s.pc == Idle then s.(pc := Begin(op)) else s
    case Hardware(write) => s.(low := Touched(s.low, write))
    case Step => Access(s)
  }

  function Access(s: State): State
  {
    match s.pc
    case Idle => s
    case SetHigh(p) => s.(high := p.high, pc := SetLow(p))
    case SetLow(p) => s.(low := p.low, pc := Idle, installed := p, ret := Void)
    case ZeroLow(p) => s.(low := ZERO, pc := ThenHigh(p))
    case ThenHigh(p) => s.(high := p.high, pc := ThenLow(p))
    case ThenLow(p) => s.(low := p.low, pc := Idle, installed := p, ret := Void)
    case ClearLow => s.(low := ZERO, pc := ClearHigh)
    case ClearHigh => s.(high := 0, pc := Idle, ret := Void)
    case XchgLow => s.(low := ZERO, pc := LoadHigh(s.low))
    case LoadHigh(low) => s.(pc := ZeroHigh(Pte(low, s.high)))
    case ZeroHigh(res) => s.(high := 0, pc := Idle, ret := Entry(res))
    case TestBit(bit) => if Has(s.low, bit) then s.(pc := ClearBit(bit)) else s.(pc := Idle, ret := Flag(false))
    case ClearBit(bit) =>
      s.(low := Without(s.low, bit), pc := Idle, ret := if bit.Rw? then Void else Flag(true),
         installed := Pte(Without(s.installed.low, bit), s.installed.high))
  }

  const EMPTY: State := State(ZERO, 0, Idle, Pte(ZERO, 0), Void)

  function Run(sched: seq<Event>): State
  {
    if sched == [] then EMPTY else Exec(Run(sched[..|sched| - 1]), sched[|sched| - 1])
  }

  // ---- the halves belong together ----

  /** Equal but for accessed and dirty. */
  predicate Alike(a: Low, b: Low) { a.(accessed := b.accessed, dirty := b.dirty) == b }

  /** The low half of e, with whatever bits the walker has set in it since if it is present. */
  predicate LowOf(low: Low, e: Low) { Alike(low, e) && (!low.present ==> low == e) }

  predicate Whole(low: Low, high: nat, e: Pte) { high == e.high && LowOf(low, e.low) }

  /** Both halves cleared, or both halves of one entry. */
  predicate Settled(low: Low, high: nat, e: Pte) { (low == ZERO && high == 0) || Whole(low, high, e) }

  predicate Inv(s: State)
  {
    match s.pc
    case SetLow(p) => s.high == p.high && (s.low == ZERO || LowOf(s.low, s.installed.low))
    case ThenHigh(_) | ClearHigh => s.low == ZERO
    case ThenLow(p) => s.low == ZERO && s.high == p.high
    case LoadHigh(low) => s.low == ZERO && Settled(low, s.high, s.installed)
    case ZeroHigh(res) => s.low == ZERO && Settled(res.low, res.high, s.installed)
    case _ => Settled(s.low, s.high, s.installed)
  }

  lemma HardwareKeepsInv(s: State, write: bool)
    requires Inv(s)
    ensures Inv(Exec(s, Hardware(write)))
  {
  }

  lemma StepKeepsInv(s: State, e: Event)
    requires Inv(s)
    ensures Inv(Exec(s, e))
  {
  }

  lemma {:induction false} RunKeepsInv(sched: seq<Event>)
    ensures Inv(Run(sched))
  {
    hide Inv, Exec;
    if sched == [] {
      EmptyInv();
    } else {
      RunKeepsInv(sched[..|sched| - 1]);
      StepKeepsInv(Run(sched[..|sched| - 1]), sched[|sched| - 1]);
    }
  }

  lemma EmptyInv()
    ensures Inv(EMPTY)
  {
  }

  // ---- when a walker sees a torn entry ----

  predicate Stores(pc: Pc) { pc.SetHigh? || pc.SetLow? || pc.ZeroLow? || pc.ThenHigh? || pc.ThenLow? }

  /** A present entry that is neither the one installed last nor the one being stored. */
  predicate Torn(s: State)
  {
    && s.low.present && !Whole(s.low, s.high, s.installed)
    && !(Stores(s.pc) && Whole(s.low, s.high, s.pc.pte))
  }

  /** set_pte is about to store the first half of an entry that differs in both halves from a present one. */
  predicate Breaks(s: State)
  {
    s.pc.SetHigh? && s.low.present && s.high != s.pc.pte.high && !Alike(s.low, s.pc.pte.low)
  }

  /** The walker neither tears nor mends. */
  lemma HardwareKeepsTorn(s: State, write: bool)
    ensures Torn(Exec(s, Hardware(write))) <==> Torn(s)
    ensures Breaks(Exec(s, Hardware(write))) <==> Breaks(s)
  {
  }

  /** Exactly one kind of access tears an entry: the first store of a set_pte onto a present entry that differs
      in both halves. */
  lemma TearsExactly(s: State, e: Event)
    requires Inv(s) && !Torn(s)
    ensures Torn(Exec(s, e)) <==> e.Step? && Breaks(s)
  {
    if e.Hardware? {
      HardwareKeepsTorn(s, e.write);
    }
  }

  ghost predicate NeverTears(sched: seq<Event>)
  {
    forall k :: 0 <= k <= |sched| ==> !Torn(Run(sched[..k]))
  }

  ghost predicate NeverBreaks(sched: seq<Event>)
  {
    forall k :: 0 <= k < |sched| ==> !(sched[k].Step? && Breaks(Run(sched[..k])))
  }

  lemma RunExtends(sched: seq<Event>, k: nat)
    requires k < |sched|
    ensures Run(sched[..k + 1]) == Exec(Run(sched[..k]), sched[k])
  {
    assert sched[..k + 1][..k] == sched[..k];
  }

  lemma {:induction false} WholeSoFar(sched: seq<Event>, k: nat)
    requires NeverBreaks(sched) && k <= |sched|
    ensures !Torn(Run(sched[..k]))
  {
    hide Run, Exec, Torn, Breaks, Inv;
    if k == 0 {
      EmptyWhole();
      assert sched[..0] == [];
    } else {
      WholeSoFar(sched, k - 1);
      RunKeepsInv(sched[..k - 1]);
      RunExtends(sched, k - 1);
      TearsExactly(Run(sched[..k - 1]), sched[k - 1]);
    }
  }

  lemma EmptyWhole()
    ensures !Torn(Run([])) && Run([]) == EMPTY
  {
  }

  /** No walker ever sees a torn entry, in any run, exactly when no set_pte of the run breaks one. */
  lemma RunTearsExactly(sched: seq<Event>)
    ensures NeverTears(sched) <==> NeverBreaks(sched)
  {
    hide Run, Exec, Torn, Breaks, Inv;
    if NeverBreaks(sched) {
      forall k | 0 <= k <= |sched| ensures !Torn(Run(sched[..k])) {
        WholeSoFar(sched, k);
      }
    } else if NeverTears(sched) {
      var k :| 0 <= k < |sched| && sched[k].Step? && Breaks(Run(sched[..k]));
      RunKeepsInv(sched[..k]);
      RunExtends(sched, k);
      TearsExactly(Run(sched[..k]), sched[k]);
    }
  }

  // ---- what a caller of set_pte has to look at ----

  /** A call of set_pte for an entry that differs in both halves from a present one. */
  predicate Unsafe(s: State, e: Event)
  {
    && e.Call? && e.op.SetPte? && s.pc.Idle?
    && s.low.present && s.high != e.op.pte.high && !Alike(s.low, e.op.pte.low)
  }

  ghost predicate SafeCalls(sched: seq<Event>)
  {
    forall k :: 0 <= k < |sched| ==> !Unsafe(Run(sched[..k]), sched[k])
  }

  /** A set_pte breaks an entry exactly when it was unsafe to call: nothing the walker does in between changes
      that. */
  lemma BreaksExactly(s: State, e: Event)
    requires Inv(s)
    ensures Breaks(Exec(s, e)) <==> Unsafe(s, e) || (Breaks(s) && !e.Step?)
  {
    if e.Hardware? {
      HardwareKeepsTorn(s, e.write);
    }
  }

  lemma {:induction false} SafeNeverBreaks(sched: seq<Event>, k: nat)
    requires SafeCalls(sched) && k <= |sched|
    ensures !Breaks(Run(sched[..k]))
  {
    hide Run, Exec, Breaks, Unsafe, Inv;
    if k == 0 {
      NothingBreaks();
      assert sched[..0] == [];
    } else {
      SafeNeverBreaks(sched, k - 1);
      RunKeepsInv(sched[..k - 1]);
      RunExtends(sched, k - 1);
      BreaksExactly(Run(sched[..k - 1]), sched[k - 1]);
    }
  }

  lemma NothingBreaks()
    ensures !Breaks(Run([]))
  {
  }

  /** Once called, an unsafe set_pte makes its first store, or is still about to at the end. */
  lemma {:induction false} UnsafeBreaks(sched: seq<Event>, k: nat, m: nat)
    requires NeverBreaks(sched) && k < m <= |sched| && Unsafe(Run(sched[..k]), sched[k])
    ensures Breaks(Run(sched[..m]))
  {
    hide Run, Exec, Breaks, Unsafe, Inv;
    if m > k + 1 {
      UnsafeBreaks(sched, k, m - 1);
    }
    RunKeepsInv(sched[..m - 1]);
    RunExtends(sched, m - 1);
    BreaksExactly(Run(sched[..m - 1]), sched[m - 1]);
  }

  /** When every call has returned: no walker ever saw a torn entry if and only if every set_pte was called on an
      entry that was not present, or that agreed with the new one in one of its halves. */
  lemma CallsTearExactly(sched: seq<Event>)
    requires Run(sched).pc.Idle?
    ensures NeverTears(sched) <==> SafeCalls(sched)
  {
    hide Run, Exec, Unsafe, Inv;
    RunTearsExactly(sched);
    assert sched[..|sched|] == sched;
    if SafeCalls(sched) {
      forall k | 0 <= k < |sched| ensures !Breaks(Run(sched[..k])) {
        SafeNeverBreaks(sched, k);
      }
    } else if NeverBreaks(sched) {
      var k :| 0 <= k < |sched| && Unsafe(Run(sched[..k]), sched[k]);
      UnsafeBreaks(sched, k, |sched|);
    }
  }

  /** The documented rule: set_pte only onto an entry that is not present. */
  ghost predicate FollowsRule(sched: seq<Event>)
  {
    forall k :: 0 <= k < |sched| && sched[k].Call? && sched[k].op.SetPte? ==> !Run(sched[..k]).low.present
  }

  lemma RuleSuffices(sched: seq<Event>)
    requires FollowsRule(sched)
    ensures SafeCalls(sched) && NeverTears(sched)
  {
    hide Run, Exec, Breaks, Inv, Torn;
    assert SafeCalls(sched);
    forall k | 0 <= k < |sched| ensures !Breaks(Run(sched[..k])) {
      SafeNeverBreaks(sched, k);
    }
    RunTearsExactly(sched);
  }

  const FIRST: Pte := Pte(Low(true, false, false, false, 0), 0)
  const SECOND: Pte := Pte(Low(true, true, false, false, 0), 1)

  /** Two entries that differ in both halves, the second one set right over the first. */
  const TEARING: seq<Event> := [Call(SetPte(FIRST)), Step, Step, Call(SetPte(SECOND)), Step]

  /** Without the rule a walker can see the low half of the old entry with the high half of the new one. */
  lemma TearingRun()
    ensures Run(TEARING) == State(FIRST.low, SECOND.high, SetLow(SECOND), FIRST, Void) && Torn(Run(TEARING))
  {
    var s := TEARING;
    assert s[..4][..3] == s[..3] && s[..3][..2] == s[..2] && s[..2][..1] == s[..1] && s[..1][..0] == [];
    assert Run(s[..1]) == EMPTY.(pc := SetHigh(FIRST));
    assert Run(s[..2]) == EMPTY.(pc := SetLow(FIRST));
    assert Run(s[..3]) == State(FIRST.low, FIRST.high, Idle, FIRST, Void);
    assert Run(s[..4]) == State(FIRST.low, FIRST.high, SetHigh(SECOND), FIRST, Void);
  }

  // ---- where the entries come from ----

  predicate Gives(e: Event, p: Pte) { e == Call(SetPte(p)) || e == Call(SetPtePresent(p)) }

  ghost predicate Given(sched: seq<Event>, p: Pte)
  {
    exists k :: 0 <= k < |sched| && Gives(sched[k], p)
  }

  /** p, less some of its accessed, dirty and write bits. */
  predicate Thinned(low: Low, p: Low)
  {
    && low.(rw := p.rw, accessed := p.accessed, dirty := p.dirty) == p
    && (low.rw ==> p.rw) && (low.accessed ==> p.accessed) && (low.dirty ==> p.dirty)
  }

  /** p as it was given, but for accessed, dirty, and a write bit that may have been taken away. */
  predicate From(low: Low, p: Low)
  {
    low.(rw := p.rw, accessed := p.accessed, dirty := p.dirty) == p && (low.rw ==> p.rw)
  }

  /** e comes from an entry that was given, or is the empty one there was at first. */
  ghost predicate FromGiven(sched: seq<Event>, e: Pte)
  {
    e == Pte(ZERO, 0) || exists p: Pte :: Given(sched, p) && e.high == p.high && Thinned(e.low, p.low)
  }

  /** The entry in the writer's hands and the installed one come from calls. */
  ghost predicate Sourced(sched: seq<Event>, s: State)
  {
    (Stores(s.pc) ==> Given(sched, s.pc.pte)) && FromGiven(sched, s.installed)
  }

  lemma GivenLonger(sched: seq<Event>, e: Event, p: Pte)
    requires Given(sched, p)
    ensures Given(sched + [e], p)
  {
    var k :| 0 <= k < |sched| && Gives(sched[k], p);
    assert Gives((sched + [e])[k], p);
  }

  lemma GivenNow(sched: seq<Event>, e: Event, p: Pte)
    requires Gives(e, p)
    ensures Given(sched + [e], p)
  {
    assert Gives((sched + [e])[|sched|], p);
  }

  lemma SourcesGrow(sched: seq<Event>, s: State, e: Event)
    requires Sourced(sched, s)
    ensures Sourced(sched + [e], s)
  {
    hide Thinned, Given;
    forall p: Pte | Given(sched, p) ensures Given(sched + [e], p) {
      GivenLonger(sched, e, p);
    }
  }

  lemma ClearedStillGiven(sched: seq<Event>, e: Pte, bit: Bit)
    requires FromGiven(sched, e)
    ensures FromGiven(sched, Pte(Without(e.low, bit), e.high))
  {
    hide Given;
    if e != Pte(ZERO, 0) {
      var p: Pte :| Given(sched, p) && e.high == p.high && Thinned(e.low, p.low);
      assert Thinned(Without(e.low, bit), p.low);
    }
  }

  /** A store installs what the writer holds; a cleared bit leaves the source as it was. */
  lemma AccessKeepsSources(sched: seq<Event>, s: State)
    requires Sourced(sched, s)
    ensures Sourced(sched, Access(s))
  {
    hide Given;
    if s.pc.ClearBit? {
      ClearedStillGiven(sched, s.installed, s.pc.bit);
    } else if Stores(s.pc) {
      assert Thinned(s.pc.pte.low, s.pc.pte.low);
    }
  }

  lemma StepKeepsSources(sched: seq<Event>, s: State, e: Event)
    requires Sourced(sched, s)
    ensures Sourced(sched + [e], Exec(s, e))
  {
    hide FromGiven, Given, Access;
    SourcesGrow(sched, s, e);
    if e.Step? {
      AccessKeepsSources(sched + [e], s);
    } else if e.Call? && (e.op.SetPte? || e.op.SetPtePresent?) {
      GivenNow(sched, e, e.op.pte);
    }
  }

  lemma {:induction false} RunKeepsSources(sched: seq<Event>)
    ensures Sourced(sched, Run(sched))
  {
    hide Sourced, Exec;
    if sched == [] {
      EmptySources();
    } else {
      var before := sched[..|sched| - 1];
      RunKeepsSources(before);
      StepKeepsSources(before, Run(before), sched[|sched| - 1]);
      assert sched == before + [sched[|sched| - 1]];
    }
  }

  lemma EmptySources()
    ensures Sourced([], EMPTY)
  {
  }

  /** Whatever the writer is in the middle of, a walker that sees the present bit sees both halves of one
      entry that was given to set_pte or set_pte_present: the one whose low half was stored last, or the one
      being stored. */
  lemma NeverTorn(sched: seq<Event>)
    requires SafeCalls(sched) && Run(sched).low.present
    ensures var s := Run(sched); Whole(s.low, s.high, s.installed) || (Stores(s.pc) && Whole(s.low, s.high, s.pc.pte))
    ensures exists p: Pte :: Given(sched, p) && Run(sched).high == p.high && From(Run(sched).low, p.low)
  {
    hide Given, From, LowOf, Run, Thinned, Breaks, Unsafe, Inv;
    var s := Run(sched);
    assert sched[..|sched|] == sched;
    forall k | 0 <= k < |sched| ensures !Breaks(Run(sched[..k])) {
      SafeNeverBreaks(sched, k);
    }
    WholeSoFar(sched, |sched|);
    RunKeepsSources(sched);
    if Whole(s.low, s.high, s.installed) {
      WholeIsGiven(sched, s.low, s.high, s.installed);
    } else {
      SelfIsGiven(sched, s.pc.pte);
      WholeIsGiven(sched, s.low, s.high, s.pc.pte);
    }
  }

  lemma WholeIsGiven(sched: seq<Event>, low: Low, high: nat, e: Pte)
    requires low.present && Whole(low, high, e) && FromGiven(sched, e)
    ensures exists p: Pte :: Given(sched, p) && high == p.high && From(low, p.low)
  {
    hide Given;
    var p: Pte :| Given(sched, p) && e.high == p.high && Thinned(e.low, p.low);
    assert From(low, p.low);
  }

  lemma SelfIsGiven(sched: seq<Event>, p: Pte)
    requires Given(sched, p)
    ensures FromGiven(sched, p)
  {
    hide Given;
    assert Thinned(p.low, p.low);
  }

  /** Between calls the halves belong together, whether the entry is present or not. */
  lemma AtRestWhole(sched: seq<Event>)
    requires Run(sched).pc.Idle?
    ensures var s := Run(sched); Settled(s.low, s.high, s.installed) && FromGiven(sched, s.installed)
  {
    hide LowOf, FromGiven, Run;
    RunKeepsInv(sched);
    RunKeepsSources(sched);
  }

  /** Get-and-clear takes both halves of one entry, present or not, although it reads them in two accesses: an
      entry that was given, less the bits cleared from it, or the empty one. */
  lemma GetAndClearWhole(sched: seq<Event>)
    requires Run(sched).pc.ZeroHigh?
    ensures var s := Run(sched);
            Settled(s.pc.res.low, s.pc.res.high, s.installed) && FromGiven(sched, s.installed)
  {
    hide LowOf, FromGiven, Run;
    RunKeepsInv(sched);
    RunKeepsSources(sched);
  }

  // ---- accessed and dirty bits are not lost ----

  /** Where the bits live: in the entry, or in the value get-and-clear has already taken out. */
  function Held(s: State): Low
  {
    match s.pc
    case LoadHigh(low) => low
    case ZeroHigh(res) => res.low
    case _ => s.low
  }

  predicate Keeps(s: State, bit: Bit) { Held(s).present && Has(Held(s), bit) }

  /** This step is the return of a call that reports the bit to its caller. */
  predicate Reports(s: State, e: Event, bit: Bit)
  {
    e.Step? && ((s.pc.ZeroHigh? && Has(s.pc.res.low, bit)) || s.pc == ClearBit(bit))
  }

  /** A plain store over the entry by set_pte_present or pte_clear, or by set_pte with a low half that does not
      happen to have the bit. */
  predicate Drops(s: State, e: Event, bit: Bit)
  {
    && e.Step?
    && (s.pc.ZeroLow? || s.pc.ClearLow? || (s.pc.SetLow? && !(s.pc.pte.low.present && Has(s.pc.pte.low, bit))))
  }

  /** A tracked bit stays or is reported in every step but a plain overwrite, which drops it. */
  lemma KeptExactly(s: State, e: Event, bit: Bit)
    requires Inv(s) && Keeps(s, bit) && !bit.Rw?
    ensures Keeps(Exec(s, e), bit) || Reports(s, e, bit) <==> !Drops(s, e, bit)
  {
  }

  ghost predicate Reported(sched: seq<Event>, k: nat, bit: Bit)
  {
    exists m :: k < m < |sched| && Reports(Run(sched[..m]), sched[m], bit)
  }

  ghost predicate Dropped(sched: seq<Event>, k: nat, bit: Bit)
  {
    exists m :: k < m < |sched| && Drops(Run(sched[..m]), sched[m], bit)
  }

  lemma HistoryGrows(sched: seq<Event>, n: nat, k: nat, bit: Bit)
    requires n <= |sched|
    ensures Reported(sched[..n], k, bit) ==> Reported(sched, k, bit)
    ensures Dropped(sched[..n], k, bit) ==> Dropped(sched, k, bit)
  {
    hide Run, Reports, Drops;
    var before := sched[..n];
    forall m | 0 <= m < n ensures before[..m] == sched[..m] && before[m] == sched[m] {
    }
  }

  /** A bit the hardware sets at event k is, ever after, in the entry or in get-and-clear's hands, unless a call
      that removed it has reported it or a later step has overwritten it. */
  lemma {:induction false} BitsConserved(sched: seq<Event>, k: nat, bit: Bit)
    requires k < |sched| && sched[k].Hardware? && Sets(Run(sched[..k]).low, sched[k].write, bit)
    ensures Keeps(Run(sched), bit) || Reported(sched, k, bit) || Dropped(sched, k, bit)
  {
    hide Exec, Inv, Reports, Drops, Keeps;
    var n := |sched| - 1;
    var before, e := sched[..n], sched[n];
    RunKeepsInv(before);
    if k == n {
      assert sched[..k] == before;
      TouchedKeeps(Run(before), e.write, bit);
    } else {
      assert before[..k] == sched[..k];
      BitsConserved(before, k, bit);
      HistoryGrows(sched, n, k, bit);
      if Keeps(Run(before), bit) {
        KeptExactly(Run(before), e, bit);
      }
    }
  }

  lemma TouchedKeeps(s: State, write: bool, bit: Bit)
    requires Inv(s) && Sets(s.low, write, bit)
    ensures Keeps(Exec(s, Hardware(write)), bit)
  {
  }

  // ---- what a call does ----

  /** now is was after any number of walks: accessed may have been set in a present entry, and dirty in a writable
      one. */
  predicate Aged(was: Low, now: Low)
  {
    && now == was.(accessed := now.accessed, dirty := now.dirty)
    && (was.accessed ==> now.accessed) && (was.dirty ==> now.dirty)
    && (!was.present ==> now == was) && (now.dirty && !was.dirty ==> was.rw && now.accessed)
  }

  /** Exactly what no walk, walks for reading, or a walk for writing leave. */
  lemma AgedExactly(was: Low, now: Low)
    ensures Aged(was, now) <==> now == was || now == Touched(was, false) || now == Touched(was, true)
  {
  }

  /** Somewhere during the call the low half was an aged `was` with or without the bit; now it is the same without
      the bit. */
  ghost predicate Cleared(was: Low, now: Low, bit: Bit, had: bool)
  {
    exists cur: Low :: Aged(was, cur) && Has(cur, bit) == had && now == Without(cur, bit)
  }

  /** What a call that began in s has done when it returns in t. */
  ghost predicate Outcome(op: Op, s: State, t: State)
  {
    match op
    case SetPte(p) => t.low == p.low && t.high == p.high && t.ret == Void
    case SetPtePresent(p) => t.low == p.low && t.high == p.high && t.ret == Void
    case PteClear => t.low == ZERO && t.high == 0 && t.ret == Void
    case GetAndClear =>
      && t.low == ZERO && t.high == 0
      && t.ret.Entry? && t.ret.pte.high == s.high && Aged(s.low, t.ret.pte.low)
    case ClearFlushDirty => t.ret.Flag? && Cleared(s.low, t.low, Dirty, t.ret.v) && t.high == s.high
    case ClearFlushYoung => t.ret.Flag? && Cleared(s.low, t.low, Accessed, t.ret.v) && t.high == s.high
    case SetWrprotect =>
      t.ret == Void && t.high == s.high && (Cleared(s.low, t.low, Rw, true) || Cleared(s.low, t.low, Rw, false))
  }

  predicate Clearing(s: State, t: State, bit: Bit)
  {
    (t.pc == TestBit(bit) || (t.pc == ClearBit(bit) && Has(t.low, bit))) && Aged(s.low, t.low) && t.high == s.high
  }

  /** How far a call that began in s has got in t. */
  predicate During(op: Op, s: State, t: State)
  {
    match op
    case SetPte(p) => t.pc == SetHigh(p) || (t.pc == SetLow(p) && t.high == p.high)
    case SetPtePresent(p) => t.pc == ZeroLow(p) || t.pc == ThenHigh(p) || (t.pc == ThenLow(p) && t.high == p.high)
    case PteClear => t.pc == ClearLow || (t.pc == ClearHigh && t.low == ZERO)
    case GetAndClear =>
      || (t.pc == XchgLow && Aged(s.low, t.low) && t.high == s.high)
      || (t.pc.LoadHigh? && Aged(s.low, t.pc.low) && t.low == ZERO && t.high == s.high)
      || (t.pc.ZeroHigh? && Aged(s.low, t.pc.res.low) && t.low == ZERO && t.pc.res.high == s.high)
    case ClearFlushDirty => Clearing(s, t, Dirty)
    case ClearFlushYoung => Clearing(s, t, Accessed)
    case SetWrprotect => t.pc == ClearBit(Rw) && Aged(s.low, t.low) && t.high == s.high
  }

  lemma CallBegins(op: Op, s: State)
    requires s.pc.Idle?
    ensures During(op, s, Exec(s, Call(op)))
  {
  }

  /** A call goes on, whatever the walker does, until the access on which it returns with its outcome. */
  lemma CallAdvances(op: Op, s: State, t: State, e: Event)
    requires During(op, s, t)
    ensures var u := Exec(t, e); if u.pc.Idle? then e.Step? && Outcome(op, s, u) else During(op, s, u)
  {
    assert forall low: Low, write: bool :: Aged(s.low, low) ==> Aged(s.low, Touched(low, write));
  }

  lemma {:induction false} CallOngoing(sched: seq<Event>, k: nat, m: nat)
    requires k < m <= |sched| && sched[k].Call? && Run(sched[..k]).pc.Idle?
    requires forall j :: k < j <= m ==> !Run(sched[..j]).pc.Idle?
    ensures During(sched[k].op, Run(sched[..k]), Run(sched[..m]))
    decreases m
  {
    hide Run, Exec, During, Outcome;
    RunExtends(sched, m - 1);
    if m == k + 1 {
      CallBegins(sched[k].op, Run(sched[..k]));
    } else {
      CallOngoing(sched, k, m - 1);
      CallAdvances(sched[k].op, Run(sched[..k]), Run(sched[..m - 1]), sched[m - 1]);
    }
  }

  /** Every call of every run, with walks between any two of its accesses: the setters leave exactly the given
      entry; clear and get-and-clear leave nothing, and the latter returns the entry that was there; the
      bit operations clear their own bit and nothing else, and the clear_flush ones return what it was. */
  lemma CallReturns(sched: seq<Event>, k: nat, m: nat)
    requires k < m <= |sched| && sched[k].Call? && Run(sched[..k]).pc.Idle?
    requires Run(sched[..m]).pc.Idle? && forall j :: k < j < m ==> !Run(sched[..j]).pc.Idle?
    ensures Outcome(sched[k].op, Run(sched[..k]), Run(sched[..m]))
  {
    hide Run, Exec, During, Outcome;
    RunExtends(sched, m - 1);
    if m == k + 1 {
      CallBegins(sched[k].op, Run(sched[..k]));
      NeverIdle(sched[k].op, Run(sched[..k]), Run(sched[..m]));
    } else {
      CallOngoing(sched, k, m - 1);
      CallAdvances(sched[k].op, Run(sched[..k]), Run(sched[..m - 1]), sched[m - 1]);
    }
  }

  lemma NeverIdle(op: Op, s: State, t: State)
    requires During(op, s, t)
    ensures !t.pc.Idle?
  {
  }

  /** Undisturbed, every call returns within three accesses, and the walker's share of the outcome is nothing. */
  lemma UndisturbedCall(s: State, op: Op)
    requires s.pc.Idle?
    ensures var t := Access(Access(Access(Exec(s, Call(op)))));
            && t.pc.Idle?
            && match op
               case SetPte(p) => (t.low, t.high, t.ret) == (p.low, p.high, Void)
               case SetPtePresent(p) => (t.low, t.high, t.ret) == (p.low, p.high, Void)
               case PteClear => (t.low, t.high, t.ret) == (ZERO, 0, Void)
               case GetAndClear => (t.low, t.high, t.ret) == (ZERO, 0, Entry(Pte(s.low, s.high)))
               case ClearFlushDirty => (t.low, t.high, t.ret) == (s.low.(dirty := false), s.high, Flag(s.low.dirty))
               case ClearFlushYoung =>
                 (t.low, t.high, t.ret) == (s.low.(accessed := false), s.high, Flag(s.low.accessed))
               case SetWrprotect => (t.low, t.high, t.ret) == (s.low.(rw := false), s.high, Void)
  {
  }
}
