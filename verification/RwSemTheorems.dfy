/** What the read-write semaphore guarantees in every run, and the one place where a wake-up is lost. */
module RwSemTheorems {
  import opened Words
  import opened RwSem
  import opened Tallies
  import opened RwSemInvariant

  /** Holders, whether admitted by a fast path, by a trylock or from the queue. */
  predicate HoldsRead(pc: Pc) { Of(pc).readers == 1 }

  predicate HoldsWrite(pc: Pc) { Of(pc).writers == 1 }

  ghost predicate Exclusive(s: State)
  {
    forall i, j :: 0 <= i < |s.cs| && 0 <= j < |s.cs| && i != j && HoldsWrite(s.cs[i])
      ==> !HoldsWrite(s.cs[j]) && !HoldsRead(s.cs[j])
  }

  lemma HoldersBounded(pc: Pc)
    ensures 0 <= Of(pc).readers <= 1 && 0 <= Of(pc).writers <= 1
  {
  }

  lemma InvIsExclusive(s: State)
    requires Inv(s)
    ensures Exclusive(s)
  {
    hide SumOf, Wrap32, Value;
    forall i, j | 0 <= i < |s.cs| && 0 <= j < |s.cs| && i != j && HoldsWrite(s.cs[i])
      ensures !HoldsWrite(s.cs[j]) && !HoldsRead(s.cs[j])
    {
      Moved(s.cs, i, Idle);
      OthersPlausible(s.cs[i := Idle], j);
      HoldersBounded(s.cs[j]);
    }
  }

  /** In every run of any number of contexts whose contributions fit there is one writer or only readers, grants
      from the queue and downgrades included, and the two halves of the count are exactly the contributions. */
  lemma ExclusionInEveryRun(n: nat, sched: seq<Event>)
    requires RunFits(n, sched)
    ensures var s := Run(n, sched);
            && Exclusive(s)
            && s.count == Wrap32(Value(Sum(s.cs)))
  {
    RunKeepsInv(n, sched);
    InvIsExclusive(Run(n, sched));
  }

  // ---- releases ----

  /** The sign and zero tests of a release, with call_rwsem_wake behind them, look at the queue exactly
      when nobody active remains but some waiter does; a downgrade, exactly when a waiter remains. */
  lemma ReleaseWakesExactly(s: State, i: nat, call: Call)
    requires Inv(s) && i < |s.cs| && (s.cs[i].Reading? || s.cs[i].Writing?)
    requires Fits(s.cs) && Fits(Exec(s, i, call).cs)
    ensures var s' := Exec(s, i, call);
            var t := Sum(s'.cs);
            && (s'.count < 0 <==> t.waiting > 0)
            && (s'.count == 0 <==> t.active == 0 && t.waiting == 0)
            && (s'.cs[i] == WakeLock(Releaser)
                <==> !(s.cs[i].Writing? && call.Downgrade?) && t.active == 0 && t.waiting > 0)
            && (s'.cs[i] == WakeLock(Downgrader) <==> s.cs[i].Writing? && call.Downgrade? && t.waiting > 0)
  {
    hide SumOf, Wrap32;
    var s' := Exec(s, i, call);
    StepKeepsInv(s, i, call);
    CountDecodes(s);
    CountDecodes(s');
    SignDecodes(s', i);
    Moved(s.cs, i, s'.cs[i]);
  }

  /** The same for the release or downgrade at event k of any run that fits. */
  lemma EveryReleaseWakes(n: nat, sched: seq<Event>, k: nat)
    requires RunFits(n, sched) && k < |sched| && sched[k].ctx < n
    requires var pc := Run(n, sched[..k]).cs[sched[k].ctx]; pc.Reading? || pc.Writing?
    ensures var s := Run(n, sched[..k + 1]);
            var down := Run(n, sched[..k]).cs[sched[k].ctx].Writing? && sched[k].call.Downgrade?;
            && (s.cs[sched[k].ctx] == WakeLock(Releaser) <==> !down && Sum(s.cs).active == 0 && Sum(s.cs).waiting > 0)
            && (s.cs[sched[k].ctx] == WakeLock(Downgrader) <==> down && Sum(s.cs).waiting > 0)
  {
    hide Run, Exec, Fits, Inv;
    RunFitsUpTo(n, sched, k);
    RunKeepsInv(n, sched[..k]);
    RunExtends(n, sched, k);
    ReleaseWakesExactly(Run(n, sched[..k]), sched[k].ctx, sched[k].call);
  }

  lemma RunFitsUpTo(n: nat, sched: seq<Event>, k: nat)
    requires RunFits(n, sched) && k <= |sched|
    ensures RunFits(n, sched[..k]) && Fits(Run(n, sched[..k]).cs)
  {
    hide Run, Fits;
    forall j | 0 <= j <= k ensures Fits(Run(n, sched[..k][..j]).cs) {
      assert sched[..k][..j] == sched[..j];
    }
  }

  // ---- order ----

  /** Nobody overtakes: while a waiter is queued that no waker has counted in, no fast path and no
      trylock is admitted. */
  lemma NoOvertaking(s: State, i: nat, call: Call)
    requires Inv(s) && i < |s.cs| && Room(s, i)
    requires |s.queue| > Sum(s.cs).waking + Sum(s.cs).adding
    requires s.cs[i].ReadInc? || s.cs[i].WriteXadd? || s.cs[i].TryReadCas? || s.cs[i].TryWriteCas?
    ensures !HoldsRead(Exec(s, i, call).cs[i]) && !HoldsWrite(Exec(s, i, call).cs[i])
  {
    hide SumOf, Wrap32;
    CountDecodes(s);
    SignDecodes(s, i);
    SumPlausible(s.cs);
    assert Local(s.cs[i], s.queue, Sum(s.cs));
  }

  predicate IsQueued(pc: Pc) { InQueue(pc, true) || InQueue(pc, false) }

  /** Nobody else takes a context off the queue. */
  lemma OnlyWakersDequeue(s: State, i: nat, call: Call, c: nat)
    requires i < |s.cs| && c < |s.cs| && Local(s.cs[i], s.queue, Sum(s.cs))
    requires IsQueued(s.cs[c]) && !s.cs[i].WakeFront? && !s.cs[i].WakeGrant?
    ensures IsQueued(Exec(s, i, call).cs[c])
  {
  }

  /** A context leaves the queue only from its front. */
  lemma GrantsAreFifo(s: State, i: nat, call: Call, c: nat)
    requires Inv(s) && i < |s.cs| && c < |s.cs|
    requires IsQueued(s.cs[c]) && !IsQueued(Exec(s, i, call).cs[c])
    ensures s.queue != [] && s.queue[0].ctx == c
    ensures var pc := Exec(s, i, call).cs[c]; if s.queue[0].write then HoldsWrite(pc) else HoldsRead(pc)
  {
    hide SumOf, Wrap32, SumsFit, GrantBias, LeadingReaders, QueueMatches;
    assert Local(s.cs[i], s.queue, Sum(s.cs));
    if s.cs[i].WakeFront? || s.cs[i].WakeGrant? {
      FrontSleeps(s, i);
    } else {
      OnlyWakersDequeue(s, i, call, c);
    }
  }

  /** When a waker has woken its last reader, no reader is left in front of the queue. */
  lemma AllLeadingReadersWoken(s: State, i: nat, call: Call)
    requires Inv(s) && i < |s.cs| && s.cs[i].WakeGrant?
    requires Exec(s, i, call).cs[i].WakeUnlock?
    ensures Lead(Exec(s, i, call).queue, 0)
  {
  }

  // ---- lost wake-ups ----

  /** Somebody waits, but nobody is active and nobody is about to look at the queue. */
  ghost predicate Stranded(s: State)
  {
    s.queue != [] && Sum(s.cs).active == 0 && Sum(s.cs).pending == 0
  }

  /** The step that strands: a waker takes its increment back and was the last one active. */
  ghost predicate DropsTheWake(s: State, i: nat)
    requires i < |s.cs|
  {
    s.cs[i].WakeUndo? && Sum(s.cs).active == 1 && Sum(s.cs).pending == 0
  }

  /** With nobody active, everyone in the queue has its waiting share in the count. */
  lemma QuietQueue(s: State)
    requires Inv(s) && Sum(s.cs).active == 0
    ensures |s.queue| <= Sum(s.cs).waiting
  {
    hide SumOf, Wrap32, Value;
    SumPlausible(s.cs);
    if Sum(s.cs).adding > 0 {
      var c := AdderExists(s.cs);
      OthersPlausible(s.cs, c);
    }
  }

  lemma {:induction false} AdderExists(cs: seq<Pc>) returns (c: nat)
    requires Sum(cs).adding > 0
    ensures c < |cs| && cs[c].FailAdjust?
  {
    if cs[|cs| - 1].FailAdjust? {
      c := |cs| - 1;
    } else {
      c := AdderExists(cs[..|cs| - 1]);
    }
  }

  lemma ReleaseCovers(s: State, i: nat, call: Call)
    requires Inv(s) && i < |s.cs| && Fits(s.cs) && Fits(Exec(s, i, call).cs) && (s.cs[i].Reading? || s.cs[i].Writing?)
    ensures !Stranded(Exec(s, i, call))
  {
    hide SumOf, Wrap32, Value;
    var s' := Exec(s, i, call);
    StepKeepsInv(s, i, call);
    ReleaseWakesExactly(s, i, call);
    OthersPlausible(s'.cs, i);
    if Sum(s'.cs).active == 0 {
      QuietQueue(s');
    }
  }

  lemma AdjustCovers(s: State, i: nat, call: Call)
    requires Inv(s) && i < |s.cs| && Fits(s.cs) && Fits(Exec(s, i, call).cs) && s.cs[i].FailAdjust?
    ensures !Stranded(Exec(s, i, call))
  {
    hide SumOf, Wrap32;
    var s' := Exec(s, i, call);
    StepKeepsInv(s, i, call);
    CountDecodes(s');
    OthersPlausible(s'.cs, i);
  }

  lemma ActiveCovers(s: State, c: nat)
    requires c < |s.cs| && Of(s.cs[c]).active >= 1
    ensures !Stranded(s)
  {
    hide SumOf, Wrap32, Value;
    OthersPlausible(s.cs, c);
  }

  lemma TryCovers(s: State, i: nat, call: Call)
    requires Inv(s) && i < |s.cs| && s.cs[i].WakeTry?
    ensures !Stranded(Exec(s, i, call))
  {
    hide SumOf, Wrap32, Value;
    assert Local(s.cs[i], s.queue, Sum(s.cs));
    ActiveCovers(Exec(s, i, call), i);
  }

  lemma FrontCovers(s: State, i: nat, call: Call)
    requires Inv(s) && i < |s.cs| && s.cs[i].WakeFront?
    ensures !Stranded(Exec(s, i, call))
  {
    hide SumOf, Wrap32, Value;
    assert Local(s.cs[i], s.queue, Sum(s.cs));
    FrontSleeps(s, i);
    ActiveCovers(Exec(s, i, call), if s.queue[0].write && !s.cs[i].origin.Downgrader? then s.queue[0].ctx else i);
  }

  lemma GrantCovers(s: State, i: nat, call: Call)
    requires Inv(s) && i < |s.cs| && s.cs[i].WakeGrant?
    ensures !Stranded(Exec(s, i, call))
  {
    hide SumOf, Wrap32, Value;
    assert Local(s.cs[i], s.queue, Sum(s.cs));
    FrontSleeps(s, i);
    ActiveCovers(Exec(s, i, call), s.queue[0].ctx);
  }

  lemma UndoMoves(cs: seq<Pc>, i: nat)
    requires i < |cs| && cs[i].WakeUndo?
    ensures var t := Sum(cs[i := WakeUnlock(cs[i].origin)]);
            t.active == Sum(cs).active - 1 && t.pending == Sum(cs).pending
  {
    hide SumOf, Wrap32, Value;
    Moved(cs, i, WakeUnlock(cs[i].origin));
  }

  lemma UndoStrands(s: State, i: nat, call: Call)
    requires Inv(s) && i < |s.cs| && Fits(s.cs) && s.cs[i].WakeUndo?
    ensures Stranded(Exec(s, i, call)) <==> DropsTheWake(s, i)
  {
    hide SumOf, Wrap32, Value;
    UndoNeverRetries(s, i, call);
    UndoMoves(s.cs, i);
    FrontHasWaiters(s, i);
  }

  lemma OthersCover(s: State, i: nat, call: Call)
    requires Inv(s) && i < |s.cs| && !Stranded(s)
    requires !s.cs[i].Reading? && !s.cs[i].Writing? && !s.cs[i].FailAdjust?
    requires !s.cs[i].WakeTry? && !s.cs[i].WakeUndo? && !s.cs[i].WakeFront? && !s.cs[i].WakeGrant?
    ensures !Stranded(Exec(s, i, call))
  {
    hide SumOf, Wrap32, Value;
    var s' := Exec(s, i, call);
    Moved(s.cs, i, s'.cs[i]);
    SumPlausible(s.cs);
    OthersPlausible(s.cs, i);
    assert Local(s.cs[i], s.queue, Sum(s.cs));
  }

  /** Exactly that step loses a wake-up; every other access of every context keeps the waiters covered. */
  lemma StrandsExactly(s: State, i: nat, call: Call)
    requires Inv(s) && i < |s.cs| && Fits(s.cs) && Fits(Exec(s, i, call).cs) && !Stranded(s)
    ensures Stranded(Exec(s, i, call)) <==> DropsTheWake(s, i)
  {
    match s.cs[i]
    case Reading | Writing => ReleaseCovers(s, i, call);
    case FailAdjust(_) => AdjustCovers(s, i, call);
    case WakeTry(_) => TryCovers(s, i, call);
    case WakeFront(_) => FrontCovers(s, i, call);
    case WakeGrant(_, _) => GrantCovers(s, i, call);
    case WakeUndo(_) => UndoStrands(s, i, call);
    case _ => OthersCover(s, i, call);
  }

  ghost predicate NeverStranded(n: nat, sched: seq<Event>)
  {
    forall k :: 0 <= k <= |sched| ==> !Stranded(Run(n, sched[..k]))
  }

  ghost predicate NeverDrops(n: nat, sched: seq<Event>)
  {
    forall k :: 0 <= k < |sched| && sched[k].ctx < n ==> !DropsTheWake(Run(n, sched[..k]), sched[k].ctx)
  }

  lemma RunExtends(n: nat, sched: seq<Event>, k: nat)
    requires k < |sched|
    ensures Run(n, sched[..k + 1]) == if sched[k].ctx < n then Exec(Run(n, sched[..k]), sched[k].ctx, sched[k].call)
                                      else Run(n, sched[..k])
  {
    assert sched[..k + 1][..k] == sched[..k];
  }

  /** A run leaves no waiter behind exactly when no waker undoes its increment as the last one active. */
  lemma NoLostWakeupExactly(n: nat, sched: seq<Event>)
    requires RunFits(n, sched)
    ensures NeverStranded(n, sched) <==> NeverDrops(n, sched)
  {
    hide Run, Exec, Fits, Inv, Stranded, DropsTheWake;
    if NeverDrops(n, sched) {
      forall k | 0 <= k <= |sched| ensures !Stranded(Run(n, sched[..k])) {
        CoveredSoFar(n, sched, k);
      }
    } else {
      var k :| 0 <= k < |sched| && sched[k].ctx < n && DropsTheWake(Run(n, sched[..k]), sched[k].ctx);
      RunFitsUpTo(n, sched, k);
      RunKeepsInv(n, sched[..k]);
      RunExtends(n, sched, k);
      if !Stranded(Run(n, sched[..k])) {
        StrandsExactly(Run(n, sched[..k]), sched[k].ctx, sched[k].call);
        assert Stranded(Run(n, sched[..k + 1]));
      }
    }
  }

  lemma {:induction false} CoveredSoFar(n: nat, sched: seq<Event>, k: nat)
    requires RunFits(n, sched) && NeverDrops(n, sched) && k <= |sched|
    ensures !Stranded(Run(n, sched[..k]))
  {
    hide Exec, Fits, Inv, DropsTheWake, Of;
    if k > 0 {
      CoveredSoFar(n, sched, k - 1);
      RunFitsUpTo(n, sched, k - 1);
      RunKeepsInv(n, sched[..k - 1]);
      RunExtends(n, sched, k - 1);
      if sched[k - 1].ctx < n {
        StrandsExactly(Run(n, sched[..k - 1]), sched[k - 1].ctx, sched[k - 1].call);
      }
    }
  }

  /** A stranded queue stays stranded, whatever trylocks come by, until somebody calls down again. */
  lemma StrandedStays(s: State, i: nat, call: Call)
    requires Inv(s) && i < |s.cs| && Fits(s.cs) && Stranded(s) && !s.cs[i].ReadInc? && !s.cs[i].WriteXadd?
    ensures Stranded(Exec(s, i, call)) && Exec(s, i, call).queue == s.queue
  {
    hide SumOf, Wrap32;
    QuietQueue(s);
    CountDecodes(s);
    if Of(s.cs[i]).waiting == 0 {
      SignDecodes(s, i);
    }
    OthersPlausible(s.cs, i);
    assert Local(s.cs[i], s.queue, Sum(s.cs));
    Moved(s.cs, i, Exec(s, i, call).cs[i]);
  }

  // ---- a run that loses a wake-up ----

  function Repeat(e: Event, k: nat): (r: seq<Event>)
    ensures |r| == k
  {
    seq(k, _ => e)
  }

  /** The same context k times over. */
  function ExecTimes(s: State, e: Event, k: nat): (s': State)
    requires e.ctx < |s.cs|
    ensures |s'.cs| == |s.cs|
    decreases k
  {
    if k == 0 then s else ExecTimes(Exec(s, e.ctx, e.call), e, k - 1)
  }

  lemma RunOneMore(n: nat, sched: seq<Event>, e: Event)
    requires e.ctx < n
    ensures Run(n, sched + [e]) == Exec(Run(n, sched), e.ctx, e.call)
  {
  }

  lemma {:induction false} RunRepeats(n: nat, sched: seq<Event>, e: Event, k: nat)
    requires e.ctx < n
    ensures Run(n, sched + Repeat(e, k)) == ExecTimes(Run(n, sched), e, k)
    decreases k
  {
    if k == 0 {
      assert sched + Repeat(e, 0) == sched;
    } else {
      assert sched + Repeat(e, k) == sched + [e] + Repeat(e, k - 1);
      RunOneMore(n, sched, e);
      RunRepeats(n, sched + [e], e, k - 1);
    }
  }

  const START: State := State(0, [], false, [Idle, Idle, Idle])
  const TAKEN: State := State(-65535, [], false, [Writing, Idle, Idle])
  const FAILED: State := State(-131070, [], true, [Writing, FailEnqueue(true), Idle])
  const QUEUED_1: State := State(-131071, [Waiter(1, true)], false, [Writing, Waiting(true), Idle])
  const RELEASED: State := State(-65536, [Waiter(1, true)], false, [WakeLock(Releaser), Waiting(true), Idle])
  const QUEUED_2: State :=
    State(-65535, [Waiter(1, true), Waiter(2, false)], true, [WakeLock(Releaser), Waiting(true), FailAdjust(false)])
  const GRANTED: State := State(-131071, [Waiter(2, false)], false, [WakeLock(Releaser), Writing, Waiting(false)])
  const LATE: State := State(-131070, [Waiter(2, false)], true, [WakeUndo(Releaser), Writing, Waiting(false)])
  const UNSEEN: State := State(-65535, [Waiter(2, false)], true, [WakeUndo(Releaser), Idle, Waiting(false)])
  const LOST: State := State(-65536, [Waiter(2, false)], false, [Idle, Idle, Waiting(false)])

  /** Context 0 takes the lock for writing. */
  lemma Step1()
    ensures ExecTimes(START, Event(0, DownWrite), 2) == TAKEN
  {
  }

  /** Context 1 wants to write and fails its fast path. */
  lemma Step2()
    ensures ExecTimes(TAKEN, Event(1, DownWrite), 3) == FAILED
  {
  }

  /** Context 1 queues. */
  lemma Step3()
    ensures ExecTimes(FAILED, Event(1, DownWrite), 3) == QUEUED_1
  {
    var s1 := Exec(FAILED, 1, DownWrite);
    assert s1 == State(-131070, [Waiter(1, true)], true, [Writing, FailAdjust(true), Idle]);
    var s2 := Exec(s1, 1, DownWrite);
    assert s2 == State(-131071, [Waiter(1, true)], true, [Writing, WakeUnlock(Queued(true, false)), Idle]);
    var s3 := Exec(s2, 1, DownWrite);
    assert s3 == QUEUED_1;
  }

  /** Context 0 releases and sets out to wake somebody. */
  lemma Step4()
    ensures ExecTimes(QUEUED_1, Event(0, Up), 1) == RELEASED
  {
  }

  /** Context 2 wants to read, fails and queues. */
  lemma Step5()
    ensures ExecTimes(RELEASED, Event(2, DownRead), 4) == QUEUED_2
  {
  }

  /** It finds nobody active, grants the lock to context 1 and sleeps. */
  lemma Step6()
    ensures ExecTimes(QUEUED_2, Event(2, DownRead), 4) == GRANTED
  {
    var s1 := Exec(QUEUED_2, 2, DownRead);
    assert s1 == State(-131072, [Waiter(1, true), Waiter(2, false)], true,
                       [WakeLock(Releaser), Waiting(true), WakeTry(Queued(false, false))]);
    var s2 := Exec(s1, 2, DownRead);
    assert s2 == State(-131071, [Waiter(1, true), Waiter(2, false)], true,
                       [WakeLock(Releaser), Waiting(true), WakeFront(Queued(false, false))]);
    var s3 := Exec(s2, 2, DownRead);
    assert s3 == State(-131071, [Waiter(2, false)], true,
                       [WakeLock(Releaser), Writing, WakeUnlock(Queued(false, false))]);
    var s4 := Exec(s3, 2, DownRead);
    assert s4 == GRANTED;
  }

  /** Context 0 comes too late: its increment finds context 1 active. */
  lemma Step7()
    ensures ExecTimes(GRANTED, Event(0, Up), 2) == LATE
  {
  }

  /** Context 1 releases; the increment hides that it was the last one. */
  lemma Step8()
    ensures ExecTimes(LATE, Event(1, Up), 1) == UNSEEN
  {
  }

  /** Context 0 takes its increment back and leaves. */
  lemma Step9()
    ensures ExecTimes(UNSEEN, Event(0, Up), 2) == LOST
  {
  }

  lemma Chain(sched: seq<Event>, s: State, e: Event, k: nat, s': State) returns (longer: seq<Event>)
    requires Run(3, sched) == s && e.ctx < 3 && ExecTimes(s, e, k) == s'
    requires forall j :: 0 <= j < |sched| ==> sched[j].ctx < 3
    ensures Run(3, longer) == s' && |longer| == |sched| + k
    ensures forall j :: 0 <= j < |longer| ==> longer[j].ctx < 3
  {
    longer := sched + Repeat(e, k);
    RunRepeats(3, sched, e, k);
  }

  /** Nobody holds the lock, nobody is inside the semaphore code, and context 2 sleeps on. */
  lemma LosingRun() returns (sched: seq<Event>)
    ensures |sched| == 22 && Run(3, sched) == LOST
    ensures forall k :: 0 <= k < |sched| ==> sched[k].ctx < 3
  {
    sched := [];
    assert Init(3) == START;
    Step1(); sched := Chain(sched, START, Event(0, DownWrite), 2, TAKEN);
    Step2(); sched := Chain(sched, TAKEN, Event(1, DownWrite), 3, FAILED);
    Step3(); sched := Chain(sched, FAILED, Event(1, DownWrite), 3, QUEUED_1);
    Step4(); sched := Chain(sched, QUEUED_1, Event(0, Up), 1, RELEASED);
    Step5(); sched := Chain(sched, RELEASED, Event(2, DownRead), 4, QUEUED_2);
    Step6(); sched := Chain(sched, QUEUED_2, Event(2, DownRead), 4, GRANTED);
    Step7(); sched := Chain(sched, GRANTED, Event(0, Up), 2, LATE);
    Step8(); sched := Chain(sched, LATE, Event(1, Up), 1, UNSEEN);
    Step9(); sched := Chain(sched, UNSEEN, Event(0, Up), 2, LOST);
  }

  /** Three contexts suffice for a lost wake-up. */
  lemma LosingRunStrands()
    ensures exists sched :: Stranded(Run(3, sched))
  {
    var sched := LosingRun();
    SumOfQuiet(Of, LOST.cs);
    assert Stranded(Run(3, sched));
  }
}
