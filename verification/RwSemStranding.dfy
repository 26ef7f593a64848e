/** How many contexts it takes for the read-write semaphore to lose a wake-up. */
module RwSemStranding {
  import opened Words
  import opened RwSem
  import opened Tallies
  import opened RwSemInvariant
  import opened RwSemTheorems

  // ---- two contexts never do ----

  /** Neither holding the semaphore nor inside its wait lock. */
  predicate Outside(pc: Pc)
  {
    || pc.Idle? || pc.ReadInc? || pc.TryReadLoad? || pc.TryReadCas? || pc.WriteXadd? || pc.TryWriteCas?
    || pc.FailLock? || pc.Waiting? || pc == WakeLock(Releaser)
  }

  /** While one context tries a wake the other one does not hold; and the increment is undone only for the sake of
      the other one's own failed attempt, which is waiting for the wait lock. */
  ghost predicate Duel(s: State)
  {
    && |s.cs| <= 2
    && (forall i, j :: 0 <= i < |s.cs| && 0 <= j < |s.cs| && i != j && s.cs[i].WakeTry? ==> Outside(s.cs[j]))
    && (forall i :: 0 <= i < |s.cs| && s.cs[i].WakeUndo? ==> |s.cs| == 2 && s.cs[1 - i].FailLock?)
  }

  lemma ActiveShares(cs: seq<Pc>, i: nat, j: nat)
    requires i < |cs| && j < |cs| && i != j
    ensures 0 <= Of(cs[i]).active && 0 <= Of(cs[j]).active && Of(cs[i]).active + Of(cs[j]).active <= Sum(cs).active
  {
    hide SumOf;
    OfPlausible(cs[i]);
    OfPlausible(cs[j]);
    Moved(cs, i, Idle);
    OthersPlausible(cs[i := Idle], j);
  }

  lemma {:induction false} SumOfAll(cs: seq<Pc>)
    requires 0 < |cs| <= 2
    ensures Sum(cs).active == Of(cs[0]).active + if |cs| == 2 then Of(cs[1]).active else 0
  {
    hide Of;
    if |cs| == 2 {
      assert SumOf(Of, cs) == Plus(SumOf(Of, cs[..1]), Of(cs[1]));
      SumOfAll(cs[..1]);
    } else {
      assert SumOf(Of, cs) == Plus(SumOf(Of, cs[..0]), Of(cs[0])) && cs[..0] == [];
    }
  }

  /** A context with no active share and without the wait lock is outside. */
  lemma InactiveIsOutside(pc: Pc)
    requires Of(pc).active == 0 && Of(pc).locked == 0 && (pc.WakeLock? ==> !pc.origin.Queued?)
    ensures Outside(pc)
  {
  }

  /** Nobody gets in while a waker is about to try: the waiting half of the count is not empty. */
  lemma OutsideStays(s: State, i: nat, j: nat, call: Call)
    requires Inv(s) && i < |s.cs| && j < |s.cs| && Room(s, j) && i != j && s.cs[i].WakeTry? && Outside(s.cs[j])
    ensures Exec(s, j, call).cs == s.cs[j := Exec(s, j, call).cs[j]] && Outside(Exec(s, j, call).cs[j])
  {
    hide SumOf, Wrap32;
    FrontHasWaiters(s, i);
    CountDecodes(s);
    WaitLockTaken(s, i);
    assert Local(s.cs[j], s.queue, Sum(s.cs));
    if Of(s.cs[j]).waiting == 0 {
      SignDecodes(s, j);
    }
  }

  lemma WaitLockTaken(s: State, i: nat)
    requires Inv(s) && i < |s.cs| && Of(s.cs[i]).locked == 1
    ensures s.waitLock
  {
    hide SumOf, Wrap32, Value;
    OthersPlausible(s.cs, i);
  }

  lemma TryLeads(s: State, i: nat, call: Call)
    requires Inv(s) && Fits(s.cs) && Duel(s) && i < |s.cs| && s.cs[i].WakeTry?
    ensures Duel(Exec(s, i, call))
  {
    hide SumOf, Wrap32, Inv;
    CountDecodes(s);
    SumOfAll(s.cs);
    TryIsInactive(s, i);
  }

  lemma TryIsInactive(s: State, i: nat)
    requires Inv(s) && i < |s.cs| && s.cs[i].WakeTry?
    ensures Of(s.cs[i]).active == 0
  {
    hide SumsFit, QueueMatches, SumOf;
    assert Local(s.cs[i], s.queue, Sum(s.cs));
  }

  /** A queued context that finds nobody active, and a releaser that finds somebody queued. */
  lemma EnterTry(s: State, i: nat, call: Call)
    requires Inv(s) && i < |s.cs| && Room(s, i) && Duel(s) && (s.cs[i].FailAdjust? || s.cs[i].WakeLock?)
    ensures Duel(Exec(s, i, call))
  {
    hide SumOf, Wrap32;
    var s' := Exec(s, i, call);
    if |s.cs| == 2 && s'.cs[i].WakeTry? {
      StepKeepsInv(s, i, call);
      EnterTryOutside(s, i, 1 - i, call);
    }
  }

  lemma EnterTryOutside(s: State, i: nat, j: nat, call: Call)
    requires Inv(s) && |s.cs| == 2 && i < 2 && j == 1 - i && (s.cs[i].FailAdjust? || s.cs[i].WakeLock?)
    requires Inv(Exec(s, i, call)) && Exec(s, i, call).cs[i].WakeTry?
    ensures Outside(s.cs[j])
  {
    hide SumOf, Wrap32, Value;
    var s' := Exec(s, i, call);
    assert Local(s.cs[i], s.queue, Sum(s.cs));
    OwnerAlone(s', i, j);
    if s.cs[i].FailAdjust? {
      FewFit(s');
      CountDecodes(s');
      ActiveShares(s'.cs, i, j);
      assert Local(s.cs[j], s.queue, Sum(s.cs));
      InactiveIsOutside(s'.cs[j]);
    } else {
      assert InQueue(s.cs[s.queue[0].ctx], s.queue[0].write);
    }
  }

  lemma DuelStep(s: State, i: nat, call: Call)
    requires Inv(s) && Duel(s) && i < |s.cs|
    ensures Duel(Exec(s, i, call))
  {
    hide Exec, Outside, Inv, Fits;
    FewFit(s);
    if |s.cs| == 2 && (s.cs[1 - i].WakeTry? || s.cs[1 - i].WakeUndo?) {
      PeerWakes(s, i, call);
    } else if s.cs[i].WakeTry? {
      TryLeads(s, i, call);
    } else if s.cs[i].FailAdjust? || s.cs[i].WakeLock? {
      EnterTry(s, i, call);
    } else if s.cs[i].WakeUndo? {
      UndoNeverRetries(s, i, call);
      NobodyTries(Exec(s, i, call));
    } else {
      NoNewTry(s, i, call);
      NobodyTries(Exec(s, i, call));
    }
  }

  lemma NobodyTries(s: State)
    requires |s.cs| <= 2 && forall j :: 0 <= j < |s.cs| ==> !s.cs[j].WakeTry? && !s.cs[j].WakeUndo?
    ensures Duel(s)
  {
  }

  /** Outside the grants an access depends on, and changes, only the shared fields and its own context. */
  lemma AccessIsLocal(s: State, t: State, i: nat, call: Call)
    requires i < |s.cs| && i < |t.cs| && s.cs[i] == t.cs[i] && s == t.(cs := s.cs)
    requires s.queue == [] || (!s.cs[i].WakeFront? && !s.cs[i].WakeGrant?)
    ensures Exec(s, i, call).cs == s.cs[i := Exec(s, i, call).cs[i]]
    ensures Exec(t, i, call) == Exec(s, i, call).(cs := t.cs[i := Exec(s, i, call).cs[i]])
  {
    hide Wrap32, LeadingReaders, Wake;
  }

  lemma NextIsNoTry(s: State, i: nat, call: Call)
    requires i < |s.cs| && !s.cs[i].FailAdjust? && !s.cs[i].WakeLock? && !s.cs[i].WakeTry? && !s.cs[i].WakeUndo?
    requires !s.cs[i].WakeFront? && !s.cs[i].WakeGrant?
    ensures !Exec(s, i, call).cs[i].WakeTry? && !Exec(s, i, call).cs[i].WakeUndo?
  {
    hide Wrap32, LeadingReaders, Wake;
  }

  /** A grant makes holders and leaves the rest alone. */
  lemma GrantIsNoTry(s: State, i: nat, call: Call, j: nat)
    requires i < |s.cs| && j < |s.cs| && (s.cs[i].WakeFront? || s.cs[i].WakeGrant?)
    ensures var pc := Exec(s, i, call).cs[j]; pc.WakeTry? || pc.WakeUndo? ==> j != i && pc == s.cs[j]
  {
    hide Wrap32, LeadingReaders, GrantBias;
  }

  /** Only a waker gets to try, and only a waker that tried gets to undo. */
  lemma NoNewTry(s: State, i: nat, call: Call)
    requires i < |s.cs| && !s.cs[i].FailAdjust? && !s.cs[i].WakeLock? && !s.cs[i].WakeTry? && !s.cs[i].WakeUndo?
    ensures forall j :: 0 <= j < |s.cs| && (Exec(s, i, call).cs[j].WakeTry? || Exec(s, i, call).cs[j].WakeUndo?)
              ==> j != i && Exec(s, i, call).cs[j] == s.cs[j]
  {
    hide Exec;
    if s.cs[i].WakeFront? || s.cs[i].WakeGrant? {
      forall j | 0 <= j < |s.cs| && (Exec(s, i, call).cs[j].WakeTry? || Exec(s, i, call).cs[j].WakeUndo?)
        ensures j != i && Exec(s, i, call).cs[j] == s.cs[j]
      {
        GrantIsNoTry(s, i, call, j);
      }
    } else {
      AccessIsLocal(s, s, i, call);
      NextIsNoTry(s, i, call);
    }
  }

  lemma PeerWakes(s: State, i: nat, call: Call)
    requires Inv(s) && Duel(s) && i < |s.cs| == 2 && Room(s, i) && (s.cs[1 - i].WakeTry? || s.cs[1 - i].WakeUndo?)
    ensures Duel(Exec(s, i, call))
  {
    hide SumOf, Wrap32, Inv;
    if s.cs[1 - i].WakeTry? {
      OutsideStays(s, 1 - i, i, call);
    } else {
      WaitLockTaken(s, 1 - i);
    }
  }

  lemma {:induction false} RunDuels(n: nat, sched: seq<Event>)
    requires n <= 2
    ensures Duel(Run(n, sched))
  {
    hide Exec, Inv;
    if sched != [] {
      var e := sched[|sched| - 1];
      RunDuels(n, sched[..|sched| - 1]);
      FewRunFits(n, sched[..|sched| - 1]);
      if e.ctx < n {
        DuelStep(Run(n, sched[..|sched| - 1]), e.ctx, e.call);
      }
    }
  }

  lemma DuelDropsNothing(s: State, i: nat)
    requires Duel(s) && i < |s.cs|
    ensures !DropsTheWake(s, i)
  {
    hide SumOf;
    if s.cs[i].WakeUndo? {
      ActiveShares(s.cs, i, 1 - i);
    }
  }

  /** Two contexts never strand each other. */
  lemma TwoNeverStrand(n: nat, sched: seq<Event>)
    requires n <= 2
    ensures NeverStranded(n, sched)
  {
    hide Run, Duel, DropsTheWake, Stranded;
    forall k | 0 <= k < |sched| && sched[k].ctx < n ensures !DropsTheWake(Run(n, sched[..k]), sched[k].ctx) {
      RunDuels(n, sched[..k]);
      DuelDropsNothing(Run(n, sched[..k]), sched[k].ctx);
    }
    FewRunFits(n, sched);
    NoLostWakeupExactly(n, sched);
  }

  // ---- three do ----

  /** The same state with more contexts, all idle. */
  function Padded(s: State, n: nat): (r: State)
    requires |s.cs| <= n
    ensures |r.cs| == n
  {
    s.(cs := s.cs + seq(n - |s.cs|, _ => Idle))
  }

  lemma PadUpdate(cs: seq<Pc>, more: seq<Pc>, i: nat, pc: Pc)
    requires i < |cs|
    ensures (cs + more)[i := pc] == cs[i := pc] + more
  {
  }

  lemma PadWake(s: State, n: nat, i: nat, o: Origin)
    requires |s.cs| <= n && i < |s.cs| && Closed(s) && s.queue != []
    ensures Wake(Padded(s, n), i, o) == (Padded(s.(cs := Wake(s, i, o).0), n).cs, Wake(s, i, o).1)
  {
    var w := s.queue[0];
    PadUpdate(s.cs, seq(n - |s.cs|, _ => Idle), w.ctx, if w.write then Writing else Reading);
  }

  lemma PadGrant(s: State, n: nat, i: nat, call: Call)
    requires |s.cs| <= n && i < |s.cs| && Closed(s) && s.queue != [] && (s.cs[i].WakeFront? || s.cs[i].WakeGrant?)
    ensures Exec(Padded(s, n), i, call) == Padded(Exec(s, i, call), n)
  {
    hide Wrap32, LeadingReaders, Wake;
    var more, pc := seq(n - |s.cs|, _ => Idle), Exec(s, i, call).cs[i];
    assert Padded(s, n).cs[i] == s.cs[i];
    PadWake(s, n, i, s.cs[i].origin);
    PadUpdate(Wake(s, i, s.cs[i].origin).0, more, i, pc);
    PadUpdate(s.cs, more, i, pc);
  }

  lemma PadPlain(s: State, n: nat, i: nat, call: Call)
    requires |s.cs| <= n && i < |s.cs| && (s.queue == [] || (!s.cs[i].WakeFront? && !s.cs[i].WakeGrant?))
    ensures Exec(Padded(s, n), i, call) == Padded(Exec(s, i, call), n)
  {
    hide Exec;
    AccessIsLocal(s, Padded(s, n), i, call);
    PadUpdate(s.cs, seq(n - |s.cs|, _ => Idle), i, Exec(s, i, call).cs[i]);
  }

  lemma PadExec(s: State, n: nat, i: nat, call: Call)
    requires |s.cs| <= n && i < |s.cs| && Closed(s)
    ensures Exec(Padded(s, n), i, call) == Padded(Exec(s, i, call), n)
  {
    hide Exec, Padded;
    if s.queue != [] && (s.cs[i].WakeFront? || s.cs[i].WakeGrant?) {
      PadGrant(s, n, i, call);
    } else {
      PadPlain(s, n, i, call);
    }
  }

  lemma {:induction false} PadRun(m: nat, n: nat, sched: seq<Event>)
    requires m <= n && m <= LIMIT && forall k :: 0 <= k < |sched| ==> sched[k].ctx < m
    ensures Run(n, sched) == Padded(Run(m, sched), n)
  {
    hide Exec, Inv;
    if sched == [] {
      assert Init(n).cs == Padded(Init(m), n).cs;
    } else {
      var before, e := sched[..|sched| - 1], sched[|sched| - 1];
      PadRun(m, n, before);
      FewRunFits(m, before);
      InvIsClosed(Run(m, before));
      PadExec(Run(m, before), n, e.ctx, e.call);
    }
  }

  /** The lost wake-up, among any number of contexts. */
  lemma ThreeStrand(n: nat) returns (sched: seq<Event>)
    requires n >= 3
    ensures Stranded(Run(n, sched))
  {
    hide Run, SumOf;
    sched := LosingRun();
    PadRun(3, n, sched);
    SumOfQuiet(Of, Padded(LOST, n).cs);
  }

  /** Whether anybody can be left behind depends on the number of contexts alone: one or two never are, three or
      more can be. */
  lemma StrandingExactly(n: nat)
    ensures (forall sched :: NeverStranded(n, sched)) <==> n <= 2
  {
    hide Run, Stranded;
    if n <= 2 {
      forall sched ensures NeverStranded(n, sched) {
        TwoNeverStrand(n, sched);
      }
    } else {
      var sched := ThreeStrand(n);
      assert sched[..|sched|] == sched;
      assert !NeverStranded(n, sched);
    }
  }
}
