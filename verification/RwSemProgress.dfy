/** What the calls of the read-write semaphore achieve: who is admitted, who is not, and whom a wake-up wakes. */
module RwSemProgress {
  import opened Words
  import opened RwSem
  import opened Tallies
  import opened RwSemInvariant
  import opened RwSemTheorems

  // ---- admission ----

  /** Every access that decides about admission, in whatever company. down_read gets in exactly when nobody waits
      or writes; down_write and its trylock exactly when nobody is there at all; the read trylock gives up exactly
      on an access that finds somebody waiting or writing, gets in on an exchange that finds the count it had read,
      and otherwise goes around with the count it found. */
  lemma AdmittedExactly(s: State, i: nat, call: Call)
    requires Inv(s) && i < |s.cs| && Room(s, i)
    ensures Sum(s.cs).active >= 0 && Sum(s.cs).waiting >= 0
    ensures var t := Sum(s.cs); var pc := Exec(s, i, call).cs[i];
            match s.cs[i]
            case ReadInc => pc == if t.waiting == 0 then Reading else FailLock(false)
            case WriteXadd => pc == if t.active == 0 && t.waiting == 0 then Writing else FailLock(true)
            case TryWriteCas => pc == if t.active == 0 && t.waiting == 0 then Writing else Idle
            case TryReadLoad => pc == if t.waiting == 0 then TryReadCas(s.count) else Idle
            case TryReadCas(seen) =>
              pc == if t.waiting > 0 then Idle else if s.count == seen then Reading else TryReadCas(s.count)
            case _ => true
  {
    hide SumOf, Wrap32, Fits;
    assert Local(s.cs[i], s.queue, Sum(s.cs));
    CountDecodes(s);
    if Of(s.cs[i]).waiting == 0 {
      SignDecodes(s, i);
    }
  }

  /** The same at every event of every run that fits. */
  lemma AdmittedInEveryRun(n: nat, sched: seq<Event>, k: nat)
    requires RunFits(n, sched) && k < |sched| && sched[k].ctx < n
    ensures var s := Run(n, sched[..k]); var t := Sum(s.cs); var pc := Run(n, sched[..k + 1]).cs[sched[k].ctx];
            && (s.cs[sched[k].ctx].ReadInc? ==> (pc.Reading? <==> t.waiting == 0))
            && (s.cs[sched[k].ctx].WriteXadd? ==> (pc.Writing? <==> t.active == 0 && t.waiting == 0))
            && (s.cs[sched[k].ctx].TryWriteCas? ==> (pc.Writing? <==> t.active == 0 && t.waiting == 0))
            && (s.cs[sched[k].ctx].TryReadLoad? || s.cs[sched[k].ctx].TryReadCas? ==> (pc.Idle? <==> t.waiting > 0))
  {
    hide Run, Exec, Fits, Inv, Room, Sum;
    RunFitsUpTo(n, sched, k);
    RunKeepsInv(n, sched[..k]);
    RunExtends(n, sched, k);
    FitsLeaveRoom(Run(n, sched[..k]), sched[k].ctx, sched[k].call);
    AdmittedExactly(Run(n, sched[..k]), sched[k].ctx, sched[k].call);
  }

  lemma Twice(s: State, e: Event, s1: State, s2: State)
    requires e.ctx < |s.cs| && s1 == Exec(s, e.ctx, e.call) && s2 == Exec(s1, e.ctx, e.call)
    ensures ExecTimes(s, e, 2) == s2 && ExecTimes(s, e, 3) == Exec(s2, e.ctx, e.call)
  {
    hide Exec;
    assert ExecTimes(s1, e, 1) == s2;
    assert ExecTimes(s1, e, 2) == Exec(s2, e.ctx, e.call);
  }

  /** An undisturbed read trylock gets in, with one active share more, exactly when nobody waits or writes;
      otherwise it leaves everything as it was. */
  lemma UndisturbedReadTrylock(s: State, i: nat)
    requires Inv(s) && Fits(s.cs) && i < |s.cs| && s.cs[i].Idle?
    ensures var e := Event(i, DownReadTrylock);
            && (Sum(s.cs).waiting == 0 ==>
                  && ExecTimes(s, e, 3) == s.(count := s.count + 1, cs := s.cs[i := Reading])
                  && Sum(ExecTimes(s, e, 3).cs).active == Sum(s.cs).active + 1)
            && (Sum(s.cs).waiting > 0 ==> ExecTimes(s, e, 2) == s)
  {
    hide SumOf, Wrap32, Fits;
    SignDecodes(s, i);
    CountDecodes(s);
    var e := Event(i, DownReadTrylock);
    var s1 := Exec(s, i, e.call);
    assert s1 == s.(cs := s.cs[i := TryReadLoad]);
    var s2 := Exec(s1, i, e.call);
    assert s2 == s.(cs := s.cs[i := TryReadBranch(s.count)]);
    Twice(s, e, s1, s2);
    assert s.cs[i := Idle] == s.cs;
    Moved(s.cs, i, Reading);
  }

  /** An undisturbed write trylock gets in exactly when nobody is active or waiting, and otherwise leaves everything
      as it was. */
  lemma UndisturbedWriteTrylock(s: State, i: nat)
    requires Inv(s) && Fits(s.cs) && i < |s.cs| && s.cs[i].Idle?
    ensures var t := ExecTimes(s, Event(i, DownWriteTrylock), 2);
            t == if Sum(s.cs).active == 0 && Sum(s.cs).waiting == 0
                 then s.(count := ACTIVE_WRITE_BIAS, cs := s.cs[i := Writing]) else s
  {
    hide SumOf, Wrap32, Fits;
    CountDecodes(s);
    var e := Event(i, DownWriteTrylock);
    var s1 := Exec(s, i, e.call);
    assert s1 == s.(cs := s.cs[i := TryWriteCas]);
    Twice(s, e, s1, Exec(s1, i, e.call));
    assert s.cs[i := Idle] == s.cs;
  }

  /** An uncontended down_read and up_read, or down_write and up_write, leave no trace. */
  lemma RoundTrips(s: State, i: nat)
    requires Inv(s) && Fits(s.cs) && i < |s.cs| && s.cs[i].Idle? && Sum(s.cs).waiting == 0
    ensures var t := ExecTimes(s, Event(i, DownRead), 2); t.cs[i].Reading? && Exec(t, i, Up) == s
    ensures Sum(s.cs).active == 0 ==>
              var t := ExecTimes(s, Event(i, DownWrite), 2); t.cs[i].Writing? && Exec(t, i, Up) == s
  {
    hide SumOf, Wrap32, Fits, Exec, ExecTimes;
    CountDecodes(s);
    SignDecodes(s, i);
    ReadThere(s, i);
    ThereAndBack(s, i, s.(count := s.count + 1, cs := s.cs[i := Reading]));
    if Sum(s.cs).active == 0 {
      WriteThere(s, i);
      ThereAndBack(s, i, s.(count := ACTIVE_WRITE_BIAS, cs := s.cs[i := Writing]));
    }
  }

  lemma ThereAndBack(s: State, i: nat, t: State)
    requires i < |s.cs| && s.cs[i].Idle? && 0 <= s.count <= 0xffff
    requires || t == s.(count := s.count + 1, cs := s.cs[i := Reading])
             || (s.count == 0 && t == s.(count := ACTIVE_WRITE_BIAS, cs := s.cs[i := Writing]))
    ensures Exec(t, i, Up) == s
  {
    hide Wrap32;
    assert s.cs[i := Idle] == s.cs;
  }

  lemma ReadThere(s: State, i: nat)
    requires i < |s.cs| && s.cs[i].Idle? && 0 <= s.count <= 0xffff
    ensures ExecTimes(s, Event(i, DownRead), 2) == s.(count := s.count + 1, cs := s.cs[i := Reading])
  {
    hide Wrap32;
    var e := Event(i, DownRead);
    var s1 := Exec(s, i, e.call);
    assert s1 == s.(cs := s.cs[i := ReadInc]);
    Twice(s, e, s1, Exec(s1, i, e.call));
  }

  lemma WriteThere(s: State, i: nat)
    requires i < |s.cs| && s.cs[i].Idle? && s.count == 0
    ensures ExecTimes(s, Event(i, DownWrite), 2) == s.(count := ACTIVE_WRITE_BIAS, cs := s.cs[i := Writing])
  {
    hide Wrap32;
    var e := Event(i, DownWrite);
    var s1 := Exec(s, i, e.call);
    assert s1 == s.(cs := s.cs[i := WriteXadd]);
    Twice(s, e, s1, Exec(s1, i, e.call));
  }

  // ---- wake-ups ----

  function Holder(write: bool): Pc { if write then Writing else Reading }

  /** The contexts of a stretch of the queue get what they asked for. */
  function Granted(cs: seq<Pc>, q: seq<Waiter>): (r: seq<Pc>)
    requires forall k :: 0 <= k < |q| ==> q[k].ctx < |cs|
    ensures |r| == |cs|
    decreases |q|
  {
    if q == [] then cs else Granted(cs[q[0].ctx := Holder(q[0].write)], q[1..])
  }

  /** In a queue without repetitions everybody in it holds afterwards, and nobody else has changed. */
  lemma {:induction false} GrantedAt(cs: seq<Pc>, q: seq<Waiter>, c: nat)
    requires c < |cs| && forall k :: 0 <= k < |q| ==> q[k].ctx < |cs|
    requires forall k, l :: 0 <= k < l < |q| ==> q[k].ctx != q[l].ctx
    ensures forall k :: 0 <= k < |q| && q[k].ctx == c ==> Granted(cs, q)[c] == Holder(q[k].write)
    ensures (forall k :: 0 <= k < |q| ==> q[k].ctx != c) ==> Granted(cs, q)[c] == cs[c]
    decreases |q|
  {
    if q != [] {
      var rest := q[1..];
      assert forall k :: 0 <= k < |rest| ==> rest[k] == q[k + 1];
      GrantedAt(cs[q[0].ctx := Holder(q[0].write)], rest, c);
    }
  }

  /** One wake-up and what it leaves to do. */
  lemma WakeIsGrant(s: State, i: nat, o: Origin)
    requires i < |s.cs| && s.queue != [] && s.queue[0].ctx < |s.cs|
    ensures var (cs, o') := Wake(s, i, o); var w := s.queue[0];
            cs[i := Resume(o')] == s.cs[i := Resume(o)][w.ctx := Holder(w.write)]
  {
  }

  /** The loop that wakes the counted readers, and the spin_unlock after it. */
  lemma {:induction false} GrantLoop(s: State, i: nat, call: Call)
    requires i < |s.cs| && Closed(s) && s.cs[i].WakeGrant? && 0 < s.cs[i].loop <= |s.queue|
    ensures var loop := s.cs[i].loop;
            var cs := Granted(s.cs[i := Resume(s.cs[i].origin)], s.queue[..loop]);
            ExecTimes(s, Event(i, call), loop + 1) == State(s.count, s.queue[loop..], false, cs)
    decreases s.cs[i].loop
  {
    hide Wake;
    var e, loop, o, w := Event(i, call), s.cs[i].loop, s.cs[i].origin, s.queue[0];
    var s1 := Exec(s, i, call);
    var (cs, o') := Wake(s, i, o);
    WakeIsGrant(s, i, o);
    assert s.queue[..loop][1..] == s.queue[1..][..loop - 1];
    var pc := if loop == 1 then WakeUnlock(o') else WakeGrant(o', loop - 1);
    assert s1 == s.(queue := s.queue[1..], cs := cs[i := pc]);
    assert s1.cs[i := Resume(o')] == cs[i := Resume(o')];
    if loop == 1 {
      assert Exec(s1, i, call) == s1.(waitLock := false, cs := cs[i := Resume(o')]);
      assert ExecTimes(s1, e, 1) == Exec(s1, i, call);
    } else {
      GrantLoop(s1, i, call);
    }
  }

  /** How many at the front of the queue a waker serves: the writer in front, or all readers up to the next writer;
      a downgrader serves no writer. */
  function Turn(q: seq<Waiter>, o: Origin): (k: nat)
    ensures k <= |q|
  {
    if q == [] then 0 else if q[0].write then (if o.Downgrader? then 0 else 1) else LeadingReaders(q)
  }

  /** From the look at the front of the queue to the end of the wake-up. */
  lemma FrontServed(s: State, i: nat, call: Call) returns (n: nat)
    requires i < |s.cs| && Closed(s) && s.cs[i].WakeFront? && s.queue != []
    ensures var k := Turn(s.queue, s.cs[i].origin); var t := ExecTimes(s, Event(i, call), n);
            && t.queue == s.queue[k..] && !t.waitLock
            && t.cs == Granted(s.cs[i := Resume(s.cs[i].origin)], s.queue[..k])
  {
    hide Exec;
    if !s.queue[0].write {
      FrontReadersServed(s, i, call);
      n := LeadingReaders(s.queue) + 2;
    } else {
      FrontWriterServed(s, i, call);
      n := 2;
    }
  }

  lemma FrontReadersServed(s: State, i: nat, call: Call)
    requires i < |s.cs| && Closed(s) && s.cs[i].WakeFront? && s.queue != [] && !s.queue[0].write
    ensures var k := LeadingReaders(s.queue); var t := ExecTimes(s, Event(i, call), k + 2);
            && t.queue == s.queue[k..] && !t.waitLock
            && t.cs == Granted(s.cs[i := Resume(s.cs[i].origin)], s.queue[..k])
  {
    hide Wrap32, Granted;
    var o, s1, woken := s.cs[i].origin, Exec(s, i, call), LeadingReaders(s.queue);
    FrontReadersMove(s, i, call);
    assert s1.cs[i := Resume(o)] == s.cs[i := Resume(o)];
    GrantLoop(s1, i, call);
  }

  lemma FrontWriterServed(s: State, i: nat, call: Call)
    requires i < |s.cs| && Closed(s) && s.cs[i].WakeFront? && s.queue != [] && s.queue[0].write
    ensures var k := if s.cs[i].origin.Downgrader? then 0 else 1; var t := ExecTimes(s, Event(i, call), 2);
            && t.queue == s.queue[k..] && !t.waitLock
            && t.cs == Granted(s.cs[i := Resume(s.cs[i].origin)], s.queue[..k])
  {
    hide Wake, Wrap32, LeadingReaders;
    var e, o := Event(i, call), s.cs[i].origin;
    var s1 := Exec(s, i, call);
    WakeIsGrant(s, i, o);
    Twice(s, e, s1, Exec(s1, i, call));
    if !o.Downgrader? {
      var (cs, o') := Wake(s, i, o);
      assert s1.cs == cs[i := WakeUnlock(o')];
      assert s.queue[..1][1..] == [];
    }
  }

  /** A waker that tries undisturbed serves the front of the queue exactly when nobody is active; otherwise it takes
      its increment back and leaves everybody where they are. */
  lemma TryServes(s: State, i: nat, call: Call) returns (n: nat)
    requires Inv(s) && Fits(s.cs) && i < |s.cs| && s.cs[i].WakeTry? && Fits(Exec(s, i, call).cs)
    ensures var k := if Sum(s.cs).active == 0 then Turn(s.queue, s.cs[i].origin) else 0;
            var t := ExecTimes(s, Event(i, call), n);
            && t.queue == s.queue[k..] && !t.waitLock
            && Closed(s) && t.cs == Granted(s.cs[i := Resume(s.cs[i].origin)], s.queue[..k])
  {
    hide SumOf, Wrap32, Fits, Turn, Granted;
    var e, o := Event(i, call), s.cs[i].origin;
    var s1 := Exec(s, i, call);
    CountDecodes(s);
    assert Local(s.cs[i], s.queue, Sum(s.cs));
    InvIsClosed(s);
    if Sum(s.cs).active == 0 {
      assert s1.cs == s.cs[i := WakeFront(o)];
      assert s1.cs[i := Resume(o)] == s.cs[i := Resume(o)];
      n := FrontServed(s1, i, call);
      n := n + 1;
    } else {
      StepKeepsInv(s, i, call);
      assert s1.cs == s.cs[i := WakeUndo(o)];
      UndoNeverRetries(s1, i, call);
      n := 3;
      Undone(s, i, call, s1);
      GrantedNobody(s.cs[i := Resume(o)], s.queue);
    }
  }

  lemma GrantedNobody(cs: seq<Pc>, q: seq<Waiter>)
    ensures Granted(cs, q[..0]) == cs
  {
  }

  lemma Undone(s: State, i: nat, call: Call, s1: State)
    requires i < |s.cs| && s1 == Exec(s, i, call) && s1.queue == s.queue && |s1.cs| == |s.cs|
    requires s.cs[i].WakeTry? && s1.cs == s.cs[i := WakeUndo(s.cs[i].origin)]
    requires Exec(s1, i, call)
          == s1.(count := Wrap32(s1.count - ACTIVE_BIAS), cs := s1.cs[i := WakeUnlock(s.cs[i].origin)])
    ensures var t := ExecTimes(s, Event(i, call), 3);
            t.queue == s.queue && !t.waitLock && t.cs == s.cs[i := Resume(s.cs[i].origin)]
  {
    hide Wrap32;
    Twice(s, Event(i, call), s1, Exec(s1, i, call));
  }

  /** A whole undisturbed wake-up after a release or a downgrade. A releaser serves the front of the queue exactly
      when nobody is active by then; a downgrader serves the readers in front. Those served hold what they asked
      for, in a queue that has lost exactly them. */
  lemma UndisturbedWake(s: State, i: nat, call: Call) returns (n: nat)
    requires Inv(s) && Fits(s.cs) && i < |s.cs| && s.cs[i].WakeLock? && !s.waitLock && Sum(s.cs).active < 0xffff
    ensures var o := s.cs[i].origin;
            var k := if o.Downgrader? || Sum(s.cs).active == 0 then Turn(s.queue, o) else 0;
            var t := ExecTimes(s, Event(i, call), n);
            && t.queue == s.queue[k..] && !t.waitLock
            && Closed(s) && t.cs == Granted(s.cs[i := Resume(o)], s.queue[..k])
  {
    hide SumOf, Wrap32, Turn, Granted;
    var e, o := Event(i, call), s.cs[i].origin;
    var s1 := Exec(s, i, call);
    assert Local(s.cs[i], s.queue, Sum(s.cs));
    InvIsClosed(s);
    assert s1.cs[i := Resume(o)] == s.cs[i := Resume(o)];
    if s.queue == [] {
      n := 2;
      Twice(s, e, s1, Exec(s1, i, call));
      NoTurn(s.queue, o);
      GrantedNobody(s.cs[i := Resume(o)], s.queue);
    } else if o.Downgrader? {
      n := FrontServed(s1, i, call);
      n := n + 1;
    } else {
      StepKeepsInv(s, i, call);
      LockedFits(s, i, call);
      n := TryServes(s1, i, call);
      n := n + 1;
    }
  }

  lemma NoTurn(q: seq<Waiter>, o: Origin)
    requires q == []
    ensures Turn(q, o) == 0
  {
  }

  /** Taking the wait lock changes no share, and the increment after it one. */
  lemma LockedFits(s: State, i: nat, call: Call)
    requires i < |s.cs| && Fits(s.cs) && Sum(s.cs).active < 0xffff && !s.waitLock && s.queue != []
    requires s.cs[i] == WakeLock(Releaser)
    ensures var s1 := Exec(s, i, call);
            && Fits(s1.cs) && s1.cs[i] == WakeTry(Releaser) && Sum(s1.cs).active == Sum(s.cs).active
            && Fits(Exec(s1, i, call).cs)
  {
    hide SumOf, Wrap32;
    var s1 := Exec(s, i, call);
    Moved(s.cs, i, WakeTry(Releaser));
    Moved(s1.cs, i, Exec(s1, i, call).cs[i]);
  }
}
