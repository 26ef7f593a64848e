/** How many contexts are too many for the read-write semaphore. */
module RwSemBound {
  import opened Words
  import opened RwSem
  import opened RwSemInvariant
  import opened RwSemTheorems

  /** Context 0 holds for writing and contexts 1 to k are queued for writing behind it. */
  function PiledAt(k: nat, i: int): Pc { if i == 0 then Writing else if i <= k then Waiting(true) else Idle }

  function Piled(n: nat, k: nat): (s: State)
    ensures |s.cs| == n
  {
    State(Wrap32(1 - 0x1_0000 * (k + 1)), seq(k, j requires 0 <= j => Waiter(j + 1, true)), false,
          seq(n, i => PiledAt(k, i)))
  }

  /** The count on the way: after the failed xadd, and after the correction. */
  lemma CountsOnTheWay(k: nat)
    requires k <= 0x8000
    ensures Wrap32(1 - 0x1_0000 * (k + 1)) != 0
    ensures Wrap32(Wrap32(Wrap32(1 - 0x1_0000 * (k + 1)) + ACTIVE_WRITE_BIAS) - ACTIVE_BIAS)
         == Wrap32(1 - 0x1_0000 * (k + 2))
    ensures Wrap32(1 - 0x1_0000 * (k + 2)) % 0x1_0000 == 1
  {
  }

  lemma FastPathFails(s: State, c: nat, low: int)
    requires c < |s.cs| && s.cs[c] == Idle && !s.waitLock && s.count != 0 && low == Wrap32(s.count + ACTIVE_WRITE_BIAS)
    ensures ExecTimes(s, Event(c, DownWrite), 3) == s.(count := low, waitLock := true, cs := s.cs[c := FailEnqueue(true)])
  {
    hide Wrap32;
    var s1 := Exec(s, c, DownWrite);
    assert s1 == s.(cs := s.cs[c := WriteXadd]);
    var s2 := Exec(s1, c, DownWrite);
    assert s2 == s.(count := low, cs := s.cs[c := FailLock(true)]);
    var s3 := Exec(s2, c, DownWrite);
    assert s3 == s.(count := low, waitLock := true, cs := s.cs[c := FailEnqueue(true)]);
    ThreeTimes(s, Event(c, DownWrite), s1, s2, s3);
  }

  lemma QueuesUp(s: State, c: nat, count: int)
    requires c < |s.cs| && s.cs[c] == FailEnqueue(true) && s.waitLock
    requires count == Wrap32(s.count - ACTIVE_BIAS) && count % 0x1_0000 != 0
    ensures ExecTimes(s, Event(c, DownWrite), 3)
         == State(count, s.queue + [Waiter(c, true)], false, s.cs[c := Waiting(true)])
  {
    hide Wrap32;
    var q := s.queue + [Waiter(c, true)];
    var s1 := Exec(s, c, DownWrite);
    assert s1 == s.(queue := q, cs := s.cs[c := FailAdjust(true)]);
    var s2 := Exec(s1, c, DownWrite);
    assert s2 == State(count, q, true, s.cs[c := WakeUnlock(Queued(true, false))]);
    var s3 := Exec(s2, c, DownWrite);
    assert s3 == State(count, q, false, s.cs[c := Waiting(true)]);
    ThreeTimes(s, Event(c, DownWrite), s1, s2, s3);
  }

  lemma ThreeTimes(s: State, e: Event, s1: State, s2: State, s3: State)
    requires e.ctx < |s.cs| && s1 == Exec(s, e.ctx, e.call)
    requires s2 == Exec(s1, e.ctx, e.call) && s3 == Exec(s2, e.ctx, e.call)
    ensures ExecTimes(s, e, 3) == s3
  {
  }

  /** One more context queues up: none of its six accesses finds the wait lock taken or the lock free. */
  lemma PileOne(n: nat, k: nat)
    requires k + 1 < n && k <= 0x7fff
    ensures ExecTimes(ExecTimes(Piled(n, k), Event(k + 1, DownWrite), 3), Event(k + 1, DownWrite), 3) == Piled(n, k + 1)
  {
    hide Wrap32, ExecTimes, Exec;
    var s, c := Piled(n, k), k + 1;
    CountsOnTheWay(k);
    var low := Wrap32(s.count + ACTIVE_WRITE_BIAS);
    FastPathFails(s, c, low);
    var mid := s.(count := low, waitLock := true, cs := s.cs[c := FailEnqueue(true)]);
    QueuesUp(mid, c, Piled(n, c).count);
    assert mid.cs[c := Waiting(true)] == Piled(n, c).cs && s.queue + [Waiter(c, true)] == Piled(n, c).queue;
  }

  lemma PileFirst(n: nat)
    requires 0 < n
    ensures ExecTimes(Init(n), Event(0, DownWrite), 2) == Piled(n, 0)
  {
  }

  lemma {:induction false} PileUp(n: nat, k: nat) returns (sched: seq<Event>)
    requires k < n && k <= 0x8000
    ensures Run(n, sched) == Piled(n, k)
  {
    hide Exec, Piled, ExecTimes;
    if k == 0 {
      PileFirst(n);
      RunRepeats(n, [], Event(0, DownWrite), 2);
      sched := [] + Repeat(Event(0, DownWrite), 2);
    } else {
      sched := PileUp(n, k - 1);
      PileOne(n, k - 1);
      RunRepeats(n, sched, Event(k, DownWrite), 3);
      sched := sched + Repeat(Event(k, DownWrite), 3);
      RunRepeats(n, sched, Event(k, DownWrite), 3);
      sched := sched + Repeat(Event(k, DownWrite), 3);
    }
  }

  /** A reader whose increment leaves the count at or above zero is in, whoever else is. */
  lemma SlipsIn(s: State, c: nat)
    requires 0 < c < |s.cs| && s.cs[0] == Writing && s.cs[c] == Idle && Wrap32(s.count + ACTIVE_BIAS) >= 0
    ensures !Exclusive(ExecTimes(s, Event(c, DownRead), 2))
  {
    hide Wrap32;
    var s1 := Exec(s, c, DownRead);
    assert s1 == s.(cs := s.cs[c := ReadInc]);
    var s2 := Exec(s1, c, DownRead);
    assert s2.cs == s.cs[c := Reading];
    assert ExecTimes(s1, Event(c, DownRead), 1) == s2;
    assert HoldsWrite(s2.cs[0]) && HoldsRead(s2.cs[c]);
  }

  lemma CameAround(k: nat)
    requires k == 0x8000
    ensures Wrap32(Wrap32(1 - 0x1_0000 * (k + 1)) + ACTIVE_BIAS) >= 0
  {
  }

  /** Behind a writer and 32768 waiters the count has come around to a positive number, and down_read takes it
      for a free lock. */
  lemma ReaderSlipsIn(n: nat, k: nat) returns (sched: seq<Event>)
    requires k == 0x8000 && n >= 32770
    ensures !Exclusive(Run(n, sched))
  {
    hide Exec, ExecTimes, Exclusive, Wrap32;
    var before := PileUp(n, k);
    var s := Piled(n, k);
    assert s.cs[0] == PiledAt(k, 0) && s.cs[k + 1] == PiledAt(k, k + 1);
    sched := before + Repeat(Event(k + 1, DownRead), 2);
    RunRepeats(n, before, Event(k + 1, DownRead), 2);
    CameAround(k);
    SlipsIn(s, k + 1);
  }

  /** Writers exclude everybody, in every run, exactly up to 32769 contexts. */
  lemma ExclusionExactly(n: nat)
    ensures (forall sched :: Exclusive(Run(n, sched))) <==> n <= LIMIT
  {
    if n <= LIMIT {
      forall sched ensures Exclusive(Run(n, sched)) {
        FewRunFits(n, sched);
        ExclusionInEveryRun(n, sched);
      }
    } else {
      var sched := ReaderSlipsIn(n, 0x8000);
    }
  }
}
