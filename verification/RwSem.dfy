/** The XADD read-write semaphore: fast paths, wait queue and wake-up code, one atomic access per step. */
module RwSem {
  import opened Words

  const ACTIVE_BIAS: int := 1
  const WAITING_BIAS: int := -0x1_0000
  const ACTIVE_WRITE_BIAS: int := WAITING_BIAS + ACTIVE_BIAS

  /** On whose behalf __rwsem_do_wake runs. `granted` records that the waker woke its own entry. */
  datatype Origin = Releaser | Downgrader | Queued(write: bool, granted: bool)

  /** Each value names the access the context makes next. */
  datatype Pc =
    | Idle
    | ReadInc                                // down_read: incl
    | TryReadLoad                            // down_read_trylock: movl
    | TryReadCas(seen: int)                  // down_read_trylock: cmpxchgl
    | WriteXadd                              // down_write: xadd
    | TryWriteCas                            // down_write_trylock: cmpxchg
    | Reading                                // up_read: xadd
    | Writing                                // up_write: xaddl, or downgrade_write: addl
    | FailLock(write: bool)                  // down_failed_common: spin_lock
    | FailEnqueue(write: bool)               // list_add_tail
    | FailAdjust(write: bool)                // rwsem_atomic_update(adjustment)
    | Waiting(write: bool)                   // until waiter->task is NULL
    | WakeLock(origin: Origin)               // rwsem_wake, rwsem_downgrade_wake: spin_lock, list_empty
    | WakeTry(origin: Origin)                // rwsem_atomic_update(+1)
    | WakeUndo(origin: Origin)               // rwsem_atomic_update(-1)
    | WakeFront(origin: Origin)              // wake the writer in front, or rwsem_atomic_add(woken)
    | WakeGrant(origin: Origin, loop: nat)   // wake the next of `loop` readers
    | WakeUnlock(origin: Origin)             // spin_unlock

  datatype Call = DownRead | DownReadTrylock | DownWrite | DownWriteTrylock | Up | Downgrade

  datatype Event = Event(ctx: nat, call: Call)

  datatype Waiter = Waiter(ctx: nat, write: bool)

  datatype State = State(count: int, queue: seq<Waiter>, waitLock: bool, cs: seq<Pc>)

  function Begin(call: Call): Pc
  {
    match call
    case DownRead => ReadInc
    case DownReadTrylock => TryReadLoad
    case DownWrite => WriteXadd
    case DownWriteTrylock => TryWriteCas
    case Up | Downgrade => Idle
  }

  /** The inline test of up_read/up_write chose the slow path; call_rwsem_wake goes on only if the
      active part of the old count was one. */
  function CallWake(before: int): Pc
  {
    if before % 0x1_0000 == 1 then WakeLock(Releaser) else Idle
  }

  /** The first k entries are readers and a writer, or the end of the queue, follows. */
  predicate Lead(q: seq<Waiter>, k: nat)
  {
    k <= |q| && (forall j :: 0 <= j < k ==> !q[j].write) && (k < |q| ==> q[k].write)
  }

  /** The number of readers at the front of the queue, up to the first writer. */
  function LeadingReaders(q: seq<Waiter>): (k: nat)
    ensures Lead(q, k)
  {
    if q == [] || q[0].write then 0 else 1 + LeadingReaders(q[1..])
  }

  /** woken * (RWSEM_ACTIVE_BIAS - RWSEM_WAITING_BIAS), less the one already added by WakeTry. */
  function GrantBias(woken: nat, downgrading: bool): int
  {
    0x1_0001 * woken - if downgrading then 0 else ACTIVE_BIAS
  }

  /** Where a waker ends up once it drops wait_lock. */
  function Resume(o: Origin): Pc
  {
    match o
    case Releaser => Idle
    case Downgrader => Reading
    case Queued(write, granted) => if !granted then Waiting(write) else if write then Writing else Reading
  }

  /** waiter->task = NULL for the entry in front: the waker i itself, or a sleeping context. */
  function Wake(s: State, i: nat, o: Origin): (r: (seq<Pc>, Origin))
    requires s.queue != []
    ensures |r.0| == |s.cs|
  {
    var w := s.queue[0];
    if w.ctx == i then (s.cs, Queued(w.write, true))
    else if w.ctx < |s.cs| then (s.cs[w.ctx := if w.write then Writing else Reading], o)
    else (s.cs, o)
  }

  /** One atomic access by context i; `call` matters only when i is idle or writing. */
  function Exec(s: State, i: nat, call: Call): (s': State)
    requires i < |s.cs|
    ensures |s'.cs| == |s.cs|
  {
    match s.cs[i]
    case Idle => s.(cs := s.cs[i := Begin(call)])
    case ReadInc =>
      var v := Wrap32(s.count + ACTIVE_BIAS);
      s.(count := v, cs := s.cs[i := if v >= 0 then Reading else FailLock(false)])
    case TryReadLoad => s.(cs := s.cs[i := TryReadBranch(s.count)])
    case TryReadCas(seen) =>
      if s.count == seen then s.(count := Wrap32(seen + ACTIVE_BIAS), cs := s.cs[i := Reading])
      else s.(cs := s.cs[i := TryReadBranch(s.count)])
    case WriteXadd =>
      s.(count := Wrap32(s.count + ACTIVE_WRITE_BIAS),
         cs := s.cs[i := if s.count == 0 then Writing else FailLock(true)])
    case TryWriteCas =>
      if s.count == 0 then s.(count := ACTIVE_WRITE_BIAS, cs := s.cs[i := Writing])
      else s.(cs := s.cs[i := Idle])
    case Reading =>
      var v := Wrap32(s.count - ACTIVE_BIAS);
      s.(count := v, cs := s.cs[i := if v >= 0 then Idle else CallWake(s.count)])
    case Writing =>
      if call.Downgrade? then
        var v := Wrap32(s.count - WAITING_BIAS);
        s.(count := v, cs := s.cs[i := if v >= 0 then Reading else WakeLock(Downgrader)])
      else
        var v := Wrap32(s.count - ACTIVE_WRITE_BIAS);
        s.(count := v, cs := s.cs[i := if v == 0 then Idle else CallWake(s.count)])
    case FailLock(write) =>
      if s.waitLock then s else s.(waitLock := true, cs := s.cs[i := FailEnqueue(write)])
    case FailEnqueue(write) =>
      s.(queue := s.queue + [Waiter(i, write)], cs := s.cs[i := FailAdjust(write)])
    case FailAdjust(write) =>
      var v := Wrap32(s.count + if write then -ACTIVE_BIAS else WAITING_BIAS - ACTIVE_BIAS);
      var o := Queued(write, false);
      s.(count := v, cs := s.cs[i := if v % 0x1_0000 == 0 then WakeTry(o) else WakeUnlock(o)])
    case Waiting(_) => s
    case WakeLock(o) =>
      if s.waitLock then s
      else
        s.(waitLock := true,
           cs := s.cs[i := if s.queue == [] then WakeUnlock(o) else if o.Downgrader? then WakeFront(o) else WakeTry(o)])
    case WakeTry(o) =>
      s.(count := Wrap32(s.count + ACTIVE_BIAS),
         cs := s.cs[i := if s.count % 0x1_0000 == 0 then WakeFront(o) else WakeUndo(o)])
    case WakeUndo(o) =>
      var v := Wrap32(s.count - ACTIVE_BIAS);
      s.(count := v, cs := s.cs[i := if v != 0 then WakeUnlock(o) else WakeTry(o)])
    case WakeFront(o) =>
      if s.queue == [] then s
      else if s.queue[0].write then
        if o.Downgrader? then s.(cs := s.cs[i := WakeUnlock(o)])
        else
          var (cs, o') := Wake(s, i, o);
          s.(queue := s.queue[1..], cs := cs[i := WakeUnlock(o')])
      else
        var woken := LeadingReaders(s.queue);
        s.(count := Wrap32(s.count + GrantBias(woken, o.Downgrader?)),
           cs := s.cs[i := WakeGrant(o, woken)])
    case WakeGrant(o, loop) =>
      if s.queue == [] || loop == 0 then s
      else
        var (cs, o') := Wake(s, i, o);
        s.(queue := s.queue[1..], cs := cs[i := if loop == 1 then WakeUnlock(o') else WakeGrant(o', loop - 1)])
    case WakeUnlock(o) => s.(waitLock := false, cs := s.cs[i := Resume(o)])
  }

  /** addl then jle: give up at a negative count, else try to exchange. */
  function TryReadBranch(seen: int): Pc
  {
    if seen + ACTIVE_BIAS <= 0 then Idle else TryReadCas(seen)
  }

  function Init(n: nat): (s: State)
    ensures |s.cs| == n
  {
    State(0, [], false, seq(n, _ => Idle))
  }

  function Run(n: nat, sched: seq<Event>): (s: State)
    ensures |s.cs| == n
  {
    if sched == [] then Init(n)
    else
      var s := Run(n, sched[..|sched| - 1]);
      var e := sched[|sched| - 1];
      if e.ctx < n then Exec(s, e.ctx, e.call) else s
  }
}
