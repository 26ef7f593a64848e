/** What every access of the read-write semaphore keeps: the meaning of the count, the queue and the
    exclusion of writers, over every interleaving. */
module RwSemInvariant {
  import opened Words
  import opened RwSem
  import opened Tallies

  // ---- what a context contributes ----

  function OfOrigin(o: Origin): Tally
  {
    match o
    case Releaser => NOTHING
    case Downgrader => READER
    case Queued(write, granted) => if !granted then SLEEPER else if write then WRITER else READER
  }

  /** Share of the active half, of the waiting half, and duties, on top of the origin's own. */
  function OfWaker(o: Origin, active: int, waking: int, locked: int, pending: int): Tally
  {
    var t := OfOrigin(o);
    Tally(t.active + active, t.waiting - waking, t.readers, t.writers, t.settled, 0, locked, waking, pending)
  }

  function OfFailed(write: bool, adding: int, locked: int): Tally
  {
    Tally(1, if write then 1 else 0, 0, 0, 0, adding, locked, 0, 0)
  }

  function Of(pc: Pc): Tally
  {
    match pc
    case Reading => READER
    case Writing => WRITER
    case FailLock(w) => OfFailed(w, 0, 0)
    case FailEnqueue(w) => OfFailed(w, 0, 1)
    case FailAdjust(w) => OfFailed(w, 1, 1)
    case Waiting(_) => SLEEPER
    case WakeLock(o) => OfWaker(o, 0, 0, 0, if o.Releaser? then 1 else 0)
    case WakeTry(o) => OfWaker(o, 0, 0, 1, 1)
    case WakeUndo(o) => OfWaker(o, 1, 0, 1, 0)
    case WakeFront(o) => OfWaker(o, if o.Downgrader? then 0 else 1, 0, 1, 0)
    case WakeGrant(o, loop) => OfWaker(o, loop, loop, 1, 0)
    case WakeUnlock(o) => OfWaker(o, 0, 0, 1, 0)
    case _ => NOTHING
  }

  function Sum(cs: seq<Pc>): Tally { SumOf(Of, cs) }

  lemma WakerPlausible(o: Origin, active: int, waking: nat, locked: int, pending: nat)
    requires waking <= active <= waking + locked && 0 <= locked && (locked == 0 ==> waking == 0)
    ensures Plausible(OfWaker(o, active, waking, locked, pending), 1)
  {
    match o
    case Releaser =>
    case Downgrader =>
    case Queued(write, granted) =>
  }

  lemma OfPlausible(pc: Pc)
    ensures Plausible(Of(pc), 1)
  {
    match pc
    case WakeLock(o) => WakerPlausible(o, 0, 0, 0, if o.Releaser? then 1 else 0);
    case WakeTry(o) => WakerPlausible(o, 0, 0, 1, 1);
    case WakeUndo(o) => WakerPlausible(o, 1, 0, 1, 0);
    case WakeFront(o) => WakerPlausible(o, if o.Downgrader? then 0 else 1, 0, 1, 0);
    case WakeGrant(o, loop) => WakerPlausible(o, loop, loop, 1, 0);
    case WakeUnlock(o) => WakerPlausible(o, 0, 0, 1, 0);
    case _ =>
  }

  lemma SumPlausible(cs: seq<Pc>)
    ensures Plausible(Sum(cs), |cs|)
  {
    forall k | 0 <= k < |cs| ensures Plausible(Of(cs[k]), 1) {
      OfPlausible(cs[k]);
    }
    SumOfPlausible(Of, cs);
  }

  lemma OfHolders(write: bool)
    ensures Of(Waiting(write)) == SLEEPER && Of(Writing) == WRITER && Of(Reading) == READER
  {
  }

  lemma Moved(cs: seq<Pc>, i: nat, pc: Pc)
    requires i < |cs|
    ensures Sum(cs[i := pc]) == Plus(Minus(Sum(cs), Of(cs[i])), Of(pc))
  {
    SumOfUpdate(Of, cs, i, pc);
  }

  /** What the other contexts contribute is plausible too. */
  lemma OthersPlausible(cs: seq<Pc>, i: nat)
    requires i < |cs|
    ensures Plausible(Minus(Sum(cs), Of(cs[i])), |cs|)
  {
    hide SumOf, Wrap32, Value;
    Moved(cs, i, Idle);
    SumPlausible(cs[i := Idle]);
  }

  // ---- the inductive invariant ----

  /** Context pc's queue entry, if it has one, is the one for that kind of lock. */
  predicate InQueue(pc: Pc, write: bool)
  {
    || pc == Waiting(write) || pc == FailAdjust(write)
    || ((pc.WakeTry? || pc.WakeUndo? || pc.WakeFront? || pc.WakeGrant? || pc.WakeUnlock?)
        && pc.origin == Queued(write, false))
  }

  ghost predicate QueueMatches(q: seq<Waiter>, cs: seq<Pc>)
  {
    && (forall k :: 0 <= k < |q| ==> q[k].ctx < |cs| && InQueue(cs[q[k].ctx], q[k].write))
    && (forall k, l :: 0 <= k < l < |q| ==> q[k].ctx != q[l].ctx)
  }

  /** What a context relies on at its position. */
  ghost predicate Local(pc: Pc, q: seq<Waiter>, t: Tally)
  {
    match pc
    case TryReadCas(seen) => seen >= 0
    case WakeLock(o) => !o.Queued?
    case WakeTry(o) => q != [] && !o.Downgrader? && (o.Queued? ==> !o.granted)
    case WakeUndo(o) => q != [] && !o.Downgrader? && (o.Queued? ==> !o.granted)
    case WakeFront(o) =>
      && q != [] && (o.Queued? ==> !o.granted)
      && (!o.Downgrader? ==> t.readers == 0 && t.writers == 0)
    case WakeGrant(o, loop) =>
      && 0 < loop && Lead(q, loop) && t.writers == 0
      && (o.Queued? && o.granted ==> !o.write)
    case _ => true
  }

  /** The count the contributions add up to, before it is cut to a word. */
  function Value(t: Tally): int { t.active - 0x1_0000 * t.waiting }

  /** The part of the invariant that speaks of sums only. */
  ghost predicate SumsFit(t: Tally, count: int, waitLock: bool, queued: nat)
  {
    && count == Wrap32(Value(t))
    && t.locked == (if waitLock then 1 else 0)
    && queued == t.settled + t.adding && t.waking <= t.settled
    && t.writers <= 1 && (t.writers == 1 ==> t.readers == 0)
  }

  ghost predicate Inv(s: State)
  {
    && SumsFit(Sum(s.cs), s.count, s.waitLock, |s.queue|)
    && QueueMatches(s.queue, s.cs)
    && (forall i :: 0 <= i < |s.cs| ==> Local(s.cs[i], s.queue, Sum(s.cs)))
  }

  /** Only contexts that exist are queued. */
  ghost predicate Closed(s: State) { forall k :: 0 <= k < |s.queue| ==> s.queue[k].ctx < |s.cs| }

  lemma InvIsClosed(s: State)
    requires Inv(s)
    ensures Closed(s)
  {
    hide SumsFit, Local;
  }

  /** The contributions fit the halves of the count: both stay below 2^16, and while the waiting half is too large
      to leave the sign bit alone, nobody is left without a share in it to look at the sign. */
  ghost predicate Fits(cs: seq<Pc>)
  {
    var t := Sum(cs);
    && t.active <= 0xffff && t.waiting <= 0xffff
    && (t.waiting > 0x8000 ==> forall i :: 0 <= i < |cs| ==> Of(cs[i]).waiting != 0)
  }

  /** The low half of the count is the active contributions, and zero means nothing at all. */
  lemma CountDecodes(s: State)
    requires Inv(s) && Fits(s.cs)
    ensures var t := Sum(s.cs);
            && 0 <= t.active <= 0xffff && 0 <= t.waiting <= 0xffff
            && s.count % 0x1_0000 == t.active
            && (s.count == 0 <==> t.active == 0 && t.waiting == 0)
  {
    hide SumOf, Wrap32;
    SumPlausible(s.cs);
    Halves(Sum(s.cs).active, Sum(s.cs).waiting);
  }

  /** To a context that has no share in the waiting half the count is exact and its sign tells whether anybody
      else has one. */
  lemma SignDecodes(s: State, i: nat)
    requires Inv(s) && Fits(s.cs) && i < |s.cs| && Of(s.cs[i]).waiting == 0
    ensures var t := Sum(s.cs); t.waiting <= 0x8000 && s.count == Value(t) && (s.count < 0 <==> t.waiting > 0)
  {
    hide SumOf, Wrap32, Of;
    CountDecodes(s);
  }

  lemma Halves(a: nat, m: nat)
    requires a < 0x1_0000 && m < 0x1_0000
    ensures Wrap32(a - 0x1_0000 * m) % 0x1_0000 == a
    ensures Wrap32(a - 0x1_0000 * m) == 0 <==> a == 0 && m == 0
  {
  }

  /** The holder of wait_lock is alone. */
  lemma OwnerAlone(s: State, i: nat, j: nat)
    requires Inv(s) && i < |s.cs| && j < |s.cs| && i != j && Of(s.cs[i]).locked == 1
    ensures Of(s.cs[j]).locked == 0
  {
    hide SumOf, Wrap32, Value;
    Moved(s.cs, i, Idle);
    OthersPlausible(s.cs[i := Idle], j);
  }

  lemma QueueKept(q: seq<Waiter>, cs: seq<Pc>, i: nat, pc: Pc)
    requires QueueMatches(q, cs) && i < |cs|
    requires forall w :: InQueue(cs[i], w) ==> InQueue(pc, w)
    ensures QueueMatches(q, cs[i := pc])
  {
  }

  /** The sums after context i moves to pc. */
  function After(cs: seq<Pc>, i: nat, pc: Pc): Tally
    requires i < |cs|
  {
    Plus(Minus(Sum(cs), Of(cs[i])), Of(pc))
  }

  /** Puts the invariant together after a step that leaves the queue alone. */
  lemma Reassemble(s: State, s': State, i: nat, pc: Pc)
    requires Inv(s) && i < |s.cs|
    requires s'.queue == s.queue && s'.cs == s.cs[i := pc]
    requires SumsFit(After(s.cs, i, pc), s'.count, s'.waitLock, |s.queue|)
    requires forall w :: InQueue(s.cs[i], w) ==> InQueue(pc, w)
    requires Local(pc, s.queue, After(s.cs, i, pc))
    requires forall j :: 0 <= j < |s.cs| && j != i ==> Local(s.cs[j], s.queue, After(s.cs, i, pc))
    ensures Inv(s')
  {
    hide SumOf, Wrap32;
    Moved(s.cs, i, pc);
    QueueKept(s.queue, s.cs, i, pc);
  }

  /** No context loses its footing when holders only go away. */
  lemma FewerHolders(s: State, t: Tally)
    requires Inv(s) && t.readers <= Sum(s.cs).readers && 0 <= t.readers
    requires t.writers <= Sum(s.cs).writers && 0 <= t.writers
    ensures forall j :: 0 <= j < |s.cs| ==> Local(s.cs[j], s.queue, t)
  {
  }

  /** While a waker has the front of the queue in hand, the waiting half is not empty. */
  lemma FrontHasWaiters(s: State, j: nat)
    requires Inv(s) && j < |s.cs| && (s.cs[j].WakeTry? || s.cs[j].WakeUndo? || s.cs[j].WakeFront?)
    ensures Sum(s.cs).waiting >= |s.queue| > 0
  {
    hide SumOf, Wrap32, Value;
    OthersPlausible(s.cs, j);
    SumPlausible(s.cs);
    assert Local(s.cs[j], s.queue, Sum(s.cs));
  }

  lemma GrantIsActive(s: State, j: nat)
    requires Inv(s) && j < |s.cs| && s.cs[j].WakeGrant?
    ensures Sum(s.cs).active >= s.cs[j].loop > 0
  {
    hide SumOf, Wrap32, Value;
    OthersPlausible(s.cs, j);
    assert Local(s.cs[j], s.queue, Sum(s.cs));
  }

  lemma ReaderMayEnter(s: State, t: Tally)
    requires Inv(s) && Sum(s.cs).waiting == 0 && t.writers == Sum(s.cs).writers
    ensures forall j :: 0 <= j < |s.cs| ==> Local(s.cs[j], s.queue, t)
  {
    hide SumOf, Wrap32, Value;
    forall j | 0 <= j < |s.cs| ensures Local(s.cs[j], s.queue, t) {
      assert Local(s.cs[j], s.queue, Sum(s.cs));
      if s.cs[j].WakeFront? {
        FrontHasWaiters(s, j);
      }
    }
  }

  lemma WriterMayEnter(s: State, t: Tally)
    requires Inv(s) && Sum(s.cs).waiting == 0 && Sum(s.cs).active == 0
    ensures forall j :: 0 <= j < |s.cs| ==> Local(s.cs[j], s.queue, t)
  {
    hide SumOf, Wrap32, Value;
    forall j | 0 <= j < |s.cs| ensures Local(s.cs[j], s.queue, t) {
      assert Local(s.cs[j], s.queue, Sum(s.cs));
      if s.cs[j].WakeFront? {
        FrontHasWaiters(s, j);
      } else if s.cs[j].WakeGrant? {
        GrantIsActive(s, j);
      }
    }
  }

  /** The sums after a waker changes its duties but not its origin. */
  lemma WakerShift(t: Tally, o: Origin, a: int, k: int, l: int, p: int, a': int, k': int, l': int, p': int)
    ensures Plus(Minus(t, OfWaker(o, a, k, l, p)), OfWaker(o, a', k', l', p'))
         == Tally(t.active + a' - a, t.waiting + k - k', t.readers, t.writers, t.settled, t.adding,
                  t.locked + l' - l, t.waking + k' - k, t.pending + p' - p)
  {
  }

  // ---- every access keeps the invariant ----

  /** Room for the next access of context i: the contributions fit, and with one reader more they still do. */
  ghost predicate Room(s: State, i: nat)
    requires i < |s.cs|
  {
    Fits(s.cs) && (s.cs[i].ReadInc? ==> Sum(s.cs).active < 0xffff)
  }

  lemma DownReadKeepsInv(s: State, i: nat, call: Call)
    requires Inv(s) && i < |s.cs| && Room(s, i) && (s.cs[i].ReadInc? || s.cs[i].TryReadCas?)
    ensures Inv(Exec(s, i, call))
  {
    hide SumOf, Wrap32, Fits;
    var s' := Exec(s, i, call);
    var t := After(s.cs, i, s'.cs[i]);
    CountDecodes(s);
    SignDecodes(s, i);
    WrapShift(Value(Sum(s.cs)), 1);
    SumPlausible(s.cs);
    assert Local(s.cs[i], s.queue, Sum(s.cs));
    if s'.cs[i].Reading? {
      ReaderMayEnter(s, t);
    } else {
      FewerHolders(s, t);
    }
    Reassemble(s, s', i, s'.cs[i]);
  }

  lemma DownWriteKeepsInv(s: State, i: nat, call: Call)
    requires Inv(s) && i < |s.cs| && Fits(s.cs) && (s.cs[i].WriteXadd? || s.cs[i].TryWriteCas?)
    ensures Inv(Exec(s, i, call))
  {
    hide SumOf, Wrap32, Fits, SumsFit, Value;
    var s' := Exec(s, i, call);
    var t := After(s.cs, i, s'.cs[i]);
    CountDecodes(s);
    SumPlausible(s.cs);
    DownWriteSums(s, i, call);
    if s'.cs[i].Writing? {
      WriterMayEnter(s, t);
    } else {
      FewerHolders(s, t);
    }
    Reassemble(s, s', i, s'.cs[i]);
  }

  /** One share of each half is added, or nothing is; a writer that gets in is alone. */
  lemma DownWriteSums(s: State, i: nat, call: Call)
    requires Inv(s) && i < |s.cs| && Fits(s.cs) && (s.cs[i].WriteXadd? || s.cs[i].TryWriteCas?)
    ensures var s' := Exec(s, i, call);
            SumsFit(After(s.cs, i, s'.cs[i]), s'.count, s'.waitLock, |s'.queue|)
  {
    hide SumOf, Wrap32, Fits;
    CountDecodes(s);
    SumPlausible(s.cs);
    WrapShift(Value(Sum(s.cs)), ACTIVE_WRITE_BIAS);
  }

  lemma UpKeepsInv(s: State, i: nat, call: Call)
    requires Inv(s) && i < |s.cs| && (s.cs[i].Reading? || s.cs[i].Writing?) && !call.Downgrade?
    ensures Inv(Exec(s, i, call))
  {
    hide SumOf, Wrap32;
    var s' := Exec(s, i, call);
    WrapShift(Value(Sum(s.cs)), if s.cs[i].Reading? then -ACTIVE_BIAS else -ACTIVE_WRITE_BIAS);
    OthersPlausible(s.cs, i);
    FewerHolders(s, After(s.cs, i, s'.cs[i]));
    Reassemble(s, s', i, s'.cs[i]);
  }

  lemma DowngradeKeepsInv(s: State, i: nat)
    requires Inv(s) && i < |s.cs| && s.cs[i].Writing?
    ensures Inv(Exec(s, i, Downgrade))
  {
    hide SumOf, Wrap32;
    var s' := Exec(s, i, Downgrade);
    var t := After(s.cs, i, s'.cs[i]);
    WrapShift(Value(Sum(s.cs)), -WAITING_BIAS);
    OthersPlausible(s.cs, i);
    forall j | 0 <= j < |s.cs| && j != i ensures Local(s.cs[j], s.queue, t) {
      assert Local(s.cs[j], s.queue, Sum(s.cs));
    }
    Reassemble(s, s', i, s'.cs[i]);
  }

  lemma AdjustKeepsInv(s: State, i: nat, call: Call)
    requires Inv(s) && i < |s.cs| && s.cs[i].FailAdjust?
    ensures Inv(Exec(s, i, call))
  {
    hide SumOf, Wrap32, SumsFit, Value;
    var s' := Exec(s, i, call);
    AdjustSums(s, i, s'.cs[i]);
    AdderIsQueued(s, i);
    FewerHolders(s, After(s.cs, i, s'.cs[i]));
    Reassemble(s, s', i, s'.cs[i]);
  }

  lemma AdderIsQueued(s: State, i: nat)
    requires Inv(s) && i < |s.cs| && s.cs[i].FailAdjust?
    ensures s.queue != []
  {
    hide SumOf, Wrap32, Value;
    OthersPlausible(s.cs, i);
  }

  /** An active share becomes a waiting one; a writer's waiting share is there already. */
  lemma AdjustSums(s: State, i: nat, pc: Pc)
    requires Inv(s) && i < |s.cs| && s.cs[i].FailAdjust?
    requires pc == WakeTry(Queued(s.cs[i].write, false)) || pc == WakeUnlock(Queued(s.cs[i].write, false))
    ensures var bias := if s.cs[i].write then -ACTIVE_BIAS else WAITING_BIAS - ACTIVE_BIAS;
            SumsFit(After(s.cs, i, pc), Wrap32(s.count + bias), s.waitLock, |s.queue|)
    ensures var t := After(s.cs, i, pc); t.readers == Sum(s.cs).readers >= 0 && t.writers == Sum(s.cs).writers >= 0
  {
    hide SumOf, Wrap32, OfFailed, OfWaker, Plus, Minus;
    var t, write := Sum(s.cs), s.cs[i].write;
    SumPlausible(s.cs);
    AdjustShift(t, write, if pc.WakeTry? then 1 else 0);
    WrapShift(Value(t), if write then -ACTIVE_BIAS else WAITING_BIAS - ACTIVE_BIAS);
  }

  lemma AdjustShift(t: Tally, write: bool, pending: int)
    ensures Plus(Minus(t, OfFailed(write, 1, 1)), OfWaker(Queued(write, false), 0, 0, 1, pending))
         == Tally(t.active - 1, t.waiting + if write then 0 else 1, t.readers, t.writers, t.settled + 1,
                  t.adding - 1, t.locked, t.waking, t.pending + pending)
  {
  }

  lemma TryKeepsInv(s: State, i: nat, call: Call)
    requires Inv(s) && i < |s.cs| && Fits(s.cs) && s.cs[i].WakeTry?
    ensures Inv(Exec(s, i, call))
  {
    hide SumOf, Wrap32, SumsFit, Value, Fits;
    var s' := Exec(s, i, call);
    assert Local(s.cs[i], s.queue, Sum(s.cs));
    CountDecodes(s);
    SumPlausible(s.cs);
    TrySums(s, i, s'.cs[i]);
    FewerHolders(s, After(s.cs, i, s'.cs[i]));
    Reassemble(s, s', i, s'.cs[i]);
  }

  /** The waker takes one active share, whatever it finds. */
  lemma TrySums(s: State, i: nat, pc: Pc)
    requires Inv(s) && i < |s.cs| && s.cs[i].WakeTry? && !s.cs[i].origin.Downgrader?
    requires pc == WakeFront(s.cs[i].origin) || pc == WakeUndo(s.cs[i].origin)
    ensures SumsFit(After(s.cs, i, pc), Wrap32(s.count + ACTIVE_BIAS), s.waitLock, |s.queue|)
    ensures var t := After(s.cs, i, pc); t.readers == Sum(s.cs).readers && t.writers == Sum(s.cs).writers
  {
    hide SumOf, Wrap32, OfWaker, Plus, Minus;
    WakerShift(Sum(s.cs), s.cs[i].origin, 0, 0, 1, 1, 1, 0, 1, 0);
    WrapShift(Value(Sum(s.cs)), ACTIVE_BIAS);
  }

  /** The retry after undoing an increment is dead code: the count cannot be zero with a waiter queued. */
  lemma UndoNeverRetries(s: State, i: nat, call: Call)
    requires Inv(s) && i < |s.cs| && Fits(s.cs) && s.cs[i].WakeUndo?
    ensures Exec(s, i, call) == s.(count := Wrap32(s.count - ACTIVE_BIAS), cs := s.cs[i := WakeUnlock(s.cs[i].origin)])
  {
    hide SumOf, Wrap32, Of;
    FrontHasWaiters(s, i);
    CountDecodes(s);
    WrapShift(Value(Sum(s.cs)), -ACTIVE_BIAS);
    WholeWord(Value(Sum(s.cs)) - ACTIVE_BIAS);
  }

  lemma UndoKeepsInv(s: State, i: nat, call: Call)
    requires Inv(s) && i < |s.cs| && Fits(s.cs) && s.cs[i].WakeUndo?
    ensures Inv(Exec(s, i, call))
  {
    hide SumOf, Wrap32, Exec;
    UndoNeverRetries(s, i, call);
    WakerShift(Sum(s.cs), s.cs[i].origin, 1, 0, 1, 0, 0, 0, 1, 0);
    WrapShift(Value(Sum(s.cs)), -ACTIVE_BIAS);
    SumPlausible(s.cs);
    FewerHolders(s, After(s.cs, i, WakeUnlock(s.cs[i].origin)));
    Reassemble(s, Exec(s, i, call), i, WakeUnlock(s.cs[i].origin));
  }

  lemma EnqueueKeepsInv(s: State, i: nat, call: Call)
    requires Inv(s) && i < |s.cs| && s.cs[i].FailEnqueue?
    ensures Inv(Exec(s, i, call))
  {
    hide SumOf, Wrap32;
    var s' := Exec(s, i, call);
    Moved(s.cs, i, s'.cs[i]);
    OthersPlausible(s.cs, i);
    forall k | 0 <= k < |s.queue| ensures s.queue[k].ctx != i {
      assert InQueue(s.cs[s.queue[k].ctx], s.queue[k].write);
    }
    assert QueueMatches(s'.queue, s'.cs);
    forall j | 0 <= j < |s.cs| ensures Local(s'.cs[j], s'.queue, Sum(s'.cs)) {
      if j != i {
        OwnerAlone(s, i, j);
        assert Local(s.cs[j], s.queue, Sum(s.cs));
      }
    }
  }

  lemma BeginKeepsInv(s: State, i: nat, call: Call)
    requires Inv(s) && i < |s.cs|
    requires s.cs[i].Idle? || s.cs[i].TryReadLoad? || s.cs[i].FailLock?
    ensures Inv(Exec(s, i, call))
  {
    hide SumOf, Wrap32;
    var s' := Exec(s, i, call);
    SumPlausible(s.cs);
    FewerHolders(s, After(s.cs, i, s'.cs[i]));
    if s' != s {
      Reassemble(s, s', i, s'.cs[i]);
    }
  }

  lemma WakeLockKeepsInv(s: State, i: nat, call: Call)
    requires Inv(s) && i < |s.cs| && s.cs[i].WakeLock?
    ensures Inv(Exec(s, i, call))
  {
    hide SumOf, Wrap32;
    var s' := Exec(s, i, call);
    SumPlausible(s.cs);
    assert Local(s.cs[i], s.queue, Sum(s.cs));
    FewerHolders(s, After(s.cs, i, s'.cs[i]));
    if s' != s {
      Reassemble(s, s', i, s'.cs[i]);
    }
  }

  lemma WakeUnlockKeepsInv(s: State, i: nat, call: Call)
    requires Inv(s) && i < |s.cs| && s.cs[i].WakeUnlock?
    ensures Inv(Exec(s, i, call))
  {
    hide SumOf, Wrap32;
    var s' := Exec(s, i, call);
    OthersPlausible(s.cs, i);
    SumPlausible(s.cs);
    FewerHolders(s, After(s.cs, i, s'.cs[i]));
    Reassemble(s, s', i, s'.cs[i]);
  }

  // ---- grants from the queue ----

  /** Context i, contributing `a`, wakes the entry in front of the queue and then contributes `b`. */
  lemma WakeMoves(s: State, i: nat, o: Origin, pc: Pc, a: Tally, b: Tally)
    requires i < |s.cs| && s.queue != [] && s.queue[0].ctx < |s.cs|
    requires s.queue[0].ctx != i ==> s.cs[s.queue[0].ctx] == Waiting(s.queue[0].write)
    requires Of(s.cs[i]) == a && Of(pc) == b
    ensures Sum(Wake(s, i, o).0[i := pc])
         == if s.queue[0].ctx == i then Plus(Minus(Sum(s.cs), a), b)
            else Plus(Plus(Minus(Sum(s.cs), a), b), Minus(if s.queue[0].write then WRITER else READER, SLEEPER))
  {
    hide SumOf, Of;
    OfHolders(s.queue[0].write);
    var c := s.queue[0].ctx;
    if c == i {
      assert Wake(s, i, o).0[i := pc] == s.cs[i := pc];
      SumOfUpdate(Of, s.cs, i, pc);
    } else if s.queue[0].write {
      assert Wake(s, i, o).0[i := pc] == s.cs[c := Writing][i := pc];
      SumOfTwo(Of, s.cs, c, Writing, i, pc);
    } else {
      assert Wake(s, i, o).0[i := pc] == s.cs[c := Reading][i := pc];
      SumOfTwo(Of, s.cs, c, Reading, i, pc);
    }
  }

  lemma PopKeepsQueue(s: State, i: nat, o: Origin, pc: Pc)
    requires QueueMatches(s.queue, s.cs) && i < |s.cs| && s.queue != []
    requires forall w :: s.queue[0].ctx != i && InQueue(s.cs[i], w) ==> InQueue(pc, w)
    ensures QueueMatches(s.queue[1..], Wake(s, i, o).0[i := pc])
  {
  }

  /** Contexts outside wait_lock rely on nothing a waker changes. */
  lemma OutsidersSafe(s: State, i: nat, j: nat, q: seq<Waiter>, t: Tally)
    requires Inv(s) && i < |s.cs| && j < |s.cs| && i != j && Of(s.cs[i]).locked == 1
    ensures Local(s.cs[j], q, t)
  {
    hide SumOf, Wrap32, Value;
    OwnerAlone(s, i, j);
    assert Local(s.cs[j], s.queue, Sum(s.cs));
  }

  /** The front of the queue is a sleeper, or the waker itself. */
  lemma FrontSleeps(s: State, i: nat)
    requires Inv(s) && i < |s.cs| && s.queue != [] && (s.cs[i].WakeFront? || s.cs[i].WakeGrant?)
    ensures var w := s.queue[0];
            && w.ctx < |s.cs| && InQueue(s.cs[w.ctx], w.write)
            && (w.ctx == i ==> s.cs[i].origin == Queued(w.write, false))
            && (w.ctx != i ==> s.cs[w.ctx] == Waiting(w.write))
  {
    hide SumOf, Wrap32, Value, SumsFit;
    var w := s.queue[0];
    if w.ctx != i {
      OwnerAlone(s, i, w.ctx);
    }
  }

  /** One wake keeps the invariant if the sums fit and the waker's own next position is sound. */
  lemma WakeKeepsInv(s: State, s': State, i: nat, pc: Pc)
    requires Inv(s) && i < |s.cs| && s.queue != [] && (s.cs[i].WakeFront? || s.cs[i].WakeGrant?)
    requires s' == s.(queue := s.queue[1..], cs := Wake(s, i, s.cs[i].origin).0[i := pc])
    requires SumsFit(Sum(s'.cs), s.count, s.waitLock, |s.queue| - 1)
    requires forall w :: s.queue[0].ctx != i && InQueue(s.cs[i], w) ==> InQueue(pc, w)
    requires Local(pc, s'.queue, Sum(s'.cs))
    ensures Inv(s')
  {
    hide SumOf, Wrap32, Value;
    var o, w := s.cs[i].origin, s.queue[0];
    PopKeepsQueue(s, i, o, pc);
    FrontSleeps(s, i);
    forall j | 0 <= j < |s.cs| ensures Local(s'.cs[j], s'.queue, Sum(s'.cs)) {
      if j != i && j != w.ctx {
        OutsidersSafe(s, i, j, s'.queue, Sum(s'.cs));
      }
    }
  }

  /** One entry changes from sleeping to holding; the waker keeps its origin, or becomes the holder. */
  function Handover(t: Tally, write: bool, active: int, waking: int): Tally
  {
    var w := if write then 1 else 0;
    Tally(t.active + active + 1, t.waiting - waking - (1 - w), t.readers + 1 - w, t.writers + w, t.settled - 1,
          t.adding, t.locked, t.waking + waking, t.pending)
  }

  lemma HandoverToSelf(t: Tally, write: bool, a: int, k: int, a': int, k': int)
    ensures Plus(Minus(t, OfWaker(Queued(write, false), a, k, 1, 0)), OfWaker(Queued(write, true), a', k', 1, 0))
         == Handover(t, write, a' - a, k' - k)
  {
  }

  lemma HandoverToOther(t: Tally, o: Origin, write: bool, a: int, k: int, a': int, k': int)
    ensures Plus(Plus(Minus(t, OfWaker(o, a, k, 1, 0)), OfWaker(o, a', k', 1, 0)),
                 Minus(if write then WRITER else READER, SLEEPER))
         == Handover(t, write, a' - a, k' - k)
  {
  }

  /** The sums after context i, a waker, wakes the front of the queue. */
  lemma WakeSums(s: State, i: nat, pc: Pc, a: int, k: int, a': int, k': int)
    requires Inv(s) && i < |s.cs| && s.queue != [] && (s.cs[i].WakeFront? || s.cs[i].WakeGrant?)
    requires Of(s.cs[i]) == OfWaker(s.cs[i].origin, a, k, 1, 0)
    requires Of(pc) == OfWaker(Wake(s, i, s.cs[i].origin).1, a', k', 1, 0)
    ensures Sum(Wake(s, i, s.cs[i].origin).0[i := pc]) == Handover(Sum(s.cs), s.queue[0].write, a' - a, k' - k)
  {
    hide Of, SumOf, Inv, OfWaker, Plus, Minus, Handover;
    var o := s.cs[i].origin;
    FrontSleeps(s, i);
    WakeMoves(s, i, o, pc, OfWaker(o, a, k, 1, 0), OfWaker(Wake(s, i, o).1, a', k', 1, 0));
    HandoverToSelf(Sum(s.cs), s.queue[0].write, a, k, a', k');
    HandoverToOther(Sum(s.cs), o, s.queue[0].write, a, k, a', k');
  }

  /** Waking the writer in front turns the waker's active share into the writer's. */
  lemma FrontWriterSums(s: State, i: nat, pc: Pc)
    requires Inv(s) && i < |s.cs| && s.cs[i].WakeFront? && s.queue != [] && s.queue[0].write
    requires !s.cs[i].origin.Downgrader? && pc == WakeUnlock(Wake(s, i, s.cs[i].origin).1)
    ensures SumsFit(Sum(Wake(s, i, s.cs[i].origin).0[i := pc]), s.count, s.waitLock, |s.queue| - 1)
  {
    hide SumOf, Wrap32;
    assert Local(s.cs[i], s.queue, Sum(s.cs));
    WakeSums(s, i, pc, 1, 0, 0, 0);
    OthersPlausible(s.cs, i);
  }

  lemma FrontWriterKeepsInv(s: State, i: nat, call: Call)
    requires Inv(s) && i < |s.cs| && s.cs[i].WakeFront? && s.queue != [] && s.queue[0].write
    requires !s.cs[i].origin.Downgrader?
    ensures Inv(Exec(s, i, call))
  {
    hide SumOf, Wrap32, Value;
    var pc := WakeUnlock(Wake(s, i, s.cs[i].origin).1);
    FrontWriterSums(s, i, pc);
    WakeKeepsInv(s, Exec(s, i, call), i, pc);
  }

  /** Counting in the readers in front moves their shares from the waiting to the active half. */
  lemma FrontReadersSums(s: State, i: nat, woken: nat)
    requires Inv(s) && i < |s.cs| && s.cs[i].WakeFront? && woken <= |s.queue|
    requires s.cs[i].origin.Downgrader? || Sum(s.cs).writers == 0
    ensures SumsFit(After(s.cs, i, WakeGrant(s.cs[i].origin, woken)),
                    Wrap32(s.count + GrantBias(woken, s.cs[i].origin.Downgrader?)), s.waitLock, |s.queue|)
    ensures After(s.cs, i, WakeGrant(s.cs[i].origin, woken)).writers == 0
  {
    hide SumOf, Wrap32, OfWaker;
    var t, o := Sum(s.cs), s.cs[i].origin;
    var d := if o.Downgrader? then 0 else 1;
    WakerShift(t, o, d, 0, 1, 0, woken, woken, 1, 0);
    WrapShift(Value(t), GrantBias(woken, o.Downgrader?));
    WakerAlone(s, i);
  }

  /** A waker that has not begun to grant is the only one with wait_lock: nobody is being added or granted to. */
  lemma WakerAlone(s: State, i: nat)
    requires Inv(s) && i < |s.cs| && s.cs[i].WakeFront?
    ensures Sum(s.cs).adding == 0 && Sum(s.cs).waking == 0
    ensures s.cs[i].origin.Downgrader? ==> Sum(s.cs).writers == 0
  {
    hide SumOf, Wrap32, Value;
    OthersPlausible(s.cs, i);
  }

  lemma FrontReadersMove(s: State, i: nat, call: Call)
    requires i < |s.cs| && s.cs[i].WakeFront? && s.queue != [] && !s.queue[0].write
    ensures var o, woken := s.cs[i].origin, LeadingReaders(s.queue);
            && 0 < woken <= |s.queue|
            && Exec(s, i, call) == s.(count := Wrap32(s.count + GrantBias(woken, o.Downgrader?)),
                                      cs := s.cs[i := WakeGrant(o, woken)])
  {
  }

  lemma FrontReadersKeepsInv(s: State, i: nat, call: Call)
    requires Inv(s) && i < |s.cs| && s.cs[i].WakeFront? && s.queue != [] && !s.queue[0].write
    ensures Inv(Exec(s, i, call))
  {
    hide SumOf, Wrap32, SumsFit, GrantBias, Exec, After, Value;
    var s' := Exec(s, i, call);
    FrontReadersMove(s, i, call);
    var t := After(s.cs, i, s'.cs[i]);
    assert Local(s.cs[i], s.queue, Sum(s.cs));
    WakerAlone(s, i);
    FrontReadersSums(s, i, LeadingReaders(s.queue));
    forall j | 0 <= j < |s.cs| && j != i ensures Local(s.cs[j], s.queue, t) {
      OutsidersSafe(s, i, j, s.queue, t);
    }
    Reassemble(s, s', i, s'.cs[i]);
  }

  /** Waking one more reader hands over one share the waker already moved to the active half. */
  lemma GrantSums(s: State, i: nat, pc: Pc)
    requires Inv(s) && i < |s.cs| && s.cs[i].WakeGrant? && Local(s.cs[i], s.queue, Sum(s.cs))
    requires pc == AfterGrant(s, i)
    ensures SumsFit(Sum(Wake(s, i, s.cs[i].origin).0[i := pc]), s.count, s.waitLock, |s.queue| - 1)
    ensures Sum(Wake(s, i, s.cs[i].origin).0[i := pc]).writers == 0
  {
    hide SumOf, Wrap32;
    var loop := s.cs[i].loop;
    WakeSums(s, i, pc, loop, loop, loop - 1, loop - 1);
    OthersPlausible(s.cs, i);
  }

  function AfterGrant(s: State, i: nat): Pc
    requires i < |s.cs| && s.cs[i].WakeGrant? && s.queue != []
  {
    var o' := Wake(s, i, s.cs[i].origin).1;
    if s.cs[i].loop <= 1 then WakeUnlock(o') else WakeGrant(o', s.cs[i].loop - 1)
  }

  lemma GrantKeepsInv(s: State, i: nat, call: Call)
    requires Inv(s) && i < |s.cs| && s.cs[i].WakeGrant?
    ensures Inv(Exec(s, i, call))
  {
    hide SumOf, Wrap32, Value;
    assert Local(s.cs[i], s.queue, Sum(s.cs));
    var pc := AfterGrant(s, i);
    GrantSums(s, i, pc);
    FrontSleeps(s, i);
    WakeKeepsInv(s, Exec(s, i, call), i, pc);
  }

  lemma StepKeepsInv(s: State, i: nat, call: Call)
    requires Inv(s) && i < |s.cs| && Room(s, i)
    ensures Inv(Exec(s, i, call))
  {
    match s.cs[i]
    case ReadInc | TryReadCas(_) => DownReadKeepsInv(s, i, call);
    case WriteXadd | TryWriteCas => DownWriteKeepsInv(s, i, call);
    case Reading => UpKeepsInv(s, i, Up);
    case Writing => if call.Downgrade? { DowngradeKeepsInv(s, i); } else { UpKeepsInv(s, i, call); }
    case FailEnqueue(_) => EnqueueKeepsInv(s, i, call);
    case FailAdjust(_) => AdjustKeepsInv(s, i, call);
    case WakeLock(_) => WakeLockKeepsInv(s, i, call);
    case WakeTry(_) => TryKeepsInv(s, i, call);
    case WakeUndo(_) => UndoKeepsInv(s, i, call);
    case WakeFront(o) =>
      if s.queue != [] && !s.queue[0].write { FrontReadersKeepsInv(s, i, call); }
      else if s.queue != [] && !o.Downgrader? { FrontWriterKeepsInv(s, i, call); }
      else { SkipWritersKeepsInv(s, i, call); }
    case WakeGrant(_, _) => GrantKeepsInv(s, i, call);
    case WakeUnlock(_) => WakeUnlockKeepsInv(s, i, call);
    case Idle | TryReadLoad | FailLock(_) => BeginKeepsInv(s, i, call);
    case Waiting(_) =>
  }

  lemma SkipWritersKeepsInv(s: State, i: nat, call: Call)
    requires Inv(s) && i < |s.cs| && s.cs[i].WakeFront?
    requires s.queue == [] || (s.queue[0].write && s.cs[i].origin.Downgrader?)
    ensures Inv(Exec(s, i, call))
  {
    hide SumOf, Wrap32;
    var s' := Exec(s, i, call);
    SumPlausible(s.cs);
    FewerHolders(s, After(s.cs, i, s'.cs[i]));
    if s' != s {
      Reassemble(s, s', i, s'.cs[i]);
    }
  }

  lemma InitSums(n: nat)
    ensures Sum(Init(n).cs) == NOTHING
  {
    SumOfNothing(Of, Init(n).cs);
  }

  lemma IdleLocal(q: seq<Waiter>, t: Tally)
    ensures Local(Idle, q, t)
  {
  }

  lemma InitKeepsInv(n: nat)
    ensures Inv(Init(n))
  {
    hide Sum, Local, QueueMatches, SumsFit;
    InitSums(n);
    EmptyQueue(Init(n).cs);
    var s := Init(n);
    forall i | 0 <= i < n ensures Local(s.cs[i], s.queue, Sum(s.cs)) {
      IdleLocal(s.queue, Sum(s.cs));
    }
    NothingFits(Sum(s.cs));
  }

  lemma NothingFits(t: Tally)
    requires t == NOTHING
    ensures SumsFit(t, 0, false, 0)
  {
    hide Wrap32, Value;
    NothingIsZero(t);
    WholeWord(Value(t));
  }

  lemma NothingIsZero(t: Tally)
    requires t == NOTHING
    ensures Value(t) == 0
  {
  }

  lemma EmptyQueue(cs: seq<Pc>)
    ensures QueueMatches([], cs)
  {
  }

  // ---- runs whose contributions fit ----

  ghost predicate RunFits(n: nat, sched: seq<Event>)
  {
    forall k :: 0 <= k <= |sched| ==> Fits(Run(n, sched[..k]).cs)
  }

  lemma FitsLeaveRoom(s: State, i: nat, call: Call)
    requires i < |s.cs| && Fits(s.cs) && Fits(Exec(s, i, call).cs)
    ensures Room(s, i)
  {
    hide SumOf, Wrap32;
    if s.cs[i].ReadInc? {
      Moved(s.cs, i, Exec(s, i, call).cs[i]);
    }
  }

  lemma RunFitsBefore(n: nat, sched: seq<Event>)
    requires RunFits(n, sched)
    ensures Fits(Run(n, sched).cs)
    ensures sched != [] ==> RunFits(n, sched[..|sched| - 1])
  {
    hide Run, Fits;
    assert sched[..|sched|] == sched;
    if sched != [] {
      var before := sched[..|sched| - 1];
      forall k | 0 <= k <= |before| ensures Fits(Run(n, before[..k]).cs) {
        assert before[..k] == sched[..k];
      }
    }
  }

  lemma {:induction false} RunKeepsInv(n: nat, sched: seq<Event>)
    requires RunFits(n, sched)
    ensures Inv(Run(n, sched))
  {
    hide Inv, Exec, Fits, RunFits, Room;
    if sched == [] {
      InitKeepsInv(n);
    } else {
      var before, e := sched[..|sched| - 1], sched[|sched| - 1];
      RunFitsBefore(n, sched);
      RunFitsBefore(n, before);
      RunKeepsInv(n, before);
      if e.ctx < n {
        FitsLeaveRoom(Run(n, before), e.ctx, e.call);
        StepKeepsInv(Run(n, before), e.ctx, e.call);
      }
    }
  }

  /** The numbers of active and of waiting processes that the header says the two biases support. */
  ghost predicate WithinHeaderBounds(cs: seq<Pc>) { Sum(cs).active <= 65535 && Sum(cs).waiting <= 32766 }

  lemma HeaderBoundsFit(n: nat, sched: seq<Event>)
    requires forall k :: 0 <= k <= |sched| ==> WithinHeaderBounds(Run(n, sched[..k]).cs)
    ensures RunFits(n, sched)
  {
    hide Sum, Run;
  }

  /** So few contexts cannot contribute too much; one more can. */
  const LIMIT: nat := 32769

  lemma FewFit(s: State)
    requires Inv(s) && |s.cs| <= LIMIT
    ensures Fits(s.cs) && Sum(s.cs).active < 0xffff
  {
    hide SumOf, Wrap32, Value, Of;
    SumPlausible(s.cs);
    forall i | 0 <= i < |s.cs| && Of(s.cs[i]).waiting == 0 ensures Sum(s.cs).waiting <= 0x8000 {
      Moved(s.cs, i, Waiting(true));
      SumPlausible(s.cs[i := Waiting(true)]);
      OfHolders(true);
      OnlyWaiting(Sum(s.cs), Of(s.cs[i]));
    }
  }

  lemma OnlyWaiting(t: Tally, c: Tally)
    ensures Plus(Minus(t, c), SLEEPER).waiting == t.waiting - c.waiting + 1
  {
  }

  /** Every run of so few contexts fits, and so keeps the invariant. */
  lemma {:induction false} FewRunFits(n: nat, sched: seq<Event>)
    requires n <= LIMIT
    ensures RunFits(n, sched) && Inv(Run(n, sched))
  {
    hide Inv, Exec, Fits;
    if sched == [] {
      InitKeepsInv(n);
    } else {
      var before, e := sched[..|sched| - 1], sched[|sched| - 1];
      FewRunFits(n, before);
      FewFit(Run(n, before));
      if e.ctx < n {
        StepKeepsInv(Run(n, before), e.ctx, e.call);
      }
    }
    FewFit(Run(n, sched));
    FitsLonger(n, sched);
  }

  lemma FitsLonger(n: nat, sched: seq<Event>)
    requires Fits(Run(n, sched).cs) && (sched != [] ==> RunFits(n, sched[..|sched| - 1]))
    ensures RunFits(n, sched)
  {
    hide Run, Fits;
    forall k | 0 <= k <= |sched| ensures Fits(Run(n, sched[..k]).cs) {
      if k == |sched| {
        assert sched[..k] == sched;
      } else {
        assert sched[..|sched| - 1][..k] == sched[..k];
      }
    }
  }
}
