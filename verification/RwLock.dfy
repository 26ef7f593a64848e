/** The biased read-write spinlock with its out-of-line wait loops, one atomic access per step. */
module RwLock {
  import opened Sums
  import opened Words

  const RW_LOCK_BIAS: int := 0x0100_0000

  /** Each value names the access the context makes next on the lock word. */
  datatype Pc =
    | Idle
    | ReadSub       // read_lock: subl $1
    | ReadUndo      // __read_lock_failed: incl
    | ReadSpin      // __read_lock_failed: cmpl $1
    | ReadRetry     // __read_lock_failed: decl
    | TryReadDec    // read_trylock: atomic_dec
    | TryReadLoad   // read_trylock: atomic_read
    | TryReadUndo   // read_trylock: atomic_inc
    | Reading       // read_unlock: incl
    | WriteSub      // write_lock: subl $RW_LOCK_BIAS
    | WriteUndo     // __write_lock_failed: addl
    | WriteSpin     // __write_lock_failed: cmpl $RW_LOCK_BIAS
    | WriteRetry    // __write_lock_failed: subl
    | TryWriteSub   // write_trylock: atomic_sub_and_test
    | TryWriteUndo  // write_trylock: atomic_add
    | Writing       // write_unlock: addl

  datatype Call = ReadLock | ReadTrylock | WriteLock | WriteTrylock

  datatype Event = Event(ctx: nat, call: Call)

  /** Contexts below `writers` may ask for either side of the lock, the others only for reading. */
  datatype State = State(word: int, cs: seq<Pc>, writers: nat)

  function Begin(call: Call, mayWrite: bool): Pc
  {
    match call
    case ReadLock => ReadSub
    case ReadTrylock => TryReadDec
    case WriteLock => if mayWrite then WriteSub else Idle
    case WriteTrylock => if mayWrite then TryWriteSub else Idle
  }

  /** The word and the next position after one access from position pc. */
  function Access(word: int, pc: Pc): (int, Pc)
    requires pc != Idle
  {
    match pc
    case ReadSub | ReadRetry =>
      var v := Wrap32(word - 1);
      (v, if v >= 0 then Reading else ReadUndo)
    case ReadUndo => (Wrap32(word + 1), ReadSpin)
    case ReadSpin => (word, if Wrap32(word - 1) < 0 then ReadSpin else ReadRetry)
    case TryReadDec => (Wrap32(word - 1), TryReadLoad)
    case TryReadLoad => (word, if word >= 0 then Reading else TryReadUndo)
    case TryReadUndo | Reading => (Wrap32(word + 1), Idle)
    case WriteSub | WriteRetry =>
      var v := Wrap32(word - RW_LOCK_BIAS);
      (v, if v == 0 then Writing else WriteUndo)
    case WriteUndo => (Wrap32(word + RW_LOCK_BIAS), WriteSpin)
    case WriteSpin => (word, if word == RW_LOCK_BIAS then WriteRetry else WriteSpin)
    case TryWriteSub =>
      var v := Wrap32(word - RW_LOCK_BIAS);
      (v, if v == 0 then Writing else TryWriteUndo)
    case TryWriteUndo | Writing => (Wrap32(word + RW_LOCK_BIAS), Idle)
  }

  function Exec(s: State, i: nat, call: Call): (s': State)
    requires i < |s.cs|
    ensures |s'.cs| == |s.cs| && s'.writers == s.writers
  {
    if s.cs[i] == Idle then s.(cs := s.cs[i := Begin(call, i < s.writers)])
    else
      var (v, pc) := Access(s.word, s.cs[i]);
      s.(word := v, cs := s.cs[i := pc])
  }

  function Init(n: nat, writers: nat): (s: State)
    ensures |s.cs| == n
  {
    State(RW_LOCK_BIAS, seq(n, _ => Idle), writers)
  }

  function Run(n: nat, writers: nat, sched: seq<Event>): (s: State)
    ensures |s.cs| == n && s.writers == writers
  {
    if sched == [] then Init(n, writers)
    else
      var s := Run(n, writers, sched[..|sched| - 1]);
      var e := sched[|sched| - 1];
      if e.ctx < n then Exec(s, e.ctx, e.call) else s
  }

  /** No writer together with a reader or with another writer. */
  ghost predicate Exclusive(s: State)
  {
    forall i, j :: 0 <= i < |s.cs| && 0 <= j < |s.cs| && i != j && s.cs[i].Writing?
      ==> !s.cs[j].Writing? && !s.cs[j].Reading?
  }

  // ---- contributions ----

  function WriteSide(pc: Pc): bool
  {
    pc.WriteSub? || pc.WriteUndo? || pc.WriteSpin? || pc.WriteRetry? || pc.TryWriteSub? || pc.TryWriteUndo? || pc.Writing?
  }

  /** Readers admitted, and read attempts decremented but not yet decided or undone. */
  function ReadShare(pc: Pc): int
  {
    if pc.Reading? || pc.ReadUndo? || pc.TryReadLoad? || pc.TryReadUndo? then 1 else 0
  }

  /** Writers admitted, and failed write attempts not yet undone. */
  function WriteShare(pc: Pc): int
  {
    if pc.Writing? || pc.WriteUndo? || pc.TryWriteUndo? then 1 else 0
  }

  function Share(pc: Pc): int { ReadShare(pc) + RW_LOCK_BIAS * WriteShare(pc) }

  function IsReading(pc: Pc): int { if pc.Reading? then 1 else 0 }

  function IsWriting(pc: Pc): int { if pc.Writing? then 1 else 0 }

  lemma {:induction false} ShareSplits(cs: seq<Pc>)
    ensures Total(Share, cs) == Total(ReadShare, cs) + RW_LOCK_BIAS * Total(WriteShare, cs)
    ensures 0 <= Total(IsReading, cs) <= Total(ReadShare, cs)
    ensures 0 <= Total(IsWriting, cs) <= Total(WriteShare, cs)
  {
    if cs != [] {
      ShareSplits(cs[..|cs| - 1]);
    }
  }

  /** The largest sum of contributions n contexts, `writers` of them writers, can make at once. */
  function Worst(n: nat, writers: nat): nat
  {
    if n <= writers then RW_LOCK_BIAS * n else RW_LOCK_BIAS * writers + (n - writers)
  }

  ghost predicate RolesKept(s: State)
  {
    forall i :: s.writers <= i < |s.cs| ==> !WriteSide(s.cs[i])
  }

  /** The word is the bias minus every contribution, and holders respect each other. */
  ghost predicate Inv(s: State)
  {
    && RolesKept(s)
    && s.word == RW_LOCK_BIAS - Total(Share, s.cs)
    && Total(IsWriting, s.cs) <= 1
    && (Total(IsWriting, s.cs) == 1 ==> Total(IsReading, s.cs) == 0)
  }

  lemma SharesFit(s: State)
    requires RolesKept(s)
    ensures 0 <= Total(Share, s.cs) <= Worst(|s.cs|, s.writers)
  {
    ShareSplits(s.cs);
    TotalCapped(Share, s.cs, s.writers, RW_LOCK_BIAS);
  }

  lemma UpdateAll(cs: seq<Pc>, i: nat, pc: Pc)
    requires i < |cs|
    ensures Total(Share, cs[i := pc]) == Total(Share, cs) - Share(cs[i]) + Share(pc)
    ensures Total(IsReading, cs[i := pc]) == Total(IsReading, cs) - IsReading(cs[i]) + IsReading(pc)
    ensures Total(IsWriting, cs[i := pc]) == Total(IsWriting, cs) - IsWriting(cs[i]) + IsWriting(pc)
  {
    TotalUpdate(Share, cs, i, pc);
    TotalUpdate(IsReading, cs, i, pc);
    TotalUpdate(IsWriting, cs, i, pc);
  }

  /** One access moves the word by exactly the change of its context's contribution, and admits a
      reader only at a non-negative word and a writer only at zero. */
  lemma AccessTracks(word: int, pc: Pc)
    requires pc != Idle
    requires var pc' := Access(word, pc).1; INT_MIN <= word + Share(pc) - Share(pc') <= INT_MAX
    ensures var (v, pc') := Access(word, pc);
            && v == word + Share(pc) - Share(pc')
            && (pc'.Reading? ==> v >= 0 && !pc.Writing?)
            && (pc'.Writing? ==> v == 0)
            && (WriteSide(pc') ==> WriteSide(pc))
  {
  }

  /** Every access keeps the invariant as long as no sum of contributions can leave the word. */
  lemma {:induction false} StepKeepsInv(s: State, i: nat, call: Call)
    requires i < |s.cs| && Inv(s)
    requires Worst(|s.cs|, s.writers) <= RW_LOCK_BIAS - INT_MIN
    ensures Inv(Exec(s, i, call))
  {
    var s' := Exec(s, i, call);
    var pc, pc' := s.cs[i], s'.cs[i];
    UpdateAll(s.cs, i, pc');
    ShareSplits(s'.cs);
    if pc != Idle {
      StepKeepsRoles(s, i, call);
      SharesFit(s');
      AccessTracks(s.word, pc);
      if pc'.Reading? {
        TotalMember(ReadShare, s'.cs, i);
      } else if pc'.Writing? {
        TotalMember(WriteShare, s'.cs, i);
      }
    }
  }

  lemma StepKeepsRoles(s: State, i: nat, call: Call)
    requires i < |s.cs| && RolesKept(s)
    ensures RolesKept(Exec(s, i, call))
  {
  }

  lemma {:induction false} RunKeepsInv(n: nat, writers: nat, sched: seq<Event>)
    requires Worst(n, writers) <= RW_LOCK_BIAS - INT_MIN
    ensures Inv(Run(n, writers, sched))
  {
    if sched == [] {
      InitCounts(n, writers);
    } else {
      var e := sched[|sched| - 1];
      RunKeepsInv(n, writers, sched[..|sched| - 1]);
      if e.ctx < n {
        StepKeepsInv(Run(n, writers, sched[..|sched| - 1]), e.ctx, e.call);
      }
    }
  }

  lemma {:induction false} InitCounts(n: nat, writers: nat)
    ensures var cs := Init(n, writers).cs;
            Total(Share, cs) == 0 && Total(IsReading, cs) == 0 && Total(IsWriting, cs) == 0
  {
    if n > 0 {
      InitCounts(n - 1, writers);
      assert Init(n, writers).cs[..n - 1] == Init(n - 1, writers).cs;
    }
  }

  lemma InvIsExclusive(s: State)
    requires Inv(s)
    ensures Exclusive(s)
  {
    forall i, j | 0 <= i < |s.cs| && 0 <= j < |s.cs| && i != j && s.cs[i].Writing?
      ensures !s.cs[j].Writing? && !s.cs[j].Reading?
    {
      ShareSplits(s.cs);
      TotalMember(IsWriting, s.cs, i);
      TotalMember(IsReading, s.cs, j);
      if i < j {
        TotalPair(IsWriting, s.cs, i, j);
      } else {
        TotalPair(IsWriting, s.cs, j, i);
      }
    }
  }

  /** In every run the word is the bias minus all contributions, failed attempts included, as long as the largest
      sum of contributions fits. */
  lemma WordIsExact(n: nat, writers: nat, sched: seq<Event>)
    requires Worst(n, writers) <= RW_LOCK_BIAS - INT_MIN
    ensures var s := Run(n, writers, sched);
            && s.word == RW_LOCK_BIAS - Total(ReadShare, s.cs) - RW_LOCK_BIAS * Total(WriteShare, s.cs)
            && INT_MIN <= s.word <= RW_LOCK_BIAS
            && (Worst(n, writers) < RW_LOCK_BIAS - INT_MIN ==> INT_MIN < s.word)
            && Exclusive(s)
  {
    var s := Run(n, writers, sched);
    RunKeepsInv(n, writers, sched);
    ShareSplits(s.cs);
    SharesFit(s);
    InvIsExclusive(s);
  }

  /** Fewer than 2^24 readers beside at most 128 writers fit. */
  lemma ReadersBesideWritersFit(n: nat, writers: nat)
    requires writers <= 128 && n < writers + RW_LOCK_BIAS
    ensures Worst(n, writers) < RW_LOCK_BIAS - INT_MIN
  {
  }

  /** What the word says of the shares in it. */
  lemma WordDecodes(s: State)
    requires Inv(s)
    ensures var r, w := Total(ReadShare, s.cs), Total(WriteShare, s.cs);
            && 0 <= r && 0 <= w && s.word == RW_LOCK_BIAS - r - RW_LOCK_BIAS * w
            && (s.word > 0 <==> w == 0 && r < RW_LOCK_BIAS)
            && (s.word >= 0 <==> (w == 0 && r <= RW_LOCK_BIAS) || (w == 1 && r == 0))
            && (s.word == RW_LOCK_BIAS <==> w == 0 && r == 0)
  {
    ShareSplits(s.cs);
  }

  /** What every access decides, in every run: a reader gets in exactly while no writer has a share and fewer than
      2^24 readers do, beside the readers already in; a writer exactly while nobody has a share; the wait loops end
      exactly when their first decision could be won; and unlocking and undoing leave the context idle or
      waiting. */
  lemma AdmittedExactly(n: nat, writers: nat, sched: seq<Event>, i: nat)
    requires Worst(n, writers) < RW_LOCK_BIAS - INT_MIN && i < n && !Run(n, writers, sched).cs[i].Idle?
    ensures var s := Run(n, writers, sched); var r, w := Total(ReadShare, s.cs), Total(WriteShare, s.cs);
            var pc := Access(s.word, s.cs[i]).1;
            match s.cs[i]
            case ReadSub | ReadRetry => pc == if w == 0 && r < RW_LOCK_BIAS then Reading else ReadUndo
            case ReadSpin => pc == if w == 0 && r < RW_LOCK_BIAS then ReadRetry else ReadSpin
            case TryReadLoad => pc == if w == 0 && r <= RW_LOCK_BIAS then Reading else TryReadUndo
            case WriteSub | WriteRetry => pc == if w == 0 && r == 0 then Writing else WriteUndo
            case TryWriteSub => pc == if w == 0 && r == 0 then Writing else TryWriteUndo
            case WriteSpin => pc == if w == 0 && r == 0 then WriteRetry else WriteSpin
            case ReadUndo => pc == ReadSpin
            case WriteUndo => pc == WriteSpin
            case TryReadDec => pc == TryReadLoad
            case _ => pc == Idle
  {
    hide Total, Wrap32;
    var s := Run(n, writers, sched);
    RunKeepsInv(n, writers, sched);
    WordDecodes(s);
    SharesFit(s);
    WholeWord(s.word - RW_LOCK_BIAS);
    if s.cs[i].TryReadLoad? {
      TotalMember(ReadShare, s.cs, i);
    }
  }

  /** k accesses of context i in a row. */
  function Alone(s: State, i: nat, call: Call, k: nat): (t: State)
    requires i < |s.cs|
    ensures |t.cs| == |s.cs|
    decreases k
  {
    if k == 0 then s else Alone(Exec(s, i, call), i, call, k - 1)
  }

  lemma AFewSteps(s: State, i: nat, call: Call)
    requires i < |s.cs|
    ensures var s2 := Exec(Exec(s, i, call), i, call);
            && Alone(s, i, call, 2) == s2 && Alone(s, i, call, 3) == Exec(s2, i, call)
            && Alone(s, i, call, 4) == Exec(Exec(s2, i, call), i, call)
  {
    hide Exec;
    var s1 := Exec(s, i, call);
    assert Alone(s1, i, call, 1) == Exec(s1, i, call);
    var s2 := Exec(s1, i, call);
    assert Alone(s2, i, call, 1) == Exec(s2, i, call);
    assert Alone(s2, i, call, 2) == Exec(Exec(s2, i, call), i, call);
  }

  /** Every call, undisturbed, at every reachable word. The read side is admitted exactly at a positive word and the
      write side exactly at the bias; a lock that is not admitted ends up in its wait loop and a trylock back where
      it began, with the word as it was; and an unlock undoes its lock. */
  lemma UndisturbedCalls(s: State, i: nat)
    requires i < |s.cs| && s.cs[i].Idle? && INT_MIN < s.word <= RW_LOCK_BIAS
    ensures var t := s.(word := s.word - 1, cs := s.cs[i := Reading]);
            && Exec(t, i, ReadLock) == s
            && (s.word > 0 ==> Alone(s, i, ReadLock, 2) == Alone(s, i, ReadTrylock, 3) == t)
            && (s.word <= 0 ==> Alone(s, i, ReadLock, 3) == s.(cs := s.cs[i := ReadSpin]))
            && (s.word <= 0 ==> Alone(s, i, ReadTrylock, 4) == s)
    ensures i < s.writers ==>
              var t := s.(word := 0, cs := s.cs[i := Writing]);
              && (s.word == RW_LOCK_BIAS ==> Exec(t, i, WriteLock) == s)
              && (s.word == RW_LOCK_BIAS ==> Alone(s, i, WriteLock, 2) == Alone(s, i, WriteTrylock, 2) == t)
              && (s.word != RW_LOCK_BIAS ==> Alone(s, i, WriteLock, 3) == s.(cs := s.cs[i := WriteSpin]))
              && (s.word != RW_LOCK_BIAS ==> Alone(s, i, WriteTrylock, 3) == s)
  {
    hide Wrap32, Alone, Exec;
    UndisturbedReads(s, i);
    UndisturbedWrites(s, i);
    AFewSteps(s, i, ReadLock);
    AFewSteps(s, i, ReadTrylock);
    AFewSteps(s, i, WriteLock);
    AFewSteps(s, i, WriteTrylock);
  }

  lemma UndisturbedReads(s: State, i: nat)
    requires i < |s.cs| && s.cs[i].Idle? && INT_MIN < s.word <= RW_LOCK_BIAS
    ensures var t := s.(word := s.word - 1, cs := s.cs[i := Reading]);
            var l := Exec(Exec(s, i, ReadLock), i, ReadLock);
            var r := Exec(Exec(Exec(s, i, ReadTrylock), i, ReadTrylock), i, ReadTrylock);
            && Exec(t, i, ReadLock) == s
            && (s.word > 0 ==> l == r == t)
            && (s.word <= 0 ==> Exec(l, i, ReadLock) == s.(cs := s.cs[i := ReadSpin]))
            && (s.word <= 0 ==> Exec(r, i, ReadTrylock) == s)
  {
    hide Wrap32;
    assert s.cs[i := Idle] == s.cs;
  }

  lemma UndisturbedWrites(s: State, i: nat)
    requires i < |s.cs| && s.cs[i].Idle? && INT_MIN < s.word <= RW_LOCK_BIAS
    ensures var t := s.(word := 0, cs := s.cs[i := Writing]);
            var l, r := Exec(Exec(s, i, WriteLock), i, WriteLock), Exec(Exec(s, i, WriteTrylock), i, WriteTrylock);
            i < s.writers ==>
              && (s.word == RW_LOCK_BIAS ==> Exec(t, i, WriteLock) == s)
              && (s.word == RW_LOCK_BIAS ==> l == r == t)
              && (s.word != RW_LOCK_BIAS ==> Exec(l, i, WriteLock) == s.(cs := s.cs[i := WriteSpin]))
              && (s.word != RW_LOCK_BIAS ==> Exec(r, i, WriteTrylock) == s)
  {
    hide Wrap32;
    assert s.cs[i := Idle] == s.cs;
    WholeWord(s.word - RW_LOCK_BIAS);
    WrapShift(s.word - RW_LOCK_BIAS, RW_LOCK_BIAS);
  }

  // ---- the bound is sharp ----

  /** Context 0 writes; contexts 1..k-1 failed to write and contexts k..k+r-1 failed to read. */
  function Piled(n: nat, writers: nat, k: nat, r: nat): (s: State)
    requires 0 < k && k + r <= n
  {
    State(RW_LOCK_BIAS - RW_LOCK_BIAS * k - r,
          seq(n, i => if i == 0 then Writing else if i < k then WriteUndo else if i < k + r then ReadUndo else Idle),
          writers)
  }

  function PileUp(k: nat, r: nat): seq<Event>
  {
    if r > 0 then PileUp(k, r - 1) + [Event(k + r - 1, ReadLock), Event(k + r - 1, ReadLock)]
    else if k > 0 then PileUp(k - 1, 0) + [Event(k - 1, WriteLock), Event(k - 1, WriteLock)]
    else []
  }

  lemma RunTwice(n: nat, writers: nat, sched: seq<Event>, e: Event)
    requires e.ctx < n
    ensures Run(n, writers, sched + [e, e])
         == Exec(Exec(Run(n, writers, sched), e.ctx, e.call), e.ctx, e.call)
  {
    var one := sched + [e];
    var two := sched + [e, e];
    assert one[..|one| - 1] == sched && two[..|two| - 1] == one;
  }

  /** A failed fast path leaves its contribution behind. */
  lemma PileOne(n: nat, writers: nat, k: nat, r: nat)
    requires 0 < k && k + r < n
    requires RW_LOCK_BIAS * k + r + 1 <= RW_LOCK_BIAS - INT_MIN
    ensures Exec(Exec(Piled(n, writers, k, r), k + r, ReadLock), k + r, ReadLock) == Piled(n, writers, k, r + 1)
  {
  }

  lemma PileWriter(n: nat, writers: nat, k: nat)
    requires 0 < k < writers && k < n
    requires RW_LOCK_BIAS * (k + 1) <= RW_LOCK_BIAS - INT_MIN
    ensures Exec(Exec(Piled(n, writers, k, 0), k, WriteLock), k, WriteLock) == Piled(n, writers, k + 1, 0)
  {
  }

  lemma PileFirst(n: nat, writers: nat)
    requires 0 < n && 0 < writers
    ensures Exec(Exec(Init(n, writers), 0, WriteLock), 0, WriteLock) == Piled(n, writers, 1, 0)
  {
  }

  lemma {:induction false} WritersPileUp(n: nat, writers: nat, k: nat)
    requires 0 < k <= writers && k <= n && RW_LOCK_BIAS * k <= RW_LOCK_BIAS - INT_MIN
    ensures Run(n, writers, PileUp(k, 0)) == Piled(n, writers, k, 0)
  {
    if k == 1 {
      PileFirst(n, writers);
      RunTwice(n, writers, PileUp(0, 0), Event(0, WriteLock));
    } else {
      WritersPileUp(n, writers, k - 1);
      PileWriter(n, writers, k - 1);
      RunTwice(n, writers, PileUp(k - 1, 0), Event(k - 1, WriteLock));
    }
  }

  lemma {:induction false} PileUpReaches(n: nat, writers: nat, k: nat, r: nat)
    requires 0 < k <= writers && k + r <= n
    requires RW_LOCK_BIAS * k + r <= RW_LOCK_BIAS - INT_MIN
    ensures Run(n, writers, PileUp(k, r)) == Piled(n, writers, k, r)
  {
    if r == 0 {
      WritersPileUp(n, writers, k);
    } else {
      PileUpReaches(n, writers, k, r - 1);
      PileOne(n, writers, k, r - 1);
      RunTwice(n, writers, PileUp(k, r - 1), Event(k + r - 1, ReadLock));
    }
  }

  lemma ReaderSlipsIn(s: State, i: nat)
    requires 0 < i < |s.cs| && s.cs[0] == Writing && s.cs[i] == Idle && s.word == INT_MIN
    ensures !Exclusive(Exec(Exec(s, i, ReadLock), i, ReadLock))
  {
    assert Wrap32(INT_MIN - 1) == INT_MAX;
    var s' := Exec(Exec(s, i, ReadLock), i, ReadLock);
    assert s'.cs[0].Writing? && s'.cs[i].Reading?;
  }

  /** One contribution past the word's range reads as a free lock: a reader joins the writer. */
  lemma OneTooManyBreaks(n: nat, writers: nat, k: nat, r: nat)
    requires 0 < k <= writers && k + r < n
    requires RW_LOCK_BIAS * k + r == RW_LOCK_BIAS - INT_MIN
    ensures var e := Event(k + r, ReadLock);
            !Exclusive(Run(n, writers, PileUp(k, r) + [e, e]))
  {
    PileUpReaches(n, writers, k, r);
    ReaderSlipsIn(Piled(n, writers, k, r), k + r);
    RunTwice(n, writers, PileUp(k, r), Event(k + r, ReadLock));
  }

  /** Exclusion holds over every interleaving exactly when all contributions fit, or nobody writes. */
  lemma ExclusionExactly(n: nat, writers: nat)
    ensures (forall sched :: Exclusive(Run(n, writers, sched)))
       <==> writers == 0 || Worst(n, writers) <= RW_LOCK_BIAS - INT_MIN
  {
    if Worst(n, writers) <= RW_LOCK_BIAS - INT_MIN {
      forall sched ensures Exclusive(Run(n, writers, sched)) {
        RunKeepsInv(n, writers, sched);
        InvIsExclusive(Run(n, writers, sched));
      }
    } else if writers == 0 {
      forall sched ensures Exclusive(Run(n, 0, sched)) {
        NobodyWrites(n, sched);
      }
    } else {
      var k := if writers < 129 then writers else 129;
      OneTooManyBreaks(n, writers, k, RW_LOCK_BIAS * (129 - k));
    }
  }

  lemma {:induction false} NobodyWrites(n: nat, sched: seq<Event>)
    ensures RolesKept(Run(n, 0, sched))
  {
    if sched != [] {
      NobodyWrites(n, sched[..|sched| - 1]);
    }
  }

  // ---- what the can_lock tests predict ----

  predicate ReadCanLock(word: int) { word > 0 }

  predicate WriteCanLock(word: int) { word == RW_LOCK_BIAS }

  /** Run alone, read_trylock (two accesses) and write_trylock succeed exactly when the tests say so. */
  lemma CanLockPredicts(word: int)
    requires INT_MIN < word <= RW_LOCK_BIAS
    ensures var (w1, pc1) := Access(word, TryReadDec);
            Access(w1, pc1).1.Reading? <==> ReadCanLock(word)
    ensures Access(word, TryWriteSub).1.Writing? <==> WriteCanLock(word)
  {
  }
}
