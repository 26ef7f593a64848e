/** The byte spinlock: one signed byte, any number of contexts, one atomic access per step. */
module SpinLock {
  import opened Sums
  import opened Words

  /** Where a context stands; each non-idle value names the memory access it makes next. */
  datatype Pc =
    | Idle
    | Dec                 // "lock; decb" of lock and lock_flags
    | Spin                // "cmpb $0" in the wait loop
    | Xchg                // "xchgb" of trylock
    | Holding             // next access: the "movb $1" of unlock

  /** lock_flags only enables interrupts while it spins: it makes the same accesses as lock. */
  datatype Call = Lock | LockFlags | TryLock

  datatype Event = Event(ctx: nat, call: Call)

  datatype State = State(slock: int, cs: seq<Pc>)

  function IsLocked(slock: int): bool { slock <= 0 }

  function Begin(call: Call): Pc
  {
    match call
    case Lock | LockFlags => Dec
    case TryLock => Xchg
  }

  /** One atomic access by context i; `call` matters only when i is idle. */
  function Exec(s: State, i: nat, call: Call): (s': State)
    requires i < |s.cs|
    ensures |s'.cs| == |s.cs|
  {
    match s.cs[i]
    case Idle => s.(cs := s.cs[i := Begin(call)])
    case Dec =>
      var v := Wrap8(s.slock - 1);
      State(v, s.cs[i := if v >= 0 then Holding else Spin])
    case Spin =>
      if s.slock <= 0 then s else s.(cs := s.cs[i := Dec])
    case Xchg =>
      State(0, s.cs[i := if s.slock > 0 then Holding else Idle])
    case Holding => State(1, s.cs[i := Idle])
  }

  function Init(n: nat): (s: State)
    ensures |s.cs| == n
  {
    State(1, seq(n, _ => Idle))
  }

  /** The state after a schedule; events of contexts that do not exist are skipped. */
  function Run(n: nat, sched: seq<Event>): (s: State)
    ensures |s.cs| == n
  {
    if sched == [] then Init(n)
    else
      var s := Run(n, sched[..|sched| - 1]);
      var e := sched[|sched| - 1];
      if e.ctx < n then Exec(s, e.ctx, e.call) else s
  }

  ghost predicate Exclusive(s: State)
  {
    forall i, j :: 0 <= i < j < |s.cs| ==> !(s.cs[i].Holding? && s.cs[j].Holding?)
  }

  // ---- the inductive invariant ----

  function Holds(pc: Pc): int { if pc.Holding? then 1 else 0 }

  function Spins(pc: Pc): int { if pc.Spin? then 1 else 0 }

  /** The byte is 1 exactly when nobody holds; otherwise it is at or above minus the number of
      spinners, because a spinner leaves its loop only after seeing a positive byte. */
  ghost predicate Inv(s: State)
  {
    && (s.slock == 1 ==> Total(Holds, s.cs) == 0)
    && (s.slock != 1 ==> Total(Holds, s.cs) == 1 && -Total(Spins, s.cs) <= s.slock <= 0)
  }

  lemma {:induction false} InitCounts(n: nat)
    ensures Total(Holds, Init(n).cs) == 0 && Total(Spins, Init(n).cs) == 0
  {
    if n > 0 {
      InitCounts(n - 1);
      assert Init(n).cs[..n - 1] == Init(n - 1).cs;
    }
  }

  /** A context about to decrement is neither holding nor spinning, so the others number below |cs|. */
  lemma {:induction false} CountsLeaveRoom(cs: seq<Pc>, i: nat)
    requires i < |cs| && !cs[i].Holding? && !cs[i].Spin?
    ensures Total(Holds, cs) + Total(Spins, cs) <= |cs| - 1
  {
    var n := |cs| - 1;
    if i < n {
      CountsLeaveRoom(cs[..n], i);
    } else {
      CountsBounded(cs[..n]);
    }
  }

  lemma {:induction false} CountsBounded(cs: seq<Pc>)
    ensures Total(Holds, cs) + Total(Spins, cs) <= |cs|
  {
    if cs != [] {
      CountsBounded(cs[..|cs| - 1]);
    }
  }

  lemma SpinnersCount(cs: seq<Pc>)
    ensures Total(Spins, cs) >= 0
  {
  }

  lemma {:induction false} StepKeepsInv(s: State, i: nat, call: Call)
    requires i < |s.cs| <= 129 && Inv(s)
    ensures Inv(Exec(s, i, call))
  {
    var pc' := Exec(s, i, call).cs[i];
    TotalUpdate(Holds, s.cs, i, pc');
    TotalUpdate(Spins, s.cs, i, pc');
    assert Exec(s, i, call).cs == s.cs[i := pc'];
    SpinnersCount(s.cs);
    if s.cs[i].Dec? {
      CountsLeaveRoom(s.cs, i);
    } else if s.cs[i].Holding? {
      TotalMember(Holds, s.cs, i);
    }
  }

  lemma {:induction false} RunKeepsInv(n: nat, sched: seq<Event>)
    requires n <= 129
    ensures Inv(Run(n, sched))
  {
    if sched == [] {
      InitCounts(n);
    } else {
      var e := sched[|sched| - 1];
      RunKeepsInv(n, sched[..|sched| - 1]);
      if e.ctx < n {
        StepKeepsInv(Run(n, sched[..|sched| - 1]), e.ctx, e.call);
      }
    }
  }

  lemma InvIsExclusive(s: State)
    requires Inv(s)
    ensures Exclusive(s)
  {
    forall i, j | 0 <= i < j < |s.cs| ensures !(s.cs[i].Holding? && s.cs[j].Holding?) {
      TotalPair(Holds, s.cs, i, j);
    }
  }

  /** The byte never wraps, and `is_locked` is exact, in every run of at most 129 contexts. */
  lemma ByteNeverWraps(n: nat, sched: seq<Event>)
    requires n <= 129
    ensures var s := Run(n, sched);
            && -128 <= s.slock <= 1
            && (IsLocked(s.slock) <==> exists i :: 0 <= i < n && s.cs[i].Holding?)
  {
    var s := Run(n, sched);
    RunKeepsInv(n, sched);
    CountsBounded(s.cs);
    if s.slock != 1 {
      var i := TotalWitness(Holds, s.cs);
      assert s.cs[i].Holding?;
    } else if i :| 0 <= i < n && s.cs[i].Holding? {
      TotalMember(Holds, s.cs, i);
    }
  }

  ghost predicate Free(s: State) { forall j :: 0 <= j < |s.cs| ==> !s.cs[j].Holding? }

  lemma FreeExactly(s: State)
    requires Inv(s)
    ensures Free(s) <==> s.slock == 1
  {
    if s.slock != 1 {
      var i := TotalWitness(Holds, s.cs);
    } else {
      forall j | 0 <= j < |s.cs| ensures !s.cs[j].Holding? {
        TotalMember(Holds, s.cs, j);
      }
    }
  }

  /** What every access decides, in every run: a decrement and a trylock get the lock exactly when nobody has it,
      a spinner leaves its loop exactly then, and an unlock leaves the lock free. */
  lemma AdmittedExactly(n: nat, sched: seq<Event>, i: nat, call: Call)
    requires n <= 129 && i < n
    ensures var s := Run(n, sched); var t := Exec(s, i, call);
            match s.cs[i]
            case Dec => t.cs[i] == if Free(s) then Holding else Spin
            case Xchg => t.cs[i] == if Free(s) then Holding else Idle
            case Spin => t == if Free(s) then s.(cs := s.cs[i := Dec]) else s
            case Holding => Free(t) && t.cs[i].Idle?
            case Idle => t == s.(cs := s.cs[i := if call.TryLock? then Xchg else Dec])
  {
    hide Total;
    var s := Run(n, sched);
    RunKeepsInv(n, sched);
    StepKeepsInv(s, i, call);
    FreeExactly(s);
    FreeExactly(Exec(s, i, call));
    if s.cs[i].Dec? {
      CountsLeaveRoom(s.cs, i);
    }
  }

  // ---- the bound is sharp ----

  /** Context 0 holds, contexts 1..k have decremented and spin. */
  function Piled(n: nat, k: nat): (s: State)
    requires k < n
  {
    State(0 - k, seq(n, i => if i == 0 then Holding else if i <= k then Spin else Idle))
  }

  /** Every context from 0 to k calls lock and makes its first decrement. */
  function PileUp(k: nat): seq<Event>
  {
    (if k == 0 then [] else PileUp(k - 1)) + [Event(k, Lock), Event(k, Lock)]
  }

  lemma PileOne(n: nat, k: nat)
    requires k + 1 < n && k < 128
    ensures Exec(Exec(Piled(n, k), k + 1, Lock), k + 1, Lock) == Piled(n, k + 1)
  {
  }

  lemma PileFirst(n: nat)
    requires 0 < n
    ensures Exec(Exec(Init(n), 0, Lock), 0, Lock) == Piled(n, 0)
  {
  }

  lemma {:induction false} PileUpReaches(n: nat, k: nat)
    requires k < n && k <= 128
    ensures Run(n, PileUp(k)) == Piled(n, k)
  {
    if k == 0 {
      RunTwice(n, [], k);
      PileFirst(n);
    } else {
      PileUpReaches(n, k - 1);
      RunTwice(n, PileUp(k - 1), k);
      PileOne(n, k - 1);
    }
  }

  lemma RunTwice(n: nat, sched: seq<Event>, k: nat)
    requires k < n
    ensures Run(n, sched + [Event(k, Lock), Event(k, Lock)])
         == Exec(Exec(Run(n, sched), k, Lock), k, Lock)
  {
    var one := sched + [Event(k, Lock)];
    var two := sched + [Event(k, Lock), Event(k, Lock)];
    assert one[..|one| - 1] == sched && two[..|two| - 1] == one;
  }

  /** The next decrement after k == 128 failed ones turns -128 into 127 and is taken for success. */
  lemma OneTooManyBreaks(n: nat, k: nat)
    requires n >= 130 && k == 128
    ensures !Exclusive(Run(n, PileUp(k) + [Event(k + 1, Lock), Event(k + 1, Lock)]))
  {
    hide Run, PileUp;
    PileUpReaches(n, k);
    RunTwice(n, PileUp(k), k + 1);
    var s := Run(n, PileUp(k) + [Event(k + 1, Lock), Event(k + 1, Lock)]);
    assert s.cs[0].Holding? && s.cs[k + 1].Holding?;
  }

  /** Mutual exclusion over every interleaving holds exactly up to 129 contexts. */
  lemma ExclusionExactly(n: nat)
    ensures (forall sched :: Exclusive(Run(n, sched))) <==> n <= 129
  {
    if n <= 129 {
      forall sched ensures Exclusive(Run(n, sched)) {
        RunKeepsInv(n, sched);
        InvIsExclusive(Run(n, sched));
      }
    } else {
      OneTooManyBreaks(n, 128);
    }
  }
}
