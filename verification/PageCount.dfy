/** The life of a page reference count: any number of contexts take references with get_page and
    get_page_unless_zero and drop them with put_page_testzero, one atomic access per step. */
module PageCount {
  import opened Sums
  import opened Words

  datatype Op = Get | GetUnlessZero | Put

  /** The next access: a locked increment or decrement, or the load and compare-and-swap of the retry loop. */
  datatype Pc = Idle | Inc | Dec | Load | Cas(c: int)

  datatype Ctx = Ctx(refs: nat, pc: Pc)

  datatype Event = Call(ctx: nat, op: Op) | Step(ctx: nat)

  /** `frees` counts the calls of put_page_testzero that returned true. */
  datatype State = State(count: int, ctxs: seq<Ctx>, frees: nat)

  function Refs(c: Ctx): int { c.refs }

  /** References held or being asked for. */
  function Claims(c: Ctx): int { c.refs + if c.pc.Inc? || c.pc.Load? || c.pc.Cas? then 1 else 0 }

  /** Only a holder may call get_page or put_page_testzero; anybody may try get_page_unless_zero. `cap` bounds
      the references held or asked for at one time. */
  function Begin(cap: nat, s: State, c: Ctx, op: Op): Pc
  {
    match op
    case Get => if c.refs > 0 && Total(Claims, s.ctxs) < cap then Inc else Idle
    case GetUnlessZero => if Total(Claims, s.ctxs) < cap then Load else Idle
    case Put => if c.refs > 0 then Dec else Idle
  }

  /** The loop's test, at the top of every round: give up at zero. */
  function Round(refs: nat, c: int): Ctx { Ctx(refs, if c == 0 then Idle else Cas(c)) }

  function Access(s: State, i: nat): State
    requires i < |s.ctxs|
  {
    var c := s.ctxs[i];
    match c.pc
    case Idle => s
    case Inc => State(Wrap32(s.count + 1), s.ctxs[i := Ctx(c.refs + 1, Idle)], s.frees)
    case Dec =>
      var v := Wrap32(s.count - 1);
      State(v, s.ctxs[i := Ctx(if c.refs > 0 then c.refs - 1 else 0, Idle)], s.frees + if v == 0 then 1 else 0)
    case Load => s.(ctxs := s.ctxs[i := Round(c.refs, s.count)])
    case Cas(was) =>
      if s.count == was
      then State(Wrap32(was + 1), s.ctxs[i := Ctx(c.refs + 1, Idle)], s.frees)
      else s.(ctxs := s.ctxs[i := Round(c.refs, s.count)])
  }

  function Exec(cap: nat, s: State, e: Event): (s': State)
    ensures |s'.ctxs| == |s.ctxs|
  {
    if e.ctx >= |s.ctxs| then s
    else
      var c := s.ctxs[e.ctx];
      match e
      case Call(i, op) => if c.pc.Idle? then s.(ctxs := s.ctxs[i := c.(pc := Begin(cap, s, c, op))]) else s
      case Step(i) => Access(s, i)
  }

  /** init_page_count: context 0 owns the only reference. */
  function Init(n: nat): State { State(1, seq(n, i => Ctx(if i == 0 then 1 else 0, Idle)), 0) }

  function Run(cap: nat, n: nat, sched: seq<Event>): (s: State)
    ensures |s.ctxs| == n
  {
    if sched == [] then Init(n) else Exec(cap, Run(cap, n, sched[..|sched| - 1]), sched[|sched| - 1])
  }

  function Outstanding(s: State): int { Total(Refs, s.ctxs) }

  // ---- the invariant ----

  ghost predicate Inv(cap: nat, s: State)
  {
    && s.count == Wrap32(Outstanding(s))
    && Total(Claims, s.ctxs) <= cap
    && (Outstanding(s) != 0 ==> s.frees == 0)
    && (Outstanding(s) == 0 ==> s.frees == 1)
    && forall i :: 0 <= i < |s.ctxs| ==> CtxInv(s.ctxs[i])
  }

  predicate CtxInv(c: Ctx)
  {
    (c.pc.Inc? || c.pc.Dec? ==> c.refs > 0) && (c.pc.Cas? ==> c.pc.c != 0)
  }

  lemma {:induction false} InitTotals(n: nat)
    requires n > 0
    ensures Total(Refs, Init(n).ctxs) == 1 && Total(Claims, Init(n).ctxs) == 1
  {
    var all := Init(n).ctxs;
    if n == 1 {
      assert all == [Ctx(1, Idle)];
    } else {
      InitTotals(n - 1);
      assert all[..n - 1] == Init(n - 1).ctxs;
    }
  }

  lemma RefsBelowClaims(ctxs: seq<Ctx>)
    ensures 0 <= Total(Refs, ctxs) <= Total(Claims, ctxs)
  {
  }

  /** How one context's move changes both totals. */
  lemma Moves(ctxs: seq<Ctx>, i: nat, c: Ctx)
    requires i < |ctxs|
    ensures Total(Refs, ctxs[i := c]) == Total(Refs, ctxs) - ctxs[i].refs + c.refs
    ensures Total(Claims, ctxs[i := c]) == Total(Claims, ctxs) - Claims(ctxs[i]) + Claims(c)
    ensures ctxs[i].refs <= Total(Refs, ctxs)
  {
    TotalUpdate(Refs, ctxs, i, c);
    TotalUpdate(Claims, ctxs, i, c);
    TotalMember(Refs, ctxs, i);
  }

  lemma AccessKeepsInv(cap: nat, s: State, i: nat)
    requires Inv(cap, s) && cap < 0x1_0000_0000 && i < |s.ctxs|
    ensures Inv(cap, Access(s, i))
  {
    hide Total, Wrap32, Claims;
    var t := Access(s, i);
    RefsBelowClaims(s.ctxs);
    Moves(s.ctxs, i, t.ctxs[i]);
    MoveClaims(s, i);
    assert t.ctxs == s.ctxs[i := t.ctxs[i]];
    RefsBelowClaims(t.ctxs);
    WholeWord(Outstanding(s));
    WholeWord(Outstanding(t));
    WrapShift(Outstanding(s), 1);
    WrapShift(Outstanding(s), -1);
  }

  /** No access raises a context's claims. */
  lemma MoveClaims(s: State, i: nat)
    requires i < |s.ctxs| && CtxInv(s.ctxs[i])
    ensures Claims(Access(s, i).ctxs[i]) <= Claims(s.ctxs[i])
  {
  }

  lemma StepKeepsInv(cap: nat, s: State, e: Event)
    requires Inv(cap, s) && cap < 0x1_0000_0000
    ensures Inv(cap, Exec(cap, s, e))
  {
    hide Total, Wrap32, Access;
    if e.ctx < |s.ctxs| {
      if e.Step? {
        AccessKeepsInv(cap, s, e.ctx);
      } else {
        Moves(s.ctxs, e.ctx, Exec(cap, s, e).ctxs[e.ctx]);
        assert Exec(cap, s, e).ctxs == s.ctxs[e.ctx := Exec(cap, s, e).ctxs[e.ctx]];
      }
    }
  }

  lemma {:induction false} RunKeepsInv(cap: nat, n: nat, sched: seq<Event>)
    requires 0 < cap < 0x1_0000_0000 && 0 < n
    ensures Inv(cap, Run(cap, n, sched))
  {
    hide Total, Exec;
    if sched == [] {
      InitTotals(n);
    } else {
      RunKeepsInv(cap, n, sched[..|sched| - 1]);
      StepKeepsInv(cap, Run(cap, n, sched[..|sched| - 1]), sched[|sched| - 1]);
    }
  }

  // ---- the life cycle ----

  /** The count reads zero just when nobody holds a reference. */
  predicate Faithful(s: State) { s.count == 0 <==> Outstanding(s) == 0 }

  /** In every run: the count is the number of references; put_page_testzero has returned true exactly once if
      there are none, and never if there are some. */
  lemma FreedOnceAndOnlyWhenUnused(cap: nat, n: nat, sched: seq<Event>)
    requires 0 < cap < 0x1_0000_0000 && 0 < n
    ensures var s := Run(cap, n, sched);
            && s.count == Wrap32(Outstanding(s)) && Faithful(s)
            && s.frees == if Outstanding(s) == 0 then 1 else 0
  {
    hide Total, Wrap32;
    RunKeepsInv(cap, n, sched);
    RefsBelowClaims(Run(cap, n, sched).ctxs);
    WholeWord(Outstanding(Run(cap, n, sched)));
  }

  /** Once the last reference is gone no call ever gets another one, and no put returns true again. */
  lemma {:induction false} FreedForGood(cap: nat, n: nat, sched: seq<Event>, more: seq<Event>)
    requires 0 < cap < 0x1_0000_0000 && 0 < n && Run(cap, n, sched).frees == 1
    ensures var s := Run(cap, n, sched + more);
            s.count == 0 && s.frees == 1 && forall i :: 0 <= i < n ==> s.ctxs[i].refs == 0
  {
    hide Total, Exec;
    var all := sched + more;
    FreedOnceAndOnlyWhenUnused(cap, n, all);
    if more == [] {
      assert all == sched;
    } else {
      var shorter := more[..|more| - 1];
      FreedForGood(cap, n, sched, shorter);
      assert all[..|all| - 1] == sched + shorter;
      RunKeepsInv(cap, n, sched + shorter);
      NoneTaken(cap, Run(cap, n, sched + shorter), all[|all| - 1]);
    }
    NobodyHolds(Run(cap, n, all));
  }

  lemma NobodyHolds(s: State)
    requires Outstanding(s) == 0
    ensures forall i :: 0 <= i < |s.ctxs| ==> s.ctxs[i].refs == 0
  {
    forall i | 0 <= i < |s.ctxs| ensures s.ctxs[i].refs == 0 {
      TotalMember(Refs, s.ctxs, i);
    }
  }

  lemma NoneTaken(cap: nat, s: State, e: Event)
    requires Inv(cap, s) && s.frees == 1 && s.count == 0
    requires forall i :: 0 <= i < |s.ctxs| ==> s.ctxs[i].refs == 0
    ensures Exec(cap, s, e).frees == 1
  {
  }

  /** get_page_unless_zero acts at one instant. The access on which it returns true finds a count that is not
      zero and adds one to it; the access on which it returns false finds zero and changes nothing; and it goes
      around only after an access that found another count than the one it had read. */
  lemma UnlessZeroIsAtomic(cap: nat, n: nat, sched: seq<Event>, i: nat)
    requires 0 < cap < 0x1_0000_0000 && i < n
    requires Run(cap, n, sched).ctxs[i].pc.Load? || Run(cap, n, sched).ctxs[i].pc.Cas?
    ensures var s := Run(cap, n, sched); var t := Run(cap, n, sched + [Step(i)]);
            var c, d := s.ctxs[i], t.ctxs[i];
            && (d.refs == c.refs + 1 ==> d.pc.Idle? && s.count != 0 && t.count == Wrap32(s.count + 1))
            && (d.refs != c.refs + 1 ==> d.refs == c.refs && t.count == s.count)
            && (d.refs == c.refs && d.pc.Idle? <==> Outstanding(s) == 0)
            && (c.pc.Cas? ==> (d.refs == c.refs + 1 <==> s.count == c.pc.c))
            && (d.pc.Cas? ==> d.pc.c == s.count)
  {
    hide Total, Wrap32;
    RunKeepsInv(cap, n, sched);
    FreedOnceAndOnlyWhenUnused(cap, n, sched);
    assert (sched + [Step(i)])[..|sched|] == sched;
  }

  // ---- how many references is too many ----

  function Piled(n: nat, k: nat): State
  {
    State(Wrap32(k + 1), seq(n, i => Ctx(if i == 0 then k + 1 else 0, Idle)), 0)
  }

  /** Context 0 takes k more references. */
  function PileUp(k: nat): seq<Event>
  {
    if k == 0 then [] else PileUp(k - 1) + [Call(0, Get), Step(0)]
  }

  lemma {:induction false} PiledTotals(n: nat, k: nat)
    requires n > 0
    ensures Total(Refs, Piled(n, k).ctxs) == Total(Claims, Piled(n, k).ctxs) == k + 1
  {
    var all := Piled(n, k).ctxs;
    if n == 1 {
      assert all == [Ctx(k + 1, Idle)];
    } else {
      PiledTotals(n - 1, k);
      assert all[..n - 1] == Piled(n - 1, k).ctxs;
    }
  }

  lemma {:induction false} PileUpReaches(cap: nat, n: nat, k: nat)
    requires k < cap && 0 < n
    ensures Run(cap, n, PileUp(k)) == Piled(n, k)
  {
    hide Exec, Piled, Init;
    if k == 0 {
      PileNone(n);
    } else {
      PileUpReaches(cap, n, k - 1);
      RunTwice(cap, n, PileUp(k - 1), Call(0, Get), Step(0));
      PileOne(cap, n, k - 1);
    }
  }

  lemma PileNone(n: nat)
    ensures Init(n) == Piled(n, 0)
  {
  }

  lemma RunTwice(cap: nat, n: nat, sched: seq<Event>, e: Event, f: Event)
    ensures Run(cap, n, sched + [e, f]) == Exec(cap, Exec(cap, Run(cap, n, sched), e), f)
  {
    var one, two := sched + [e], sched + [e, f];
    assert one[..|one| - 1] == sched && two[..|two| - 1] == one;
  }

  lemma PileOne(cap: nat, n: nat, k: nat)
    requires k + 1 < cap && 0 < n
    ensures Exec(cap, Exec(cap, Piled(n, k), Call(0, Get)), Step(0)) == Piled(n, k + 1)
  {
    hide Total, Wrap32;
    PiledTotals(n, k);
    WrapShift(k + 1, 1);
    assert Exec(cap, Exec(cap, Piled(n, k), Call(0, Get)), Step(0)).ctxs == Piled(n, k + 1).ctxs;
  }

  /** The count tells used from unused, in every run, exactly while fewer than 2^32 references are held or asked
      for at once; the sign of the count does not matter. */
  lemma FaithfulExactly(cap: nat, n: nat)
    requires 0 < cap && 0 < n
    ensures (forall sched :: Faithful(Run(cap, n, sched))) <==> cap < 0x1_0000_0000
  {
    if cap < 0x1_0000_0000 {
      forall sched ensures Faithful(Run(cap, n, sched)) {
        FreedOnceAndOnlyWhenUnused(cap, n, sched);
      }
    } else {
      OneTooManyHides(cap, n, 0xffff_ffff);
    }
  }

  lemma OneTooManyHides(cap: nat, n: nat, k: nat)
    requires k == 0xffff_ffff < cap && 0 < n
    ensures !Faithful(Run(cap, n, PileUp(k)))
  {
    PileUpReaches(cap, n, k);
    PiledTotals(n, k);
  }

  // ---- calls take effect ----

  /** Nothing but context i changed, and its references are now r. */
  predicate Settles(s: State, t: State, i: nat, r: nat)
    requires i < |s.ctxs|
  {
    t.ctxs == s.ctxs[i := Ctx(r, Idle)] && t.count == Wrap32(Outstanding(s) - s.ctxs[i].refs + r)
  }

  /** A put by a holder drops its reference; it returns true exactly when that was the last one. */
  lemma PutTakesEffect(cap: nat, n: nat, sched: seq<Event>, i: nat)
    requires 0 < cap < 0x1_0000_0000 && i < n
    requires var c := Run(cap, n, sched).ctxs[i]; c.pc.Idle? && c.refs > 0
    ensures var s := Run(cap, n, sched); var t := Run(cap, n, sched + [Call(i, Put), Step(i)]);
            && Settles(s, t, i, s.ctxs[i].refs - 1) && Outstanding(t) == Outstanding(s) - 1
            && t.frees == s.frees + if Outstanding(s) == 1 then 1 else 0
  {
    hide Run, Exec, Inv, Settles, Total;
    RunKeepsInv(cap, n, sched);
    RunTwice(cap, n, sched, Call(i, Put), Step(i));
    PutSteps(cap, Run(cap, n, sched), i);
  }

  lemma PutSteps(cap: nat, s: State, i: nat)
    requires Inv(cap, s) && cap < 0x1_0000_0000 && i < |s.ctxs| && s.ctxs[i].pc.Idle? && s.ctxs[i].refs > 0
    ensures var t := Exec(cap, Exec(cap, s, Call(i, Put)), Step(i));
            && Settles(s, t, i, s.ctxs[i].refs - 1) && Outstanding(t) == Outstanding(s) - 1
            && t.frees == s.frees + if Outstanding(s) == 1 then 1 else 0
  {
    hide Total, Wrap32, Claims;
    var r := s.ctxs[i].refs;
    RefsBelowClaims(s.ctxs);
    WrapShift(Outstanding(s), -1);
    Moves(s.ctxs, i, Ctx(r - 1, Idle));
    WholeWord(Outstanding(s) - 1);
    var s1 := Exec(cap, s, Call(i, Put));
    assert s1 == s.(ctxs := s.ctxs[i := Ctx(r, Dec)]);
    assert Exec(cap, s1, Step(i)).ctxs == s.ctxs[i := Ctx(r - 1, Idle)];
  }

  /** get_page by a holder takes one more reference. */
  lemma GetTakesEffect(cap: nat, n: nat, sched: seq<Event>, i: nat)
    requires 0 < cap < 0x1_0000_0000 && i < n && Total(Claims, Run(cap, n, sched).ctxs) < cap
    requires var c := Run(cap, n, sched).ctxs[i]; c.pc.Idle? && c.refs > 0
    ensures var s := Run(cap, n, sched); var t := Run(cap, n, sched + [Call(i, Get), Step(i)]);
            Settles(s, t, i, s.ctxs[i].refs + 1) && Outstanding(t) == Outstanding(s) + 1 && t.frees == s.frees
  {
    hide Total, Wrap32;
    var s := Run(cap, n, sched);
    RunKeepsInv(cap, n, sched);
    RunTwice(cap, n, sched, Call(i, Get), Step(i));
    WrapShift(Outstanding(s), 1);
    Moves(s.ctxs, i, Ctx(s.ctxs[i].refs + 1, Idle));
    assert s.ctxs[i := Ctx(s.ctxs[i].refs, Inc)][i := Ctx(s.ctxs[i].refs + 1, Idle)]
        == s.ctxs[i := Ctx(s.ctxs[i].refs + 1, Idle)];
  }

  /** An undisturbed get_page_unless_zero, by anybody, gets a reference exactly when somebody has one. */
  lemma UnlessZeroTakesEffect(cap: nat, n: nat, sched: seq<Event>, i: nat)
    requires 0 < cap < 0x1_0000_0000 && i < n && Total(Claims, Run(cap, n, sched).ctxs) < cap
    requires Run(cap, n, sched).ctxs[i].pc.Idle?
    ensures var s := Run(cap, n, sched); var e := [Call(i, GetUnlessZero), Step(i)];
            && (Outstanding(s) == 0 ==> Run(cap, n, sched + e) == s)
            && (Outstanding(s) > 0 ==>
                  var t := Run(cap, n, sched + e + [Step(i)]);
                  Settles(s, t, i, s.ctxs[i].refs + 1) && Outstanding(t) == Outstanding(s) + 1 && t.frees == s.frees)
  {
    hide Total, Wrap32;
    var s, e := Run(cap, n, sched), [Call(i, GetUnlessZero), Step(i)];
    var r := s.ctxs[i].refs;
    FreedOnceAndOnlyWhenUnused(cap, n, sched);
    RunTwice(cap, n, sched, Call(i, GetUnlessZero), Step(i));
    assert (sched + e + [Step(i)])[..|sched + e|] == sched + e;
    WrapShift(Outstanding(s), 1);
    Moves(s.ctxs, i, Ctx(r + 1, Idle));
    assert s.ctxs[i := Ctx(r, Load)][i := Round(r, s.count)] == s.ctxs[i := Round(r, s.count)];
    assert s.ctxs[i := Ctx(r, Idle)] == s.ctxs;
    assert s.ctxs[i := Round(r, s.count)][i := Ctx(r + 1, Idle)] == s.ctxs[i := Ctx(r + 1, Idle)];
  }

  /** A call made with `refs` references is under way, or has returned. */
  predicate During(op: Op, refs: nat, c: Ctx)
  {
    && c.refs == refs
    && match op
       case Get => c.pc.Inc?
       case Put => c.pc.Dec? && refs > 0
       case GetUnlessZero => c.pc.Load? || c.pc.Cas?
  }

  predicate Returned(op: Op, refs: nat, c: Ctx)
  {
    && c.pc.Idle?
    && match op
       case Get => c.refs == refs + 1
       case Put => c.refs == refs - 1
       case GetUnlessZero => refs <= c.refs <= refs + 1
  }

  lemma CallAdvances(cap: nat, s: State, e: Event, i: nat, op: Op, refs: nat)
    requires i < |s.ctxs| && During(op, refs, s.ctxs[i])
    ensures During(op, refs, Exec(cap, s, e).ctxs[i]) || Returned(op, refs, Exec(cap, s, e).ctxs[i])
  {
    hide Total, Wrap32;
  }

  lemma {:induction false} CallOngoing(cap: nat, n: nat, sched: seq<Event>, k: nat, m: nat)
    requires k < m <= |sched| && sched[k].Call? && sched[k].ctx < n
    requires Run(cap, n, sched[..k]).ctxs[sched[k].ctx].pc.Idle?
    requires forall j :: k < j <= m ==> !Run(cap, n, sched[..j]).ctxs[sched[k].ctx].pc.Idle?
    ensures var i := sched[k].ctx;
            During(sched[k].op, Run(cap, n, sched[..k]).ctxs[i].refs, Run(cap, n, sched[..m]).ctxs[i])
    decreases m
  {
    hide Total, Wrap32;
    assert sched[..m][..m - 1] == sched[..m - 1];
    if m > k + 1 {
      CallOngoing(cap, n, sched, k, m - 1);
      var i, s := sched[k].ctx, Run(cap, n, sched[..m - 1]);
      CallAdvances(cap, s, sched[m - 1], i, sched[k].op, Run(cap, n, sched[..k]).ctxs[i].refs);
    }
  }

  /** In every run a call that has begun and returned has taken or dropped exactly one reference of its
      caller, whatever the others did in between; only get_page_unless_zero may have taken none. */
  lemma CallReturns(cap: nat, n: nat, sched: seq<Event>, k: nat, m: nat)
    requires k + 1 < m <= |sched| && sched[k].Call? && sched[k].ctx < n
    requires Run(cap, n, sched[..k]).ctxs[sched[k].ctx].pc.Idle? && Run(cap, n, sched[..m]).ctxs[sched[k].ctx].pc.Idle?
    requires forall j :: k < j < m ==> !Run(cap, n, sched[..j]).ctxs[sched[k].ctx].pc.Idle?
    ensures var i := sched[k].ctx;
            Returned(sched[k].op, Run(cap, n, sched[..k]).ctxs[i].refs, Run(cap, n, sched[..m]).ctxs[i])
  {
    hide Total, Wrap32;
    var i, s := sched[k].ctx, Run(cap, n, sched[..m - 1]);
    assert sched[..m][..m - 1] == sched[..m - 1];
    CallOngoing(cap, n, sched, k, m - 1);
    CallAdvances(cap, s, sched[m - 1], i, sched[k].op, Run(cap, n, sched[..k]).ctxs[i].refs);
  }
}
