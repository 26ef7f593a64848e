/** Vector-valued sums over the contexts of the read-write semaphore. */
module Tallies {

  /** Sums over all contexts. active/waiting: shares of the two halves of the count; readers/writers:
      lock holders; settled: queued contexts whose waiting share is in the count; adding: the context
      between list_add_tail and its count adjustment; locked: holders of wait_lock; waking: readers
      moved to the active half but not yet woken; pending: contexts about to look at the queue. */
  datatype Tally = Tally(active: int, waiting: int, readers: int, writers: int, settled: int,
                         adding: int, locked: int, waking: int, pending: int)

  function Plus(a: Tally, b: Tally): Tally
  {
    Tally(a.active + b.active, a.waiting + b.waiting, a.readers + b.readers, a.writers + b.writers,
          a.settled + b.settled, a.adding + b.adding, a.locked + b.locked, a.waking + b.waking,
          a.pending + b.pending)
  }

  function Minus(a: Tally, b: Tally): Tally
  {
    Tally(a.active - b.active, a.waiting - b.waiting, a.readers - b.readers, a.writers - b.writers,
          a.settled - b.settled, a.adding - b.adding, a.locked - b.locked, a.waking - b.waking,
          a.pending - b.pending)
  }

  const NOTHING := Tally(0, 0, 0, 0, 0, 0, 0, 0, 0)
  const READER := Tally(1, 0, 1, 0, 0, 0, 0, 0, 0)
  const WRITER := Tally(1, 1, 0, 1, 0, 0, 0, 0, 0)
  const SLEEPER := Tally(0, 1, 0, 0, 1, 0, 0, 0, 0)

  function SumOf<T>(f: T -> Tally, xs: seq<T>): Tally
  {
    if xs == [] then NOTHING else Plus(SumOf(f, xs[..|xs| - 1]), f(xs[|xs| - 1]))
  }

  lemma {:induction false} SumOfUpdate<T>(f: T -> Tally, xs: seq<T>, i: nat, x: T)
    requires i < |xs|
    ensures SumOf(f, xs[i := x]) == Plus(Minus(SumOf(f, xs), f(xs[i])), f(x))
  {
    var n := |xs| - 1;
    if i == n {
      assert xs[i := x][..n] == xs[..n];
    } else {
      SumOfUpdate(f, xs[..n], i, x);
      assert xs[i := x][..n] == xs[..n][i := x];
    }
  }

  /** Linear facts every sum of contributions satisfies. */
  ghost predicate Plausible(t: Tally, n: nat)
  {
    && 0 <= t.readers && 0 <= t.writers && 0 <= t.settled && 0 <= t.adding && 0 <= t.waking
    && 0 <= t.locked && 0 <= t.pending
    && t.readers + t.writers + t.waking <= t.active <= n + t.waking - t.settled + t.locked
    && t.writers + t.settled - t.waking <= t.waiting <= n
    && t.adding <= t.locked
    && (t.locked == 0 ==> t.waking == 0)
  }

  lemma {:induction false} SumOfPlausible<T>(f: T -> Tally, xs: seq<T>)
    requires forall k :: 0 <= k < |xs| ==> Plausible(f(xs[k]), 1)
    ensures Plausible(SumOf(f, xs), |xs|)
  {
    if xs != [] {
      SumOfPlausible(f, xs[..|xs| - 1]);
    }
  }

  lemma SumOfTwo<T>(f: T -> Tally, xs: seq<T>, c: nat, y: T, i: nat, x: T)
    requires i < |xs| && c < |xs| && i != c
    ensures SumOf(f, xs[c := y][i := x]) == Plus(Plus(Minus(SumOf(f, xs), f(xs[i])), f(x)), Minus(f(y), f(xs[c])))
  {
    SumOfUpdate(f, xs, c, y);
    SumOfUpdate(f, xs[c := y], i, x);
  }

  lemma {:induction false} SumOfNothing<T>(f: T -> Tally, xs: seq<T>)
    requires forall k :: 0 <= k < |xs| ==> f(xs[k]) == NOTHING
    ensures SumOf(f, xs) == NOTHING
  {
    if xs != [] {
      SumOfNothing(f, xs[..|xs| - 1]);
      NothingTwice(SumOf(f, xs[..|xs| - 1]), f(xs[|xs| - 1]));
    }
  }

  lemma NothingTwice(a: Tally, b: Tally)
    requires a == b == NOTHING
    ensures Plus(a, b) == NOTHING
  {
  }

  lemma {:induction false} SumOfQuiet<T>(f: T -> Tally, xs: seq<T>)
    requires forall k :: 0 <= k < |xs| ==> f(xs[k]).active == 0 && f(xs[k]).pending == 0
    ensures SumOf(f, xs).active == 0 && SumOf(f, xs).pending == 0
  {
    if xs != [] {
      SumOfQuiet(f, xs[..|xs| - 1]);
    }
  }
}
