/** The compare-and-swap retry loop of atomic_add_unless, run against other contexts that store into the
    counter between any two of its accesses. */
module Atomic {
  import opened Words

  class Counter {
    var counter: int
    /** What the other contexts will store, one value before each access of this context; when none is left,
        they have gone quiet. */
    var others: seq<int>

    method Interfere()
      modifies this
      ensures old(others) == [] ==> counter == old(counter) && others == []
      ensures old(others) != [] ==> counter == old(others)[0] && others == old(others)[1..]
    {
      if others != [] {
        counter, others := others[0], others[1..];
      }
    }

    /** lock; cmpxchgl */
    method Cmpxchg(expected: int, value: int) returns (was: int)
      modifies `counter
      ensures was == old(counter)
      ensures counter == if was == expected then value else was
    {
      was := counter;
      if was == expected { counter := value; }
    }

    /** The whole call is one atomic addition: there is a point in the stream of other stores, `at`, where the
        counter was read, found different from u, and a added to it, all at once; or where it was found equal
        to u and left alone. Before that point the call stored nothing and never saw u, and it went around
        again only because the counter had changed. */
    method AddUnless(a: int, u: int) returns (took: bool, ghost at: nat)
      modifies this
      ensures at <= |old(others)| && others == old(others)[at..]
      ensures var v := ValueAt(old(counter), old(others), at);
              (took <==> v != u) && counter == if took then Wrap32(v + a) else v
      ensures forall k :: 0 < k < at ==> ValueAt(old(counter), old(others), k) != u
      ensures forall k :: 1 < k < at ==>
                ValueAt(old(counter), old(others), k) != ValueAt(old(counter), old(others), k - 1)
    {
      Interfere();
      at := if old(others) == [] then 0 else 1;
      var c := counter;
      while true
        invariant at <= |old(others)| && others == old(others)[at..]
        invariant counter == c == ValueAt(old(counter), old(others), at)
        invariant forall k :: 0 < k < at ==> ValueAt(old(counter), old(others), k) != u
        invariant forall k :: 1 < k <= at ==>
                    ValueAt(old(counter), old(others), k) != ValueAt(old(counter), old(others), k - 1)
        decreases |others|
      {
        if c == u { break; }
        ghost var left := |others|;
        Interfere();
        at := if left == 0 then at else at + 1;
        var was := Cmpxchg(c, Wrap32(c + a));
        if was == c { break; }
        c := was;
      }
      took := c != u;
    }
  }

  /** The counter after the first k of the other stores. */
  function ValueAt(counter: int, others: seq<int>, k: nat): int
    requires k <= |others|
  {
    if k == 0 then counter else others[k - 1]
  }
}
