/** Sums of a weight over the contexts of a system, and how one context's move changes them. */
module Sums {

  function Total<T>(f: T -> int, s: seq<T>): int
  {
    if s == [] then 0 else Total(f, s[..|s| - 1]) + f(s[|s| - 1])
  }

  lemma {:induction false} TotalUpdate<T>(f: T -> int, s: seq<T>, i: nat, x: T)
    requires i < |s|
    ensures Total(f, s[i := x]) == Total(f, s) - f(s[i]) + f(x)
  {
    var n := |s| - 1;
    if i == n {
      assert s[i := x][..n] == s[..n];
    } else {
      TotalUpdate(f, s[..n], i, x);
      assert s[i := x][..n] == s[..n][i := x];
    }
  }

  lemma {:induction false} TotalMono<T>(f: T -> int, g: T -> int, s: seq<T>)
    requires forall k :: 0 <= k < |s| ==> f(s[k]) <= g(s[k])
    ensures Total(f, s) <= Total(g, s)
  {
    if s != [] {
      TotalMono(f, g, s[..|s| - 1]);
    }
  }

  /** Contexts below w weigh at most `big`, the others at most one. */
  lemma {:induction false} TotalCapped<T>(f: T -> int, s: seq<T>, w: nat, big: nat)
    requires forall k :: 0 <= k < |s| ==> f(s[k]) <= (if k < w then big else 1)
    ensures Total(f, s) <= if |s| <= w then big * |s| else big * w + (|s| - w)
  {
    if s != [] {
      TotalCapped(f, s[..|s| - 1], w, big);
    }
  }

  lemma {:induction false} TotalMember<T>(f: T -> int, s: seq<T>, i: nat)
    requires i < |s|
    requires forall k :: 0 <= k < |s| ==> 0 <= f(s[k])
    ensures f(s[i]) <= Total(f, s)
  {
    var n := |s| - 1;
    if i < n {
      TotalMember(f, s[..n], i);
    } else {
      TotalMono(x => 0, f, s[..n]);
      TotalZero(s[..n]);
    }
  }

  lemma {:induction false} TotalZero<T>(s: seq<T>)
    ensures Total((x: T) => 0, s) == 0
  {
    if s != [] {
      TotalZero(s[..|s| - 1]);
    }
  }

  lemma {:induction false} TotalPair<T>(f: T -> int, s: seq<T>, i: nat, j: nat)
    requires i < j < |s|
    requires forall k :: 0 <= k < |s| ==> 0 <= f(s[k])
    ensures f(s[i]) + f(s[j]) <= Total(f, s)
  {
    var n := |s| - 1;
    if j < n {
      TotalPair(f, s[..n], i, j);
    } else {
      TotalMember(f, s[..n], i);
    }
  }

  /** A positive total of non-negative weights has a witness. */
  lemma {:induction false} TotalWitness<T>(f: T -> int, s: seq<T>) returns (i: nat)
    requires Total(f, s) > 0
    ensures i < |s| && f(s[i]) > 0
  {
    if f(s[|s| - 1]) > 0 {
      i := |s| - 1;
    } else {
      i := TotalWitness(f, s[..|s| - 1]);
    }
  }
}
