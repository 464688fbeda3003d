/** Counting along the orbits of an iterated function: periods, and the divisors of 2^31 - 1. */
module Orbits {
  import opened Iteration
  import opened Modular

  // ---------- Common periods ----------

  lemma {:induction false} IterModulo<T>(f: T -> T, x: T, a: nat, n: nat)
    requires a > 0 && Iter(f, x, a) == x
    ensures Iter(f, x, n) == Iter(f, x, n % a)
    decreases n
  {
    if n < a {
      ModuloUnique(n, a, 0, n);
    } else {
      IterAdd(f, x, a, n - a);
      IterModulo(f, x, a, n - a);
      ModuloStep(n, a);
    }
  }

  /** If `f` returns to `x` after `a` steps and after `b` steps, it does so after some common divisor of the two. */
  lemma {:induction false} CommonPeriod<T>(f: T -> T, x: T, a: nat, b: nat) returns (r: nat)
    requires a > 0 && Iter(f, x, a) == x && Iter(f, x, b) == x
    ensures 0 < r <= a && a % r == 0 && b % r == 0 && Iter(f, x, r) == x
    decreases a
  {
    if b % a == 0 {
      r := a;
    } else {
      IterModulo(f, x, a, b);
      r := CommonPeriod(f, x, b % a, a);
      DividesSum(r, a, b);
    }
  }

  // ---------- Orbits of prime length ----------

  predicate Divides(q: nat, p: nat) { q > 0 && p % q == 0 }

  ghost predicate Prime(p: nat) {
    p >= 2 && forall q: nat :: Divides(q, p) ==> q == 1 || q == p
  }

  /** The first `n` values from `x` on. */
  ghost function Orbit(f: nat -> nat, x: nat, n: nat): set<nat>
    decreases n
  {
    if n == 0 then {} else Orbit(f, x, n - 1) + {Iter(f, x, n - 1)}
  }

  lemma {:induction false} OrbitMember(f: nat -> nat, x: nat, n: nat, y: nat) returns (k: nat)
    requires y in Orbit(f, x, n)
    ensures k < n && y == Iter(f, x, k)
    decreases n
  {
    if y == Iter(f, x, n - 1) {
      k := n - 1;
    } else {
      k := OrbitMember(f, x, n - 1, y);
    }
  }

  lemma {:induction false} OrbitContains(f: nat -> nat, x: nat, n: nat, k: nat)
    requires k < n
    ensures Iter(f, x, k) in Orbit(f, x, n)
    decreases n
  {
    if k < n - 1 {
      OrbitContains(f, x, n - 1, k);
    }
  }

  /** A prime period has no shorter one but that of a fixed point. */
  lemma ShorterPeriod(f: nat -> nat, x: nat, p: nat, d: nat)
    requires Prime(p) && Iter(f, x, p) == x
    requires 0 < d < p && Iter(f, x, d) == x
    ensures f(x) == x
  {
    var r := CommonPeriod(f, x, d, p);
    assert Divides(r, p);
    assert Iter(f, x, 1) == f(x);
  }

  /** With a prime period and no fixed point, no value recurs early. */
  lemma NoEarlyRecurrence(f: nat -> nat, x: nat, p: nat, k: nat, n: nat)
    requires Prime(p) && Iter(f, x, p) == x && f(x) != x
    requires k < n < p
    ensures Iter(f, x, k) != Iter(f, x, n)
  {
    if Iter(f, x, k) == Iter(f, x, n) {
      IterAdd(f, x, k, p - n);
      IterAdd(f, x, n, p - n);
      ShorterPeriod(f, x, p, k + (p - n));
    }
  }

  lemma NotYetSeen(f: nat -> nat, x: nat, p: nat, n: nat)
    requires Prime(p) && Iter(f, x, p) == x && f(x) != x && n < p
    ensures Iter(f, x, n) !in Orbit(f, x, n)
  {
    if Iter(f, x, n) in Orbit(f, x, n) {
      var k := OrbitMember(f, x, n, Iter(f, x, n));
      NoEarlyRecurrence(f, x, p, k, n);
    }
  }

  lemma {:induction false} OrbitSize(f: nat -> nat, x: nat, p: nat, n: nat)
    requires Prime(p) && Iter(f, x, p) == x && f(x) != x && n <= p
    ensures |Orbit(f, x, n)| == n
    decreases n
  {
    if n > 0 {
      OrbitSize(f, x, p, n - 1);
      NotYetSeen(f, x, p, n - 1);
    }
  }

  /** `f` permutes `s` in cycles of length `p`. */
  ghost predicate Cycles(f: nat -> nat, p: nat, s: set<nat>) {
    forall y {:trigger Iter(f, y, p)} :: y in s ==> f(y) in s && f(y) != y && Iter(f, y, p) == y
  }

  lemma {:induction false} OrbitInside(f: nat -> nat, p: nat, s: set<nat>, x: nat, n: nat)
    requires Cycles(f, p, s) && x in s
    ensures Iter(f, x, n) in s && Orbit(f, x, n) <= s
    decreases n
  {
    if n > 0 {
      OrbitInside(f, p, s, x, n - 1);
      assert Iter(f, Iter(f, x, n - 1), p) == Iter(f, x, n - 1);
      IterLast(f, x, n - 1);
    }
  }

  /** Nothing outside an orbit is mapped into it. */
  lemma OrbitBackwards(f: nat -> nat, x: nat, p: nat, y: nat)
    requires p > 0 && Iter(f, x, p) == x && Iter(f, y, p) == y
    requires f(y) in Orbit(f, x, p)
    ensures y in Orbit(f, x, p)
  {
    var k := OrbitMember(f, x, p, f(y));
    assert Iter(f, y, p) == Iter(f, f(y), p - 1);
    IterAdd(f, x, k, p - 1);
    IterModulo(f, x, p, k + (p - 1));
    OrbitContains(f, x, p, (k + (p - 1)) % p);
  }

  lemma WithoutOrbit(f: nat -> nat, p: nat, s: set<nat>, x: nat)
    requires Prime(p) && Cycles(f, p, s) && x in s
    ensures Orbit(f, x, p) <= s && |Orbit(f, x, p)| == p && Cycles(f, p, s - Orbit(f, x, p))
  {
    assert Iter(f, x, p) == x;
    OrbitInside(f, p, s, x, p);
    OrbitSize(f, x, p, p);
    var rest := s - Orbit(f, x, p);
    forall y | y in rest ensures f(y) in rest && f(y) != y && Iter(f, y, p) == y {
      assert Iter(f, y, p) == y;
      if f(y) in Orbit(f, x, p) { OrbitBackwards(f, x, p, y); }
    }
  }

  /** A set permuted in cycles of prime length has a multiple of that many members. */
  lemma {:induction false} CycleCount(f: nat -> nat, p: nat, s: set<nat>)
    requires Prime(p) && Cycles(f, p, s)
    ensures |s| % p == 0
    decreases |s|
  {
    if s != {} {
      var x :| x in s;
      WithoutOrbit(f, p, s, x);
      var rest := s - Orbit(f, x, p);
      assert |s| == |rest| + p;
      CycleCount(f, p, rest);
      ModuloStep(|s|, p);
    }
  }
}
