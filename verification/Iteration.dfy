/** Iterating a function: the algebra shared by the checksum register and its period. */
module Iteration {

  /** `f` applied `n` times to `x`. */
  function Iter<T>(f: T -> T, x: T, n: nat): T
    decreases n
  {
    if n == 0 then x else Iter(f, f(x), n - 1)
  }

  lemma {:induction false} IterAdd<T>(f: T -> T, x: T, m: nat, n: nat)
    ensures Iter(f, x, m + n) == Iter(f, Iter(f, x, m), n)
    decreases m
  {
    if m > 0 {
      IterAdd(f, f(x), m - 1, n);
    }
  }

  /** The last application may be peeled off instead of the first. */
  lemma IterLast<T>(f: T -> T, x: T, n: nat)
    ensures Iter(f, x, n + 1) == f(Iter(f, x, n))
  {
    IterAdd(f, x, n, 1);
    assert Iter(f, Iter(f, x, n), 1) == Iter(f, f(Iter(f, x, n)), 0);
  }

  lemma IterFour<T>(f: T -> T, x: T)
    ensures Iter(f, x, 4) == f(f(f(f(x))))
  {
    assert Iter(f, x, 4) == Iter(f, f(x), 3);
    assert Iter(f, f(f(x)), 2) == Iter(f, f(f(f(x))), 1);
  }

  ghost predicate Injective<T(!new)>(f: T -> T) {
    forall x, y :: f(x) == f(y) ==> x == y
  }

  lemma {:induction false} IterInjective<T(!new)>(f: T -> T, x: T, y: T, n: nat)
    requires Injective(f)
    requires Iter(f, x, n) == Iter(f, y, n)
    ensures x == y
    decreases n
  {
    if n > 0 {
      IterInjective(f, f(x), f(y), n - 1);
    }
  }

  ghost predicate Homomorphic<T(!new)>(f: T -> T, op: (T, T) -> T) {
    forall x, y :: f(op(x, y)) == op(f(x), f(y))
  }

  /** Iterating a homomorphism is a homomorphism. */
  lemma {:induction false} IterHomomorphic<T(!new)>(f: T -> T, op: (T, T) -> T, x: T, y: T, n: nat)
    requires Homomorphic(f, op)
    ensures Iter(f, op(x, y), n) == op(Iter(f, x, n), Iter(f, y, n))
    decreases n
  {
    if n > 0 {
      IterHomomorphic(f, op, f(x), f(y), n - 1);
    }
  }
}
