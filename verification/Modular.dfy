/** Remainders, as the counting arguments need them. */
module Modular {
  lemma LaterMultiple(a: nat, q: nat, q': nat)
    requires q < q'
    ensures a * q + a <= a * q'
  {
    var d := q' - q;
    assert a * q' == a * q + a * d && a * d == a + a * (d - 1);
  }

  lemma QuotientBelow(a: nat, q: nat, t: nat, q': nat, t': nat)
    requires a * q + t == a * q' + t' && t' < a
    ensures q <= q'
  {
    if q' < q {
      LaterMultiple(a, q', q);
    }
  }

  /** Quotient and remainder are unique. */
  lemma ModuloUnique(n: nat, a: nat, q: nat, t: nat)
    requires a > 0 && n == a * q + t && t < a
    ensures n % a == t
  {
    QuotientBelow(a, q, t, n / a, n % a);
    QuotientBelow(a, n / a, n % a, q, t);
  }

  /** Dividing twice is dividing by the product. */
  lemma DivideTwice(v: nat, a: nat, b: nat)
    requires a > 0 && b > 0
    ensures a * b > 0 && v / a / b == v / (a * b)
  {
    var q, t := v / a / b, v / a % b;
    assert v == a * (v / a) + v % a && v / a == b * q + t;
    assert a * (b * q + t) == (a * b) * q + a * t;
    LaterMultiple(a, t, b);
    QuotientIs(v, a * b, q, a * t + v % a);
  }

  lemma QuotientIs(n: nat, a: nat, q: nat, t: nat)
    requires a > 0 && n == a * q + t && t < a
    ensures n / a == q
  {
    QuotientBelow(a, q, t, n / a, n % a);
    QuotientBelow(a, n / a, n % a, q, t);
  }

  lemma ModuloDrop(n: nat, a: nat, k: nat)
    requires a > 0
    ensures (n + a * k) % a == n % a
  {
    var q := n / a;
    assert n + a * k == a * (q + k) + n % a by { assert n == a * q + n % a; }
    ModuloUnique(n + a * k, a, q + k, n % a);
  }

  lemma ModuloStep(n: nat, a: nat)
    requires 0 < a <= n
    ensures (n - a) % a == n % a
  {
    ModuloDrop(n - a, a, 1);
  }

  lemma MultipleModulo(r: nat, k: nat)
    requires r > 0
    ensures (r * k) % r == 0
  {
    ModuloUnique(r * k, r, k, 0);
  }

  lemma Regroup(r: nat, u: nat, q: nat, v: nat)
    ensures (r * u) * q + r * v == r * (u * q + v)
  {
    assert (r * u) * q == r * (u * q);
  }

  lemma DividesSum(r: nat, a: nat, b: nat)
    requires r > 0 && a > 0 && a % r == 0 && (b % a) % r == 0
    ensures b % r == 0
  {
    var u, v, q := a / r, (b % a) / r, b / a;
    assert b == a * q + b % a && a == r * u && b % a == r * v;
    Regroup(r, u, q, v);
    MultipleModulo(r, u * q + v);
  }

  /** A factor may be reduced first. */
  lemma ModuloTimes(a: nat, n: nat, r: nat)
    requires r > 0
    ensures (a * (n % r)) % r == (a * n) % r
  {
    var q := n / r;
    assert a * n == a * (n % r) + r * (a * q) by { assert n == r * q + n % r; }
    ModuloDrop(a * (n % r), r, a * q);
  }

  /** Reducing by a multiple first changes nothing. */
  lemma ModuloOfModulo(n: nat, r: nat, s: nat)
    requires r > 0 && s > 0 && r * s > 0
    ensures (n % (r * s)) % r == n % r
  {
    var m := r * s;
    var q := n / m;
    assert n == n % m + r * (s * q) by { assert n == m * q + n % m; }
    ModuloDrop(n % m, r, s * q);
  }
}
