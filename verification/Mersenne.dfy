/** 2^31 - 1 has no proper divisor, by counting residues along two permutations of prime order. */
module Mersenne {
  import opened Iteration
  import opened Modular
  import opened Orbits

  const M: nat := 0x7fff_ffff

  /** Multiplication by `a` modulo `r`. */
  function Scaling(a: nat, r: nat): nat -> nat
    requires r > 0
  {
    (j: nat) => (a * j) % r
  }

  /** `a` to the power `n`, modulo `r`. */
  function Power(a: nat, n: nat, r: nat): (v: nat)
    requires r > 0
  {
    Iter(Scaling(a, r), 1, n)
  }

  /** One factor more, reduced modulo a divisor of the modulus. */
  lemma ScaleMore(a: nat, t: nat, j: nat, r: nat, s: nat)
    requires r > 0 && s > 0 && r * s > 0
    ensures (a * ((t * j) % r)) % r == (((a * t) % (r * s)) * j) % r
  {
    ModuloTimes(a, t * j, r);
    assert a * (t * j) == j * (a * t) && ((a * t) % (r * s)) * j == j * ((a * t) % (r * s));
    ModuloOfModulo(a * t, r, s);
    ModuloTimes(j, a * t, r);
    ModuloTimes(j, (a * t) % (r * s), r);
  }

  /** Scaling `n` times multiplies by the power. */
  lemma {:induction false} ScaleTimes(a: nat, n: nat, j: nat, r: nat, s: nat)
    requires r > 0 && s > 0 && r * s > 0 && j < r
    ensures Iter(Scaling(a, r), j, n) == (Power(a, n, r * s) * j) % r
    decreases n
  {
    if n == 0 {
      ModuloUnique(j, r, 0, j);
    } else {
      ScaleTimes(a, n - 1, j, r, s);
      IterLast(Scaling(a, r), j, n - 1);
      IterLast(Scaling(a, r * s), 1, n - 1);
      ScaleMore(a, Power(a, n - 1, r * s), j, r, s);
    }
  }

  lemma {:induction false} PowerBelow(a: nat, n: nat)
    ensures Power(a, n, M) < M
    decreases n
  {
    if n > 0 { IterLast(Scaling(a, M), 1, n - 1); }
  }

  /** Squaring a power; `q` is the quotient that shows the remainder. */
  lemma PowerDouble(a: nat, n: nat, v: nat, q: nat, w: nat)
    requires Power(a, n, M) == v && v * v == M * q + w && w < M
    ensures Power(a, n + n, M) == w
  {
    PowerBelow(a, n);
    IterAdd(Scaling(a, M), 1, n, n);
    ScaleTimes(a, n, v, M, 1);
    ModuloUnique(v * v, M, q, w);
  }

  lemma PowerDoubleNext(a: nat, n: nat, v: nat, q: nat, w: nat, q': nat, w': nat)
    requires Power(a, n, M) == v && v * v == M * q + w && w < M
    requires a * w == M * q' + w' && w' < M
    ensures Power(a, n + n + 1, M) == w'
  {
    PowerDouble(a, n, v, q, w);
    IterLast(Scaling(a, M), 1, n + n);
    ModuloUnique(a * w, M, q', w');
  }

  lemma PowerOne(a: nat)
    requires a < M
    ensures Power(a, 1, M) == a
  {
    assert Iter(Scaling(a, M), 1, 1) == Iter(Scaling(a, M), Scaling(a, M)(1), 0);
    ModuloUnique(a, M, 0, a);
  }

  lemma OrderOfTwo()
    ensures Power(2, 31, M) == 1
  {
    PowerOne(2);
    PowerDoubleNext(2, 1, 2, 0, 4, 0, 8);
    PowerDoubleNext(2, 3, 8, 0, 64, 0, 128);
    PowerDoubleNext(2, 7, 128, 0, 16384, 0, 32768);
    PowerDoubleNext(2, 15, 32768, 0, 1073741824, 1, 1);
  }

  /** An element of order 331. */
  const ROOT: nat := 1090433

  lemma OrderOfRoot()
    ensures Power(ROOT, 331, M) == 1
  {
    PowerOne(ROOT);
    PowerDouble(ROOT, 1, 1090433, 553, 1485670698);
    PowerDoubleNext(ROOT, 2, 1485670698, 1027815706, 2131047422, 1082087, 296382437);
    PowerDouble(ROOT, 5, 296382437, 40904874, 964463491);
    PowerDouble(ROOT, 10, 964463491, 433153391, 1656810104);
    PowerDoubleNext(ROOT, 20, 1656810104, 1278249417, 921707017, 468017, 893650362);
    PowerDouble(ROOT, 41, 893650362, 371882212, 622543880);
    PowerDoubleNext(ROOT, 82, 622543880, 180472099, 1183189347, 600790, 2008936121);
    PowerDoubleNext(ROOT, 165, 2008936121, 1879327157, 1238025062, 628635, 1);
  }

  predicate Between(j: nat, r: nat) { 1 <= j < r }

  function NonZero(r: nat): set<nat> { set j: nat | j < r && Between(j, r) }

  lemma {:induction false} NonZeroSize(r: nat)
    requires r > 0
    ensures |NonZero(r)| == r - 1
    decreases r
  {
    if r > 1 {
      NonZeroSize(r - 1);
      assert NonZero(r) == NonZero(r - 1) + {r - 1};
    } else {
      assert NonZero(r) == {};
    }
  }

  /** If `a - 1` is invertible, scaling by `a` fixes nothing but zero. */
  lemma NoFixedPoint(a: nat, b: nat, j: nat, r: nat, s: nat)
    requires r * s == M && r > 0 && s > 0 && 0 < j < r
    requires a > 0 && ((a - 1) * b) % M == 1
    ensures (a * j) % r != j
  {
    if (a * j) % r == j {
      var q := (a * j) / r;
      assert (a - 1) * j == r * q by { assert a * j == r * q + j; }
      ReducesToZero(a - 1, b, j, r, s, q);
    }
  }

  lemma ReducesToZero(c: nat, b: nat, j: nat, r: nat, s: nat, q: nat)
    requires r * s == M && r > 0 && s > 0 && c * j == r * q && (c * b) % M == 1
    ensures j % r == 0
  {
    MultipleModulo(r, q * b);
    assert j * (c * b) == r * (q * b) by { assert j * (c * b) == (c * j) * b; }
    ModuloOfModulo(c * b, r, s);
    ModuloTimes(j, c * b, r);
    ModuloTimes(j, 1, r);
    ModuloTimes(j, (c * b) % r, r);
  }

  lemma ScalingReturns(a: nat, p: nat, r: nat, s: nat, y: nat)
    requires r * s == M && r > 0 && s > 0 && y < r && Power(a, p, M) == 1
    ensures Iter(Scaling(a, r), y, p) == y
  {
    ScaleTimes(a, p, y, r, s);
    ModuloUnique(y, r, 0, y);
  }

  lemma ZeroStays(a: nat, n: nat, r: nat, s: nat)
    requires r * s == M && r > 0 && s > 0
    ensures Iter(Scaling(a, r), 0, n) == 0
  {
    ScaleTimes(a, n, 0, r, s);
  }

  /** What comes back to a residue other than zero does not pass through zero. */
  lemma NeverZero(f: nat -> nat, y: nat, p: nat, a: nat, r: nat, s: nat)
    requires r * s == M && r > 0 && s > 0 && f == Scaling(a, r)
    requires y > 0 && p > 0 && Iter(f, y, p) == y
    ensures f(y) != 0
  {
    ZeroStays(a, p - 1, r, s);
  }

  lemma ScalingCycle(a: nat, b: nat, p: nat, r: nat, s: nat, y: nat)
    requires r * s == M && r > 0 && s > 0 && 1 <= y < r && p > 0
    requires a > 0 && Power(a, p, M) == 1 && ((a - 1) * b) % M == 1
    ensures var f := Scaling(a, r); 1 <= f(y) < r && f(y) != y && Iter(f, y, p) == y
  {
    ScalingReturns(a, p, r, s, y);
    NoFixedPoint(a, b, y, r, s);
    NeverZero(Scaling(a, r), y, p, a, r, s);
  }

  /** Every divisor of 2^31 - 1 is one more than a multiple of the prime order of a suitable element. */
  lemma DivisorResidue(a: nat, b: nat, p: nat, r: nat, s: nat)
    requires r * s == M && r > 0 && s > 0 && Prime(p)
    requires a > 0 && Power(a, p, M) == 1 && ((a - 1) * b) % M == 1
    ensures (r - 1) % p == 0
  {
    var f := Scaling(a, r);
    forall y | y in NonZero(r) ensures f(y) in NonZero(r) && f(y) != y && Iter(f, y, p) == y {
      ScalingCycle(a, b, p, r, s, y);
    }
    CycleCount(f, p, NonZero(r));
    NonZeroSize(r);
  }

  lemma ProductAtLeast(b: nat, x: nat, y: nat)
    requires b <= x && b <= y
    ensures x * y >= b * b
  {
    assert x * y == b * b + b * (y - b) + (x - b) * y;
  }

  lemma SmallFactor(p: nat, q: nat, k: nat)
    requires q * k == p && p < 361
    ensures q < 19 || k < 19
  {
    if q >= 19 && k >= 19 { ProductAtLeast(19, q, k); }
  }

  /** No divisor from 2 to 18 divides a prime below 361 bigger than that. */
  ghost predicate Sieved(p: nat) {
    forall q: nat {:trigger Divides(q, p)} :: 2 <= q < 19 ==> !Divides(q, p)
  }

  lemma SievedPrime(p: nat)
    requires 19 <= p < 361 && Sieved(p)
    ensures Prime(p)
  {
    forall q: nat | Divides(q, p) ensures q == 1 || q == p {
      var k := p / q;
      assert q * k == p;
      SmallFactor(p, q, k);
      MultipleModulo(k, q);
      assert p == k * q;
      assert Divides(k, p);
    }
  }

  lemma Prime31()
    ensures Prime(31)
  {
    SievedPrime(31);
  }

  lemma Prime331()
    ensures Prime(331)
  {
    SievedPrime(331);
  }

  lemma ThreeResidues(n: nat)
    requires n % 2 == 0 && n % 31 == 0 && n % 331 == 0
    ensures n % 20522 == 0
  {
    var x, y, z := n / 2, n / 31, n / 331;
    assert n == 2 * x && n == 31 * y && n == 331 * z;
    var w := CommonMultiple(x, y, z);
    MultipleModulo(20522, w);
  }

  /** Bezout's identity for the three, spelled out. */
  lemma CommonMultiple(x: nat, y: nat, z: nat) returns (w: nat)
    requires 2 * x == 31 * y == 331 * z
    ensures 331 * z == 20522 * w
  {
    var k := 3 * y - 32 * z;
    assert z == 31 * k;
    assert k == 2 * (x - 5130 * k);
    w := x - 5130 * k;
  }

  lemma SmallDivisor(r: nat, s: nat)
    requires r * s == M && r <= s
    ensures r < 46341
  {
    if r >= 46341 { ProductAtLeast(46341, r, s); }
  }

  lemma EvenProduct(r: nat, s: nat)
    requires r % 2 == 0
    ensures (r * s) % 2 == 0
  {
    assert r * s == 2 * ((r / 2) * s);
  }

  lemma OddDivisor(r: nat, s: nat)
    requires r * s == M && r > 0
    ensures (r - 1) % 2 == 0
  {
    if r % 2 == 0 { EvenProduct(r, s); }
  }

  lemma RootInvertible()
    ensures ((ROOT - 1) * 1286122590) % M == 1
  {
    ModuloUnique((ROOT - 1) * 1286122590, M, 653057, 1);
  }

  lemma DivisorCandidates(r: nat, s: nat)
    requires r * s == M && r > 0 && s > 0
    ensures (r - 1) % 20522 == 0
  {
    OrderOfTwo();
    OrderOfRoot();
    Prime31();
    Prime331();
    OddDivisor(r, s);
    RootInvertible();
    DivisorResidue(2, 1, 31, r, s);
    DivisorResidue(ROOT, 1286122590, 331, r, s);
    ThreeResidues(r - 1);
  }

  lemma SmallerDivisor(r: nat, s: nat)
    requires r * s == M && 0 < r <= s
    ensures r == 1
  {
    SmallDivisor(r, s);
    DivisorCandidates(r, s);
    assert r == 1 || r == 20523 || r == 41045;
  }

  /** 2^31 - 1 has no divisors but one and itself. */
  lemma NoProperDivisor(r: nat, s: nat)
    requires r * s == M
    ensures r == 1 || s == 1
  {
    if r <= s { SmallerDivisor(r, s); } else { SmallerDivisor(s, r); }
  }

  /** What comes back after 2^31 - 1 steps comes back sooner only if it never moves. */
  lemma ReturnsSooner<T>(f: T -> T, x: T, d: nat)
    requires Iter(f, x, M) == x
    requires 0 < d < M && Iter(f, x, d) == x
    ensures f(x) == x
  {
    var r := CommonPeriod(f, x, d, M);
    var s := M / r;
    assert r * s == M;
    NoProperDivisor(r, s);
    assert Iter(f, x, 1) == f(x);
  }
}
