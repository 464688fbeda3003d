/**
 A linear feedback shift register over an arbitrary word type, read one bit at a time.
 Every law the checksum proofs need is proved here once, from four facts about a
 single clock, so that no induction has to look at the bits of a word.
 */
module Register {
  import opened Iteration

  /** `step` is one clock without input, `xor` is exclusive or, `one` the word with only the input bit set. */
  datatype Register<!T> = Register(step: T -> T, xor: (T, T) -> T, one: T)

  /** One clock with one input bit. */
  function FeedBit<T>(r: Register<T>, word: T, b: bool): T {
    r.step(if b then r.xor(word, r.one) else word)
  }

  /** The register after reading `bits` from first to last. */
  function Feed<T>(r: Register<T>, word: T, bits: seq<bool>): T
    decreases |bits|
  {
    if bits == [] then word else Feed(r, FeedBit(r, word, bits[0]), bits[1..])
  }

  /** `n` clocks without input. */
  function Clocked<T>(r: Register<T>, word: T, n: nat): T { Iter(r.step, word, n) }

  /** Exclusive or as the proofs use it: terms may be regrouped and equal terms cancel. */
  ghost predicate XorLaws<T(!new)>(r: Register<T>) {
    && (forall a, b, c :: r.xor(r.xor(a, c), r.xor(b, c)) == r.xor(a, b))
    && (forall a, b, c :: r.xor(r.xor(a, c), b) == r.xor(r.xor(a, b), c))
    && (forall a, b, c :: r.xor(a, r.xor(b, c)) == r.xor(r.xor(a, b), c))
    && (forall a, b, c :: r.xor(a, c) == r.xor(b, c) ==> a == b)
  }

  ghost predicate Linear<T(!new)>(r: Register<T>) {
    XorLaws(r) && Homomorphic(r.step, r.xor) && Injective(r.step)
  }

  lemma {:induction false} FeedAppend<T>(r: Register<T>, word: T, x: seq<bool>, y: seq<bool>)
    ensures Feed(r, word, x + y) == Feed(r, Feed(r, word, x), y)
    decreases |x|
  {
    if x == [] {
      assert x + y == y;
    } else {
      assert (x + y)[1..] == x[1..] + y;
      FeedAppend(r, FeedBit(r, word, x[0]), x[1..], y);
    }
  }

  /** Two registers that read the same bits to the same end were equal to begin with. */
  lemma {:induction false} FeedInjective<T(!new)>(r: Register<T>, a: T, b: T, bits: seq<bool>)
    requires Linear(r)
    requires Feed(r, a, bits) == Feed(r, b, bits)
    ensures a == b
    decreases |bits|
  {
    if bits != [] {
      FeedInjective(r, FeedBit(r, a, bits[0]), FeedBit(r, b, bits[0]), bits[1..]);
    }
  }

  /** Bitwise exclusive or of two bit strings. */
  function XorBits(x: seq<bool>, y: seq<bool>): (r: seq<bool>)
    requires |x| == |y|
    ensures |r| == |x|
  {
    seq(|x|, i requires 0 <= i < |x| => x[i] != y[i])
  }

  lemma FeedBitXor<T(!new)>(r: Register<T>, a: T, b: T, p: bool, q: bool)
    requires Linear(r)
    ensures FeedBit(r, r.xor(a, b), p != q) == r.xor(FeedBit(r, a, p), FeedBit(r, b, q))
  {
    var a' := if p then r.xor(a, r.one) else a;
    var b' := if q then r.xor(b, r.one) else b;
    assert (if p != q then r.xor(r.xor(a, b), r.one) else r.xor(a, b)) == r.xor(a', b');
  }

  /** A word mixed into both sides of a difference drops out of it. */
  lemma MixedDifference<T(!new)>(r: Register<T>, a: T, b: T, v: T, m: T)
    requires XorLaws(r)
    ensures r.xor(r.xor(a, v), r.xor(b, r.xor(v, m))) == r.xor(r.xor(a, b), m)
  {
    assert r.xor(b, r.xor(v, m)) == r.xor(r.xor(b, m), v);
    assert r.xor(r.xor(a, v), r.xor(r.xor(b, m), v)) == r.xor(a, r.xor(b, m));
  }

  /** Equal bits only clock the difference of two registers. */
  lemma {:induction false} FeedSame<T(!new)>(r: Register<T>, a: T, b: T, bits: seq<bool>)
    requires Linear(r)
    ensures r.xor(Feed(r, a, bits), Feed(r, b, bits)) == Clocked(r, r.xor(a, b), |bits|)
    decreases |bits|
  {
    if bits != [] {
      FeedBitXor(r, a, b, bits[0], bits[0]);
      FeedSame(r, FeedBit(r, a, bits[0]), FeedBit(r, b, bits[0]), bits[1..]);
    }
  }

  function Zeros(n: nat): (r: seq<bool>)
    ensures |r| == n
  {
    seq(n, _ => false)
  }

  lemma ClockedXor<T(!new)>(r: Register<T>, a: T, b: T, n: nat)
    requires Linear(r)
    ensures Clocked(r, r.xor(a, b), n) == r.xor(Clocked(r, a, n), Clocked(r, b, n))
  {
    IterHomomorphic(r.step, r.xor, a, b, n);
  }

  lemma ClockedAdd<T>(r: Register<T>, a: T, m: nat, n: nat)
    ensures Clocked(r, a, m + n) == Clocked(r, Clocked(r, a, m), n)
  {
    IterAdd(r.step, a, m, n);
  }

  lemma ClockedInjective<T(!new)>(r: Register<T>, a: T, b: T, n: nat)
    requires Linear(r)
    requires Clocked(r, a, n) == Clocked(r, b, n)
    ensures a == b
  {
    IterInjective(r.step, a, b, n);
  }

  /** If eight clocks split a word into a byte's worth and a remainder, so do any more clocks. */
  lemma ClockedSplit<T(!new)>(r: Register<T>, w: T, x: T, d: T, m: nat)
    requires Linear(r)
    requires Clocked(r, w, 8) == r.xor(Clocked(r, x, 8), d)
    ensures Clocked(r, w, 8 + m) == r.xor(Clocked(r, x, 8 + m), Clocked(r, d, m))
  {
    ClockedAdd(r, w, 8, m);
    ClockedAdd(r, x, 8, m);
    ClockedXor(r, Clocked(r, x, 8), d, m);
  }

  /** Mixing a second word in half way through. */
  lemma MixHalfway<T(!new)>(r: Register<T>, a: T, b: T, m: nat)
    requires Linear(r)
    ensures Clocked(r, r.xor(Clocked(r, a, m), b), m) == r.xor(Clocked(r, a, m + m), Clocked(r, b, m))
  {
    ClockedXor(r, Clocked(r, a, m), b, m);
    ClockedAdd(r, a, m, m);
  }

  /** Whether an odd number of bits are set. */
  function OddOnes(bits: seq<bool>): bool
    decreases |bits|
  {
    if bits == [] then false else bits[0] != OddOnes(bits[1..])
  }

  lemma {:induction false} OddOnesAppend(x: seq<bool>, y: seq<bool>)
    ensures OddOnes(x + y) == (OddOnes(x) != OddOnes(y))
    decreases |x|
  {
    if x == [] {
      assert x + y == y;
    } else {
      assert (x + y)[1..] == x[1..] + y;
      OddOnesAppend(x[1..], y);
    }
  }

  lemma {:induction false} OddOnesXor(x: seq<bool>, y: seq<bool>)
    requires |x| == |y|
    ensures OddOnes(XorBits(x, y)) == (OddOnes(x) != OddOnes(y))
    decreases |x|
  {
    if x != [] {
      assert XorBits(x, y)[1..] == XorBits(x[1..], y[1..]);
      OddOnesXor(x[1..], y[1..]);
    }
  }

  /** A one-bit quantity `q` that the clock keeps and the input bit toggles counts the input bits modulo two. */
  lemma {:induction false} FeedParity<T(!new)>(r: Register<T>, q: T -> bool, word: T, bits: seq<bool>)
    requires forall w :: q(r.step(w)) == q(w)
    requires forall w :: q(r.xor(w, r.one)) != q(w)
    ensures q(Feed(r, word, bits)) == (q(word) != OddOnes(bits))
    decreases |bits|
  {
    if bits != [] {
      FeedParity(r, q, FeedBit(r, word, bits[0]), bits[1..]);
    }
  }

  // ---------- Words as bits, least significant first ----------

  /** The low `n` bits of `word`: `low` reads one and `halve` drops it. */
  function LowBits<T>(low: T -> bool, halve: T -> T, word: T, n: nat): (bits: seq<bool>)
    ensures |bits| == n
    decreases n
  {
    if n == 0 then [] else [low(word)] + LowBits(low, halve, halve(word), n - 1)
  }

  lemma {:induction false} LowBitsSplit<T>(low: T -> bool, halve: T -> T, word: T, m: nat, n: nat)
    ensures LowBits(low, halve, word, m + n) == LowBits(low, halve, word, m) + LowBits(low, halve, Iter(halve, word, m), n)
    decreases m
  {
    if m > 0 {
      LowBitsSplit(low, halve, halve(word), m - 1, n);
    }
  }

  lemma {:induction false} LowBitsXor<T(!new)>(low: T -> bool, halve: T -> T, xor: (T, T) -> T, a: T, b: T, n: nat)
    requires forall x, y :: low(xor(x, y)) == (low(x) != low(y))
    requires Homomorphic(halve, xor)
    ensures LowBits(low, halve, xor(a, b), n) == XorBits(LowBits(low, halve, a, n), LowBits(low, halve, b, n))
    decreases n
  {
    if n > 0 {
      LowBitsXor(low, halve, xor, halve(a), halve(b), n - 1);
    }
  }

  /** Mixing in a word and clocking `n` times reads its low `n` bits. */
  lemma {:induction false} ClockedWord<T(!new)>(r: Register<T>, low: T -> bool, halve: T -> T, a: T, w: T, n: nat)
    requires forall x, y :: r.step(r.xor(x, y)) == r.xor(FeedBit(r, x, low(y)), halve(y))
    ensures Clocked(r, r.xor(a, w), n) == r.xor(Feed(r, a, LowBits(low, halve, w, n)), Iter(halve, w, n))
    decreases n
  {
    if n > 0 {
      ClockedWord(r, low, halve, FeedBit(r, a, low(w)), halve(w), n - 1);
      assert LowBits(low, halve, w, n)[1..] == LowBits(low, halve, halve(w), n - 1);
    }
  }
}
