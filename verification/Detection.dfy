/** Which corruptions of a bit string the CRC32C register can tell from the original. */
module Detection {
  import opened Iteration
  import opened Register
  import opened Lfsr
  import opened Bytes
  import opened Mersenne
  import opened Period

  /** The number of positions at which two bit strings differ. */
  function Distance(x: seq<bool>, y: seq<bool>): nat
    requires |x| == |y|
    decreases |x|
  {
    if x == [] then 0 else (if x[0] != y[0] then 1 else 0) + Distance(x[1..], y[1..])
  }

  lemma {:induction false} DistanceAppend(x: seq<bool>, y: seq<bool>, u: seq<bool>, v: seq<bool>)
    requires |x| == |y| && |u| == |v|
    ensures Distance(x + u, y + v) == Distance(x, y) + Distance(u, v)
    decreases |x|
  {
    if x == [] {
      assert x + u == u && y + v == v;
    } else {
      assert (x + u)[1..] == x[1..] + u && (y + v)[1..] == y[1..] + v;
      DistanceAppend(x[1..], y[1..], u, v);
    }
  }

  lemma {:induction false} DistanceZero(x: seq<bool>, y: seq<bool>)
    requires |x| == |y|
    ensures Distance(x, y) == 0 <==> x == y
    decreases |x|
  {
    if x != [] {
      DistanceZero(x[1..], y[1..]);
      assert x == [x[0]] + x[1..] && y == [y[0]] + y[1..];
    }
  }

  lemma {:induction false} DistanceParity(x: seq<bool>, y: seq<bool>)
    requires |x| == |y|
    ensures (Distance(x, y) % 2 == 1) == (OddOnes(x) != OddOnes(y))
    decreases |x|
  {
    if x != [] {
      DistanceParity(x[1..], y[1..]);
    }
  }

  /** An odd number of flipped bits always changes the register. */
  lemma OddFlipsChange(crc: bv32, x: seq<bool>, y: seq<bool>)
    requires |x| == |y| && Distance(x, y) % 2 == 1
    ensures Feed(CRC, crc, x) != Feed(CRC, crc, y)
  {
    DistanceParity(x, y);
    CrcParity(crc, x);
    CrcParity(crc, y);
  }

  // ---------- Two flipped bits ----------

  lemma XorSelf(a: bv32)
    ensures Xor(a, a) == 0
  {
  }

  lemma XorOneZero(a: bv32, b: bv32)
    ensures Xor(a, b) == 0 <==> a == b
  {
    XorSelf(b);
    if Xor(a, b) == 0 { XorCancel(a, b, b); }
  }

  /** Registers that differ by a shifted 1 still differ after the bit that is flipped next. */
  lemma FlippedApart(a: bv32, b: bv32, p: bool, n: nat)
    requires 0 < n < M && Xor(a, b) == Shifted(n)
    ensures FeedBit(CRC, a, p) != FeedBit(CRC, b, !p)
  {
    CrcLinear();
    FeedBitXor(CRC, a, b, p, !p);
    NoEarlyReturn(n);
    XorOneZero(Shifted(n), 1);
    if FeedBit(CRC, a, p) == FeedBit(CRC, b, !p) {
      XorOneZero(FeedBit(CRC, a, p), FeedBit(CRC, b, !p));
      StepInjective(Xor(Shifted(n), 1), 0);
    }
  }

  /** Equal bits only clock the difference. */
  lemma ClockedApart(a: bv32, b: bv32, p: bool, n: nat)
    requires Xor(a, b) == Shifted(n)
    ensures Xor(FeedBit(CRC, a, p), FeedBit(CRC, b, p)) == Shifted(n + 1)
  {
    CrcLinear();
    FeedBitXor(CRC, a, b, p, p);
    IterLast(Step, 1, n);
  }

  lemma StayApart(a: bv32, b: bv32, bits: seq<bool>)
    requires a != b
    ensures Feed(CRC, a, bits) != Feed(CRC, b, bits)
  {
    CrcLinear();
    if Feed(CRC, a, bits) == Feed(CRC, b, bits) { FeedInjective(CRC, a, b, bits); }
  }

  lemma FlipHere(a: bv32, b: bv32, x: seq<bool>, y: seq<bool>, n: nat)
    requires |x| == |y| && Distance(x, y) == 1 && x[0] != y[0]
    requires 0 < n < M && Xor(a, b) == Shifted(n)
    ensures Feed(CRC, a, x) != Feed(CRC, b, y)
  {
    DistanceZero(x[1..], y[1..]);
    FlippedApart(a, b, x[0], n);
    StayApart(FeedBit(CRC, a, x[0]), FeedBit(CRC, b, y[0]), x[1..]);
  }

  /** After the first flipped bit, a second one before the register's period is over leaves a trace. */
  lemma {:induction false} SecondFlip(a: bv32, b: bv32, x: seq<bool>, y: seq<bool>, n: nat)
    requires |x| == |y| && Distance(x, y) == 1
    requires 0 < n && n + |x| <= M && Xor(a, b) == Shifted(n)
    ensures Feed(CRC, a, x) != Feed(CRC, b, y)
    decreases |x|
  {
    if x[0] == y[0] {
      ClockedApart(a, b, x[0], n);
      SecondFlip(FeedBit(CRC, a, x[0]), FeedBit(CRC, b, y[0]), x[1..], y[1..], n + 1);
    } else {
      FlipHere(a, b, x, y, n);
    }
  }

  /** Two flipped bits in up to 2^31 - 1 always change the register. */
  lemma {:induction false} TwoFlipsChange(crc: bv32, x: seq<bool>, y: seq<bool>)
    requires |x| == |y| <= M && Distance(x, y) == 2
    ensures Feed(CRC, crc, x) != Feed(CRC, crc, y)
    decreases |x|
  {
    if x[0] == y[0] {
      TwoFlipsChange(FeedBit(CRC, crc, x[0]), x[1..], y[1..]);
    } else {
      CrcLinear();
      FeedBitXor(CRC, crc, crc, x[0], y[0]);
      XorOneZero(crc, crc);
      assert Step(Xor(0, 1)) == Shifted(1);
      SecondFlip(FeedBit(CRC, crc, x[0]), FeedBit(CRC, crc, y[0]), x[1..], y[1..], 1);
    }
  }

  // ---------- Bursts ----------

  /** Every 32 bits are the bits of some word. */
  lemma PackWord(u: seq<bool>) returns (w: bv32)
    requires |u| == 32
    ensures WordBits(w) == u
  {
    var b0, b1, b2, b3 := PackByte(u[..8]), PackByte(u[8..16]), PackByte(u[16..24]), PackByte(u[24..]);
    PackByteBits(u[..8]);
    PackByteBits(u[8..16]);
    PackByteBits(u[16..24]);
    PackByteBits(u[24..]);
    w := FromLe32(b0, b1, b2, b3);
    FourPacked(b0, b1, b2, b3, u[..8], u[8..16], u[16..24], u[24..]);
    FourQuarters(u);
  }

  lemma FourPacked(b0: bv8, b1: bv8, b2: bv8, b3: bv8, u0: seq<bool>, u1: seq<bool>, u2: seq<bool>, u3: seq<bool>)
    requires ByteBits(b0) == u0 && ByteBits(b1) == u1 && ByteBits(b2) == u2 && ByteBits(b3) == u3
    ensures WordBits(FromLe32(b0, b1, b2, b3)) == u0 + (u1 + (u2 + u3))
  {
    WordBitsOfBytes(b0, b1, b2, b3);
    FourBytesBits(b0, b1, b2, b3);
  }

  lemma FourQuarters(u: seq<bool>)
    requires |u| == 32
    ensures u == u[..8] + (u[8..16] + (u[16..24] + u[24..]))
  {
    assert u[16..] == u[16..24] + u[24..];
    assert u[8..] == u[8..16] + u[16..];
  }

  lemma ReadWordBits(crc: bv32, w: bv32)
    ensures Feed(CRC, crc, WordBits(w)) == Clocked(CRC, Xor(crc, w), 32)
  {
    CrcClockedWord(crc, w, 32);
    HalveWord(w);
    XorZero(Feed(CRC, crc, WordBits(w)));
  }

  lemma ClockedWordInjective(crc: bv32, w: bv32, v: bv32)
    requires Clocked(CRC, Xor(crc, w), 32) == Clocked(CRC, Xor(crc, v), 32)
    ensures w == v
  {
    CrcLinear();
    ClockedInjective(CRC, Xor(crc, w), Xor(crc, v), 32);
    XorCommutes(crc, w);
    XorCommutes(crc, v);
    XorCancel(w, v, crc);
  }

  /** Different 32 bits lead the same register to different ends. */
  lemma WindowChanges(crc: bv32, u: seq<bool>, v: seq<bool>)
    requires |u| == |v| == 32 && u != v
    ensures Feed(CRC, crc, u) != Feed(CRC, crc, v)
  {
    var w := PackWord(u);
    var w' := PackWord(v);
    ReadWordBits(crc, w);
    ReadWordBits(crc, w');
    if Feed(CRC, crc, u) == Feed(CRC, crc, v) {
      ClockedWordInjective(crc, w, w');
    }
  }

  /** `x` and `y` differ only inside the 32 bits from `i` on. */
  ghost predicate DifferWithin(x: seq<bool>, y: seq<bool>, i: nat)
    requires |x| == |y|
  {
    i + 32 <= |x| && x[..i] == y[..i] && x[i + 32..] == y[i + 32..]
  }

  /** Any change confined to 32 consecutive bits changes the register. */
  lemma BurstChanges(crc: bv32, x: seq<bool>, y: seq<bool>, i: nat)
    requires |x| == |y| && DifferWithin(x, y, i) && x != y
    ensures Feed(CRC, crc, x) != Feed(CRC, crc, y)
  {
    var u, v, tail := x[i..i + 32], y[i..i + 32], x[i + 32..];
    var start := Feed(CRC, crc, x[..i]);
    assert x == x[..i] + (u + tail) && y == y[..i] + (v + tail);
    FeedAppend(CRC, crc, x[..i], u + tail);
    FeedAppend(CRC, crc, y[..i], v + tail);
    FeedAppend(CRC, start, u, tail);
    FeedAppend(CRC, start, v, tail);
    WindowChanges(start, u, v);
    CrcLinear();
    if Feed(CRC, crc, x) == Feed(CRC, crc, y) {
      FeedInjective(CRC, Feed(CRC, start, u), Feed(CRC, start, v), tail);
    }
  }
}
