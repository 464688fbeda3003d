/**
 The CRC32C register: 32 bits, clocked with the reflected Castagnoli polynomial.
 CRC32C is the checksum of section 12.1 of RFC 3720.
 */
module Lfsr {
  import opened Iteration
  import opened Register

  /** The Castagnoli polynomial 0x1EDC6F41 with its bits in reverse, as a register that shifts right needs it. */
  const POLY: bv32 := 0x82F6_3B78

  /** One clock of the register with no input. */
  function Step(crc: bv32): bv32 {
    if crc & 1 != 0 then (crc >> 1) ^ POLY else crc >> 1
  }

  function Xor(x: bv32, y: bv32): bv32 { x ^ y }

  /** The register with the source's clock: the reference definition of the checksum. */
  const CRC: Register<bv32> := Register(Step, Xor, 1)

  // ---------- The clock is linear, one case per pair of low bits ----------

  lemma StepOdd(a: bv32)
    requires a & 1 != 0
    ensures Step(a) == (a >> 1) ^ POLY
  {
  }

  lemma StepEven(a: bv32)
    requires a & 1 == 0
    ensures Step(a) == a >> 1
  {
  }

  lemma StepXorOddOdd(a: bv32, b: bv32)
    requires a & 1 != 0 && b & 1 != 0
    ensures Step(a ^ b) == ((a >> 1) ^ POLY) ^ ((b >> 1) ^ POLY)
  {
  }

  lemma StepXorOddEven(a: bv32, b: bv32)
    requires a & 1 != 0 && b & 1 == 0
    ensures Step(a ^ b) == ((a >> 1) ^ POLY) ^ (b >> 1)
  {
  }

  lemma StepXorEvenEven(a: bv32, b: bv32)
    requires a & 1 == 0 && b & 1 == 0
    ensures Step(a ^ b) == (a >> 1) ^ (b >> 1)
  {
  }

  lemma LinearOddOdd(a: bv32, b: bv32)
    requires a & 1 != 0 && b & 1 != 0
    ensures Step(Xor(a, b)) == Xor(Step(a), Step(b))
  {
    StepXorOddOdd(a, b);
    StepOdd(a);
    StepOdd(b);
  }

  lemma LinearOddEven(a: bv32, b: bv32)
    requires a & 1 != 0 && b & 1 == 0
    ensures Step(Xor(a, b)) == Xor(Step(a), Step(b))
  {
    StepXorOddEven(a, b);
    StepOdd(a);
    StepEven(b);
  }

  lemma LinearEvenEven(a: bv32, b: bv32)
    requires a & 1 == 0 && b & 1 == 0
    ensures Step(Xor(a, b)) == Xor(Step(a), Step(b))
  {
    StepXorEvenEven(a, b);
    StepEven(a);
    StepEven(b);
  }

  lemma XorCommutes(a: bv32, b: bv32)
    ensures Xor(a, b) == Xor(b, a)
  {
  }

  /** The clock is linear over exclusive or. */
  lemma StepXor(a: bv32, b: bv32)
    ensures Step(Xor(a, b)) == Xor(Step(a), Step(b))
  {
    if a & 1 != 0 {
      if b & 1 != 0 { LinearOddOdd(a, b); } else { LinearOddEven(a, b); }
    } else {
      if b & 1 != 0 {
        LinearOddEven(b, a);
        XorCommutes(a, b);
        XorCommutes(Step(a), Step(b));
      } else {
        LinearEvenEven(a, b);
      }
    }
  }

  // ---------- The clock can be run backwards ----------

  /** The clock undone: bit 31 of the polynomial tells which branch was taken. */
  function Unstep(crc: bv32): bv32 {
    if crc & 0x8000_0000 != 0 then ((crc ^ POLY) << 1) | 1 else crc << 1
  }

  lemma UnstepStep(crc: bv32)
    ensures Unstep(Step(crc)) == crc
  {
    if crc & 1 != 0 { StepOdd(crc); } else { StepEven(crc); }
  }

  lemma StepInjective(a: bv32, b: bv32)
    requires Step(a) == Step(b)
    ensures a == b
  {
    UnstepStep(a);
    UnstepStep(b);
  }

  // ---------- Exclusive or ----------

  lemma XorBothSides(a: bv32, b: bv32, c: bv32, ac: bv32, bc: bv32)
    requires ac == a ^ c && bc == b ^ c
    ensures Xor(ac, bc) == Xor(a, b)
  {
  }

  lemma XorSwap(a: bv32, b: bv32, c: bv32, ac: bv32, ab: bv32)
    requires ac == a ^ c && ab == a ^ b
    ensures Xor(ac, b) == Xor(ab, c)
  {
  }

  lemma XorAssociates(a: bv32, b: bv32, c: bv32, bc: bv32, ab: bv32)
    requires bc == b ^ c && ab == a ^ b
    ensures Xor(a, bc) == Xor(ab, c)
  {
  }

  lemma XorAssoc(a: bv32, b: bv32, c: bv32)
    ensures Xor(a, Xor(b, c)) == Xor(Xor(a, b), c)
  {
    XorAssociates(a, b, c, Xor(b, c), Xor(a, b));
  }

  lemma XorCancel(a: bv32, b: bv32, c: bv32)
    requires Xor(a, c) == Xor(b, c)
    ensures a == b
  {
    assert (a ^ c) ^ c == a;
    assert (b ^ c) ^ c == b;
  }

  lemma CrcXorLaws()
    ensures XorLaws(CRC)
  {
    forall a: bv32, b: bv32, c: bv32
      ensures Xor(Xor(a, c), Xor(b, c)) == Xor(a, b)
    {
      XorBothSides(a, b, c, Xor(a, c), Xor(b, c));
    }
    forall a: bv32, b: bv32, c: bv32
      ensures Xor(Xor(a, c), b) == Xor(Xor(a, b), c)
    {
      XorSwap(a, b, c, Xor(a, c), Xor(a, b));
    }
    forall a: bv32, b: bv32, c: bv32
      ensures Xor(a, Xor(b, c)) == Xor(Xor(a, b), c)
    {
      XorAssoc(a, b, c);
    }
    forall a: bv32, b: bv32, c: bv32 | Xor(a, c) == Xor(b, c) ensures a == b { XorCancel(a, b, c); }
  }

  /** The CRC32C register is linear, and its clock loses no information. */
  lemma CrcLinear()
    ensures Linear(CRC)
  {
    CrcXorLaws();
    forall a: bv32, b: bv32 ensures Step(Xor(a, b)) == Xor(Step(a), Step(b)) { StepXor(a, b); }
    forall a: bv32, b: bv32 | Step(a) == Step(b) ensures a == b { StepInjective(a, b); }
  }

  lemma XorZero(a: bv32)
    ensures Xor(a, 0) == a && Xor(0, a) == a
  {
  }

  lemma {:induction false} ClockedZero(n: nat)
    ensures Clocked(CRC, 0, n) == 0
    decreases n
  {
    if n > 0 {
      assert Step(0) == 0;
      ClockedZero(n - 1);
    }
  }

  // ---------- Words as bits, least significant first ----------

  function Low(w: bv32): bool { w & 1 != 0 }

  function Halve(w: bv32): bv32 { w >> 1 }

  function WordBits(w: bv32): seq<bool> { LowBits(Low, Halve, w, 32) }

  lemma OddSplit(w: bv32, s: bv32, one: bv32)
    requires w & 1 != 0 && one == Step(1)
    ensures Xor(s, Step(w)) == Xor(Xor(s, one), Halve(w))
  {
    StepOdd(w);
    StepOdd(1);
  }

  /** Clocking a word that has been mixed in reads its low bit and leaves the rest shifted. */
  lemma ClockWord(crc: bv32, w: bv32)
    ensures Step(Xor(crc, w)) == Xor(FeedBit(CRC, crc, Low(w)), Halve(w))
  {
    StepXor(crc, w);
    if w & 1 != 0 {
      StepXor(crc, 1);
      OddSplit(w, Step(crc), Step(1));
    } else {
      StepEven(w);
    }
  }

  lemma CrcClockedWord(crc: bv32, w: bv32, n: nat)
    ensures Clocked(CRC, Xor(crc, w), n) == Xor(Feed(CRC, crc, LowBits(Low, Halve, w, n)), Iter(Halve, w, n))
  {
    forall x: bv32, y: bv32 ensures Step(Xor(x, y)) == Xor(FeedBit(CRC, x, Low(y)), Halve(y)) { ClockWord(x, y); }
    ClockedWord(CRC, Low, Halve, crc, w, n);
  }

  function DropNibble(w: bv32): bv32 { w >> 4 }

  function DropByte(w: bv32): bv32 { w >> 8 }

  lemma FourHalves(w: bv32, a: bv32, b: bv32, c: bv32, d: bv32)
    requires a == Halve(w) && b == Halve(a) && c == Halve(b) && d == Halve(c)
    ensures d == DropNibble(w)
  {
  }

  lemma HalveNibble(w: bv32)
    ensures Iter(Halve, w, 4) == DropNibble(w)
  {
    IterFour(Halve, w);
    FourHalves(w, Halve(w), Halve(Halve(w)), Halve(Halve(Halve(w))), Halve(Halve(Halve(Halve(w)))));
  }

  lemma TwoNibbles(w: bv32, a: bv32, b: bv32)
    requires a == DropNibble(w) && b == DropNibble(a)
    ensures b == DropByte(w)
  {
  }

  lemma HalveByte(w: bv32)
    ensures Iter(Halve, w, 8) == DropByte(w)
  {
    IterAdd(Halve, w, 4, 4);
    HalveNibble(w);
    HalveNibble(DropNibble(w));
    TwoNibbles(w, DropNibble(w), DropNibble(DropNibble(w)));
  }

  lemma FourBytes(w: bv32, a: bv32, b: bv32, c: bv32, d: bv32)
    requires a == DropByte(w) && b == DropByte(a) && c == DropByte(b) && d == DropByte(c)
    ensures d == 0
  {
  }

  lemma {:induction false} HalveBytes(w: bv32, n: nat)
    ensures Iter(Halve, w, 8 * n) == Iter(DropByte, w, n)
    decreases n
  {
    if n > 0 {
      IterAdd(Halve, w, 8, 8 * (n - 1));
      HalveByte(w);
      HalveBytes(DropByte(w), n - 1);
    }
  }

  lemma HalveWord(w: bv32)
    ensures Iter(Halve, w, 32) == 0
  {
    HalveBytes(w, 4);
    IterFour(DropByte, w);
    FourBytes(w, DropByte(w), DropByte(DropByte(w)), DropByte(DropByte(DropByte(w))),
              DropByte(DropByte(DropByte(DropByte(w)))));
  }

  lemma LowXor(a: bv32, b: bv32)
    ensures Low(Xor(a, b)) == (Low(a) != Low(b))
  {
  }

  lemma HalveXor(a: bv32, b: bv32)
    ensures Halve(Xor(a, b)) == Xor(Halve(a), Halve(b))
  {
  }

  lemma WordBitsXor(a: bv32, b: bv32, n: nat)
    ensures LowBits(Low, Halve, Xor(a, b), n) == XorBits(LowBits(Low, Halve, a, n), LowBits(Low, Halve, b, n))
  {
    forall x: bv32, y: bv32 ensures Low(Xor(x, y)) == (Low(x) != Low(y)) { LowXor(x, y); }
    forall x: bv32, y: bv32 ensures Halve(Xor(x, y)) == Xor(Halve(x), Halve(y)) { HalveXor(x, y); }
    LowBitsXor(Low, Halve, Xor, a, b, n);
  }

  // ---------- Parity ----------

  /** Whether an odd number of the 32 bits are set. */
  function Parity(w: bv32): bool { OddOnes(WordBits(w)) }

  lemma ParityXor(a: bv32, b: bv32)
    ensures Parity(Xor(a, b)) == (Parity(a) != Parity(b))
  {
    WordBitsXor(a, b, 32);
    OddOnesXor(WordBits(a), WordBits(b));
  }

  lemma {:induction false} ZeroBits(n: nat)
    ensures LowBits(Low, Halve, 0, n) == Zeros(n) && !OddOnes(Zeros(n))
    decreases n
  {
    if n > 0 {
      ZeroBits(n - 1);
      assert Zeros(n)[1..] == Zeros(n - 1);
    }
  }

  lemma ParityHalve(w: bv32)
    ensures Parity(Halve(w)) == (Parity(w) != Low(w))
  {
    var rest := LowBits(Low, Halve, Halve(w), 31);
    LowBitsSplit(Low, Halve, Halve(w), 31, 1);
    HalveWord(w);
    ZeroBits(1);
    OddOnesAppend(rest, Zeros(1));
    assert WordBits(w)[1..] == rest;
  }

  lemma ParityOne()
    ensures Parity(1)
  {
    ParityHalve(1);
    ZeroBits(32);
  }

  lemma ParityNibble(w: bv32, a: bv32, b: bv32, c: bv32, d: bv32)
    requires a == Halve(w) && b == Halve(a) && c == Halve(b) && d == Halve(c)
    ensures Parity(w) == (Parity(d) != ((Low(w) != Low(a)) != (Low(b) != Low(c))))
  {
    ParityHalve(w);
    ParityHalve(a);
    ParityHalve(b);
    ParityHalve(c);
  }

  /** The polynomial has 17 set bits. */
  lemma ParityPoly()
    ensures Parity(POLY)
  {
    ParityNibble(0x82F6_3B78, 0x417B_1DBC, 0x20BD_8EDE, 0x105E_C76F, 0x082F_63B7);
    ParityNibble(0x082F_63B7, 0x0417_B1DB, 0x020B_D8ED, 0x0105_EC76, 0x0082_F63B);
    ParityNibble(0x0082_F63B, 0x0041_7B1D, 0x0020_BD8E, 0x0010_5EC7, 0x0008_2F63);
    ParityNibble(0x0008_2F63, 0x0004_17B1, 0x0002_0BD8, 0x0001_05EC, 0x0000_82F6);
    ParityNibble(0x0000_82F6, 0x0000_417B, 0x0000_20BD, 0x0000_105E, 0x0000_082F);
    ParityNibble(0x0000_082F, 0x0000_0417, 0x0000_020B, 0x0000_0105, 0x0000_0082);
    ParityNibble(0x0000_0082, 0x0000_0041, 0x0000_0020, 0x0000_0010, 0x0000_0008);
    ParityNibble(0x0000_0008, 0x0000_0004, 0x0000_0002, 0x0000_0001, 0x0000_0000);
    ZeroBits(32);
  }

  /** The clock keeps the parity of the register. */
  lemma StepParity(w: bv32)
    ensures Parity(Step(w)) == Parity(w)
  {
    ParityHalve(w);
    ParityPoly();
    ParityXor(Halve(w), POLY);
  }

  /** Reading bits changes the parity of the register exactly when an odd number of them are set. */
  lemma CrcParity(crc: bv32, bits: seq<bool>)
    ensures Parity(Feed(CRC, crc, bits)) == (Parity(crc) != OddOnes(bits))
  {
    forall w: bv32 ensures Parity(Step(w)) == Parity(w) { StepParity(w); }
    forall w: bv32 ensures Parity(Xor(w, 1)) != Parity(w) { ParityXor(w, 1); ParityOne(); }
    FeedParity(CRC, Parity, crc, bits);
  }
}
