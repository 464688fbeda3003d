/**
 The period of the CRC32C register.  A lone 1 shifted into the register comes back for the
 first time after 2^31 - 1 clocks, so two flipped bits closer than that never cancel.
 */
module Period {
  import opened Iteration
  import opened Mersenne
  import opened Register
  import opened Lfsr

  // ---------- Multiplying register states ----------

  /** Clocking after reading is reading with every input bit clocked first. */
  lemma {:induction false} ClockedFeed<T(!new)>(r: Register<T>, c: T, a: T, bits: seq<bool>, k: nat)
    requires Linear(r) && c == Clocked(r, r.one, k)
    ensures Feed(Register(r.step, r.xor, c), Clocked(r, a, k), bits) == Clocked(r, Feed(r, a, bits), k)
    decreases |bits|
  {
    if bits != [] {
      var a' := if bits[0] then r.xor(a, r.one) else a;
      ClockedXor(r, a, r.one, k);
      IterLast(r.step, a', k);
      assert Clocked(r, r.step(a'), k) == Iter(r.step, a', k + 1);
      ClockedFeed(r, c, r.step(a'), bits[1..], k);
    }
  }

  /** One bit of a multiplication: `c` is mixed in if the bit is set, then the register is clocked. */
  function Mix(acc: bv32, b: bool, c: bv32): bv32 { Step(if b then Xor(acc, c) else acc) }

  function Mix4(acc: bv32, a: bv32, c: bv32): bv32 {
    Mix(Mix(Mix(Mix(acc, Low(a), c), Low(Halve(a)), c), Low(Halve(Halve(a))), c), Low(Halve(Halve(Halve(a)))), c)
  }

  function Mix8(acc: bv32, a: bv32, c: bv32): bv32 { Mix4(Mix4(acc, a, c), DropNibble(a), c) }

  function Mix16(acc: bv32, a: bv32, c: bv32): bv32 { Mix8(Mix8(acc, a, c), DropByte(a), c) }

  function DropHalf(w: bv32): bv32 { w >> 16 }

  function Multiply(a: bv32, c: bv32): bv32 { Mix16(Mix16(0, a, c), DropHalf(a), c) }

  /** The register that takes `c` for an input bit. */
  function Taking(c: bv32): Register<bv32> { Register(Step, Xor, c) }

  lemma FeedOne(acc: bv32, b: bool, rest: seq<bool>, c: bv32)
    ensures Feed(Taking(c), acc, [b] + rest) == Feed(Taking(c), Mix(acc, b, c), rest)
  {
    assert ([b] + rest)[1..] == rest;
  }

  lemma NibbleBits(a: bv32)
    ensures LowBits(Low, Halve, a, 4)
            == [Low(a)] + ([Low(Halve(a))] + ([Low(Halve(Halve(a)))] + ([Low(Halve(Halve(Halve(a))))] + [])))
  {
    assert LowBits(Low, Halve, a, 4) == [Low(a)] + LowBits(Low, Halve, Halve(a), 3);
    assert LowBits(Low, Halve, Halve(Halve(a)), 2) == [Low(Halve(Halve(a)))] + LowBits(Low, Halve, Halve(Halve(Halve(a))), 1);
    assert LowBits(Low, Halve, Halve(Halve(Halve(a))), 1) == [Low(Halve(Halve(Halve(a))))] + [];
  }

  lemma FeedNibble(acc: bv32, a: bv32, c: bv32)
    ensures Feed(Taking(c), acc, LowBits(Low, Halve, a, 4)) == Mix4(acc, a, c)
  {
    var b0, b1, b2, b3 := Low(a), Low(Halve(a)), Low(Halve(Halve(a))), Low(Halve(Halve(Halve(a))));
    NibbleBits(a);
    FeedOne(acc, b0, [b1] + ([b2] + ([b3] + [])), c);
    FeedOne(Mix(acc, b0, c), b1, [b2] + ([b3] + []), c);
    FeedOne(Mix(Mix(acc, b0, c), b1, c), b2, [b3] + [], c);
    FeedOne(Mix(Mix(Mix(acc, b0, c), b1, c), b2, c), b3, [], c);
  }

  lemma FeedByte(acc: bv32, a: bv32, c: bv32)
    ensures Feed(Taking(c), acc, LowBits(Low, Halve, a, 8)) == Mix8(acc, a, c)
  {
    LowBitsSplit(Low, Halve, a, 4, 4);
    HalveNibble(a);
    FeedAppend(Taking(c), acc, LowBits(Low, Halve, a, 4), LowBits(Low, Halve, DropNibble(a), 4));
    FeedNibble(acc, a, c);
    FeedNibble(Mix4(acc, a, c), DropNibble(a), c);
  }

  lemma FeedHalf(acc: bv32, a: bv32, c: bv32)
    ensures Feed(Taking(c), acc, LowBits(Low, Halve, a, 16)) == Mix16(acc, a, c)
  {
    LowBitsSplit(Low, Halve, a, 8, 8);
    HalveByte(a);
    FeedAppend(Taking(c), acc, LowBits(Low, Halve, a, 8), LowBits(Low, Halve, DropByte(a), 8));
    FeedByte(acc, a, c);
    FeedByte(Mix8(acc, a, c), DropByte(a), c);
  }

  lemma TwoDrops(w: bv32, b: bv32, h: bv32)
    requires b == DropByte(w) && h == DropByte(b)
    ensures h == DropHalf(w)
  {
  }

  lemma HalveHalf(w: bv32)
    ensures Iter(Halve, w, 16) == DropHalf(w)
  {
    IterAdd(Halve, w, 8, 8);
    HalveByte(w);
    HalveByte(DropByte(w));
    TwoDrops(w, DropByte(w), DropByte(DropByte(w)));
  }

  lemma FeedWord(a: bv32, c: bv32)
    ensures Feed(Taking(c), 0, WordBits(a)) == Multiply(a, c)
  {
    LowBitsSplit(Low, Halve, a, 16, 16);
    HalveHalf(a);
    FeedAppend(Taking(c), 0, LowBits(Low, Halve, a, 16), LowBits(Low, Halve, DropHalf(a), 16));
    FeedHalf(0, a, c);
    FeedHalf(Mix16(0, a, c), DropHalf(a), c);
  }

  /** The register `n` clocks after a lone 1. */
  function Shifted(n: nat): bv32 { Clocked(CRC, 1, n) }

  /** Multiplying by a shifted 1 clocks 32 times more than it was shifted. */
  lemma MultiplyClocks(a: bv32, k: nat)
    ensures Multiply(a, Shifted(k)) == Clocked(CRC, a, 32 + k)
  {
    CrcLinear();
    CrcClockedWord(0, a, 32);
    HalveWord(a);
    XorZero(a);
    XorZero(Feed(CRC, 0, WordBits(a)));
    ClockedAdd(CRC, a, 32, k);
    ClockedFeed(CRC, Shifted(k), 0, WordBits(a), k);
    ClockedZero(k);
    FeedWord(a, Shifted(k));
  }

  // ---------- Going round once ----------

  lemma Square(n: nat, u: bv32, w: bv32)
    requires Shifted(n) == u && Multiply(u, u) == w
    ensures Shifted(n + (32 + n)) == w
  {
    MultiplyClocks(u, n);
    ClockedAdd(CRC, 1, n, 32 + n);
  }

  lemma SquareNext(n: nat, u: bv32, w: bv32, v: bv32)
    requires Shifted(n) == u && Multiply(u, u) == w && Step(w) == v
    ensures Shifted(n + (32 + n) + 1) == v
  {
    Square(n, u, w);
    IterLast(Step, 1, n + (32 + n));
  }

  lemma Lap1()
    ensures Shifted(224) == 0xa215_8b34
  {
    assert Shifted(0) == 1;
    Square(0, 0x0000_0001, 0xdd45_aab8);
    Square(32, 0xdd45_aab8, 0x3171_d430);
    Square(96, 0x3171_d430, 0xa215_8b34);
  }

  lemma Lap2()
    ensures Shifted(480) == 0x75bb_a45b && Shifted(992) == 0x7417_153f
    ensures Shifted(2016) == 0x1426_a815
  {
    Lap1();
    Square(224, 0xa215_8b34, 0x75bb_a45b);
    Square(480, 0x75bb_a45b, 0x7417_153f);
    Square(992, 0x7417_153f, 0x1426_a815);
  }

  lemma Lap3()
    ensures Shifted(4064) == 0xe986_c148
    ensures Shifted(16352) == 0x1aca_ec54
  {
    Lap2();
    Square(2016, 0x1426_a815, 0xe986_c148);
    Square(4064, 0xe986_c148, 0xcdc2_20dd);
    Square(8160, 0xcdc2_20dd, 0x1aca_ec54);
  }

  lemma Lap4()
    ensures Shifted(131040) == 0x7b66_d223
  {
    Lap3();
    Square(16352, 0x1aca_ec54, 0x6bae_74c4);
    Square(32736, 0x6bae_74c4, 0x508c_2ac8);
    Square(65504, 0x508c_2ac8, 0x7b66_d223);
  }

  lemma Lap5()
    ensures Shifted(1048544) == 0xf760_b4e7
  {
    Lap4();
    Square(131040, 0x7b66_d223, 0xc038_1349);
    Square(262112, 0xc038_1349, 0xf902_f73d);
    Square(524256, 0xf902_f73d, 0xf760_b4e7);
  }

  lemma Lap6()
    ensures Shifted(8388576) == 0xb2e4_d22a
  {
    Lap5();
    Square(1048544, 0xf760_b4e7, 0x7840_9f1e);
    Square(2097120, 0x7840_9f1e, 0xa70b_0dc6);
    Square(4194272, 0xa70b_0dc6, 0xb2e4_d22a);
  }

  lemma Lap7()
    ensures Shifted(67108832) == 0xfa0e_4598
  {
    Lap6();
    Square(8388576, 0xb2e4_d22a, 0xe69a_a612);
    Square(16777184, 0xe69a_a612, 0x7dd9_f837);
    Square(33554400, 0x7dd9_f837, 0xfa0e_4598);
  }

  lemma Lap8()
    ensures Shifted(536870887) == 0xbe3b_7d99
  {
    Lap7();
    SquareNext(67108832, 0xfa0e_4598, 0xa0ff_e38d, 0xd289_cabe);
    SquareNext(134217697, 0xd289_cabe, 0x74a6_54de, 0x3a53_2a6f);
    SquareNext(268435427, 0x3a53_2a6f, 0x799a_8dc3, 0xbe3b_7d99);
  }

  /** After 2^31 - 1 clocks the 1 is back. */
  lemma FullCycle()
    ensures Shifted(M) == 1
  {
    Lap8();
    SquareNext(536870887, 0xbe3b_7d99, 0xa74c_9e3c, 0x53a6_4f1e);
    SquareNext(1073741807, 0x53a6_4f1e, 0x0000_0002, 0x0000_0001);
  }

  /** And never before. */
  lemma NoEarlyReturn(d: nat)
    requires 0 < d < M
    ensures Shifted(d) != 1
  {
    if Shifted(d) == 1 {
      FullCycle();
      ReturnsSooner(Step, 1, d);
    }
  }
}
