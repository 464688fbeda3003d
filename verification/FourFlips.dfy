/**
 Three flipped bits is the most the checksum is certain to notice: on a page of any accepted
 size there are four bits of the payload it does not notice when they are flipped together.
 */
module FourFlips {
  import opened PageError
  import opened Register
  import opened Lfsr
  import opened Bytes
  import opened Fields
  import opened Crc32c
  import opened Page
  import opened Period
  import opened Detection

  function Flip(v: bv8, mask: bv8): bv8 { v ^ mask }

  // ---------- What a difference turns into ----------

  lemma ClockedXorCrc(a: bv32, b: bv32, n: nat)
    ensures Xor(Clocked(CRC, a, n), Clocked(CRC, b, n)) == Clocked(CRC, Xor(a, b), n)
  {
    CrcLinear();
    ClockedXor(CRC, a, b, n);
  }

  lemma WidenFlip(v: bv8, mask: bv8)
    ensures Widen(Flip(v, mask)) == Xor(Widen(v), Widen(mask))
  {
  }

  lemma CrcMixedDifference(a: bv32, b: bv32, v: bv32, m: bv32)
    ensures Xor(Xor(a, v), Xor(b, Xor(v, m))) == Xor(Xor(a, b), m)
  {
    CrcXorLaws();
    MixedDifference(CRC, a, b, v, m);
  }

  /** A flipped byte is mixed into the difference. */
  lemma ReadFlipped(a: bv32, b: bv32, v: bv8, mask: bv8)
    ensures Xor(Reading(a, [v]), Reading(b, [Flip(v, mask)])) == Clocked(CRC, Xor(Xor(a, b), Widen(mask)), 8)
  {
    assert Bits([v]) == ByteBits(v) && Bits([Flip(v, mask)]) == ByteBits(Flip(v, mask));
    ReadByte(a, v);
    ReadByte(b, Flip(v, mask));
    var av, bv := Xor(a, Widen(v)), Xor(b, Widen(Flip(v, mask)));
    WidenFlip(v, mask);
    CrcMixedDifference(a, b, Widen(v), Widen(mask));
    ClockedXorCrc(av, bv, 8);
  }

  lemma CrcFeedSame(a: bv32, b: bv32, bits: seq<bool>)
    ensures Xor(Feed(CRC, a, bits), Feed(CRC, b, bits)) == Clocked(CRC, Xor(a, b), |bits|)
  {
    CrcLinear();
    FeedSame(CRC, a, b, bits);
  }

  /** A flipped byte and the equal ones after it. */
  lemma FlippedThenSame(a: bv32, b: bv32, v: bv8, mask: bv8, rest: seq<bv8>)
    ensures Xor(Reading(a, [v] + rest), Reading(b, [Flip(v, mask)] + rest))
         == Clocked(CRC, Xor(Xor(a, b), Widen(mask)), 8 * (1 + |rest|))
  {
    ReadingAppend(a, [v], rest);
    ReadingAppend(b, [Flip(v, mask)], rest);
    ReadFlipped(a, b, v, mask);
    CrcFeedSame(Reading(a, [v]), Reading(b, [Flip(v, mask)]), Bits(rest));
    ClockedAdd(CRC, Xor(Xor(a, b), Widen(mask)), 8, 8 * |rest|);
  }

  // ---------- Four bits that cancel ----------

  lemma ClockedPower(w: bv32, k: nat, c: bv32, x: bv32)
    requires Shifted(k) == c && Multiply(w, c) == x
    ensures Clocked(CRC, w, 32 + k) == x
  {
    MultiplyClocks(w, k);
  }

  lemma ClockedEight(w: bv32, x: bv32)
    requires FourSteps(FourSteps(w)) == x
    ensures Clocked(CRC, w, 8) == x
  {
    EightSteps(w);
  }

  lemma FirstGap()
    ensures Clocked(CRC, Widen(0x40), 6144) == 0xd62f_0233
  {
    Lap3();
    Lap2();
    ClockedPower(Widen(0x40), 4064, 0xe986_c148, 0xd088_577f);
    ClockedPower(0xd088_577f, 2016, 0x1426_a815, 0xd62f_0233);
    ClockedAdd(CRC, Widen(0x40), 4096, 2048);
  }

  lemma SecondGap()
    ensures Clocked(CRC, Xor(0xd62f_0233, Widen(0x20)), 1552) == 0xc669c6d8
  {
    Lap2();
    ClockedPower(0xd62f_0213, 992, 0x7417_153f, 0xb47a_1c9a);
    ClockedPower(0xb47a_1c9a, 480, 0x75bb_a45b, 0xc183_2dc5);
    ClockedEight(0xc183_2dc5, 0xf6bd_b1f5);
    ClockedEight(0xf6bd_b1f5, 0xc669_c6d8);
    ClockedAdd(CRC, 0xd62f_0213, 1024, 512);
    ClockedAdd(CRC, 0xc183_2dc5, 8, 8);
    ClockedAdd(CRC, 0xd62f_0213, 1536, 16);
  }

  lemma ThirdGap()
    ensures Clocked(CRC, Xor(0xc669_c6d8, Widen(0x01)), 256) == Widen(0x20)
  {
    Lap1();
    ClockedPower(0xc669_c6d9, 224, 0xa215_8b34, 0x20);
  }

  /** Flips of these bits of bytes 0, 768, 962 and 994 of any data cancel. */
  lemma FourFlipsCancel(a: bv32, v0: bv8, b: seq<bv8>, v1: bv8, c: seq<bv8>, v2: bv8, d: seq<bv8>, v3: bv8, e: seq<bv8>)
    requires |b| == 767 && |c| == 193 && |d| == 31
    ensures Reading(a, ([v0] + b) + ([v1] + c) + ([v2] + d) + ([v3] + e))
         == Reading(a, ([Flip(v0, 0x40)] + b) + ([Flip(v1, 0x20)] + c) + ([Flip(v2, 0x01)] + d) + ([Flip(v3, 0x20)] + e))
  {
    var x0, x1, x2, x3 := [v0] + b, [v1] + c, [v2] + d, [v3] + e;
    var y0, y1, y2, y3 := [Flip(v0, 0x40)] + b, [Flip(v1, 0x20)] + c, [Flip(v2, 0x01)] + d, [Flip(v3, 0x20)] + e;
    ReadFour(a, x0, x1, x2, x3);
    ReadFour(a, y0, y1, y2, y3);
    var p, q := Reading(a, x0), Reading(a, y0);
    XorSelf(a);
    XorZero(Widen(0x40));
    FlippedThenSame(a, a, v0, 0x40, b);
    FirstGap();
    FlippedThenSame(p, q, v1, 0x20, c);
    SecondGap();
    var p', q' := Reading(p, x1), Reading(q, y1);
    FlippedThenSame(p', q', v2, 0x01, d);
    ThirdGap();
    Cancelled(Reading(p', x2), Reading(q', y2), v3, 0x20, e);
  }

  lemma ReadFour(a: bv32, x0: seq<bv8>, x1: seq<bv8>, x2: seq<bv8>, x3: seq<bv8>)
    ensures Reading(a, x0 + x1 + x2 + x3) == Reading(Reading(Reading(Reading(a, x0), x1), x2), x3)
  {
    ReadingAppend(a, x0 + x1 + x2, x3);
    ReadingAppend(a, x0 + x1, x2);
    ReadingAppend(a, x0, x1);
  }

  /** A flip that is just the difference removes it. */
  lemma Cancelled(a: bv32, b: bv32, v: bv8, mask: bv8, rest: seq<bv8>)
    requires Xor(a, b) == Widen(mask)
    ensures Reading(a, [v] + rest) == Reading(b, [Flip(v, mask)] + rest)
  {
    FlippedThenSame(a, b, v, mask, rest);
    XorSelf(Widen(mask));
    ClockedZero(8 * (1 + |rest|));
    XorOneZero(Reading(a, [v] + rest), Reading(b, [Flip(v, mask)] + rest));
  }

  // ---------- On a page ----------

  lemma FlippedBits(v: bv8)
    ensures Distance(ByteBits(v), ByteBits(Flip(v, 0x40))) == 1
    ensures Distance(ByteBits(v), ByteBits(Flip(v, 0x20))) == 1
    ensures Distance(ByteBits(v), ByteBits(Flip(v, 0x01))) == 1
  {
    FlipBit6(v);
    FlipBit5(v);
    FlipBit0(v);
    EightBitDistance(ByteBits(v), ByteBits(Flip(v, 0x40)));
    EightBitDistance(ByteBits(v), ByteBits(Flip(v, 0x20)));
    EightBitDistance(ByteBits(v), ByteBits(Flip(v, 0x01)));
  }

  lemma FlipBit6(v: bv8)
    ensures ByteBits(Flip(v, 0x40)) == ByteBits(v)[6 := !ByteBits(v)[6]]
  {
  }

  lemma FlipBit5(v: bv8)
    ensures ByteBits(Flip(v, 0x20)) == ByteBits(v)[5 := !ByteBits(v)[5]]
  {
  }

  lemma FlipBit0(v: bv8)
    ensures ByteBits(Flip(v, 0x01)) == ByteBits(v)[0 := !ByteBits(v)[0]]
  {
  }

  function Differs(x: seq<bool>, y: seq<bool>, i: nat): nat
    requires i < |x| && i < |y|
  {
    if x[i] != y[i] then 1 else 0
  }

  lemma {:induction false} DistanceFrom(x: seq<bool>, y: seq<bool>, i: nat)
    requires |x| == |y| && i < |x|
    ensures Distance(x[i..], y[i..]) == Differs(x, y, i) + Distance(x[i + 1..], y[i + 1..])
  {
    assert x[i..][1..] == x[i + 1..] && y[i..][1..] == y[i + 1..];
  }

  lemma FourBitDistance(x: seq<bool>, y: seq<bool>, i: nat)
    requires |x| == |y| && i + 4 <= |x|
    ensures Distance(x[i..], y[i..]) == Differs(x, y, i) + Differs(x, y, i + 1) + Differs(x, y, i + 2) + Differs(x, y, i + 3)
                                        + Distance(x[i + 4..], y[i + 4..])
  {
    DistanceFrom(x, y, i);
    DistanceFrom(x, y, i + 1);
    DistanceFrom(x, y, i + 2);
    DistanceFrom(x, y, i + 3);
  }

  lemma EightBitDistance(x: seq<bool>, y: seq<bool>)
    requires |x| == |y| == 8
    ensures Distance(x, y) == Differs(x, y, 0) + Differs(x, y, 1) + Differs(x, y, 2) + Differs(x, y, 3)
                              + Differs(x, y, 4) + Differs(x, y, 5) + Differs(x, y, 6) + Differs(x, y, 7)
  {
    assert x[0..] == x && y[0..] == y;
    FourBitDistance(x, y, 0);
    FourBitDistance(x, y, 4);
  }

  lemma SegmentDistance(v: bv8, mask: bv8, rest: seq<bv8>)
    requires Distance(ByteBits(v), ByteBits(Flip(v, mask))) == 1
    ensures Distance(Bits([v] + rest), Bits([Flip(v, mask)] + rest)) == 1
  {
    BitsAppend([v], rest);
    BitsAppend([Flip(v, mask)], rest);
    assert Bits([v]) == ByteBits(v) && Bits([Flip(v, mask)]) == ByteBits(Flip(v, mask));
    DistanceZero(Bits(rest), Bits(rest));
    DistanceAppend(Bits([v]), Bits([Flip(v, mask)]), Bits(rest), Bits(rest));
  }

  lemma JoinDistance(x: seq<bv8>, y: seq<bv8>, u: seq<bv8>, v: seq<bv8>)
    requires |x| == |y| && |u| == |v|
    ensures Distance(Bits(x + u), Bits(y + v)) == Distance(Bits(x), Bits(y)) + Distance(Bits(u), Bits(v))
  {
    BitsAppend(x, u);
    BitsAppend(y, v);
    DistanceAppend(Bits(x), Bits(y), Bits(u), Bits(v));
  }

  /** The payload with its four bits flipped. */
  function Flipped(p: seq<bv8>): (q: seq<bv8>)
    requires 995 <= |p|
    ensures |q| == |p|
  {
    ([Flip(p[0], 0x40)] + p[1..768]) + ([Flip(p[768], 0x20)] + p[769..962]) + ([Flip(p[962], 0x01)] + p[963..994])
    + ([Flip(p[994], 0x20)] + p[995..])
  }

  lemma Parts(p: seq<bv8>)
    requires 995 <= |p|
    ensures p == ([p[0]] + p[1..768]) + ([p[768]] + p[769..962]) + ([p[962]] + p[963..994]) + ([p[994]] + p[995..])
  {
    assert p[..768] == [p[0]] + p[1..768];
    assert p[768..962] == [p[768]] + p[769..962];
    assert p[962..994] == [p[962]] + p[963..994];
    assert p[994..] == [p[994]] + p[995..];
    assert p == p[..768] + p[768..962] + p[962..994] + p[994..];
  }

  lemma FlippedDistance(p: seq<bv8>)
    requires 995 <= |p|
    ensures Distance(Bits(p), Bits(Flipped(p))) == 4
  {
    Parts(p);
    var x0, x1, x2, x3 := [p[0]] + p[1..768], [p[768]] + p[769..962], [p[962]] + p[963..994], [p[994]] + p[995..];
    var y0, y1, y2, y3 := [Flip(p[0], 0x40)] + p[1..768], [Flip(p[768], 0x20)] + p[769..962],
                          [Flip(p[962], 0x01)] + p[963..994], [Flip(p[994], 0x20)] + p[995..];
    FlippedBits(p[0]);
    FlippedBits(p[768]);
    FlippedBits(p[962]);
    FlippedBits(p[994]);
    SegmentDistance(p[0], 0x40, p[1..768]);
    SegmentDistance(p[768], 0x20, p[769..962]);
    SegmentDistance(p[962], 0x01, p[963..994]);
    SegmentDistance(p[994], 0x20, p[995..]);
    JoinDistance(x0, y0, x1, y1);
    JoinDistance(x0 + x1, y0 + y1, x2, y2);
    JoinDistance(x0 + x1 + x2, y0 + y1 + y2, x3, y3);
  }

  lemma FlippedReading(a: bv32, p: seq<bv8>)
    requires 995 <= |p|
    ensures Reading(a, p) == Reading(a, Flipped(p))
  {
    Parts(p);
    FourFlipsCancel(a, p[0], p[1..768], p[768], p[769..962], p[962], p[963..994], p[994], p[995..]);
  }

  lemma StreamParts(b: Block)
    ensures Stream(b) == (b[..24] + b[28..32]) + PagePayload(b)
  {
    assert b[28..] == b[28..32] + b[32..];
  }

  /** Every intact page of every accepted size has an intact neighbour four bits away, so no promise about four flips is possible. */
  lemma FourFlipsMissed(p: Block, slot: Option<u64>) returns (q: Block)
    requires CheckedPageSize(|p|).Success? && Verified(p, slot).Success?
    ensures |q| == |p| && Distance(Bits(p), Bits(q)) == 4
    ensures Verified(q, slot).Success?
  {
    AtLeastSmallest(|p|);
    var payload := PagePayload(p);
    q := p[..32] + Flipped(payload);
    assert q[..32] == p[..32] && PagePayload(q) == Flipped(payload) && p == p[..32] + payload;
    JoinDistance(p[..32], p[..32], payload, Flipped(payload));
    DistanceZero(Bits(p[..32]), Bits(p[..32]));
    FlippedDistance(payload);
    SameHeader(p, q);
    StreamParts(p);
    StreamParts(q);
    assert p[..24] == p[..32][..24] && q[..24] == q[..32][..24] && p[28..32] == p[..32][28..] && q[28..32] == q[..32][28..];
    var head := p[..24] + p[28..32];
    ReadingAppend(ONES, head, payload);
    ReadingAppend(ONES, head, Flipped(payload));
    FlippedReading(Reading(ONES, head), payload);
  }

  lemma AtLeastSmallest(size: nat)
    requires CheckedPageSize(size).Success?
    ensures size >= MIN_PAGE_SIZE
  {
  }

  lemma SameHeader(p: Block, q: Block)
    requires |p| == |q| && p[..32] == q[..32]
    ensures (HasHeader(p) <==> HasHeader(q)) && Id(p) == Id(q) && StoredChecksum(p) == StoredChecksum(q)
  {
    assert p[0..4] == p[..32][0..4] && q[0..4] == q[..32][0..4];
    assert p[4..6] == p[..32][4..6] && q[4..6] == q[..32][4..6];
    assert p[8..16] == p[..32][8..16] && q[8..16] == q[..32][8..16];
    assert p[24..28] == p[..32][24..28] && q[24..28] == q[..32][24..28];
    ReadU32Slice(p, q, OFF_MAGIC);
    ReadU16Slice(p, q, OFF_VERSION);
    ReadU64Slice(p, q, OFF_PAGE_ID);
    ReadU32Slice(p, q, OFF_CRC);
  }
}
