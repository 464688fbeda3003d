/** Bytes as bits and words, and the little-endian fields of a page. */
module Bytes {
  import opened Register
  import opened Lfsr

  /** The bits of a byte in the order the checksum reads them, least significant first. */
  function ByteBits(b: bv8): (bits: seq<bool>)
    ensures |bits| == 8
  {
    [b & 0x01 != 0, b & 0x02 != 0, b & 0x04 != 0, b & 0x08 != 0,
     b & 0x10 != 0, b & 0x20 != 0, b & 0x40 != 0, b & 0x80 != 0]
  }

  /** The bits of a byte string in stream order. */
  function Bits(data: seq<bv8>): (bits: seq<bool>)
    ensures |bits| == 8 * |data|
    decreases |data|
  {
    if data == [] then [] else ByteBits(data[0]) + Bits(data[1..])
  }

  lemma {:induction false} BitsAppend(x: seq<bv8>, y: seq<bv8>)
    ensures Bits(x + y) == Bits(x) + Bits(y)
    decreases |x|
  {
    if x == [] {
      assert x + y == y;
    } else {
      assert (x + y)[1..] == x[1..] + y;
      BitsAppend(x[1..], y);
    }
  }

  lemma ByteBitsInjective(a: bv8, b: bv8)
    requires ByteBits(a) == ByteBits(b)
    ensures a == b
  {
    assert forall i :: 0 <= i < 8 ==> ByteBits(a)[i] == ByteBits(b)[i];
    assert ByteBits(a)[0] == ByteBits(b)[0] && ByteBits(a)[1] == ByteBits(b)[1];
    assert ByteBits(a)[2] == ByteBits(b)[2] && ByteBits(a)[3] == ByteBits(b)[3];
    assert ByteBits(a)[4] == ByteBits(b)[4] && ByteBits(a)[5] == ByteBits(b)[5];
    assert ByteBits(a)[6] == ByteBits(b)[6] && ByteBits(a)[7] == ByteBits(b)[7];
  }

  /** The byte with the given bits. */
  function PackByte(u: seq<bool>): bv8
    requires |u| == 8
  {
    (if u[0] then 0x01 else 0) | (if u[1] then 0x02 else 0) | (if u[2] then 0x04 else 0) | (if u[3] then 0x08 else 0) |
    (if u[4] then 0x10 else 0) | (if u[5] then 0x20 else 0) | (if u[6] then 0x40 else 0) | (if u[7] then 0x80 else 0)
  }

  lemma PackByteBits(u: seq<bool>)
    requires |u| == 8
    ensures ByteBits(PackByte(u)) == u
  {
  }

  lemma {:induction false} BitsInjective(x: seq<bv8>, y: seq<bv8>)
    requires Bits(x) == Bits(y)
    ensures x == y
    decreases |x|
  {
    assert |Bits(x)| == |Bits(y)|;
    if x != [] {
      assert Bits(x)[..8] == ByteBits(x[0]) && Bits(y)[..8] == ByteBits(y[0]);
      assert Bits(x)[8..] == Bits(x[1..]) && Bits(y)[8..] == Bits(y[1..]);
      ByteBitsInjective(x[0], y[0]);
      BitsInjective(x[1..], y[1..]);
      assert x == [x[0]] + x[1..] && y == [y[0]] + y[1..];
    }
  }

  // ---------- Words and their bytes ----------

  /** The value of a byte, as a table index or a digit. */
  function Ordinal(b: bv8): (n: nat)
    ensures n < 256
  {
    b as int
  }

  function Widen(b: bv8): bv32 { b as bv32 }

  function LowByte(w: bv32): bv8 { (w & 0xff) as bv8 }

  function Byte1(w: bv32): bv8 { ((w >> 8) & 0xff) as bv8 }

  function Byte2(w: bv32): bv8 { ((w >> 16) & 0xff) as bv8 }

  function Byte3(w: bv32): bv8 { ((w >> 24) & 0xff) as bv8 }

  lemma BytesByDropping(w: bv32, a: bv32, b: bv32, c: bv32)
    requires a == DropByte(w) && b == DropByte(a) && c == DropByte(b)
    ensures Byte1(w) == LowByte(a) && Byte2(w) == LowByte(b) && Byte3(w) == LowByte(c)
    ensures DropByte(c) == 0
  {
  }

  /** `u32::from_le_bytes`. */
  function FromLe32(b0: bv8, b1: bv8, b2: bv8, b3: bv8): bv32 {
    (b0 as bv32) | ((b1 as bv32) << 8) | ((b2 as bv32) << 16) | ((b3 as bv32) << 24)
  }

  /** `u32::to_le_bytes`. */
  function ToLe32(w: bv32): (bytes: seq<bv8>)
    ensures |bytes| == 4
  {
    [LowByte(w), Byte1(w), Byte2(w), Byte3(w)]
  }

  lemma FromLe32Bytes(b0: bv8, b1: bv8, b2: bv8, b3: bv8)
    ensures LowByte(FromLe32(b0, b1, b2, b3)) == b0
    ensures DropByte(FromLe32(b0, b1, b2, b3)) == FromLe32(b1, b2, b3, 0)
  {
  }

  lemma FromToLe32(w: bv32)
    ensures FromLe32(LowByte(w), Byte1(w), Byte2(w), Byte3(w)) == w
  {
  }

  lemma HalvesAsMasks(w: bv32, a: bv32, b: bv32, c: bv32, d: bv32, e: bv32, f: bv32, g: bv32)
    requires a == Halve(w) && b == Halve(a) && c == Halve(b) && d == Halve(c)
    requires e == Halve(d) && f == Halve(e) && g == Halve(f)
    ensures Low(w) == (w & 0x01 != 0) && Low(a) == (w & 0x02 != 0)
    ensures Low(b) == (w & 0x04 != 0) && Low(c) == (w & 0x08 != 0)
    ensures Low(d) == (w & 0x10 != 0) && Low(e) == (w & 0x20 != 0)
    ensures Low(f) == (w & 0x40 != 0) && Low(g) == (w & 0x80 != 0)
  {
  }

  lemma LowByteMasks(w: bv32)
    ensures var l := LowByte(w);
      && (w & 0x01 != 0) == (l & 0x01 != 0) && (w & 0x02 != 0) == (l & 0x02 != 0)
      && (w & 0x04 != 0) == (l & 0x04 != 0) && (w & 0x08 != 0) == (l & 0x08 != 0)
      && (w & 0x10 != 0) == (l & 0x10 != 0) && (w & 0x20 != 0) == (l & 0x20 != 0)
      && (w & 0x40 != 0) == (l & 0x40 != 0) && (w & 0x80 != 0) == (l & 0x80 != 0)
  {
  }

  /** The low eight bits of a word are the bits of its low byte. */
  lemma LowEight(w: bv32)
    ensures LowBits(Low, Halve, w, 8) == ByteBits(LowByte(w))
  {
    var a := Halve(w);
    var b := Halve(a);
    var c := Halve(b);
    var d := Halve(c);
    var e := Halve(d);
    var f := Halve(e);
    var g := Halve(f);
    EightLowBits(Low, Halve, w, a, b, c, d, e, f, g);
    HalvesAsMasks(w, a, b, c, d, e, f, g);
    LowByteMasks(w);
    assert LowBits(Low, Halve, w, 8) == [Low(w), Low(a), Low(b), Low(c), Low(d), Low(e), Low(f), Low(g)];
    assert ByteBits(LowByte(w)) == [Low(w), Low(a), Low(b), Low(c), Low(d), Low(e), Low(f), Low(g)];
  }

  lemma EightLowBits<T>(low: T -> bool, halve: T -> T, w: T, a: T, b: T, c: T, d: T, e: T, f: T, g: T)
    requires a == halve(w) && b == halve(a) && c == halve(b) && d == halve(c)
    requires e == halve(d) && f == halve(e) && g == halve(f)
    ensures LowBits(low, halve, w, 8) == [low(w), low(a), low(b), low(c), low(d), low(e), low(f), low(g)]
  {
    assert LowBits(low, halve, g, 1) == [low(g)];
    assert LowBits(low, halve, f, 2) == [low(f), low(g)];
    assert LowBits(low, halve, e, 3) == [low(e), low(f), low(g)];
    assert LowBits(low, halve, d, 4) == [low(d), low(e), low(f), low(g)];
    assert LowBits(low, halve, c, 5) == [low(c), low(d), low(e), low(f), low(g)];
    assert LowBits(low, halve, b, 6) == [low(b), low(c), low(d), low(e), low(f), low(g)];
    assert LowBits(low, halve, a, 7) == [low(a), low(b), low(c), low(d), low(e), low(f), low(g)];
    var tail := LowBits(low, halve, a, 7);
    assert LowBits(low, halve, w, 8) == [low(w)] + tail;
    assert [low(w)] + tail == [low(w), low(a), low(b), low(c), low(d), low(e), low(f), low(g)];
  }

  lemma WordBitsByBytes(w: bv32, a: bv32, b: bv32, c: bv32)
    requires a == DropByte(w) && b == DropByte(a) && c == DropByte(b)
    ensures WordBits(w) == Bits([LowByte(w), LowByte(a), LowByte(b), LowByte(c)])
  {
    TopBits(w, LowByte(w), 24);
    TopBits(a, LowByte(a), 16);
    TopBits(b, LowByte(b), 8);
    LowEight(c);
    FourBytesBits(LowByte(w), LowByte(a), LowByte(b), LowByte(c));
  }

  /** The bits of a little-endian word are the bits of its four bytes in order. */
  lemma WordBitsOfBytes(b0: bv8, b1: bv8, b2: bv8, b3: bv8)
    ensures WordBits(FromLe32(b0, b1, b2, b3)) == Bits([b0, b1, b2, b3])
  {
    FromLe32Bytes(b0, b1, b2, b3);
    FromLe32Bytes(b1, b2, b3, 0);
    FromLe32Bytes(b2, b3, 0, 0);
    FromLe32Bytes(b3, 0, 0, 0);
    WordBitsByBytes(FromLe32(b0, b1, b2, b3), FromLe32(b1, b2, b3, 0), FromLe32(b2, b3, 0, 0), FromLe32(b3, 0, 0, 0));
  }

  lemma FourBytesBits(b0: bv8, b1: bv8, b2: bv8, b3: bv8)
    ensures Bits([b0, b1, b2, b3]) == ByteBits(b0) + (ByteBits(b1) + (ByteBits(b2) + ByteBits(b3)))
  {
    assert [b0, b1, b2, b3][1..] == [b1, b2, b3];
    assert [b1, b2, b3][1..] == [b2, b3];
    assert [b2, b3][1..] == [b3];
    assert Bits([b3]) == ByteBits(b3) + Bits([]);
    assert Bits([b3]) == ByteBits(b3);
    assert Bits([b2, b3]) == ByteBits(b2) + ByteBits(b3);
    assert Bits([b1, b2, b3]) == ByteBits(b1) + (ByteBits(b2) + ByteBits(b3));
  }

  lemma TopBits(w: bv32, b: bv8, n: nat)
    requires LowByte(w) == b
    ensures LowBits(Low, Halve, w, 8 + n) == ByteBits(b) + LowBits(Low, Halve, DropByte(w), n)
  {
    LowBitsSplit(Low, Halve, w, 8, n);
    HalveByte(w);
    LowEight(w);
  }
}
