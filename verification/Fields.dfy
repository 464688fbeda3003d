/** Little-endian fields inside a byte block. */
module Fields {
  import opened PageError
  import opened Bytes
  import opened Modular

  // ---------- Bytes as numbers ----------

  function ValueByte(n: nat): bv8
    requires n < 256
  {
    n as bv8
  }

  lemma OrdinalRoundTrip(b: bv8)
    ensures ValueByte(Ordinal(b)) == b
  {
  }

  lemma LowValue(n: nat)
    requires n < 64
    ensures Ordinal(ValueByte(n)) == n
  {
    if n < 32 {} else {}
  }

  lemma SecondValue(n: nat)
    requires 64 <= n < 128
    ensures Ordinal(ValueByte(n)) == n
  {
    if n < 96 {} else {}
  }

  lemma ThirdValue(n: nat)
    requires 128 <= n < 192
    ensures Ordinal(ValueByte(n)) == n
  {
    if n < 160 {} else {}
  }

  lemma HighValue(n: nat)
    requires 192 <= n < 256
    ensures Ordinal(ValueByte(n)) == n
  {
    if n < 224 {} else {}
  }

  lemma ValueByteRoundTrip(n: nat)
    requires n < 256
    ensures Ordinal(ValueByte(n)) == n
  {
    if n < 64 {
      LowValue(n);
    } else if n < 128 {
      SecondValue(n);
    } else if n < 192 {
      ThirdValue(n);
    } else {
      HighValue(n);
    }
  }

  // ---------- Numbers of any width ----------

  function Pow256(n: nat): (p: nat)
    ensures p >= 1
  {
    if n == 0 then 1 else 256 * Pow256(n - 1)
  }

  function LeBytes(v: nat, n: nat): (bytes: seq<bv8>)
    ensures |bytes| == n
    decreases n
  {
    if n == 0 then [] else [ValueByte(v % 256)] + LeBytes(v / 256, n - 1)
  }

  function LeValue(bytes: seq<bv8>): nat
    decreases |bytes|
  {
    if bytes == [] then 0 else Ordinal(bytes[0]) + 256 * LeValue(bytes[1..])
  }

  lemma {:induction false} LeValueBound(bytes: seq<bv8>)
    ensures LeValue(bytes) < Pow256(|bytes|)
    decreases |bytes|
  {
    if bytes != [] {
      LeValueBound(bytes[1..]);
    }
  }

  lemma {:induction false} LeValueOfBytes(v: nat, n: nat)
    requires v < Pow256(n)
    ensures LeValue(LeBytes(v, n)) == v
    decreases n
  {
    if n > 0 {
      ValueByteRoundTrip(v % 256);
      LeValueOfBytes(v / 256, n - 1);
      assert LeBytes(v, n)[1..] == LeBytes(v / 256, n - 1);
    }
  }

  lemma Digit(digit: nat, rest: nat)
    requires digit < 256
    ensures (digit + 256 * rest) % 256 == digit && (digit + 256 * rest) / 256 == rest
  {
  }

  lemma {:induction false} LeBytesOfValue(bytes: seq<bv8>)
    ensures LeBytes(LeValue(bytes), |bytes|) == bytes
    decreases |bytes|
  {
    if bytes != [] {
      OrdinalRoundTrip(bytes[0]);
      LeBytesOfValue(bytes[1..]);
      Digit(Ordinal(bytes[0]), LeValue(bytes[1..]));
    }
  }

  function ZeroBytes(n: nat): (r: seq<bv8>)
    ensures |r| == n
  {
    seq(n, _ => 0)
  }

  lemma {:induction false} ZeroValue(n: nat)
    ensures LeValue(ZeroBytes(n)) == 0
    decreases n
  {
    if n > 0 {
      assert ZeroBytes(n)[1..] == ZeroBytes(n - 1);
      ZeroValue(n - 1);
      ValueByteRoundTrip(0);
    }
  }

  lemma Pow256Eight()
    ensures Pow256(8) == 0x1_0000_0000_0000_0000
  {
    assert Pow256(4) == 0x1_0000_0000;
    assert Pow256(8) == 256 * (256 * (256 * (256 * Pow256(4))));
  }

  // ---------- Byte order ----------

  /** The eight bytes at `off` are those of `v`, the least significant first. */
  ghost predicate LittleEndianAt(block: seq<bv8>, off: nat, v: u64) {
    off + 8 <= |block| && forall k :: 0 <= k < 8 ==> Ordinal(block[off + k]) == v / Pow256(k) % 256
  }

  function DigitFor(v: nat, p: nat): (d: nat)
    requires p > 0
    ensures d < 256
  {
    v / p % 256
  }

  lemma DigitsOfQuotient(v: nat, p: nat)
    requires p > 0
    ensures DigitFor(v / 256, p) == DigitFor(v, 256 * p)
  {
    DivideTwice(v, 256, p);
  }

  lemma FirstDigit(v: nat)
    ensures DigitFor(v, 1) == v % 256
  {
  }

  lemma LeByteAfter(v: nat, n: nat, k: nat)
    requires k + 1 < n
    ensures LeBytes(v, n)[k + 1] == LeBytes(v / 256, n - 1)[k]
  {
  }

  lemma {:induction false} LeByteAt(v: nat, n: nat, k: nat)
    requires k < n
    ensures LeBytes(v, n)[k] == ValueByte(DigitFor(v, Pow256(k)))
    decreases n
  {
    if k > 0 {
      LeByteAt(v / 256, n - 1, k - 1);
      LeByteAfter(v, n, k - 1);
      DigitsOfQuotient(v, Pow256(k - 1));
    } else {
      FirstDigit(v);
    }
  }

  /** Byte `k` of an encoded number is its digit for 256^k. */
  lemma U64BytesOrder(v: u64)
    ensures LittleEndianAt(U64Bytes(v), 0, v)
  {
    forall k | 0 <= k < 8 ensures Ordinal(U64Bytes(v)[0 + k]) == v / Pow256(k) % 256 {
      LeByteAt(v, 8, k);
      ValueByteRoundTrip(v / Pow256(k) % 256);
    }
  }

  lemma LittleEndianSlice(block: seq<bv8>, off: nat, v: u64)
    requires off + 8 <= |block|
    ensures LittleEndianAt(block, off, v) <==> block[off..off + 8] == U64Bytes(v)
  {
    U64BytesOrder(v);
    var b := block[off..off + 8];
    forall k | 0 <= k < 8 ensures Ordinal(U64Bytes(v)[k]) == v / Pow256(k) % 256 && block[off + k] == b[k] {
      assert Ordinal(U64Bytes(v)[0 + k]) == v / Pow256(k) % 256;
    }
    if LittleEndianAt(block, off, v) {
      forall k | 0 <= k < 8 ensures b[k] == U64Bytes(v)[k] {
        OrdinalRoundTrip(b[k]);
        OrdinalRoundTrip(U64Bytes(v)[k]);
      }
      assert b == U64Bytes(v);
    }
  }

  /** A 64-bit field reads as `v` if and only if its bytes are those of `v`, least significant first. */
  lemma ReadU64Order(block: seq<bv8>, off: nat, v: u64)
    requires off + 8 <= |block|
    ensures ReadU64(block, off) == v <==> LittleEndianAt(block, off, v)
  {
    LittleEndianSlice(block, off, v);
    WriteReadU64(block, off);
    Pow256Eight();
    LeValueOfBytes(v, 8);
  }

  // ---------- Writing into a block ----------

  /** `block` with `bytes` copied over it at `off`. */
  function Splice(block: seq<bv8>, off: nat, bytes: seq<bv8>): (r: seq<bv8>)
    requires off + |bytes| <= |block|
    ensures |r| == |block|
    ensures r[..off] == block[..off]
    ensures r[off..off + |bytes|] == bytes
    ensures r[off + |bytes|..] == block[off + |bytes|..]
  {
    block[..off] + bytes + block[off + |bytes|..]
  }

  /** A slice that misses the spliced bytes is unchanged. */
  lemma SpliceMisses(block: seq<bv8>, off: nat, bytes: seq<bv8>, lo: nat, hi: nat)
    requires off + |bytes| <= |block|
    requires lo <= hi <= |block|
    requires hi <= off || off + |bytes| <= lo
    ensures Splice(block, off, bytes)[lo..hi] == block[lo..hi]
  {
  }

  lemma SpliceOneMisses(block: seq<bv8>, off: nat, bytes: seq<bv8>, i: nat)
    requires off + |bytes| <= |block| && i < |block| && (i < off || off + |bytes| <= i)
    ensures Splice(block, off, bytes)[i] == block[i]
  {
  }

  // ---------- The widths the format uses ----------

  function ReadU16(block: seq<bv8>, off: nat): bv16
    requires off + 2 <= |block|
  {
    Join16(block[off], block[off + 1])
  }

  function Join16(b0: bv8, b1: bv8): bv16 { (b0 as bv16) | ((b1 as bv16) << 8) }

  function ReadU32(block: seq<bv8>, off: nat): bv32
    requires off + 4 <= |block|
  {
    FromLe32(block[off], block[off + 1], block[off + 2], block[off + 3])
  }

  function ReadU64(block: seq<bv8>, off: nat): u64
    requires off + 8 <= |block|
  {
    LeValueBound(block[off..off + 8]);
    Pow256Eight();
    LeValue(block[off..off + 8])
  }

  function U64Bytes(v: u64): (bytes: seq<bv8>)
    ensures |bytes| == 8
  {
    LeBytes(v, 8)
  }

  /** A 64-bit field reads back what was written. */
  lemma ReadWrittenU64(block: seq<bv8>, off: nat, v: u64)
    requires off + 8 <= |block|
    ensures ReadU64(Splice(block, off, U64Bytes(v)), off) == v
  {
    Pow256Eight();
    LeValueOfBytes(v, 8);
  }

  /** The eight bytes of a 64-bit field are determined by its value. */
  lemma WriteReadU64(block: seq<bv8>, off: nat)
    requires off + 8 <= |block|
    ensures U64Bytes(ReadU64(block, off)) == block[off..off + 8]
  {
    LeBytesOfValue(block[off..off + 8]);
  }

  lemma ReadU64Slice(x: seq<bv8>, y: seq<bv8>, off: nat)
    requires off + 8 <= |x| && off + 8 <= |y|
    requires x[off..off + 8] == y[off..off + 8]
    ensures ReadU64(x, off) == ReadU64(y, off)
  {
  }

  /** A 32-bit field reads back what was written. */
  lemma ReadWrittenU32(block: seq<bv8>, off: nat, w: bv32)
    requires off + 4 <= |block|
    ensures ReadU32(Splice(block, off, ToLe32(w)), off) == w
  {
    var r := Splice(block, off, ToLe32(w));
    assert r[off..off + 4] == ToLe32(w);
    assert r[off] == r[off..off + 4][0] && r[off + 1] == r[off..off + 4][1];
    assert r[off + 2] == r[off..off + 4][2] && r[off + 3] == r[off..off + 4][3];
    FromToLe32(w);
  }

  lemma ReadU32Slice(x: seq<bv8>, y: seq<bv8>, off: nat)
    requires off + 4 <= |x| && off + 4 <= |y|
    requires x[off..off + 4] == y[off..off + 4]
    ensures ReadU32(x, off) == ReadU32(y, off)
  {
    assert x[off] == x[off..off + 4][0] && y[off] == y[off..off + 4][0];
    assert x[off + 1] == x[off..off + 4][1] && y[off + 1] == y[off..off + 4][1];
    assert x[off + 2] == x[off..off + 4][2] && y[off + 2] == y[off..off + 4][2];
    assert x[off + 3] == x[off..off + 4][3] && y[off + 3] == y[off..off + 4][3];
  }

  lemma ReadU16Slice(x: seq<bv8>, y: seq<bv8>, off: nat)
    requires off + 2 <= |x| && off + 2 <= |y|
    requires x[off..off + 2] == y[off..off + 2]
    ensures ReadU16(x, off) == ReadU16(y, off)
  {
    assert x[off] == x[off..off + 2][0] && y[off] == y[off..off + 2][0];
    assert x[off + 1] == x[off..off + 2][1] && y[off + 1] == y[off..off + 2][1];
  }

  lemma ToFromLe32(b0: bv8, b1: bv8, b2: bv8, b3: bv8)
    ensures ToLe32(FromLe32(b0, b1, b2, b3)) == [b0, b1, b2, b3]
  {
    var w := FromLe32(b0, b1, b2, b3);
    assert LowByte(w) == b0;
    assert Byte1(w) == b1;
    assert Byte2(w) == b2;
    assert Byte3(w) == b3;
  }

  /** The four bytes of a 32-bit field are determined by its value. */
  lemma WriteReadU32(block: seq<bv8>, off: nat)
    requires off + 4 <= |block|
    ensures ToLe32(ReadU32(block, off)) == block[off..off + 4]
  {
    ToFromLe32(block[off], block[off + 1], block[off + 2], block[off + 3]);
  }
}
