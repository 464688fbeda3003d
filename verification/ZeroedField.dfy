/**
 The layout table of the page format describes the checksum as taken with its own field
 zero; the code leaves the field out.  When the two give the same value, and when not.
 */
module ZeroedField {
  import opened Iteration
  import opened Register
  import opened Lfsr
  import opened Bytes
  import opened Crc32c
  import opened Mersenne
  import opened Period
  import opened Fields
  import opened Page
  import opened PageBuffer

  /** The page as the layout table describes its checksum: the field's four bytes read as zero. */
  function ZeroedStream(b: Block): seq<bv8> { b[..OFF_CRC] + [0, 0, 0, 0] + b[OFF_CRC + 4..] }

  /** The register after the bytes before the field. */
  function BeforeField(b: Block): bv32 { Reading(ONES, b[..OFF_CRC]) }

  /** The one state but zero that the clock does not move. */
  const STILL: bv32 := 0xfca4_2daf

  lemma StillWords(w: bv32)
    ensures Step(w) == w <==> w == 0 || w == STILL
  {
  }

  lemma {:induction false} StillForever(w: bv32, n: nat)
    requires Step(w) == w
    ensures Clocked(CRC, w, n) == w
    decreases n
  {
    if n > 0 {
      StillForever(w, n - 1);
    }
  }

  lemma CrcClockedInjective(a: bv32, b: bv32, n: nat)
    requires Clocked(CRC, a, n) == Clocked(CRC, b, n)
    ensures a == b
  {
    CrcLinear();
    ClockedInjective(CRC, a, b, n);
  }

  /** Every state comes back when a lone 1 does. */
  lemma EveryStateReturns(w: bv32, m: nat)
    requires Shifted(m) == 1
    ensures Clocked(CRC, w, m) == w
  {
    assert Shifted(0) == 1;
    MultiplyClocks(w, 0);
    MultiplyClocks(w, m);
    ClockedAdd(CRC, w, m, 32);
    CrcClockedInjective(Clocked(CRC, w, m), w, 32);
  }

  /** A state is back after 32 clocks only if it never moved. */
  lemma BackAfterWord(w: bv32)
    ensures Clocked(CRC, w, 32) == w <==> Step(w) == w
  {
    if Step(w) == w {
      StillForever(w, 32);
    } else if Clocked(CRC, w, 32) == w {
      FullCycle();
      EveryStateReturns(w, M);
      ReturnsSooner(Step, w, 32);
    }
  }

  lemma ReadZeros(crc: bv32)
    ensures Reading(crc, [0, 0, 0, 0]) == Clocked(CRC, crc, 32)
  {
    ReadWord(crc, 0, 0, 0, 0);
    XorZero(crc);
  }

  lemma ReadZeroedStream(b: Block)
    ensures Reading(ONES, ZeroedStream(b)) == Reading(Clocked(CRC, BeforeField(b), 32), b[OFF_CRC + 4..])
  {
    ReadingAppend(ONES, b[..OFF_CRC] + [0, 0, 0, 0], b[OFF_CRC + 4..]);
    ReadingAppend(ONES, b[..OFF_CRC], [0, 0, 0, 0]);
    ReadZeros(BeforeField(b));
  }

  /** Whatever is still to be read, different states lead to different checksums. */
  lemma ReadingInjective(a: bv32, b: bv32, data: seq<bv8>)
    ensures Reading(a, data) == Reading(b, data) <==> a == b
  {
    CrcLinear();
    if Reading(a, data) == Reading(b, data) { FeedInjective(CRC, a, b, Bits(data)); }
  }

  lemma ComplementInjective(a: bv32, b: bv32)
    ensures Complement(a) == Complement(b) <==> a == b
  {
  }

  /**
   Reading the field as zero gives the checksum the code computes exactly when the register,
   after the bytes before the field, is in one of the two states the clock does not move.
   */
  lemma ZeroedFieldAgrees(b: Block)
    ensures Checksum(ZeroedStream(b)) == PageChecksum(b) <==> BeforeField(b) == 0 || BeforeField(b) == STILL
  {
    var tail := b[OFF_CRC + 4..];
    ReadZeroedStream(b);
    ReadingAppend(ONES, b[..OFF_CRC], tail);
    ReadingInjective(Clocked(CRC, BeforeField(b), 32), BeforeField(b), tail);
    ComplementInjective(Reading(ONES, ZeroedStream(b)), Reading(ONES, Stream(b)));
    BackAfterWord(BeforeField(b));
    StillWords(BeforeField(b));
  }

  // ---------- A page on which they differ ----------

  lemma {:induction false} ReadZeroBytes(w: bv32, n: nat)
    ensures Reading(w, ZeroBytes(n)) == Clocked(CRC, w, 8 * n)
    decreases n
  {
    if n > 0 {
      assert ZeroBytes(n) == [0] + ZeroBytes(n - 1);
      ReadingAppend(w, [0], ZeroBytes(n - 1));
      ReadByte(w, 0);
      XorZero(w);
      assert Bits([0]) == ByteBits(0);
      ReadZeroBytes(Clocked(CRC, w, 8), n - 1);
      ClockedAdd(CRC, w, 8, 8 * (n - 1));
    }
  }

  /** A state that moves is still moving after any number of clocks. */
  lemma KeepsMoving(w: bv32, n: nat)
    requires Step(w) != w
    ensures Step(Clocked(CRC, w, n)) != Clocked(CRC, w, n)
  {
    IterLast(Step, w, n);
    if Step(Clocked(CRC, w, n)) == Clocked(CRC, w, n) { CrcClockedInjective(Step(w), w, n); }
  }

  lemma ReadMagicAndVersion()
    ensures Reading(ONES, [0x50, 0x47, 0x44, 0x42, 0x01, 0x00]) == 0xb2d6_a8fd
  {
    ReadNext(0xffff_ffff, 0x50, 0xfca7_767d, [0x47, 0x44, 0x42, 0x01, 0x00]);
    ReadNext(0xfca7_767d, 0x47, 0x5bfd_c6ff, [0x44, 0x42, 0x01, 0x00]);
    ReadNext(0x5bfd_c6ff, 0x44, 0x2bc7_2434, [0x42, 0x01, 0x00]);
    ReadNext(0x2bc7_2434, 0x42, 0x5712_74c1, [0x01, 0x00]);
    ReadNext(0x5712_74c1, 0x01, 0xc3da_34b0, [0x00]);
    ReadNext(0xc3da_34b0, 0x00, 0xb2d6_a8fd, []);
  }

  lemma BlankHeader(size: nat)
    requires PAGE_HEADER_SIZE <= size
    ensures Blank(size)[..OFF_CRC] == [0x50, 0x47, 0x44, 0x42, 0x01, 0x00] + ZeroBytes(18)
  {
    var z, b := ZeroBytes(size), Blank(size);
    var m := Splice(z, OFF_MAGIC, ToLe32(MAGIC));
    assert m[0..4] == ToLe32(MAGIC) == [0x50, 0x47, 0x44, 0x42];
    SpliceMisses(m, OFF_VERSION, VERSION_BYTES, 0, 4);
    assert b[4..6] == VERSION_BYTES;
    WithHeaderFields(z);
    assert b[6..24] == b[6..][..18] && z[6..24] == z[6..][..18] && z[6..24] == ZeroBytes(18);
    assert b[..24] == b[0..4] + b[4..6] + b[6..24];
  }

  /** On a blank page of any size the two readings of the format give different checksums. */
  lemma BlankPageDiffers(size: nat)
    requires PAGE_HEADER_SIZE <= size
    ensures Checksum(ZeroedStream(Blank(size))) != PageChecksum(Blank(size))
  {
    BlankHeader(size);
    ReadingAppend(ONES, [0x50, 0x47, 0x44, 0x42, 0x01, 0x00], ZeroBytes(18));
    ReadMagicAndVersion();
    ReadZeroBytes(0xb2d6_a8fd, 18);
    KeepsMoving(0xb2d6_a8fd, 144);
    StillWords(BeforeField(Blank(size)));
    ZeroedFieldAgrees(Blank(size));
  }
}
