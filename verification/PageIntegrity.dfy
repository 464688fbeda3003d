/** Corruptions of a stored page that `verify` is certain to reject. */
module PageIntegrity {
  import opened PageError
  import opened Register
  import opened Lfsr
  import opened Bytes
  import opened Fields
  import opened Crc32c
  import opened Page
  import opened Detection
  import opened Mersenne

  /** The checksummed stream followed by the checksum field. */
  function Codeword(b: Block): seq<bv8> { Stream(b) + b[OFF_CRC..OFF_CRC + 4] }

  function CodeBits(b: Block): (bits: seq<bool>)
    ensures |bits| == 8 * |b|
  {
    Bits(Codeword(b))
  }

  /** What the register is left with after reading a codeword whose checksum is right. */
  const RESIDUE: bv32 := Clocked(CRC, ONES, 32)

  lemma MixedWithComplement(s: bv32)
    ensures Xor(s, Complement(s)) == ONES
  {
  }

  lemma ResidueIffComplement(s: bv32, stored: bv32)
    ensures Clocked(CRC, Xor(s, stored), 32) == RESIDUE <==> stored == Complement(s)
  {
    MixedWithComplement(s);
    if Clocked(CRC, Xor(s, stored), 32) == RESIDUE {
      ClockedWordInjective(s, stored, Complement(s));
    }
  }

  lemma ReadCodeword(b: Block)
    ensures Feed(CRC, ONES, CodeBits(b)) == Clocked(CRC, Xor(Reading(ONES, Stream(b)), StoredChecksum(b)), 32)
  {
    var field := b[OFF_CRC..OFF_CRC + 4];
    assert field == [b[OFF_CRC], b[OFF_CRC + 1], b[OFF_CRC + 2], b[OFF_CRC + 3]];
    ReadingAppend(ONES, Stream(b), field);
    ReadWord(Reading(ONES, Stream(b)), b[OFF_CRC], b[OFF_CRC + 1], b[OFF_CRC + 2], b[OFF_CRC + 3]);
  }

  /** The checksum field is right exactly when reading the whole codeword leaves the residue. */
  lemma ResidueIffChecksum(b: Block)
    ensures Feed(CRC, ONES, CodeBits(b)) == RESIDUE <==> StoredChecksum(b) == PageChecksum(b)
  {
    ReadCodeword(b);
    ResidueIffComplement(Reading(ONES, Stream(b)), StoredChecksum(b));
  }

  /** Corruption the register notices is corruption `verify` rejects, whatever slot was asked for. */
  lemma NoticedIsRejected(p: Block, q: Block, slot: Option<u64>)
    requires Intact(p)
    requires Feed(CRC, ONES, CodeBits(p)) != Feed(CRC, ONES, CodeBits(q))
    ensures Verified(q, slot).Failure?
  {
    ResidueIffChecksum(p);
    ResidueIffChecksum(q);
  }

  lemma CodeBitsParts(b: Block)
    ensures Bits(b) == Bits(b[..24]) + Bits(b[24..28]) + Bits(b[28..])
    ensures CodeBits(b) == Bits(b[..24]) + Bits(b[28..]) + Bits(b[24..28])
  {
    assert b == b[..24] + b[24..28] + b[28..];
    BitsAppend(b[..24], b[24..28]);
    BitsAppend(b[..24] + b[24..28], b[28..]);
    BitsAppend(b[..24], b[28..]);
    BitsAppend(b[..24] + b[28..], b[24..28]);
  }

  /** Moving the field to the end of the stream moves bits but changes none. */
  lemma CodewordDistance(p: Block, q: Block)
    requires |p| == |q|
    ensures Distance(CodeBits(p), CodeBits(q)) == Distance(Bits(p), Bits(q))
  {
    var p0, p1, p2 := Bits(p[..24]), Bits(p[24..28]), Bits(p[28..]);
    var q0, q1, q2 := Bits(q[..24]), Bits(q[24..28]), Bits(q[28..]);
    CodeBitsParts(p);
    CodeBitsParts(q);
    DistanceAppend(p0, q0, p1, q1);
    DistanceAppend(p0 + p1, q0 + q1, p2, q2);
    DistanceAppend(p0, q0, p2, q2);
    DistanceAppend(p0 + p2, q0 + q2, p1, q1);
  }

  /** Any odd number of flipped bits, anywhere in the page, is rejected. */
  lemma OddFlipsRejected(p: Block, q: Block, slot: Option<u64>)
    requires |p| == |q| && Intact(p)
    requires Distance(Bits(p), Bits(q)) % 2 == 1
    ensures Verified(q, slot).Failure?
  {
    CodewordDistance(p, q);
    OddFlipsChange(ONES, CodeBits(p), CodeBits(q));
    NoticedIsRejected(p, q, slot);
  }

  lemma AcceptedSize(size: nat)
    requires CheckedPageSize(size).Success?
    ensures 8 * size <= M
  {
  }

  lemma TwoFlipsRejected(p: Block, q: Block, slot: Option<u64>)
    requires |p| == |q| && 8 * |p| <= M && Intact(p)
    requires Distance(Bits(p), Bits(q)) == 2
    ensures Verified(q, slot).Failure?
  {
    CodewordDistance(p, q);
    TwoFlipsChange(ONES, CodeBits(p), CodeBits(q));
    NoticedIsRejected(p, q, slot);
  }

  /** Any one, two or three flipped bits, anywhere in a page of any accepted size, are rejected. */
  lemma FewFlipsRejected(p: Block, q: Block, slot: Option<u64>)
    requires |p| == |q| && CheckedPageSize(|p|).Success? && Intact(p)
    requires 1 <= Distance(Bits(p), Bits(q)) <= 3
    ensures Verified(q, slot).Failure?
  {
    AcceptedSize(|p|);
    var d := Distance(Bits(p), Bits(q));
    if d == 2 {
      TwoFlipsRejected(p, q, slot);
    } else {
      assert d % 2 == 1;
      OddFlipsRejected(p, q, slot);
    }
  }

  /**
   And they are reported as damage: as a checksum mismatch with the two checksums, or by the
   header if the flips are there; never as a page that landed in the wrong slot.
   */
  lemma FewFlipsReported(p: Block, q: Block, slot: Option<u64>)
    requires |p| == |q| && CheckedPageSize(|p|).Success? && Intact(p)
    requires 1 <= Distance(Bits(p), Bits(q)) <= 3
    ensures Verified(q, slot).Failure?
    ensures Verified(q, slot).error == if ReadU32(q, 0) != MAGIC then BadMagic(ReadU32(q, 0))
                                       else if ReadU16(q, 4) != 1 then UnsupportedVersion(ReadU16(q, 4))
                                       else ChecksumMismatch(Id(q), StoredChecksum(q), PageChecksum(q))
  {
    FewFlipsRejected(p, q, None);
    FewFlipsRejected(p, q, slot);
  }

  lemma CodewordInjective(p: Block, q: Block)
    requires |p| == |q| && Codeword(p) == Codeword(q)
    ensures p == q
  {
    assert Codeword(p)[..24] == p[..24] && Codeword(q)[..24] == q[..24];
    assert Codeword(p)[24..|p| - 4] == p[28..] && Codeword(q)[24..|q| - 4] == q[28..];
    assert Codeword(p)[|p| - 4..] == p[24..28] && Codeword(q)[|q| - 4..] == q[24..28];
    assert p == p[..24] + p[24..28] + p[28..] && q == q[..24] + q[24..28] + q[28..];
  }

  /** Any change confined to 32 consecutive bits of the codeword is rejected. */
  lemma BurstRejected(p: Block, q: Block, i: nat, slot: Option<u64>)
    requires |p| == |q| && p != q && Intact(p)
    requires DifferWithin(CodeBits(p), CodeBits(q), i)
    ensures Verified(q, slot).Failure?
  {
    if CodeBits(p) == CodeBits(q) {
      BitsInjective(Codeword(p), Codeword(q));
      CodewordInjective(p, q);
    }
    BurstChanges(ONES, CodeBits(p), CodeBits(q), i);
    NoticedIsRejected(p, q, slot);
  }

  /** With the checksum field untouched: any change within 32 consecutive bits of the checksummed stream is rejected. */
  lemma StreamBurstRejected(p: Block, q: Block, i: nat, slot: Option<u64>)
    requires |p| == |q| && p != q && Intact(p)
    requires p[OFF_CRC..OFF_CRC + 4] == q[OFF_CRC..OFF_CRC + 4]
    requires DifferWithin(Bits(Stream(p)), Bits(Stream(q)), i)
    ensures Verified(q, slot).Failure?
  {
    var x, y, f := Bits(Stream(p)), Bits(Stream(q)), Bits(p[OFF_CRC..OFF_CRC + 4]);
    BitsAppend(Stream(p), p[OFF_CRC..OFF_CRC + 4]);
    BitsAppend(Stream(q), q[OFF_CRC..OFF_CRC + 4]);
    assert (x + f)[..i] == x[..i] && (y + f)[..i] == y[..i];
    assert (x + f)[i + 32..] == x[i + 32..] + f && (y + f)[i + 32..] == y[i + 32..] + f;
    BurstRejected(p, q, i, slot);
  }

  /** With everything else untouched: any other value in the checksum field is rejected. */
  lemma FieldChangeRejected(p: Block, q: Block, slot: Option<u64>)
    requires |p| == |q| && p != q && Intact(p)
    requires Stream(p) == Stream(q)
    ensures Verified(q, slot).Failure?
  {
    WriteReadU32(p, OFF_CRC);
    WriteReadU32(q, OFF_CRC);
    if StoredChecksum(p) == StoredChecksum(q) {
      CodewordInjective(p, q);
    }
  }

  /** Where byte `k` of the page sits in the codeword. */
  function CodePosition(size: nat, k: nat): (j: nat)
    requires k < size && PAGE_HEADER_SIZE <= size
    ensures j < size
  {
    if k < 24 then k else if k < 28 then size - 28 + k else k - 4
  }

  lemma {:induction false} BitsOfPrefix(x: seq<bv8>, j: nat)
    requires j <= |x|
    ensures Bits(x)[..8 * j] == Bits(x[..j]) && Bits(x)[8 * j..] == Bits(x[j..])
  {
    assert x == x[..j] + x[j..];
    BitsAppend(x[..j], x[j..]);
  }

  lemma CodewordUpdate(p: Block, k: nat, v: bv8)
    requires k < |p|
    ensures Codeword(p[k := v]) == Codeword(p)[CodePosition(|p|, k) := v]
  {
  }

  /** Changing one byte changes bits only inside some 32-bit window. */
  lemma ByteWindow(c: seq<bv8>, j: nat, v: bv8) returns (i: nat)
    requires j < |c| && 4 <= |c|
    ensures DifferWithin(Bits(c), Bits(c[j := v]), i)
  {
    var d := c[j := v];
    var start := if j + 4 <= |c| then j else |c| - 4;
    assert c[..start] == d[..start] && c[start + 4..] == d[start + 4..];
    BitsOfPrefix(c, start);
    BitsOfPrefix(d, start);
    BitsOfPrefix(c, start + 4);
    BitsOfPrefix(d, start + 4);
    i := 8 * start;
  }

  /** Every corruption of a single byte, in the header, the payload or the checksum field, is rejected. */
  lemma ByteCorruptionRejected(p: Block, k: nat, v: bv8, slot: Option<u64>)
    requires k < |p| && v != p[k] && Intact(p)
    ensures Verified(p[k := v], slot).Failure?
  {
    CodewordUpdate(p, k, v);
    var i := ByteWindow(Codeword(p), CodePosition(|p|, k), v);
    assert p[k := v][k] != p[k];
    BurstRejected(p, p[k := v], i, slot);
  }
}
