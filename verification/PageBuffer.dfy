/** `Page`: the block kept in one reusable buffer and edited in place. */
module PageBuffer {
  import opened PageError
  import opened Bytes
  import opened Fields
  import opened Page
  import Crc32c

  /** The empty page: all zero but for the magic and version. */
  function Blank(size: nat): (r: Block)
    requires PAGE_HEADER_SIZE <= size
    ensures |r| == size
  {
    WithHeader(ZeroBytes(size))
  }

  /** A blank page has a valid header, id 0, LSN 0 and an all-zero payload. */
  lemma BlankFields(size: nat)
    requires PAGE_HEADER_SIZE <= size
    ensures var b := Blank(size);
      HasHeader(b) && Id(b) == 0 && PageLsn(b) == 0 && PagePayload(b) == ZeroBytes(size - PAGE_HEADER_SIZE)
  {
    var z := ZeroBytes(size);
    var b := Blank(size);
    WithHeaderFields(z);
    ZeroValue(8);
    assert b[8..16] == b[6..][2..10] && b[16..24] == b[6..][10..18] && b[32..] == b[6..][26..];
    assert z[8..16] == z[6..][2..10] && z[16..24] == z[6..][10..18] && z[32..] == z[6..][26..];
    assert z[8..16] == ZeroBytes(8) && z[16..24] == ZeroBytes(8) && z[32..] == ZeroBytes(size - 32);
  }

  /** Byte by byte: the magic, version 1, and zeros. */
  lemma BlankBytes(size: nat)
    requires PAGE_HEADER_SIZE <= size
    ensures Blank(size)[..6] == HEADER_BYTES && forall i :: 6 <= i < size ==> Blank(size)[i] == 0
  {
    WithHeaderFields(ZeroBytes(size));
    HeaderIs(Blank(size));
    forall i | 6 <= i < size ensures Blank(size)[i] == 0 {
      assert Blank(size)[i] == Blank(size)[6..][i - 6] && ZeroBytes(size)[6..][i - 6] == 0;
    }
  }

  /** `compute_checksum`: the two ranges around the field go through one accumulator. */
  method ComputeChecksum(bytes: Block) returns (crc: bv32)
    ensures crc == PageChecksum(bytes)
  {
    var h := new Crc32c.Accumulator();
    h.Update([], bytes[..OFF_CRC]);
    assert [] + bytes[..OFF_CRC] == bytes[..OFF_CRC];
    h.Update(bytes[..OFF_CRC], bytes[OFF_CRC + 4..]);
    crc := h.Finalize(Stream(bytes));
  }

  class PageBuf {
    const size: nat
    const buf: array<bv8>

    ghost predicate Valid()
    {
      buf.Length == size && PAGE_HEADER_SIZE <= size
    }

    function Contents(): (b: Block)
      requires Valid()
      reads buf
      ensures |b| == size
    {
      buf[..]
    }

    /** `Page::new`. */
    constructor (size: nat)
      requires PAGE_HEADER_SIZE <= size
      ensures Valid() && fresh(buf) && this.size == size
      ensures Contents() == Blank(size)
    {
      this.size := size;
      this.buf := new bv8[size](_ => 0);
      new;
      assert buf[..] == ZeroBytes(size);
      CopyIn(OFF_MAGIC, ToLe32(MAGIC));
      CopyIn(OFF_VERSION, VERSION_BYTES);
    }

    /** `copy_from_slice` at an offset. */
    method CopyIn(off: nat, bytes: seq<bv8>)
      requires Valid() && off + |bytes| <= size
      modifies buf
      ensures Contents() == Splice(old(Contents()), off, bytes)
    {
      var i := 0;
      while i < |bytes|
        invariant 0 <= i <= |bytes|
        invariant buf[..] == Splice(old(buf[..]), off, bytes[..i])
      {
        buf[off + i] := bytes[i];
        i := i + 1;
      }
      assert bytes[..|bytes|] == bytes;
    }

    /** `reset`: back to a blank page, whatever the buffer held. */
    method Reset()
      requires Valid()
      modifies buf
      ensures Contents() == Blank(size)
    {
      forall i | 0 <= i < size { buf[i] := 0; }
      assert buf[..] == ZeroBytes(size);
      CopyIn(OFF_MAGIC, ToLe32(MAGIC));
      CopyIn(OFF_VERSION, VERSION_BYTES);
    }

    /** `set_lsn`. */
    method SetLsn(lsn: u64)
      requires Valid()
      modifies buf
      ensures Contents() == WithLsn(old(Contents()), lsn)
      ensures PageLsn(Contents()) == lsn && Id(Contents()) == Id(old(Contents()))
      ensures PagePayload(Contents()) == PagePayload(old(Contents())) && (HasHeader(Contents()) <==> HasHeader(old(Contents())))
      ensures LittleEndianAt(Contents(), 16, lsn)
    {
      FieldsAt(WithLsn(Contents(), lsn), Id(Contents()), lsn);
      WithLsnFields(Contents(), lsn);
      CopyIn(OFF_LSN, U64Bytes(lsn));
    }

    /** Writing through `payload_mut`. */
    method WritePayload(off: nat, bytes: seq<bv8>)
      requires Valid() && PAGE_HEADER_SIZE + off + |bytes| <= size
      modifies buf
      ensures Contents()[..PAGE_HEADER_SIZE] == old(Contents())[..PAGE_HEADER_SIZE]
      ensures PagePayload(Contents()) == Splice(PagePayload(old(Contents())), off, bytes)
    {
      ghost var before := Contents();
      CopyIn(PAGE_HEADER_SIZE + off, bytes);
      SpliceMisses(before, PAGE_HEADER_SIZE + off, bytes, 0, PAGE_HEADER_SIZE);
      assert Contents()[..PAGE_HEADER_SIZE] == Contents()[0..PAGE_HEADER_SIZE];
      assert before[..PAGE_HEADER_SIZE] == before[0..PAGE_HEADER_SIZE];
      SplicePayload(before, off, bytes);
    }

    /** `stamp`: the slot id and a fresh checksum, in place. */
    method Stamp(id: u64)
      requires Valid()
      modifies buf
      ensures Contents() == Stamped(old(Contents()), id)
      ensures Contents()[..6] == HEADER_BYTES && LittleEndianAt(Contents(), 8, id)
      ensures Contents()[24..28] == ToLe32(Crc32c.Checksum(Contents()[..24] + Contents()[28..]))
      ensures Contents()[6..8] == old(Contents())[6..8] && Contents()[16..24] == old(Contents())[16..24]
      ensures Contents()[28..] == old(Contents())[28..]
    {
      StampLayout(Contents(), id);
      CopyIn(OFF_MAGIC, ToLe32(MAGIC));
      CopyIn(OFF_VERSION, VERSION_BYTES);
      CopyIn(OFF_PAGE_ID, U64Bytes(id));
      var crc := ComputeChecksum(buf[..]);
      CopyIn(OFF_CRC, ToLe32(crc));
    }

    /** `verify`. */
    method Verify(expected: Option<u64>) returns (r: Result<()>)
      requires Valid()
      ensures r == Verified(Contents(), expected)
      ensures Diagnoses(Contents(), expected, r)
    {
      var bytes := buf[..];
      var magic := ReadU32(bytes, OFF_MAGIC);
      if magic != MAGIC {
        return Failure(BadMagic(magic));
      }
      var version := ReadU16(bytes, OFF_VERSION);
      if version != FORMAT_VERSION {
        return Failure(UnsupportedVersion(version));
      }
      var stored := ReadU32(bytes, OFF_CRC);
      var computed := ComputeChecksum(bytes);
      if stored != computed {
        return Failure(ChecksumMismatch(ReadU64(bytes, OFF_PAGE_ID), stored, computed));
      }
      if expected.Some? {
        var found := ReadU64(bytes, OFF_PAGE_ID);
        if found != expected.value {
          return Failure(MisdirectedPage(expected.value, found));
        }
      }
      r := Success(());
    }

    /** `to_checksummed_bytes`. */
    method ToChecksummedBytes() returns (out: seq<bv8>)
      requires Valid()
      ensures out == Sealed(Contents())
    {
      var crc := ComputeChecksum(buf[..]);
      out := Splice(buf[..], OFF_CRC, ToLe32(crc));
    }
  }

  lemma SplicePayload(b: Block, off: nat, bytes: seq<bv8>)
    requires PAGE_HEADER_SIZE + off + |bytes| <= |b|
    ensures PagePayload(Splice(b, PAGE_HEADER_SIZE + off, bytes)) == Splice(PagePayload(b), off, bytes)
  {
    var p := b[PAGE_HEADER_SIZE..];
    assert b[..PAGE_HEADER_SIZE + off] == b[..PAGE_HEADER_SIZE] + p[..off];
    assert b[PAGE_HEADER_SIZE + off + |bytes|..] == p[off + |bytes|..];
  }

  /** `Page::from_bytes`: the block is copied and verified. */
  method FromBytes(size: nat, bytes: seq<bv8>) returns (r: Result<PageBuf>)
    requires PAGE_HEADER_SIZE <= size
    ensures |bytes| != size ==> r == Failure(ShortRead(0, |bytes|))
    ensures |bytes| == size ==> (r.Success? <==> Intact(bytes))
    ensures |bytes| == size && r.Failure? ==> Diagnoses(bytes, None, Failure(r.error))
    ensures r.Success? ==> r.value.Valid() && fresh(r.value) && fresh(r.value.buf) && r.value.Contents() == bytes
  {
    if |bytes| != size {
      return Failure(ShortRead(0, |bytes|));
    }
    var page := new PageBuf(size);
    var blank := page.Contents();
    page.CopyIn(0, bytes);
    assert Splice(blank, 0, bytes) == bytes;
    var v := page.Verify(None);
    if v.Failure? {
      return Failure(v.error);
    }
    r := Success(page);
  }

  /** Writing a page out and loading it back gives an equal page, for every page with a valid header. */
  method RoundTrip(page: PageBuf) returns (r: Result<PageBuf>)
    requires page.Valid() && HasHeader(page.Contents())
    ensures r.Success? && r.value.Valid()
    ensures Id(r.value.Contents()) == Id(page.Contents())
    ensures PageLsn(r.value.Contents()) == PageLsn(page.Contents())
    ensures PagePayload(r.value.Contents()) == PagePayload(page.Contents())
  {
    var bytes := page.ToChecksummedBytes();
    SealThenVerify(page.Contents());
    r := FromBytes(page.size, bytes);
  }
}
