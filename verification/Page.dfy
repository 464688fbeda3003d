/** The page format: a 32-byte header and a payload, checksummed in place (`src/page.rs`). */
module Page {
  import opened PageError
  import opened Bytes
  import opened Fields
  import Crc32c

  const MIN_PAGE_SIZE := 4096
  const MAX_PAGE_SIZE := 0x10_0000
  const PAGE_HEADER_SIZE := 32

  /** `b"PGDB"` as a little-endian word. */
  const MAGIC: bv32 := 0x4244_4750
  const FORMAT_VERSION: bv16 := 1

  const OFF_MAGIC := 0
  const OFF_VERSION := 4
  const OFF_PAGE_ID := 8
  const OFF_LSN := 16
  const OFF_CRC := 24

  // ---------- Page sizes ----------

  predicate PowerOfTwo(n: nat) {
    if n <= 1 then n == 1 else n % 2 == 0 && PowerOfTwo(n / 2)
  }

  function Pow2(k: nat): (p: nat)
    ensures p >= 1
  {
    if k == 0 then 1 else 2 * Pow2(k - 1)
  }

  lemma {:induction false} Pow2IsPower(k: nat)
    ensures PowerOfTwo(Pow2(k))
    decreases k
  {
    if k > 0 {
      Pow2IsPower(k - 1);
      assert Pow2(k) / 2 == Pow2(k - 1) && Pow2(k) % 2 == 0;
    }
  }

  lemma {:induction false} PowerExponent(n: nat) returns (k: nat)
    requires PowerOfTwo(n)
    ensures n == Pow2(k)
    decreases n
  {
    if n == 1 {
      k := 0;
    } else {
      k := PowerExponent(n / 2);
      k := k + 1;
    }
  }

  lemma {:induction false} Pow2Monotone(j: nat, k: nat)
    requires j <= k
    ensures Pow2(j) <= Pow2(k)
    decreases k - j
  {
    if j < k { Pow2Monotone(j, k - 1); }
  }

  lemma Pow2Bounds()
    ensures Pow2(11) == 2048 && Pow2(12) == MIN_PAGE_SIZE && Pow2(20) == MAX_PAGE_SIZE && Pow2(21) == 2 * MAX_PAGE_SIZE
  {
    assert Pow2(4) == 16;
    assert Pow2(8) == 256;
    assert Pow2(16) == 65536;
  }

  /** `PageSize::new`. */
  function CheckedPageSize(size: nat): (r: Result<nat>)
    ensures r.Success? ==> r.value == size
    ensures r.Failure? ==> r.error == InvalidPageSize(size)
  {
    if size < MIN_PAGE_SIZE || size > MAX_PAGE_SIZE || !PowerOfTwo(size) then
      Failure(InvalidPageSize(size))
    else
      Success(size)
  }

  /** The sizes accepted are 2^12, 2^13 and so on up to 2^20 bytes, nine of them. */
  lemma AcceptedSizes(size: nat)
    ensures CheckedPageSize(size).Success? <==> exists k: nat :: 12 <= k <= 20 && size == Pow2(k)
  {
    Pow2Bounds();
    if CheckedPageSize(size).Success? {
      var k := PowerExponent(size);
      if k < 12 { Pow2Monotone(k, 11); }
      if k > 20 { Pow2Monotone(21, k); }
    }
    if k: nat :| 12 <= k <= 20 && size == Pow2(k) {
      Pow2IsPower(k);
      Pow2Monotone(12, k);
      Pow2Monotone(k, 20);
    }
  }

  // ---------- A block of page bytes ----------

  /** A block long enough to hold a header. */
  type Block = b: seq<bv8> | PAGE_HEADER_SIZE <= |b| witness seq(32, _ => 0)

  function Id(b: Block): u64 { ReadU64(b, OFF_PAGE_ID) }

  function PageLsn(b: Block): u64 { ReadU64(b, OFF_LSN) }

  function PagePayload(b: Block): seq<bv8> { b[PAGE_HEADER_SIZE..] }

  function StoredChecksum(b: Block): bv32 { ReadU32(b, OFF_CRC) }

  /** The bytes the checksum covers: everything but its own four. */
  function Stream(b: Block): seq<bv8> { b[..OFF_CRC] + b[OFF_CRC + 4..] }

  function PageChecksum(b: Block): bv32 { Crc32c.Checksum(Stream(b)) }

  predicate HasHeader(b: Block) {
    ReadU32(b, OFF_MAGIC) == MAGIC && ReadU16(b, OFF_VERSION) == FORMAT_VERSION
  }

  /** What reading the page back means: the header is ours and the checksum is right. */
  predicate Intact(b: Block) {
    HasHeader(b) && StoredChecksum(b) == PageChecksum(b)
  }

  /**
   What each outcome of `verify` says about the block, whatever the order of the tests: a
   wrong magic hides everything, a wrong version everything but that, and only a page that is
   intact can be reported as misdirected.
   */
  predicate Diagnoses(b: Block, expected: Option<u64>, r: Result<()>) {
    match r
    case Success(_) => Intact(b) && (expected.Some? ==> Id(b) == expected.value)
    case Failure(e) =>
      match e
      case BadMagic(found) => found == ReadU32(b, OFF_MAGIC) && found != MAGIC
      case UnsupportedVersion(version) =>
        ReadU32(b, OFF_MAGIC) == MAGIC && version == ReadU16(b, OFF_VERSION) && version != FORMAT_VERSION
      case ChecksumMismatch(pageId, stored, computed) =>
        HasHeader(b) && pageId == Id(b) && stored == StoredChecksum(b) && computed == PageChecksum(b) && stored != computed
      case MisdirectedPage(requested, stamped) =>
        Intact(b) && expected == Some(requested) && stamped == Id(b) && stamped != requested
      case _ => false
  }

  /** There is exactly one outcome that fits. */
  lemma DiagnosisExact(b: Block, expected: Option<u64>, r: Result<()>)
    ensures Diagnoses(b, expected, r) <==> r == Verified(b, expected)
  {
    match r
    case Success(done) => assert done == ();
    case Failure(_) =>
  }

  /** The outcome of `verify`, with the errors in the order the code reports them. */
  function Verified(b: Block, expected: Option<u64>): (r: Result<()>)
    ensures Diagnoses(b, expected, r)
    ensures r.Success? <==> Intact(b) && (expected.Some? ==> Id(b) == expected.value)
    ensures r.Failure? && HasHeader(b) ==> r.error.ChecksumMismatch? || r.error.MisdirectedPage?
    ensures r.Failure? ==> r.error != Io && !r.error.ShortRead?
  {
    if ReadU32(b, OFF_MAGIC) != MAGIC then
      Failure(BadMagic(ReadU32(b, OFF_MAGIC)))
    else if ReadU16(b, OFF_VERSION) != FORMAT_VERSION then
      Failure(UnsupportedVersion(ReadU16(b, OFF_VERSION)))
    else if StoredChecksum(b) != PageChecksum(b) then
      Failure(ChecksumMismatch(Id(b), StoredChecksum(b), PageChecksum(b)))
    else if expected.Some? && Id(b) != expected.value then
      Failure(MisdirectedPage(expected.value, Id(b)))
    else
      Success(())
  }

  // ---------- Layout ----------

  /** The bytes `PGDB`, then version 1. */
  const HEADER_BYTES: seq<bv8> := [0x50, 0x47, 0x44, 0x42, 1, 0]

  /** A block is taken for a page of this format if and only if it starts with these six bytes. */
  lemma HeaderIs(b: Block)
    ensures HasHeader(b) <==> b[..6] == HEADER_BYTES
  {
    WordIs(b[0], b[1], b[2], b[3]);
    HalfIs(b[4], b[5]);
    assert b[..6] == [b[0], b[1], b[2], b[3], b[4], b[5]];
  }

  lemma WordIs(b0: bv8, b1: bv8, b2: bv8, b3: bv8)
    ensures FromLe32(b0, b1, b2, b3) == MAGIC <==> b0 == 0x50 && b1 == 0x47 && b2 == 0x44 && b3 == 0x42
  {
    ToFromLe32(b0, b1, b2, b3);
    assert ToLe32(MAGIC) == [0x50, 0x47, 0x44, 0x42];
  }

  lemma HalfIs(b0: bv8, b1: bv8)
    ensures Join16(b0, b1) == FORMAT_VERSION <==> b0 == 1 && b1 == 0
  {
  }

  /** A stamped page, field by field at its place: magic and version, flags, id, LSN, checksum, the rest. */
  lemma StampLayout(b: Block, id: u64)
    ensures var s := Stamped(b, id);
      && s[..6] == HEADER_BYTES && s[6..8] == b[6..8]
      && LittleEndianAt(s, 8, id) && s[16..24] == b[16..24]
      && s[24..28] == ToLe32(Crc32c.Checksum(s[..24] + s[28..])) && s[28..] == b[28..]
  {
    var s, i := Stamped(b, id), WithId(WithHeader(b), id);
    StampThenVerify(b, id, id);
    HeaderIs(s);
    StampKeeps(b, id);
    ReadU64Order(s, 8, id);
    WithHeaderFields(b);
    WithIdFields(WithHeader(b), id);
    SealedFields(i);
    assert s[24..28] == ToLe32(PageChecksum(i));
  }

  /** The id, the LSN and the checksum of any block are the little-endian numbers at bytes 8, 16 and 24. */
  lemma FieldsAt(b: Block, id: u64, lsn: u64)
    ensures Id(b) == id <==> LittleEndianAt(b, 8, id)
    ensures PageLsn(b) == lsn <==> LittleEndianAt(b, 16, lsn)
    ensures StoredChecksum(b) == FromLe32(b[24], b[25], b[26], b[27]) && PagePayload(b) == b[32..]
  {
    ReadU64Order(b, 8, id);
    ReadU64Order(b, 16, lsn);
  }

  // ---------- Header fields ----------

  const VERSION_BYTES: seq<bv8> := [1, 0]

  /** The block with this build's magic and version. */
  function WithHeader(b: Block): (r: Block)
    ensures |r| == |b|
  {
    Splice(Splice(b, OFF_MAGIC, ToLe32(MAGIC)), OFF_VERSION, VERSION_BYTES)
  }

  function WithId(b: Block, id: u64): (r: Block)
    ensures |r| == |b|
  {
    Splice(b, OFF_PAGE_ID, U64Bytes(id))
  }

  function WithLsn(b: Block, lsn: u64): (r: Block)
    ensures |r| == |b|
  {
    Splice(b, OFF_LSN, U64Bytes(lsn))
  }

  /** The block with a checksum that matches its other bytes. */
  function Sealed(b: Block): (r: Block)
    ensures |r| == |b|
  {
    Splice(b, OFF_CRC, ToLe32(PageChecksum(b)))
  }

  /** The block `stamp` leaves behind. */
  function Stamped(b: Block, id: u64): (r: Block)
    ensures |r| == |b|
  {
    Sealed(WithId(WithHeader(b), id))
  }

  lemma WithHeaderFields(b: Block)
    ensures var r := WithHeader(b);
      HasHeader(r) && r[6..] == b[6..]
  {
    var m := Splice(b, OFF_MAGIC, ToLe32(MAGIC));
    var r := WithHeader(b);
    ReadWrittenU32(b, OFF_MAGIC, MAGIC);
    SpliceMisses(m, OFF_VERSION, VERSION_BYTES, 0, 4);
    ReadU32Slice(m, r, OFF_MAGIC);
    assert r[4..6] == VERSION_BYTES;
    assert r[4] == r[4..6][0] && r[5] == r[4..6][1];
    assert m[6..] == m[4..][2..] && b[6..] == b[4..][2..];
  }

  lemma WithIdFields(b: Block, id: u64)
    ensures var r := WithId(b, id);
      Id(r) == id && r[..8] == b[..8] && r[16..] == b[16..] && (HasHeader(b) ==> HasHeader(r))
  {
    var r := WithId(b, id);
    ReadWrittenU64(b, OFF_PAGE_ID, id);
    assert r[0..4] == r[..8][0..4] && b[0..4] == b[..8][0..4];
    assert r[4..6] == r[..8][4..6] && b[4..6] == b[..8][4..6];
    ReadU32Slice(b, r, OFF_MAGIC);
    ReadU16Slice(b, r, OFF_VERSION);
  }

  /** Setting the LSN changes that field and nothing else. */
  lemma WithLsnFields(b: Block, lsn: u64)
    ensures var r := WithLsn(b, lsn);
      && PageLsn(r) == lsn && r[..16] == b[..16] && r[24..] == b[24..]
      && (HasHeader(r) <==> HasHeader(b)) && Id(r) == Id(b) && PagePayload(r) == PagePayload(b)
  {
    var r := WithLsn(b, lsn);
    ReadWrittenU64(b, OFF_LSN, lsn);
    assert r[0..4] == r[..16][0..4] && b[0..4] == b[..16][0..4];
    assert r[4..6] == r[..16][4..6] && b[4..6] == b[..16][4..6];
    assert r[8..16] == r[..16][8..16] && b[8..16] == b[..16][8..16];
    assert r[32..] == r[24..][8..] && b[32..] == b[24..][8..];
    ReadU32Slice(b, r, OFF_MAGIC);
    ReadU16Slice(b, r, OFF_VERSION);
    ReadU64Slice(b, r, OFF_PAGE_ID);
  }

  /** Sealing changes only the checksum field, and the result is right about itself. */
  lemma SealedFields(b: Block)
    ensures var r := Sealed(b);
      && r[..24] == b[..24] && r[28..] == b[28..]
      && Stream(r) == Stream(b) && StoredChecksum(r) == PageChecksum(r)
      && (HasHeader(r) <==> HasHeader(b)) && Id(r) == Id(b) && PageLsn(r) == PageLsn(b) && PagePayload(r) == PagePayload(b)
  {
    var r := Sealed(b);
    ReadWrittenU32(b, OFF_CRC, PageChecksum(b));
    SpliceMisses(b, OFF_CRC, ToLe32(PageChecksum(b)), 0, 4);
    SpliceMisses(b, OFF_CRC, ToLe32(PageChecksum(b)), 4, 6);
    SpliceMisses(b, OFF_CRC, ToLe32(PageChecksum(b)), 8, 16);
    SpliceMisses(b, OFF_CRC, ToLe32(PageChecksum(b)), 16, 24);
    SpliceMisses(b, OFF_CRC, ToLe32(PageChecksum(b)), 32, |b|);
    ReadU32Slice(b, r, OFF_MAGIC);
    ReadU16Slice(b, r, OFF_VERSION);
  }

  // ---------- Framing round trips ----------

  /** Any in-memory page with a valid header survives `to_checksummed_bytes` and `from_bytes`. */
  lemma SealThenVerify(b: Block)
    ensures Verified(Sealed(b), None).Success? <==> HasHeader(b)
    ensures Id(Sealed(b)) == Id(b) && PageLsn(Sealed(b)) == PageLsn(b) && PagePayload(Sealed(b)) == PagePayload(b)
  {
    SealedFields(b);
  }

  /** Every block that parses is already sealed: writing it out again reproduces it byte for byte. */
  lemma VerifyThenSeal(b: Block)
    requires Intact(b)
    ensures Sealed(b) == b
  {
    WriteReadU32(b, OFF_CRC);
    assert b == b[..24] + b[24..28] + b[28..];
  }

  /** Stamping touches the magic, the version, the id and the checksum only. */
  lemma StampKeeps(b: Block, id: u64)
    ensures var s := Stamped(b, id); s[6..8] == b[6..8] && s[16..24] == b[16..24] && s[28..] == b[28..]
  {
    var h := WithHeader(b);
    var i := WithId(h, id);
    WithHeaderFields(b);
    WithIdFields(h, id);
    SealedFields(i);
    HeaderKeeps(b, h);
    assert i[6..8] == i[..8][6..8] && h[6..8] == h[..8][6..8];
    assert i[16..24] == i[16..][..8] && h[16..24] == h[16..][..8];
    assert i[28..] == i[16..][12..] && h[28..] == h[16..][12..];
    assert Stamped(b, id)[6..8] == Stamped(b, id)[..24][6..8] && i[6..8] == i[..24][6..8];
    assert Stamped(b, id)[16..24] == Stamped(b, id)[..24][16..24] && i[16..24] == i[..24][16..24];
  }

  lemma HeaderKeeps(b: Block, h: Block)
    requires |h| == |b| && h[6..] == b[6..]
    ensures h[6..8] == b[6..8] && h[16..24] == b[16..24] && h[28..] == b[28..]
  {
    assert h[6..8] == h[6..][..2] && b[6..8] == b[6..][..2];
    assert h[16..24] == h[6..][10..18] && b[16..24] == b[6..][10..18];
    assert h[28..] == h[6..][22..] && b[28..] == b[6..][22..];
  }

  /** A stamped page is accepted exactly at the slot it was stamped for, with its contents unchanged. */
  lemma StampThenVerify(b: Block, id: u64, slot: u64)
    ensures Verified(Stamped(b, id), Some(slot)).Success? <==> slot == id
    ensures Verified(Stamped(b, id), None).Success?
    ensures Id(Stamped(b, id)) == id
    ensures PageLsn(Stamped(b, id)) == PageLsn(b) && PagePayload(Stamped(b, id)) == PagePayload(b)
  {
    var i := WithId(WithHeader(b), id);
    WithHeaderFields(b);
    WithIdFields(WithHeader(b), id);
    SealedFields(i);
    StampKeeps(b, id);
    assert Stamped(b, id)[32..] == Stamped(b, id)[28..][4..] && b[32..] == b[28..][4..];
    ReadU64Slice(Stamped(b, id), b, OFF_LSN);
  }

  /** Stamping again at another slot forgets the first stamp. */
  lemma StampTwice(b: Block, i: u64, j: u64)
    ensures Stamped(Stamped(b, i), j) == Stamped(b, j)
  {
    var s := Stamped(b, i);
    var h := WithHeader(b);
    WithHeaderFields(b);
    StampThenVerify(b, i, i);
    var x, y := WithId(WithHeader(s), j), WithId(WithHeader(b), j);
    StampKeeps(b, i);
    StampKeeps(s, j);
    StampKeeps(b, j);
    assert x[..24] == y[..24] && x[28..] == y[28..] by {
      HeaderBytes(s, j);
      HeaderBytes(b, j);
    }
    assert Stream(x) == Stream(y);
  }

  lemma HeaderBytes(b: Block, id: u64)
    ensures var x := WithId(WithHeader(b), id);
      x[..24] == ToLe32(MAGIC) + VERSION_BYTES + b[6..8] + U64Bytes(id) + b[16..24] && x[28..] == b[28..]
  {
    var h := WithHeader(b);
    WithHeaderFields(b);
    WithIdFields(h, id);
    var x := WithId(h, id);
    assert h[..4] == ToLe32(MAGIC) by {
      var m := Splice(b, OFF_MAGIC, ToLe32(MAGIC));
      assert m[0..4] == ToLe32(MAGIC) && m[..4] == m[0..4];
    }
    assert h[4..6] == VERSION_BYTES;
    HeaderKeeps(b, h);
    assert x[28..] == b[28..] by { assert x[28..] == x[16..][12..] && h[28..] == h[16..][12..]; }
    assert x[16..24] == h[16..24] by { assert x[16..24] == x[16..][..8] && h[16..24] == h[16..][..8]; }
    assert x[..24] == h[..4] + h[4..6] + h[6..8] + U64Bytes(id) + h[16..24];
  }
}
