/** `PageFile`: an array of pages over a flat file of bytes (`src/file.rs`). */
module PageFile {
  import opened PageError
  import opened Disk
  import opened Page
  import opened PageBuffer
  import opened RawFile
  import opened Modular

  // ---------- Slots of a flat file ----------

  /** The sizes `PageSize::new` accepts. */
  type PageSize = n: nat | MIN_PAGE_SIZE <= n <= MAX_PAGE_SIZE && PowerOfTwo(n) witness MIN_PAGE_SIZE

  /** One more than the last offset 64 bits can name. */
  const OFFSETS := 0x1_0000_0000_0000_0000

  function WholePages(len: nat, n: nat): nat
    requires n > 0
  {
    len / n
  }

  /** `PageId::byte_offset`: a product of 64-bit words, which wraps. */
  function ByteOffset(id: u64, pageSize: PageSize): nat { id * pageSize % OFFSETS }

  /** The slot an id is read from and written to. */
  function SlotOf(id: u64, pageSize: PageSize): nat { WholePages(ByteOffset(id, pageSize), pageSize) }

  /** How many slots 64-bit offsets can reach. */
  function SlotCount(pageSize: PageSize): nat { WholePages(OFFSETS, pageSize) }

  function Offset(slot: nat, pageSize: nat): nat { slot * pageSize }

  /** The bytes of a slot, if the file reaches to its end. */
  function SlotBytes(data: seq<bv8>, pageSize: PageSize, slot: nat): Option<seq<bv8>> {
    var at := Offset(slot, pageSize);
    if at + pageSize <= |data| then Some(data[at..at + pageSize]) else None
  }

  function Content(b: Block): PageData
    requires MIN_PAGE_SIZE <= |b|
  {
    PageData(PageLsn(b), PagePayload(b))
  }

  /** What a store over this file would say is at `id`. */
  function FileSlot(data: seq<bv8>, pageSize: PageSize, id: u64): Option<Slot> {
    match SlotBytes(data, pageSize, SlotOf(id, pageSize))
    case None => None
    case Some(b) => Some(if Verified(b, Some(id)).Success? then Good(Content(b)) else Corrupt)
  }

  /** A blank block holds the blank page of the pool. */
  lemma BlankContent(pageSize: PageSize)
    ensures Content(Blank(pageSize)) == BlankPage(pageSize - 32) && IsBlank(Content(Blank(pageSize)), pageSize - 32)
  {
    BlankFields(pageSize);
  }

  // ---------- Which slot an id lands in ----------

  lemma {:induction false} Pow2Sum(j: nat, k: nat)
    ensures Pow2(j) * Pow2(k) == Pow2(j + k)
    decreases j
  {
    if j > 0 {
      Pow2Sum(j - 1, k);
      Regroup(2, Pow2(j - 1), Pow2(k), 0);
    }
  }

  lemma Pow2OfSixtyFour()
    ensures Pow2(64) == OFFSETS
  {
    Pow2Bounds();
    Pow2Sum(12, 20);
    Pow2Sum(32, 32);
  }

  /** Every accepted page size divides the range of offsets. */
  lemma SlotsFill(pageSize: PageSize)
    ensures pageSize * SlotCount(pageSize) == OFFSETS
  {
    var k := PowerExponent(pageSize);
    Pow2Bounds();
    if k > 20 { Pow2Monotone(21, k); }
    Pow2Sum(k, 64 - k);
    Pow2OfSixtyFour();
    WholeExactly(OFFSETS, pageSize, Pow2(64 - k));
  }

  lemma WholeExactly(len: nat, n: nat, q: nat)
    requires n > 0 && len == n * q
    ensures WholePages(len, n) == q
  {
    MultipleModulo(n, q);
    var p := WholePages(len, n);
    assert len == n * p + len % n;
    QuotientBelow(n, p, 0, q, 0);
    QuotientBelow(n, q, 0, p, 0);
  }

  /** A wrapped offset is a slot's offset, and the slot's last byte is within 64 bits. */
  lemma OffsetIsSlot(id: u64, pageSize: PageSize)
    ensures ByteOffset(id, pageSize) == Offset(SlotOf(id, pageSize), pageSize)
    ensures Offset(SlotOf(id, pageSize), pageSize) + pageSize <= OFFSETS
  {
    var at, n := ByteOffset(id, pageSize), SlotCount(pageSize);
    SlotsFill(pageSize);
    ModuloOfModulo(id * pageSize, pageSize, n);
    MultipleModulo(pageSize, id);
    assert at == pageSize * (at / pageSize) + at % pageSize;
    if n <= at / pageSize { LaterOrSame(pageSize, n, at / pageSize); }
    LaterMultiple(pageSize, at / pageSize, n);
  }

  lemma LaterOrSame(a: nat, q: nat, q': nat)
    requires q <= q'
    ensures a * q <= a * q'
  {
    if q < q' { LaterMultiple(a, q, q'); }
  }

  /** The slot of an id is its remainder by the number of slots. */
  lemma SlotIsRemainder(id: u64, pageSize: PageSize)
    ensures SlotCount(pageSize) > 0 && SlotOf(id, pageSize) == id % SlotCount(pageSize)
  {
    var n := SlotCount(pageSize);
    SlotsFill(pageSize);
    var q, t := id / n, id % n;
    LaterMultiple(pageSize, t, n);
    Regroup(pageSize, n, q, t);
    assert id == n * q + t;
    ModuloUnique(id * pageSize, OFFSETS, q, pageSize * t);
    MultipleModulo(pageSize, t);
  }

  /** An id has a slot of its own number if and only if its page ends within the range of offsets. */
  lemma OwnSlotIff(id: u64, pageSize: PageSize)
    ensures SlotOf(id, pageSize) == id <==> id * pageSize + pageSize <= OFFSETS
  {
    var n := SlotCount(pageSize);
    SlotsFill(pageSize);
    SlotIsRemainder(id, pageSize);
    RemainderIsSelf(id, n);
    FitsBelow(pageSize, id, n);
  }

  lemma RemainderIsSelf(id: nat, n: nat)
    requires n > 0
    ensures id % n == id <==> id < n
  {
  }

  lemma FitsBelow(size: nat, id: nat, n: nat)
    requires size > 0
    ensures id < n <==> id * size + size <= size * n
  {
    if id < n { LaterMultiple(size, id, n); } else { LaterOrSame(size, n, id); }
  }

  /** The first id with no slot of its own is read and written where page 0 is; at the default size it is 2^52. */
  lemma FirstSharedId(pageSize: PageSize)
    ensures 0 < SlotCount(pageSize) < OFFSETS && SlotOf(SlotCount(pageSize), pageSize) == SlotOf(0, pageSize) == 0
    ensures pageSize == 4096 ==> SlotCount(pageSize) == 0x10_0000_0000_0000
  {
    var n := SlotCount(pageSize);
    SlotsFill(pageSize);
    LaterMultiple(n, 1, pageSize);
    SlotIsRemainder(n, pageSize);
    SlotIsRemainder(0, pageSize);
  }

  // ---------- Writes to slots ----------

  lemma {:induction false} MulStep(i: nat, j: nat, n: nat)
    requires i < j
    ensures i * n + n <= j * n
    decreases j - i
  {
    assert (j - 1) * n + n == j * n;
    if i < j - 1 { MulStep(i, j - 1, n); }
  }

  lemma SlotsApart(i: nat, j: nat, n: nat)
    requires i < j
    ensures Offset(i, n) + n <= Offset(j, n)
  {
    MulStep(i, j, n);
  }

  /** Writing a whole slot fills it. */
  lemma WriteFills(data: seq<bv8>, pageSize: PageSize, slot: nat, bytes: seq<bv8>)
    requires |bytes| == pageSize
    ensures SlotBytes(WriteAt(data, Offset(slot, pageSize), bytes), pageSize, slot) == Some(bytes)
  {
    WriteAtInside(data, Offset(slot, pageSize), bytes);
  }

  /** Writing any part of one slot leaves every other complete slot as it was. */
  lemma WriteSpares(data: seq<bv8>, pageSize: PageSize, slot: nat, bytes: seq<bv8>, other: nat)
    requires |bytes| <= pageSize && other != slot && SlotBytes(data, pageSize, other).Some?
    ensures SlotBytes(WriteAt(data, Offset(slot, pageSize), bytes), pageSize, other) == SlotBytes(data, pageSize, other)
  {
    if other < slot { SlotsApart(other, slot, pageSize); } else { SlotsApart(slot, other, pageSize); }
    SparesRange(data, Offset(slot, pageSize), bytes, Offset(other, pageSize), pageSize);
  }

  lemma SparesRange(data: seq<bv8>, at: nat, bytes: seq<bv8>, lo: nat, n: nat)
    requires |bytes| <= n && lo + n <= |data| && (lo + n <= at || at + n <= lo)
    ensures lo + n <= |WriteAt(data, at, bytes)| && WriteAt(data, at, bytes)[lo..lo + n] == data[lo..lo + n]
  {
    WriteAtOutside(data, at, bytes, lo, lo + n);
  }

  /** A stamped page in its slot is a good page with the contents it was stamped with. */
  lemma StampedIsGood(b: Block, id: u64)
    requires MIN_PAGE_SIZE <= |b|
    ensures Verified(Stamped(b, id), Some(id)).Success? && Content(Stamped(b, id)) == Content(b)
  {
    StampThenVerify(b, id, id);
  }

  ghost predicate Kept(data: seq<bv8>, pageSize: PageSize, written: map<u64, PageData>) {
    forall id :: id in written ==> FileSlot(data, pageSize, id) == Some(Good(written[id]))
  }

  /** The pages of every slot but `id`'s; an id that shares its slot goes with it. */
  function Elsewhere(pages: map<u64, PageData>, pageSize: PageSize, id: u64): map<u64, PageData> {
    map other | other in pages && SlotOf(other, pageSize) != SlotOf(id, pageSize) :: pages[other]
  }

  /** The complete slots other than `slot` hold the same bytes. */
  ghost predicate OnlySlot(data: seq<bv8>, data': seq<bv8>, pageSize: PageSize, slot: nat) {
    forall other: nat :: other != slot && SlotBytes(data, pageSize, other).Some? ==>
      SlotBytes(data', pageSize, other) == SlotBytes(data, pageSize, other)
  }

  lemma KeptElsewhere(data: seq<bv8>, data': seq<bv8>, pageSize: PageSize, written: map<u64, PageData>, id: u64)
    requires Kept(data, pageSize, written) && OnlySlot(data, data', pageSize, SlotOf(id, pageSize))
    ensures Kept(data', pageSize, Elsewhere(written, pageSize, id))
  {
  }

  lemma KeptHere(data: seq<bv8>, pageSize: PageSize, written: map<u64, PageData>, id: u64, bytes: Block)
    requires Kept(data, pageSize, written) && MIN_PAGE_SIZE <= |bytes|
    requires SlotBytes(data, pageSize, SlotOf(id, pageSize)) == Some(bytes) && Verified(bytes, Some(id)).Success?
    ensures Kept(data, pageSize, written[id := Content(bytes)])
    ensures FileSlot(data, pageSize, id) == Some(Good(Content(bytes)))
  {
  }

  lemma PartialWriteElsewhere(data: seq<bv8>, pageSize: PageSize, slot: nat, bytes: seq<bv8>)
    requires |bytes| <= pageSize
    ensures OnlySlot(data, WriteAt(data, Offset(slot, pageSize), bytes), pageSize, slot)
  {
    forall other: nat | other != slot && SlotBytes(data, pageSize, other).Some?
      ensures SlotBytes(WriteAt(data, Offset(slot, pageSize), bytes), pageSize, other) == SlotBytes(data, pageSize, other)
    {
      WriteSpares(data, pageSize, slot, bytes, other);
    }
  }

  class PageFile {
    const file: RawFile
    const pageSize: PageSize
    /** What was last written to each slot by a call that succeeded. */
    ghost var written: map<u64, PageData>

    /** Every page written is still there, whatever transfers the writes were made of. */
    ghost predicate Valid()
      reads this, file
    {
      Kept(file.data, pageSize, written)
    }

    constructor (file: RawFile, pageSize: PageSize)
      ensures Valid() && this.file == file && this.pageSize == pageSize && written == map[]
    {
      this.file := file;
      this.pageSize := pageSize;
      this.written := map[];
    }

    /** `page_count`: the number of whole pages, which are exactly the complete slots. */
    method PageCount() returns (n: nat)
      ensures forall slot: nat :: slot < n <==> SlotBytes(file.data, pageSize, slot).Some?
    {
      n := WholePages(|file.data|, pageSize);
      forall slot: nat ensures slot < n <==> SlotBytes(file.data, pageSize, slot).Some? {
        CountSlots(|file.data|, pageSize, slot);
      }
    }

    /** `read_into`. */
    method ReadInto(id: u64, page: PageBuf) returns (r: Result<()>)
      requires Valid() && page.Valid()
      modifies file`script, page.buf
      ensures Valid() && file.data == old(file.data)
      ensures page.size != pageSize ==> r == Failure(InvalidPageSize(page.size)) && page.Contents() == old(page.Contents())
      ensures page.size == pageSize && r.Success? ==>
        FileSlot(file.data, pageSize, id) == Some(Good(Content(page.Contents()))) && Id(page.Contents()) == id
      ensures page.size == pageSize && r.Failure? ==>
        match r.error
        case Io => Failed in old(file.script)
        case ShortRead(slot, got) => slot == id && got < pageSize && got == Available(file.data, ByteOffset(id, pageSize)) && SlotBytes(file.data, pageSize, SlotOf(id, pageSize)) == None
        case e => FileSlot(file.data, pageSize, id) == Some(Corrupt)
                  && Diagnoses(SlotBytes(file.data, pageSize, SlotOf(id, pageSize)).value, Some(id), Failure(e))
      ensures page.size == pageSize && id in written && r.Success? ==> Content(page.Contents()) == written[id]
      ensures page.size == pageSize && id in written && r.Failure? ==> r.error == Io
      ensures page.size == pageSize ==>
        (r == Failure(Io) <==> !Receiving(old(file.script), pageSize, Available(file.data, ByteOffset(id, pageSize))).ok)
    {
      if page.size != pageSize {
        return Failure(InvalidPageSize(page.size));
      }
      var got := file.ReadAtFull(page.buf, ByteOffset(id, pageSize));
      OffsetIsSlot(id, pageSize);
      if got.Failure? {
        return Failure(got.error);
      }
      if got.value != pageSize {
        return Failure(ShortRead(id, got.value));
      }
      assert page.buf[..pageSize] == page.buf[..];
      r := page.Verify(Some(id));
    }

    /** `write_page`: stamps the page in place and writes it to its slot. */
    method WritePage(id: u64, page: PageBuf) returns (r: Result<()>, ghost landed: nat)
      requires Valid() && page.Valid()
      modifies this`written, file, page.buf
      ensures Valid()
      ensures page.size != pageSize ==> r == Failure(InvalidPageSize(page.size)) && written == old(written) && file.data == old(file.data)
      ensures page.size == pageSize ==> page.Contents() == Stamped(old(page.Contents()), id)
                                        && Content(page.Contents()) == Content(old(page.Contents()))
      ensures page.size == pageSize && r.Success? ==>
        written == old(Elsewhere(written, pageSize, id))[id := Content(page.Contents())] && FileSlot(file.data, pageSize, id) == Some(Good(Content(page.Contents())))
      ensures page.size == pageSize && r.Failure? ==>
        written == old(Elsewhere(written, pageSize, id)) && r.error == Io && (Failed in old(file.script) || Transfer(0) in old(file.script))
      ensures OnlySlot(old(file.data), file.data, pageSize, SlotOf(id, pageSize))
      ensures page.size == pageSize ==> (r.Success? <==> Sending(old(file.script), pageSize).ok)
      ensures page.size == pageSize ==> landed <= pageSize && (r.Success? ==> landed == pageSize)
                                        && file.data == WriteAt(old(file.data), ByteOffset(id, pageSize), page.Contents()[..landed])
    {
      landed := 0;
      if page.size != pageSize {
        return Failure(InvalidPageSize(page.size)), landed;
      }
      ghost var before := page.Contents();
      ghost var data := file.data;
      page.Stamp(id);
      StampedIsGood(before, id);
      var bytes := page.buf[..];
      OffsetIsSlot(id, pageSize);
      ghost var slot := SlotOf(id, pageSize);
      r, landed := file.WriteAllAt(bytes, ByteOffset(id, pageSize));
      PartialWriteElsewhere(data, pageSize, slot, bytes[..landed]);
      KeptElsewhere(data, file.data, pageSize, written, id);
      written := Elsewhere(written, pageSize, id);
      if r.Success? {
        assert bytes[..landed] == bytes;
        WriteFills(data, pageSize, slot, bytes);
        KeptHere(file.data, pageSize, written, id, bytes);
        written := written[id := Content(bytes)];
      }
    }
  }

  lemma CountSlots(len: nat, n: nat, slot: nat)
    requires n > 0
    ensures slot < WholePages(len, n) <==> Offset(slot, n) + n <= len
  {
    var q := len / n;
    DivBounds(len, n, q);
    if slot < q {
      MulStep(slot, q, n);
    } else if slot > q {
      MulStep(q, slot, n);
    }
  }

  lemma DivBounds(len: nat, n: nat, q: nat)
    requires n > 0 && q == len / n
    ensures q * n <= len < q * n + n
  {
  }
}
