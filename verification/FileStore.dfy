/**
 A page file as a page store.  The pool and the allocator are proved over a store whose
 writes change one readable page; here is when a file of pages is one.
 */
module FileStore {
  import opened PageError
  import opened Bytes
  import opened Disk
  import opened Fields
  import opened Page
  import opened PageBuffer
  import opened RawFile
  import opened PageFile

  predicate Readable(data: seq<bv8>, pageSize: PageSize, id: u64) {
    match FileSlot(data, pageSize, id)
    case Some(Good(_)) => true
    case _ => false
  }

  /** What a file holds, as a store: the ids whose slot is complete and verifies as theirs. */
  function FileDisk(data: seq<bv8>, pageSize: PageSize): Disk {
    map id: u64 | Readable(data, pageSize, id) :: FileSlot(data, pageSize, id).value.data
  }

  lemma FileDiskAt(data: seq<bv8>, pageSize: PageSize, id: u64)
    ensures SlotOf(id, pageSize) < WholePages(|data|, pageSize) <==> SlotBytes(data, pageSize, SlotOf(id, pageSize)).Some?
    ensures Stored(FileDisk(data, pageSize), id)
         == if Readable(data, pageSize, id) then Some(FileSlot(data, pageSize, id).value.data) else None
  {
    CountSlots(|data|, pageSize, SlotOf(id, pageSize));
  }

  /** A slot reads back for at most one of the ids that share it. */
  lemma OneIdPerSlot(data: seq<bv8>, pageSize: PageSize, i: u64, j: u64)
    requires Readable(data, pageSize, i) && Readable(data, pageSize, j) && SlotOf(i, pageSize) == SlotOf(j, pageSize)
    ensures i == j
  {
  }

  // ---------- Slots a write skips ----------

  /** A slot once the file has grown past it: what there was of it, then zeros. */
  function ZeroFilled(data: seq<bv8>, at: nat, n: nat): (b: seq<bv8>)
    ensures |b| == n
  {
    seq(n, i requires 0 <= i < n => if at + i < |data| then data[at + i] else 0)
  }

  /** The incomplete slot at the end of the file, completed with zeros. */
  function Tail(data: seq<bv8>, pageSize: PageSize): (b: Block)
    ensures |b| == pageSize
  {
    ZeroFilled(data, Offset(WholePages(|data|, pageSize), pageSize), pageSize)
  }

  /**
   Writing `id` skips an incomplete slot that zeros happen to complete: a torn write left it
   short, and every byte it lacks is zero.
   */
  predicate TailHeals(data: seq<bv8>, pageSize: PageSize, id: u64) {
    var tail := Tail(data, pageSize);
    && WholePages(|data|, pageSize) < SlotOf(id, pageSize)
    && SlotOf(Id(tail), pageSize) == WholePages(|data|, pageSize) && Verified(tail, None).Success?
  }

  /** The store once the file has grown up to the slot of `id`. */
  function Grown(data: seq<bv8>, pageSize: PageSize, id: u64): Disk {
    if TailHeals(data, pageSize, id) then
      FileDisk(data, pageSize)[Id(Tail(data, pageSize)) := Content(Tail(data, pageSize))]
    else
      FileDisk(data, pageSize)
  }

  lemma ZerosAreNoPage(b: Block, slot: Option<u64>)
    requires forall i :: 0 <= i < 4 ==> b[i] == 0
    ensures Verified(b, slot).Failure?
  {
    assert ReadU32(b, OFF_MAGIC) == FromLe32(0, 0, 0, 0);
  }

  /** A file of whole pages has no tail to heal. */
  lemma WholePagesNeverHeal(data: seq<bv8>, pageSize: PageSize, id: u64)
    requires |data| % pageSize == 0
    ensures !TailHeals(data, pageSize, id)
  {
    NothingThere(|data|, pageSize, WholePages(|data|, pageSize));
    ZerosAreNoPage(Tail(data, pageSize), None);
  }

  lemma NothingThere(len: nat, n: nat, tail: nat)
    requires n > 0 && len % n == 0 && tail == WholePages(len, n)
    ensures tail * n == len
  {
  }

  /** A slot the write skipped is complete afterwards, filled with zeros. */
  lemma SkippedSlot(data: seq<bv8>, pageSize: PageSize, slot: nat, bytes: seq<bv8>, other: nat)
    requires bytes != [] && other < slot && SlotBytes(data, pageSize, other) == None
    ensures SlotBytes(WriteAt(data, Offset(slot, pageSize), bytes), pageSize, other)
         == Some(ZeroFilled(data, Offset(other, pageSize), pageSize))
  {
    SlotsApart(other, slot, pageSize);
    var at, data' := Offset(other, pageSize), WriteAt(data, Offset(slot, pageSize), bytes);
    var b, z := data'[at..at + pageSize], ZeroFilled(data, at, pageSize);
    forall i | 0 <= i < pageSize ensures b[i] == z[i] {
      WriteAtByte(data, Offset(slot, pageSize), bytes, at + i);
    }
    assert b == z;
  }

  /** Past the tail a skipped slot is all zero. */
  lemma BeyondTail(data: seq<bv8>, pageSize: PageSize, tail: nat, other: nat)
    requires tail == WholePages(|data|, pageSize) && tail < other
    ensures forall i :: 0 <= i < pageSize ==> ZeroFilled(data, Offset(other, pageSize), pageSize)[i] == 0
  {
    CountSlots(|data|, pageSize, tail);
    SlotsApart(tail, other, pageSize);
  }

  /** The file after `bytes` have landed in the slot of `id`. */
  function Written(data: seq<bv8>, pageSize: PageSize, id: u64, bytes: seq<bv8>): seq<bv8> {
    WriteAt(data, ByteOffset(id, pageSize), bytes)
  }

  lemma GrownAt(data: seq<bv8>, pageSize: PageSize, id: u64, other: u64)
    ensures Stored(Grown(data, pageSize, id), other)
         == if TailHeals(data, pageSize, id) && other == Id(Tail(data, pageSize))
            then Some(Content(Tail(data, pageSize))) else Stored(FileDisk(data, pageSize), other)
  {
  }

  /** A slot that was not complete and is skipped: filled with zeros, and a page only if it is the tail and heals. */
  lemma SlotSkipped(data: seq<bv8>, pageSize: PageSize, id: u64, bytes: seq<bv8>, other: u64)
    requires bytes != [] && SlotOf(other, pageSize) < SlotOf(id, pageSize)
    requires SlotBytes(data, pageSize, SlotOf(other, pageSize)) == None
    ensures var disk := FileDisk(Written(data, pageSize, id, bytes), pageSize);
      Stored(disk, other) == if TailHeals(data, pageSize, id) && other == Id(Tail(data, pageSize))
                             then Some(Content(Tail(data, pageSize))) else None
  {
    var o, tail := SlotOf(other, pageSize), WholePages(|data|, pageSize);
    OffsetIsSlot(id, pageSize);
    SkippedSlot(data, pageSize, SlotOf(id, pageSize), bytes, o);
    FileDiskAt(data, pageSize, other);
    FileDiskAt(Written(data, pageSize, id, bytes), pageSize, other);
    var b := ZeroFilled(data, Offset(o, pageSize), pageSize);
    assert tail <= o;
    if tail < o {
      BeyondTail(data, pageSize, tail, o);
      ZerosAreNoPage(b, Some(other));
    } else {
      assert b == Tail(data, pageSize);
    }
  }

  /** A slot that was not complete and lies beyond the one written is still missing. */
  lemma SlotBeyond(data: seq<bv8>, pageSize: PageSize, id: u64, bytes: seq<bv8>, other: u64)
    requires |bytes| <= pageSize && SlotOf(id, pageSize) < SlotOf(other, pageSize)
    requires SlotBytes(data, pageSize, SlotOf(other, pageSize)) == None
    ensures Stored(FileDisk(Written(data, pageSize, id, bytes), pageSize), other) == None
  {
    OffsetIsSlot(id, pageSize);
    SlotsApart(SlotOf(id, pageSize), SlotOf(other, pageSize), pageSize);
    FileDiskAt(Written(data, pageSize, id, bytes), pageSize, other);
  }

  /** No page of another slot changes, but for a tail that heals. */
  lemma OtherSlot(data: seq<bv8>, pageSize: PageSize, id: u64, bytes: seq<bv8>, other: u64)
    requires bytes != [] && |bytes| <= pageSize && SlotOf(other, pageSize) != SlotOf(id, pageSize)
    ensures Stored(FileDisk(Written(data, pageSize, id, bytes), pageSize), other) == Stored(Grown(data, pageSize, id), other)
  {
    if SlotBytes(data, pageSize, SlotOf(other, pageSize)).Some? {
      OffsetIsSlot(id, pageSize);
      WriteSpares(data, pageSize, SlotOf(id, pageSize), bytes, SlotOf(other, pageSize));
      FileDiskAt(data, pageSize, other);
      FileDiskAt(Written(data, pageSize, id, bytes), pageSize, other);
    } else {
      FileDiskAt(data, pageSize, other);
      GrownAt(data, pageSize, id, other);
      if SlotOf(other, pageSize) < SlotOf(id, pageSize) {
        SlotSkipped(data, pageSize, id, bytes, other);
      } else {
        SlotBeyond(data, pageSize, id, bytes, other);
      }
    }
  }

  /** A blank page stamped for slot 0 and torn one byte short. */
  function OneByteShort(pageSize: PageSize): seq<bv8> { Stamped(Blank(pageSize), 0)[..pageSize - 1] }

  lemma FilledUp(whole: Block)
    requires whole[|whole| - 1] == 0
    ensures ZeroFilled(whole[..|whole| - 1], 0, |whole|) == whole
  {
    var filled := ZeroFilled(whole[..|whole| - 1], 0, |whole|);
    forall i | 0 <= i < |whole| ensures filled[i] == whole[i] {}
  }

  lemma FirstSlots(pageSize: PageSize)
    ensures SlotOf(0, pageSize) == 0 && SlotOf(1, pageSize) == 1
  {
    OwnSlotIff(0, pageSize);
    OwnSlotIff(1, pageSize);
  }

  lemma ShortPageHeals(whole: Block, pageSize: PageSize)
    requires |whole| == pageSize && whole[pageSize - 1] == 0 && Verified(whole, Some(0)).Success?
    ensures TailHeals(whole[..pageSize - 1], pageSize, 1)
  {
    var data := whole[..pageSize - 1];
    FirstSlots(pageSize);
    FilledUp(whole);
    NoWholePage(pageSize - 1, pageSize);
    assert Tail(data, pageSize) == whole;
  }

  lemma NoWholePage(len: nat, n: nat)
    requires len < n
    ensures WholePages(len, n) == 0
  {
  }

  /** It does happen: the byte that did not land is zero, and the next write past it supplies it. */
  lemma TailCanHeal(pageSize: PageSize)
    ensures TailHeals(OneByteShort(pageSize), pageSize, 1)
  {
    var blank := Blank(pageSize);
    StampThenVerify(blank, 0, 0);
    BlankFields(pageSize);
    assert PagePayload(Stamped(blank, 0))[pageSize - 33] == Stamped(blank, 0)[pageSize - 1];
    ShortPageHeals(Stamped(blank, 0), pageSize);
  }

  /**
   Whatever part of a page lands, at most the pages of its own slot change, but for a tail
   that heals; and the slot reads back for one id at most.
   */
  lemma PartialWriteTears(data: seq<bv8>, pageSize: PageSize, id: u64, bytes: seq<bv8>) returns (who: u64, torn: Option<Slot>)
    requires |bytes| <= pageSize
    ensures SlotOf(who, pageSize) == SlotOf(id, pageSize)
    ensures FileDisk(Written(data, pageSize, id, bytes), pageSize)
         == Torn(Elsewhere(if bytes == [] then FileDisk(data, pageSize) else Grown(data, pageSize, id), pageSize, id), who, torn)
  {
    var disk := FileDisk(Written(data, pageSize, id, bytes), pageSize);
    if i: u64 :| i in disk && SlotOf(i, pageSize) == SlotOf(id, pageSize) {
      who, torn := i, Some(Good(disk[i]));
    } else {
      who, torn := id, None;
    }
    var base := if bytes == [] then FileDisk(data, pageSize) else Grown(data, pageSize, id);
    var expected := Torn(Elsewhere(base, pageSize, id), who, torn);
    forall other: u64 ensures Stored(disk, other) == Stored(expected, other) {
      if SlotOf(other, pageSize) == SlotOf(id, pageSize) {
        if other in disk { OneIdPerSlot(Written(data, pageSize, id, bytes), pageSize, other, who); }
      } else if bytes != [] {
        OtherSlot(data, pageSize, id, bytes, other);
      }
    }
    SameStored(disk, expected);
  }

  /** A complete write stores its page, in place of any other id's in that slot. */
  lemma WholeWrite(data: seq<bv8>, pageSize: PageSize, id: u64, bytes: Block)
    requires |bytes| == pageSize && Verified(bytes, Some(id)).Success?
    ensures FileDisk(Written(data, pageSize, id, bytes), pageSize)
         == Elsewhere(Grown(data, pageSize, id), pageSize, id)[id := Content(bytes)]
  {
    var data' := Written(data, pageSize, id, bytes);
    OffsetIsSlot(id, pageSize);
    WriteFills(data, pageSize, SlotOf(id, pageSize), bytes);
    FileDiskAt(data', pageSize, id);
    var who, torn := PartialWriteTears(data, pageSize, id, bytes);
  }

  /** A tail that heals was not readable before, and lies in another slot. */
  lemma HealingShows(data: seq<bv8>, pageSize: PageSize, id: u64)
    requires TailHeals(data, pageSize, id)
    ensures var tail := Id(Tail(data, pageSize));
      tail != id && tail !in FileDisk(data, pageSize) && tail in Elsewhere(Grown(data, pageSize, id), pageSize, id)
  {
    FileDiskAt(data, pageSize, Id(Tail(data, pageSize)));
  }

  /** Another id's page is where `id` is written. */
  ghost predicate SlotShared(disk: Disk, pageSize: PageSize, id: u64) {
    exists other: u64 :: other != id && other in disk && SlotOf(other, pageSize) == SlotOf(id, pageSize)
  }

  /**
   A complete write is the store's write, of its own page and no other, if and only if it
   does not skip a torn tail that zeros complete, and no id that shares its slot has a page there.
   */
  lemma WholeWriteExact(data: seq<bv8>, pageSize: PageSize, id: u64, bytes: Block)
    requires |bytes| == pageSize && Verified(bytes, Some(id)).Success?
    ensures FileDisk(Written(data, pageSize, id, bytes), pageSize) == FileDisk(data, pageSize)[id := Content(bytes)]
       <==> !TailHeals(data, pageSize, id) && !SlotShared(FileDisk(data, pageSize), pageSize, id)
  {
    WholeWrite(data, pageSize, id, bytes);
    if TailHeals(data, pageSize, id) {
      HealingShows(data, pageSize, id);
      MoreIsDifferent(FileDisk(data, pageSize), Elsewhere(Grown(data, pageSize, id), pageSize, id), id, Content(bytes), Id(Tail(data, pageSize)));
    } else {
      ReplacesOnlyItself(FileDisk(data, pageSize), pageSize, id, Content(bytes));
    }
  }

  lemma MoreIsDifferent(before: Disk, after: Disk, id: u64, page: PageData, other: u64)
    requires other !in before && other in after && other != id
    ensures after[id := page] != before[id := page]
  {
    assert other in after[id := page] && other !in before[id := page];
  }

  lemma ReplacesOnlyItself(disk: Disk, pageSize: PageSize, id: u64, page: PageData)
    ensures Elsewhere(disk, pageSize, id)[id := page] == disk[id := page]
       <==> !SlotShared(disk, pageSize, id)
  {
    if other: u64 :| other != id && other in disk && SlotOf(other, pageSize) == SlotOf(id, pageSize) {
      MoreIsDifferent(Elsewhere(disk, pageSize, id), disk, id, page, other);
    } else {
      assert Elsewhere(disk, pageSize, id) == disk - {id};
    }
  }

  /** Where ids keep to the slots of their own number, none is shared. */
  lemma OwnSlotsNotShared(data: seq<bv8>, pageSize: PageSize, id: u64)
    requires SlotOf(id, pageSize) == id && forall other :: other in FileDisk(data, pageSize) ==> SlotOf(other, pageSize) == other
    ensures !SlotShared(FileDisk(data, pageSize), pageSize, id)
  {
  }

  /** A complete write takes the place of whatever page shares its slot. */
  lemma PageReplaced(data: seq<bv8>, pageSize: PageSize, id: u64, bytes: Block, other: u64)
    requires |bytes| == pageSize && Verified(bytes, Some(id)).Success?
    requires other != id && SlotOf(other, pageSize) == SlotOf(id, pageSize)
    ensures other !in FileDisk(Written(data, pageSize, id, bytes), pageSize)
    ensures other in FileDisk(data, pageSize) ==> SlotShared(FileDisk(data, pageSize), pageSize, id)
  {
    WholeWrite(data, pageSize, id, bytes);
  }

  /** So the first id without a slot of its own, 2^52 at the default size, takes the place of page 0. */
  lemma FarIdReplacesPageZero(data: seq<bv8>, pageSize: PageSize, far: u64, bytes: Block)
    requires far == SlotCount(pageSize) && |bytes| == pageSize && Verified(bytes, Some(far)).Success?
    ensures pageSize == 4096 ==> far == 0x10_0000_0000_0000
    ensures 0 !in FileDisk(Written(data, pageSize, far, bytes), pageSize)
    ensures 0 in FileDisk(data, pageSize) ==> SlotShared(FileDisk(data, pageSize), pageSize, far)
  {
    FirstSharedId(pageSize);
    PageReplaced(data, pageSize, far, bytes, 0);
  }

  // ---------- The store's contract, over a file ----------

  /** `PageStore::read_into` for a file: the contract of the abstract store. */
  method ReadFile(file: PageFile, id: u64, page: PageBuf) returns (r: Result<()>)
    requires file.Valid() && page.Valid()
    modifies file.file`script, page.buf
    ensures file.Valid() && file.file.data == old(file.file.data)
    ensures page.size != file.pageSize ==> r == Failure(InvalidPageSize(page.size)) && page.Contents() == old(page.Contents())
    ensures page.size == file.pageSize && r.Success? ==>
      Stored(FileDisk(file.file.data, file.pageSize), id) == Some(Content(page.Contents()))
    ensures page.size == file.pageSize && r.Failure? && r.error != Io ==> Stored(FileDisk(file.file.data, file.pageSize), id) == None
    ensures page.size == file.pageSize ==>
      (r == Failure(Io) <==> !Receiving(old(file.file.script), file.pageSize, Available(file.file.data, ByteOffset(id, file.pageSize))).ok)
    ensures page.size == file.pageSize ==>
      (r.Failure? && r.error.ShortRead? <==> r.Failure? && r.error != Io && SlotOf(id, file.pageSize) >= WholePages(|file.file.data|, file.pageSize))
  {
    r := file.ReadInto(id, page);
    FileDiskAt(file.file.data, file.pageSize, id);
  }

  /** `PageStore::write_page` for a file, of any slot: the contract of the abstract store, over the store as it has grown. */
  method WriteFile(file: PageFile, id: u64, page: PageBuf) returns (r: Result<()>, ghost landed: nat, ghost who: u64, ghost torn: Option<Slot>)
    requires file.Valid() && page.Valid()
    modifies file`written, file.file, page.buf
    ensures file.Valid()
    ensures page.size != file.pageSize ==> r == Failure(InvalidPageSize(page.size)) && file.file.data == old(file.file.data)
    ensures page.size == file.pageSize ==> Content(page.Contents()) == old(Content(page.Contents()))
    ensures page.size == file.pageSize ==> (r.Success? <==> Sending(old(file.file.script), file.pageSize).ok)
    ensures page.size == file.pageSize && r.Success? ==>
      FileDisk(file.file.data, file.pageSize) == old(Elsewhere(Grown(file.file.data, file.pageSize, id), file.pageSize, id))[id := Content(page.Contents())]
    ensures page.size == file.pageSize && r.Failure? ==>
      r.error == Io && SlotOf(who, file.pageSize) == SlotOf(id, file.pageSize)
      && var base := old(if landed == 0 then FileDisk(file.file.data, file.pageSize) else Grown(file.file.data, file.pageSize, id));
         FileDisk(file.file.data, file.pageSize) == Torn(Elsewhere(base, file.pageSize, id), who, torn)
  {
    ghost var data := file.file.data;
    ghost var before := page.Contents();
    who, torn := id, None;
    r, landed := file.WritePage(id, page);
    if page.size == file.pageSize {
      ghost var bytes := page.Contents();
      who, torn := PartialWriteTears(data, file.pageSize, id, bytes[..landed]);
      if r.Success? {
        StampedIsGood(before, id);
        assert bytes[..landed] == bytes;
        WholeWrite(data, file.pageSize, id, bytes);
      }
    }
  }
}
