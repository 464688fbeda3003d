/** The free list as it lies on the store: a superblock at page 0 and a chain of links through the free pages. */
module FreeChain {
  import opened PageError
  import opened Bytes
  import opened Fields
  import opened Disk
  import opened Chain

  /** `b"PGSB"` as a little-endian word. */
  const SB_MAGIC: bv32 := 0x4253_4750
  const SB_VERSION: bv16 := 1

  const SB_MAGIC_OFF := 0
  const SB_VERSION_OFF := 4
  const SB_HEAD_OFF := 8
  const SB_NEXT_OFF := 16
  const SB_FREECOUNT_OFF := 24
  const LINK_NEXT_OFF := 0

  const SB_VERSION_BYTES: seq<bv8> := [1, 0]

  // ---------- Reading ----------

  /** The links of all readable pages. */
  function Links(disk: Disk): map<u64, u64> {
    map id | id in disk :: ReadU64(disk[id].payload, LINK_NEXT_OFF)
  }

  // ---------- Writing ----------

  /** The page carrying the link `next`. */
  function LinkPage(payloadLen: PayloadLen, next: u64): PageData {
    PageData(0, Splice(BlankPage(payloadLen).payload, LINK_NEXT_OFF, U64Bytes(next)))
  }

  lemma LinkPageReads(payloadLen: PayloadLen, next: u64)
    ensures ReadU64(LinkPage(payloadLen, next).payload, LINK_NEXT_OFF) == next
  {
    ReadWrittenU64(BlankPage(payloadLen).payload, LINK_NEXT_OFF, next);
  }

  /** Byte by byte: the next id at 0, least significant byte first, and zeros; LSN 0. */
  lemma LinkPageBytes(payloadLen: PayloadLen, next: u64)
    ensures var page := LinkPage(payloadLen, next);
      && page.lsn == 0 && |page.payload| == payloadLen && LittleEndianAt(page.payload, 0, next)
      && forall i :: 8 <= i < payloadLen ==> page.payload[i] == 0
  {
    var p := LinkPage(payloadLen, next).payload;
    LinkPageReads(payloadLen, next);
    ReadU64Order(p, 0, next);
    forall i | 8 <= i < payloadLen ensures p[i] == 0 {
      assert p[i] == p[8..][i - 8];
    }
  }

  /** The store after the first `n` links have been written, in order. */
  function Linked(disk: Disk, payloadLen: PayloadLen, l: seq<u64>, n: nat): Disk
    requires n <= |l|
  {
    if n == 0 then disk else Linked(disk, payloadLen, l, n - 1)[l[n - 1] := LinkPage(payloadLen, Successor(l, n - 1))]
  }

  predicate ReadsAs(disk: Disk, links: map<u64, u64>, id: u64) {
    (id in disk <==> id in links) && (id in disk ==> ReadU64(disk[id].payload, LINK_NEXT_OFF) == links[id])
  }

  lemma LinksAre(disk: Disk, links: map<u64, u64>)
    requires forall id: u64 :: ReadsAs(disk, links, id)
    ensures Links(disk) == links
  {
    forall id: u64 ensures (id in disk <==> id in links) && (id in disk ==> Links(disk)[id] == links[id]) {
      assert ReadsAs(disk, links, id);
    }
  }

  lemma LinkedLinks(disk: Disk, payloadLen: PayloadLen, l: seq<u64>, n: nat)
    requires n <= |l|
    ensures Links(Linked(disk, payloadLen, l, n)) == WrittenLinks(Links(disk), l, n)
  {
    var disk', links := Linked(disk, payloadLen, l, n), WrittenLinks(Links(disk), l, n);
    forall id: u64 ensures ReadsAs(disk', links, id) {
      assert ReadsAs(disk, Links(disk), id);
      LinkedAt(disk, Links(disk), payloadLen, l, n, id);
    }
    LinksAre(disk', links);
  }

  lemma {:induction false} LinkedAt(disk: Disk, links: map<u64, u64>, payloadLen: PayloadLen, l: seq<u64>, n: nat, id: u64)
    requires n <= |l| && ReadsAs(disk, links, id)
    ensures ReadsAs(Linked(disk, payloadLen, l, n), WrittenLinks(links, l, n), id)
    decreases n
  {
    if n > 0 {
      LinkedAt(disk, links, payloadLen, l, n - 1, id);
      LinkPageReads(payloadLen, Successor(l, n - 1));
      ReadsAsWritten(Linked(disk, payloadLen, l, n - 1), WrittenLinks(links, l, n - 1), id,
                     l[n - 1], LinkPage(payloadLen, Successor(l, n - 1)), Successor(l, n - 1));
    }
  }

  lemma ReadsAsWritten(disk: Disk, links: map<u64, u64>, id: u64, at: u64, page: PageData, next: u64)
    requires ReadsAs(disk, links, id) && ReadU64(page.payload, LINK_NEXT_OFF) == next
    ensures ReadsAs(disk[at := page], links[at := next], id)
  {
  }

  /** Ids that are not free keep their contents. */
  lemma {:induction false} LinkedElsewhere(disk: Disk, payloadLen: PayloadLen, l: seq<u64>, n: nat, id: u64)
    requires n <= |l| && id !in l
    ensures Stored(Linked(disk, payloadLen, l, n), id) == Stored(disk, id)
    ensures id in Linked(disk, payloadLen, l, n) <==> id in disk
  {
    if n > 0 {
      LinkedElsewhere(disk, payloadLen, l, n - 1, id);
    }
  }

  /** The superblock page. */
  function Superblock(payloadLen: PayloadLen, head: u64, next: u64, count: u64): PageData {
    var p0 := BlankPage(payloadLen).payload;
    var p1 := Splice(p0, SB_MAGIC_OFF, ToLe32(SB_MAGIC));
    var p2 := Splice(p1, SB_VERSION_OFF, SB_VERSION_BYTES);
    var p3 := Splice(p2, SB_HEAD_OFF, U64Bytes(head));
    var p4 := Splice(p3, SB_NEXT_OFF, U64Bytes(next));
    PageData(0, Splice(p4, SB_FREECOUNT_OFF, U64Bytes(count)))
  }

  predicate HasSuperblock(p: Payload) {
    ReadU32(p, SB_MAGIC_OFF) == SB_MAGIC && ReadU16(p, SB_VERSION_OFF) == SB_VERSION
  }

  lemma SuperblockReads(payloadLen: PayloadLen, head: u64, next: u64, count: u64)
    ensures var p := Superblock(payloadLen, head, next, count).payload;
      && HasSuperblock(p) && ReadU64(p, SB_HEAD_OFF) == head
      && ReadU64(p, SB_NEXT_OFF) == next && ReadU64(p, SB_FREECOUNT_OFF) == count
  {
    var p0 := BlankPage(payloadLen).payload;
    var p1 := Splice(p0, SB_MAGIC_OFF, ToLe32(SB_MAGIC));
    var p2 := Splice(p1, SB_VERSION_OFF, SB_VERSION_BYTES);
    var p3 := Splice(p2, SB_HEAD_OFF, U64Bytes(head));
    var p4 := Splice(p3, SB_NEXT_OFF, U64Bytes(next));
    var p := Splice(p4, SB_FREECOUNT_OFF, U64Bytes(count));
    ReadWrittenU32(p0, SB_MAGIC_OFF, SB_MAGIC);
    ReadWrittenU64(p2, SB_HEAD_OFF, head);
    ReadWrittenU64(p3, SB_NEXT_OFF, next);
    ReadWrittenU64(p4, SB_FREECOUNT_OFF, count);
    SpliceMisses(p1, SB_VERSION_OFF, SB_VERSION_BYTES, 0, 4);
    SpliceMisses(p2, SB_HEAD_OFF, U64Bytes(head), 0, 4);
    SpliceMisses(p2, SB_HEAD_OFF, U64Bytes(head), 4, 6);
    SpliceMisses(p3, SB_NEXT_OFF, U64Bytes(next), 0, 4);
    SpliceMisses(p3, SB_NEXT_OFF, U64Bytes(next), 4, 6);
    SpliceMisses(p3, SB_NEXT_OFF, U64Bytes(next), 8, 16);
    SpliceMisses(p4, SB_FREECOUNT_OFF, U64Bytes(count), 0, 4);
    SpliceMisses(p4, SB_FREECOUNT_OFF, U64Bytes(count), 4, 6);
    SpliceMisses(p4, SB_FREECOUNT_OFF, U64Bytes(count), 8, 16);
    SpliceMisses(p4, SB_FREECOUNT_OFF, U64Bytes(count), 16, 24);
    ReadU32Slice(p1, p, SB_MAGIC_OFF);
    assert p2[4] == p2[4..6][0] && p2[5] == p2[4..6][1];
    ReadU16Slice(p2, p, SB_VERSION_OFF);
    ReadU64Slice(p3, p, SB_HEAD_OFF);
    ReadU64Slice(p4, p, SB_NEXT_OFF);
  }

  /** The bytes `PGSB`, then version 1. */
  const SB_BYTES: seq<bv8> := [0x50, 0x47, 0x53, 0x42, 1, 0]

  /** A payload is taken for a superblock if and only if it starts with these six bytes. */
  lemma SuperblockIs(p: Payload)
    ensures HasSuperblock(p) <==> p[..6] == SB_BYTES
  {
    SbWordIs(p[0], p[1], p[2], p[3]);
    SbHalfIs(p[4], p[5]);
    assert p[..6] == [p[0], p[1], p[2], p[3], p[4], p[5]];
  }

  lemma SbWordIs(b0: bv8, b1: bv8, b2: bv8, b3: bv8)
    ensures FromLe32(b0, b1, b2, b3) == SB_MAGIC <==> b0 == 0x50 && b1 == 0x47 && b2 == 0x53 && b3 == 0x42
  {
    ToFromLe32(b0, b1, b2, b3);
    assert ToLe32(SB_MAGIC) == [0x50, 0x47, 0x53, 0x42];
  }

  lemma SbHalfIs(b0: bv8, b1: bv8)
    ensures Join16(b0, b1) == SB_VERSION <==> b0 == 1 && b1 == 0
  {
  }

  /** Byte by byte: magic and version, head, mark and count at 8, 16 and 24, and zeros elsewhere; LSN 0. */
  lemma SuperblockBytes(payloadLen: PayloadLen, head: u64, next: u64, count: u64)
    ensures var page := Superblock(payloadLen, head, next, count);
      && page.lsn == 0 && |page.payload| == payloadLen && page.payload[..6] == SB_BYTES
      && LittleEndianAt(page.payload, 8, head) && LittleEndianAt(page.payload, 16, next) && LittleEndianAt(page.payload, 24, count)
      && page.payload[6..8] == [0, 0] && forall i :: 32 <= i < payloadLen ==> page.payload[i] == 0
  {
    var p := Superblock(payloadLen, head, next, count).payload;
    SuperblockReads(payloadLen, head, next, count);
    SuperblockIs(p);
    ReadU64Order(p, 8, head);
    ReadU64Order(p, 16, next);
    ReadU64Order(p, 24, count);
    SuperblockRest(payloadLen, head, next, count);
  }

  lemma SuperblockRest(payloadLen: PayloadLen, head: u64, next: u64, count: u64)
    ensures var p := Superblock(payloadLen, head, next, count).payload;
      p[6..8] == [0, 0] && forall i :: 32 <= i < payloadLen ==> p[i] == 0
  {
    var p0 := BlankPage(payloadLen).payload;
    var p1 := Splice(p0, SB_MAGIC_OFF, ToLe32(SB_MAGIC));
    var p2 := Splice(p1, SB_VERSION_OFF, SB_VERSION_BYTES);
    var p3 := Splice(p2, SB_HEAD_OFF, U64Bytes(head));
    var p4 := Splice(p3, SB_NEXT_OFF, U64Bytes(next));
    var p := Splice(p4, SB_FREECOUNT_OFF, U64Bytes(count));
    forall i | (6 <= i < 8 || 32 <= i < payloadLen) ensures p[i] == 0 {
      SpliceOneMisses(p0, SB_MAGIC_OFF, ToLe32(SB_MAGIC), i);
      SpliceOneMisses(p1, SB_VERSION_OFF, SB_VERSION_BYTES, i);
      SpliceOneMisses(p2, SB_HEAD_OFF, U64Bytes(head), i);
      SpliceOneMisses(p3, SB_NEXT_OFF, U64Bytes(next), i);
      SpliceOneMisses(p4, SB_FREECOUNT_OFF, U64Bytes(count), i);
    }
    assert p[6..8] == [p[6], p[7]];
  }

  /** The store after a fully successful `persist_superblock`. */
  function Persisted(disk: Disk, payloadLen: PayloadLen, l: seq<u64>, next: u64): Disk
    requires |l| <= 0xffff_ffff_ffff_ffff
  {
    Linked(disk, payloadLen, l, |l|)[0 := Superblock(payloadLen, Head(l), next, |l|)]
  }

  /**
   What lies on the store after persisting, page by page: page 0 names the first free id, the
   mark and the count; every free page names the next one, and the last the all-ones id.
   */
  lemma PersistedLayout(disk: Disk, payloadLen: PayloadLen, l: seq<u64>, next: u64, i: nat)
    requires |l| <= 0xffff_ffff_ffff_ffff && NoDuplicates(l) && 0 !in l && i < |l|
    ensures var d := Persisted(disk, payloadLen, l, next);
      && 0 in d && d[0].payload[..6] == SB_BYTES && LittleEndianAt(d[0].payload, 8, l[0])
      && LittleEndianAt(d[0].payload, 16, next) && LittleEndianAt(d[0].payload, 24, |l|)
      && l[i] in d && LittleEndianAt(d[l[i]].payload, 0, if i + 1 < |l| then l[i + 1] else 0xffff_ffff_ffff_ffff)
  {
    SuperblockBytes(payloadLen, l[0], next, |l|);
    LinkPageBytes(payloadLen, Successor(l, i));
    LinkedHolds(disk, payloadLen, l, |l|, i);
    LinkUnderSuperblock(Linked(disk, payloadLen, l, |l|), l[i], Superblock(payloadLen, Head(l), next, |l|));
  }

  lemma LinkUnderSuperblock(disk: Disk, id: u64, page: PageData)
    requires id != 0 && id in disk
    ensures 0 in disk[0 := page] && disk[0 := page][0] == page && id in disk[0 := page] && disk[0 := page][id] == disk[id]
  {
  }

  lemma {:induction false} LinkedHolds(disk: Disk, payloadLen: PayloadLen, l: seq<u64>, n: nat, i: nat)
    requires i < n <= |l| && NoDuplicates(l)
    ensures l[i] in Linked(disk, payloadLen, l, n) && Linked(disk, payloadLen, l, n)[l[i]] == LinkPage(payloadLen, Successor(l, i))
    decreases n
  {
    if i < n - 1 {
      LinkedHolds(disk, payloadLen, l, n - 1, i);
    }
  }

  // ---------- What a store says about the allocator ----------

  /** Page 0 is a superblock, and the chain it heads is `l`, as long as it claims. */
  ghost predicate Describes(disk: Disk, l: seq<u64>, next: u64) {
    match Stored(disk, 0)
    case None => false
    case Some(data) => SuperblockDescribes(disk, data.payload, l, next)
  }

  ghost predicate SuperblockDescribes(disk: Disk, p: Payload, l: seq<u64>, next: u64) {
    && HasSuperblock(p) && next >= 1 && next == ReadU64(p, SB_NEXT_OFF)
    && |l| == ReadU64(p, SB_FREECOUNT_OFF)
    && IsChain(Links(disk), ReadU64(p, SB_HEAD_OFF), next, l)
  }

  /** A store describes at most one allocator state. */
  lemma DescribesUnique(disk: Disk, l: seq<u64>, next: u64, l': seq<u64>, next': u64)
    requires Describes(disk, l, next) && Describes(disk, l', next')
    ensures l == l' && next == next'
  {
    var p := Stored(disk, 0).value.payload;
    ChainUnique(Links(disk), ReadU64(p, SB_HEAD_OFF), next, l, l');
  }

  // ---------- Persist, then reopen ----------

  /** Seen from the ids in range, the persisted links are the written ones. */
  lemma PersistedChain(disk: Disk, payloadLen: PayloadLen, l: seq<u64>, next: u64, c: seq<u64>)
    requires |l| <= 0xffff_ffff_ffff_ffff
    ensures IsChain(Links(Persisted(disk, payloadLen, l, next)), Head(l), next, c)
       <==> IsChain(WrittenLinks(Links(disk), l, |l|), Head(l), next, c)
  {
    var linked := Linked(disk, payloadLen, l, |l|);
    LinkedLinks(disk, payloadLen, l, |l|);
    SuperblockLink(linked, Superblock(payloadLen, Head(l), next, |l|));
    ChainElsewhere(Links(Persisted(disk, payloadLen, l, next)), Links(linked), Head(l), next, c);
  }

  lemma SuperblockLink(disk: Disk, page: PageData)
    ensures forall id: u64 :: 1 <= id ==>
      (id in Links(disk[0 := page]) <==> id in Links(disk)) && (id in Links(disk) ==> Links(disk[0 := page])[id] == Links(disk)[id])
  {
  }

  lemma DescribesIff(disk: Disk, data: PageData, head: u64, next: u64, count: u64, l': seq<u64>, next': u64)
    requires Stored(disk, 0) == Some(data) && HasSuperblock(data.payload) && next >= 1
    requires ReadU64(data.payload, SB_HEAD_OFF) == head
    requires ReadU64(data.payload, SB_NEXT_OFF) == next && ReadU64(data.payload, SB_FREECOUNT_OFF) == count
    ensures Describes(disk, l', next') <==> next' == next && |l'| == count && IsChain(Links(disk), head, next, l')
  {
  }

  lemma PersistedDescribes(disk: Disk, payloadLen: PayloadLen, l: seq<u64>, next: u64, l': seq<u64>, next': u64)
    requires |l| <= 0xffff_ffff_ffff_ffff && next >= 1
    ensures Describes(Persisted(disk, payloadLen, l, next), l', next') <==>
            next' == next && |l'| == |l| && IsChain(Links(Persisted(disk, payloadLen, l, next)), Head(l), next, l')
  {
    SuperblockReads(payloadLen, Head(l), next, |l|);
    SuperblockStored(disk, payloadLen, l, next);
    DescribesIff(Persisted(disk, payloadLen, l, next), Superblock(payloadLen, Head(l), next, |l|), Head(l), next, |l|, l', next');
  }

  lemma SuperblockStored(disk: Disk, payloadLen: PayloadLen, l: seq<u64>, next: u64)
    requires |l| <= 0xffff_ffff_ffff_ffff
    ensures Stored(Persisted(disk, payloadLen, l, next), 0) == Some(Superblock(payloadLen, Head(l), next, |l|))
  {
  }

  /**
   Persisting any free list over any store describes exactly that list and high-water mark,
   in order, when the list has no duplicates, and describes nothing at all when it has.
   */
  lemma PersistThenReopen(disk: Disk, payloadLen: PayloadLen, l: seq<u64>, next: u64, l': seq<u64>, next': u64)
    requires |l| <= 0xffff_ffff_ffff_ffff && InRange(l, next) && next >= 1
    ensures Describes(Persisted(disk, payloadLen, l, next), l', next') <==> NoDuplicates(l) && l' == l && next' == next
  {
    PersistedDescribes(disk, payloadLen, l, next, l', next');
    PersistedChain(disk, payloadLen, l, next, l');
    WrittenChain(Links(disk), l, next);
    VisitedIffNoDuplicates(l);
    if IsChain(WrittenLinks(Links(disk), l, |l|), Head(l), next, l') {
      WrittenChainExact(Links(disk), l, next, l');
    }
  }

  /** With a duplicate the overwritten links give a strictly shorter chain than the superblock claims. */
  lemma DuplicateShortensChain(disk: Disk, payloadLen: PayloadLen, l: seq<u64>, next: u64) returns (c: seq<u64>)
    requires |l| <= 0xffff_ffff_ffff_ffff && InRange(l, next) && !NoDuplicates(l)
    ensures IsChain(Links(Persisted(disk, payloadLen, l, next)), Head(l), next, c) && |c| < |l|
  {
    c := Visited(l, 0);
    WrittenChain(Links(disk), l, next);
    PersistedChain(disk, payloadLen, l, next, c);
    WrittenChainExact(Links(disk), l, next, c);
  }

  /** Persisting touches page 0 and the free pages only. */
  lemma PersistedElsewhere(disk: Disk, payloadLen: PayloadLen, l: seq<u64>, next: u64, id: u64)
    requires |l| <= 0xffff_ffff_ffff_ffff && id != 0 && id !in l
    ensures Stored(Persisted(disk, payloadLen, l, next), id) == Stored(disk, id)
  {
    LinkedElsewhere(disk, payloadLen, l, |l|, id);
  }
}
