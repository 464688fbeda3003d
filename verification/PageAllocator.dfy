/** `PageAllocator`: ids handed out from memory, written to the store as a chain, and read back with suspicion. */
module PageAllocator {
  import opened PageError
  import opened Fields
  import opened Disk
  import opened Chain
  import opened FreeChain
  import opened AllocatorRuns
  import PageStore

  /**
   `walk_free_chain`, over any store contents whatever.  Success is the one chain there is;
   an error other than a transient I/O failure means there is no chain of that length, and
   is the store's own if and only if the walk met a page that cannot be read.
   */
  method WalkFreeChain(store: PageStore.PageStore, head: u64, next: u64, freeCount: u64)
    returns (r: Result<seq<u64>>, ghost visits: nat)
    modifies store`faults
    ensures r == Failure(Io) <==> store.faults != old(store.faults)
    ensures r.Success? ==> IsChain(Links(store.disk), head, next, r.value) && |r.value| == freeCount
    ensures r.Failure? && r.error != Io ==> forall l :: IsChain(Links(store.disk), head, next, l) ==> |l| != freeCount
    ensures r.Failure? && r.error != Io ==>
      (r.error != InvalidSuperblock <==> DeadEnd(Links(store.disk), head, next, freeCount)) && (r.error == InvalidSuperblock || ReadError(r.error))
    ensures r.Success? ==> NoDuplicates(r.value) && InRange(r.value, next)
    ensures visits <= freeCount && (next >= 1 ==> visits <= next - 1)
  {
    ghost var links := Links(store.disk);
    var ids: seq<u64> := [];
    var seen: set<u64> := {};
    var cur: u64 := head;
    visits := 0;
    while cur != NO_PAGE
      invariant Path(links, head, next, ids, cur) && |ids| <= freeCount && visits == |ids|
      invariant store.faults == old(store.faults)
      invariant forall x: u64 :: x in seen <==> x in ids
      invariant NoDuplicates(ids) && forall i :: 0 <= i < |ids| ==> 1 <= ids[i] < next
      decreases freeCount - |ids|
    {
      if |ids| >= freeCount {
        TooLong(links, head, next, ids, cur);
        WalkedPast(links, head, next, ids, cur, freeCount);
        FewIds(ids, next);
        return Failure(InvalidSuperblock), visits;
      }
      if cur == 0 || cur >= next {
        OutOfRange(links, head, next, ids, cur);
        WalkedPast(links, head, next, ids, cur, freeCount);
        FewIds(ids, next);
        return Failure(InvalidSuperblock), visits;
      }
      if cur in seen {
        Repeats(links, head, next, ids, cur);
        WalkedPast(links, head, next, ids, cur, freeCount);
        FewIds(ids, next);
        return Failure(InvalidSuperblock), visits;
      }
      seen := seen + {cur};
      ghost var before := ids;
      ids := ids + [cur];
      FewIds(ids, next);
      visits := visits + 1;
      var page := store.Read(cur);
      if page.Failure? {
        Unlinked(links, head, next, before, cur);
        assert page.error != Io ==> Missing(links, next, cur);
        return Failure(page.error), visits;
      }
      PathExtend(links, head, next, before, cur);
      cur := ReadU64(page.value.payload, LINK_NEXT_OFF);
    }
    FewIds(ids, next);
    PathToEnd(links, head, next, ids);
    if |ids| != freeCount {
      forall l | IsChain(links, head, next, l) ensures |l| != freeCount { ChainUnique(links, head, next, ids, l); }
      WalkedPast(links, head, next, ids, cur, freeCount);
      return Failure(InvalidSuperblock), visits;
    }
    r := Success(ids);
  }

  lemma TooLong(links: map<u64, u64>, head: u64, next: u64, ids: seq<u64>, cur: u64)
    requires Path(links, head, next, ids, cur) && cur != NO_PAGE
    ensures forall l :: IsChain(links, head, next, l) ==> |l| > |ids|
  {
    forall l | IsChain(links, head, next, l) ensures |l| > |ids| { PathIsPrefix(links, head, next, ids, cur, l); }
  }

  lemma OutOfRange(links: map<u64, u64>, head: u64, next: u64, ids: seq<u64>, cur: u64)
    requires Path(links, head, next, ids, cur) && cur != NO_PAGE && (cur == 0 || cur >= next)
    ensures forall l :: !IsChain(links, head, next, l)
  {
    forall l ensures !IsChain(links, head, next, l) {
      if IsChain(links, head, next, l) { PathIsPrefix(links, head, next, ids, cur, l); }
    }
  }

  lemma Repeats(links: map<u64, u64>, head: u64, next: u64, ids: seq<u64>, cur: u64)
    requires Path(links, head, next, ids, cur) && cur != NO_PAGE && cur in ids
    ensures forall l :: !IsChain(links, head, next, l)
  {
    forall l ensures !IsChain(links, head, next, l) {
      if IsChain(links, head, next, l) {
        PathIsPrefix(links, head, next, ids, cur, l);
        var i :| 0 <= i < |ids| && ids[i] == cur;
        assert l[i] == l[..|ids|][i] && l[|ids|] == l[|ids|..][0];
        ChainNoDuplicates(links, head, next, l);
      }
    }
  }

  lemma Unlinked(links: map<u64, u64>, head: u64, next: u64, ids: seq<u64>, cur: u64)
    requires Path(links, head, next, ids, cur) && cur != NO_PAGE
    ensures cur !in links ==> forall l :: !IsChain(links, head, next, l)
  {
    forall l ensures cur !in links ==> !IsChain(links, head, next, l) {
      if IsChain(links, head, next, l) { PathIsPrefix(links, head, next, ids, cur, l); }
    }
  }

  /** Only page 0 and the free pages may differ. */
  ghost predicate Untouched(disk: Disk, disk': Disk, freeList: seq<u64>) {
    forall id: u64 :: id != 0 && id !in freeList ==> Stored(disk', id) == Stored(disk, id)
  }

  lemma UntouchedStep(disk: Disk, mid: Disk, disk': Disk, freeList: seq<u64>, id: u64)
    requires Untouched(disk, mid, freeList) && (id == 0 || id in freeList)
    requires forall k: u64 :: k != id ==> Stored(disk', k) == Stored(mid, k)
    ensures Untouched(disk, disk', freeList)
  {
  }

  /** Page 0 is as it was, or all the links were written before it. */
  ghost predicate LinksFirst(disk: Disk, disk': Disk, payloadLen: PayloadLen, freeList: seq<u64>) {
    Stored(disk', 0) == Stored(disk, 0)
    || forall id: u64 :: id != 0 ==> Stored(disk', id) == Stored(Linked(disk, payloadLen, freeList, |freeList|), id)
  }

  /** Page 0 cannot be read, or it is a superblock and its free chain runs into a page that cannot. */
  ghost predicate Unreadable(disk: Disk) {
    match Stored(disk, 0)
    case None => true
    case Some(data) =>
      HasSuperblock(data.payload)
      && DeadEnd(Links(disk), ReadU64(data.payload, SB_HEAD_OFF), ReadU64(data.payload, SB_NEXT_OFF), ReadU64(data.payload, SB_FREECOUNT_OFF))
  }

  /** What was persisted can be read, whatever the list. */
  lemma PersistedReadable(disk: Disk, payloadLen: PayloadLen, l: seq<u64>, next: u64)
    requires |l| <= 0xffff_ffff_ffff_ffff && InRange(l, next) && next >= 1
    ensures !Unreadable(Persisted(disk, payloadLen, l, next))
  {
    SuperblockStored(disk, payloadLen, l, next);
    SuperblockReads(payloadLen, Head(l), next, |l|);
    WrittenChain(Links(disk), l, next);
    PersistedChain(disk, payloadLen, l, next, Visited(l, 0));
    ChainHasNoDeadEnd(Links(Persisted(disk, payloadLen, l, next)), Head(l), next, Visited(l, 0), |l|);
  }

  class PageAllocator {
    const store: PageStore.PageStore
    var freeList: seq<u64>
    var nextNew: u64

    /** What every way of building and using an allocator keeps. */
    ghost predicate Valid()
      reads this
    {
      nextNew >= 1 && InRange(freeList, nextNew) && |freeList| <= 0xffff_ffff_ffff_ffff
    }

    function State(): Alloc
      reads this
    {
      Alloc(freeList, nextNew)
    }

    constructor Of(store: PageStore.PageStore, freeList: seq<u64>, nextNew: u64)
      ensures this.store == store && this.freeList == freeList && this.nextNew == nextNew
    {
      this.store := store;
      this.freeList := freeList;
      this.nextNew := nextNew;
    }

    /** `allocate`. */
    method Allocate() returns (r: Result<u64>)
      requires Valid()
      modifies this`freeList, this`nextNew
      ensures Valid()
      ensures (r, State()) == Allocating(old(State()))
      ensures old(freeList) != [] ==> r == Success(old(freeList)[|old(freeList)| - 1]) && freeList == old(freeList)[..|old(freeList)| - 1]
      ensures old(freeList) == [] && r.Success? ==> r.value == old(nextNew) && nextNew == old(nextNew) + 1 && freeList == []
      ensures old(freeList) != [] ==> nextNew == old(nextNew)
      ensures r.Failure? <==> old(freeList) == [] && old(nextNew) >= NO_PAGE - 1
      ensures r.Failure? ==> r == Failure(InvalidPageId(nextNew)) && State() == old(State())
    {
      if freeList != [] {
        var id := freeList[|freeList| - 1];
        freeList := freeList[..|freeList| - 1];
        return Success(id);
      }
      var id: int := nextNew;
      if id + 1 < 0x1_0000_0000_0000_0000 && id + 1 != NO_PAGE {
        nextNew := id + 1;
        return Success(id);
      }
      r := Failure(InvalidPageId(id));
    }

    /** `free`. */
    method Free(id: u64) returns (r: Result<()>)
      requires Valid() && |freeList| < 0xffff_ffff_ffff_ffff
      modifies this`freeList
      ensures Valid()
      ensures (r, State()) == Freeing(old(State()), id)
      ensures r.Success? <==> 1 <= id < nextNew
      ensures nextNew == old(nextNew) && freeList == if r.Success? then old(freeList) + [id] else old(freeList)
      ensures r.Failure? ==> r == Failure(InvalidPageId(id))
    {
      if id == 0 {
        return Failure(InvalidPageId(0));
      }
      if id >= nextNew {
        return Failure(InvalidPageId(id));
      }
      freeList := freeList + [id];
      r := Success(());
    }

    /** The link of one free page, written through the scratch buffer. */
    method WriteLink(i: nat) returns (r: Result<()>, ghost torn: Option<Slot>)
      requires i < |freeList|
      modifies store
      ensures r.Success? ==> store.disk == old(store.disk)[freeList[i] := LinkPage(store.payloadLen, Successor(freeList, i))]
      ensures r.Failure? ==> r.error == Io && store.disk == Torn(old(store.disk), freeList[i], torn)
      ensures forall k: u64 :: k != freeList[i] ==> Stored(store.disk, k) == old(Stored(store.disk, k))
      ensures r.Failure? <==> store.faults != old(store.faults)
    {
      var next := if i + 1 < |freeList| then freeList[i + 1] else NO_PAGE;
      r, torn := store.Write(freeList[i], LinkPage(store.payloadLen, next));
    }

    /** The superblock at page 0. */
    method WriteSuperblock() returns (r: Result<()>, ghost torn: Option<Slot>)
      requires |freeList| <= 0xffff_ffff_ffff_ffff
      modifies store
      ensures r.Success? ==> store.disk == old(store.disk)[0 := Superblock(store.payloadLen, Head(freeList), nextNew, |freeList|)]
      ensures r.Failure? ==> r.error == Io && store.disk == Torn(old(store.disk), 0, torn)
      ensures forall k: u64 :: k != 0 ==> Stored(store.disk, k) == old(Stored(store.disk, k))
      ensures r.Failure? <==> store.faults != old(store.faults)
    {
      var head := if freeList == [] then NO_PAGE else freeList[0];
      r, torn := store.Write(0, Superblock(store.payloadLen, head, nextNew, |freeList|));
    }

    /** The loop of `persist_superblock`. */
    method WriteLinks() returns (r: Result<()>)
      requires Valid()
      modifies store
      ensures Stored(store.disk, 0) == old(Stored(store.disk, 0))
      ensures r.Failure? <==> store.faults != old(store.faults)
      ensures r.Success? ==> store.disk == Linked(old(store.disk), store.payloadLen, freeList, |freeList|)
      ensures r.Failure? ==> r.error == Io
      ensures Untouched(old(store.disk), store.disk, freeList)
    {
      ghost var disk := store.disk;
      var i := 0;
      while i < |freeList|
        invariant 0 <= i <= |freeList| && store.disk == Linked(disk, store.payloadLen, freeList, i)
        invariant Untouched(disk, store.disk, freeList)
        invariant Stored(store.disk, 0) == Stored(disk, 0) && store.faults == old(store.faults)
      {
        ghost var before := store.disk;
        ghost var torn: Option<Slot>;
        r, torn := WriteLink(i);
        UntouchedStep(disk, before, store.disk, freeList, freeList[i]);
        if r.Failure? {
          return;
        }
        i := i + 1;
      }
      r := Success(());
    }

    /** `persist_superblock`: the chain, link by link, then page 0, which is not touched before every link is on the store. */
    method PersistSuperblock() returns (r: Result<()>)
      requires Valid()
      modifies store
      ensures r.Success? ==> store.disk == Persisted(old(store.disk), store.payloadLen, freeList, nextNew)
      ensures r.Failure? ==> r.error == Io
      ensures Untouched(old(store.disk), store.disk, freeList)
      ensures LinksFirst(old(store.disk), store.disk, store.payloadLen, freeList)
      ensures r.Failure? <==> store.faults != old(store.faults)
    {
      ghost var disk := store.disk;
      r := WriteLinks();
      if r.Failure? {
        return;
      }
      ghost var linked := store.disk;
      ghost var torn: Option<Slot>;
      r, torn := WriteSuperblock();
      UntouchedStep(disk, linked, store.disk, freeList, 0);
    }

    /** `sync`. */
    method Sync() returns (r: Result<()>)
      requires Valid()
      modifies store
      ensures r.Success? ==> store.disk == Persisted(old(store.disk), store.payloadLen, freeList, nextNew)
      ensures r.Failure? ==> r.error == Io
      ensures Untouched(old(store.disk), store.disk, freeList)
      ensures LinksFirst(old(store.disk), store.disk, store.payloadLen, freeList)
      ensures r.Success? ==> store.synced == store.disk
      ensures r.Failure? <==> store.faults != old(store.faults)
    {
      r := PersistSuperblock();
      if r.Success? {
        r := store.Sync();
      }
    }
  }

  /**
   `new`.  A store with a page 0 is opened exactly when it describes an allocator, and then
   as the one it describes; a store without one is initialised.
   */
  method Open(store: PageStore.PageStore) returns (r: Result<PageAllocator>)
    modifies store
    ensures r.Success? ==> r.value.Valid() && r.value.store == store && fresh(r.value)
    ensures old(!store.Missing(0)) ==> store.disk == old(store.disk)
    ensures old(!store.Missing(0)) && r.Success? ==> Describes(store.disk, r.value.freeList, r.value.nextNew)
    ensures old(!store.Missing(0)) && r.Failure? && r.error != Io ==> forall l, next :: !Describes(store.disk, l, next)
    ensures old(!store.Missing(0)) && r.Failure? && r.error != Io ==>
      (r.error != InvalidSuperblock <==> Unreadable(store.disk)) && (r.error == InvalidSuperblock || ReadError(r.error))
    ensures old(store.Missing(0)) && r.Success? ==>
      r.value.freeList == [] && r.value.nextNew == 1 && store.disk == Persisted(old(store.disk), store.payloadLen, [], 1)
    ensures old(store.Missing(0)) && r.Failure? ==> r.error == Io
    ensures r == Failure(Io) <==> store.faults != old(store.faults)
  {
    var page := store.Read(0);
    if page.Failure? {
      if page.error.ShortRead? {
        var allocator := new PageAllocator.Of(store, [], 1);
        var written := allocator.PersistSuperblock();
        if written.Failure? {
          return Failure(written.error);
        }
        return Success(allocator);
      }
      return Failure(page.error);
    }
    var payload := page.value.payload;
    if !HasSuperblock(payload) {
      return Failure(InvalidSuperblock);
    }
    var head := ReadU64(payload, SB_HEAD_OFF);
    var next := ReadU64(payload, SB_NEXT_OFF);
    var freeCount := ReadU64(payload, SB_FREECOUNT_OFF);
    if next < 1 {
      return Failure(InvalidSuperblock);
    }
    var walked, visits := WalkFreeChain(store, head, next, freeCount);
    if walked.Failure? {
      return Failure(walked.error);
    }
    var allocator := new PageAllocator.Of(store, walked.value, next);
    r := Success(allocator);
  }

  /**
   Persist, then open again.  Opening gives back exactly this list and mark, or reports an
   I/O failure; with duplicates in the list it is refused as an invalid superblock.
   */
  method PersistThenOpen(alloc: PageAllocator) returns (persisted: bool, r: Result<PageAllocator>)
    requires alloc.Valid()
    modifies alloc.store
    ensures persisted && r.Success? ==> NoDuplicates(alloc.freeList) && r.value.State() == alloc.State()
    ensures persisted && r.Failure? && NoDuplicates(alloc.freeList) ==> r.error == Io
    ensures persisted && !NoDuplicates(alloc.freeList) ==> r == Failure(Io) || r == Failure(InvalidSuperblock)
    ensures !persisted ==> r == Failure(Io)
    ensures r == Failure(Io) <==> alloc.store.faults != old(alloc.store.faults)
  {
    ghost var disk := alloc.store.disk;
    var written := alloc.PersistSuperblock();
    if written.Failure? {
      return false, Failure(written.error);
    }
    SuperblockStored(disk, alloc.store.payloadLen, alloc.freeList, alloc.nextNew);
    PersistedReadable(disk, alloc.store.payloadLen, alloc.freeList, alloc.nextNew);
    r := Open(alloc.store);
    persisted := true;
    if r.Success? {
      PersistThenReopen(disk, alloc.store.payloadLen, alloc.freeList, alloc.nextNew, r.value.freeList, r.value.nextNew);
    } else if NoDuplicates(alloc.freeList) {
      PersistThenReopen(disk, alloc.store.payloadLen, alloc.freeList, alloc.nextNew, alloc.freeList, alloc.nextNew);
    }
  }
}
