/**
 Two permitted histories in which a page is freed while its frame is dirty and flushed only
 after the allocator's sync, so that it overwrites its own link.  In the first the store is
 left without an allocator.  In the second it is left with another one, which hands out an
 id that somebody still holds.
 */
module LateFlush {
  import opened PageError
  import opened Fields
  import opened Disk
  import opened Chain
  import opened FreeChain
  import opened PoolSystem
  import opened Checkpoint
  import opened AfterCheckpoint
  import Runs = AllocatorRuns

  // ---------- A pool of one frame ----------

  function Empty(payloadLen: PayloadLen, disk: Disk): State {
    State([Frame(PoolSystem.NO_PAGE, 0, false, false, BlankPage(payloadLen))], map[], [0], 0, disk, map[], Idle, payloadLen)
  }

  function Begun(payloadLen: PayloadLen, disk: Disk): State {
    State([Frame(PoolSystem.NO_PAGE, 0, false, false, BlankPage(payloadLen))], map[], [], 0, disk, map[],
          Filling(NewPage(1), 0), payloadLen)
  }

  /** The frame holds page 1; with a guard on it, borrowed for writing or not. */
  function Held(payloadLen: PayloadLen, page: PageData, writing: bool, disk: Disk): State {
    State([Frame(1, 1, true, true, page)], map[1 := 0], [], 0, disk, map[0 := Guard(0, 1, 0, writing)], Idle, payloadLen)
  }

  /** The frame holds page 1, and nobody uses it. */
  function Unused(payloadLen: PayloadLen, page: PageData, dirty: bool, disk: Disk): State {
    State([Frame(1, 0, dirty, true, page)], map[1 := 0], [], 0, disk, map[], Idle, payloadLen)
  }

  lemma EmptyIsInitial(payloadLen: PayloadLen)
    ensures Initial(1, payloadLen, map[]) == Empty(payloadLen, map[])
  {
    var s := Initial(1, payloadLen, map[]);
    assert s.frames == Empty(payloadLen, map[]).frames && s.free == [0];
  }

  lemma BeginStep(payloadLen: PayloadLen, disk: Disk)
    ensures var s := Empty(payloadLen, disk); Enabled(s, Begin(NewPage(1))) && Next(s, Begin(NewPage(1))) == Begun(payloadLen, disk)
  {
    assert Empty(payloadLen, disk).free[..0] == [];
  }

  lemma FillStep(payloadLen: PayloadLen, disk: Disk)
    ensures var s := Begun(payloadLen, disk);
      Enabled(s, FillNew(0)) && Next(s, FillNew(0)) == Held(payloadLen, BlankPage(payloadLen), false, disk)
  {
    var s := Begun(payloadLen, disk);
    var f := Frame(1, 1, true, true, BlankPage(payloadLen));
    assert s.frames[0 := f] == [f] && s.resident[1 := 0] == map[1 := 0];
  }

  lemma TakeWriteStep(payloadLen: PayloadLen, page: PageData, disk: Disk)
    ensures var s := Held(payloadLen, page, false, disk);
      Enabled(s, TakeWrite(0)) && Next(s, TakeWrite(0)) == Held(payloadLen, page, true, disk)
  {
    var s := Held(payloadLen, page, false, disk);
    assert LockFree(s, 0);
    assert s.frames[0 := s.frames[0]] == s.frames;
    assert s.guards[0 := Guard(0, 1, 0, true)] == map[0 := Guard(0, 1, 0, true)];
  }

  lemma PutStep(payloadLen: PayloadLen, page: PageData, data: PageData, disk: Disk)
    ensures var s := Held(payloadLen, page, true, disk);
      Enabled(s, Put(0, data)) && Next(s, Put(0, data)) == Held(payloadLen, data, true, disk)
  {
    var s := Held(payloadLen, page, true, disk);
    var f := Frame(1, 1, true, true, data);
    assert s.frames[0 := f] == [f];
  }

  lemma ReleaseStep(payloadLen: PayloadLen, page: PageData, disk: Disk)
    ensures var s := Held(payloadLen, page, true, disk);
      Enabled(s, ReleaseWrite(0)) && Next(s, ReleaseWrite(0)) == Held(payloadLen, page, false, disk)
  {
    var s := Held(payloadLen, page, true, disk);
    assert s.guards[0 := Guard(0, 1, 0, false)] == map[0 := Guard(0, 1, 0, false)];
  }

  lemma DropStep(payloadLen: PayloadLen, page: PageData, disk: Disk)
    ensures var s := Held(payloadLen, page, false, disk);
      Enabled(s, Drop(0)) && Next(s, Drop(0)) == Unused(payloadLen, page, true, disk)
  {
    var s := Held(payloadLen, page, false, disk);
    var f := Frame(1, 0, true, true, page);
    assert s.frames[0 := f] == [f] && s.guards - {0} == map[];
  }

  lemma FlushStep(payloadLen: PayloadLen, page: PageData, disk: Disk)
    ensures var s := Unused(payloadLen, page, true, disk);
      Enabled(s, FlushOne(1)) && Next(s, FlushOne(1)) == Unused(payloadLen, page, false, disk[1 := page])
  {
    var s := Unused(payloadLen, page, true, disk);
    var f := Frame(1, 0, false, true, page);
    assert CanFlush(s, 1) && s.frames[0 := f] == [f];
  }

  // ---------- Histories, act by act ----------

  /** A step of the pool as an act. */
  lemma PoolCan(p: State, l: Label, p': State, ledger: Runs.Ledger, created: set<u64>, created': set<u64>)
    requires Enabled(p, l) && Next(p, l) == p' && created' == NowCreated(System(p, ledger, created), l)
    requires (l.Hit? ==> Allowed(System(p, ledger, created), l.op)) && (l.Begin? ==> Allowed(System(p, ledger, created), l.op))
    ensures Can(System(p, ledger, created), PoolAct(l), System(p', ledger, created'))
  {
  }

  lemma AllocateCan(p: State, ledger: Runs.Ledger, id: u64, ledger': Runs.Ledger, created: set<u64>)
    requires Runs.Occurs(ledger, Runs.Allocated(id), ledger')
    ensures Can(System(p, ledger, created), LedgerAct(Runs.Allocated(id)), System(p, ledger', created))
  {
  }

  lemma FreeCan(p: State, ledger: Runs.Ledger, id: u64, ledger': Runs.Ledger, created: set<u64>, created': set<u64>)
    requires Runs.Occurs(ledger, Runs.Freed(id), ledger') && created' == created - {id}
    requires p.control.Idle? && p.guards == map[]
    ensures Can(System(p, ledger, created), LedgerAct(Runs.Freed(id)), System(p, ledger', created'))
  {
  }

  lemma WriteCan(p: State, ledger: Runs.Ledger, created: set<u64>, id: u64, page: PageData, p': State)
    requires id == 0 || id in ledger.alloc.free
    requires p' == p.(disk := p.disk[id := page])
    ensures Can(System(p, ledger, created), AllocatorWrite(id, Good(page)), System(p', ledger, created))
  {
  }

  /** `states` is a history from a fresh start to `last`. */
  ghost predicate Reaches(states: seq<System>, acts: seq<Act>, last: System) {
    History(states, acts) && Sound(states[0]) && states[0].ledger == Runs.FRESH && states[|acts|] == last
  }

  /** A history goes on with one more permitted act. */
  lemma ReachesNext(states: seq<System>, acts: seq<Act>, last: System, a: Act, s: System)
    requires Reaches(states, acts, last) && Can(last, a, s)
    ensures Reaches(states + [s], acts + [a], s)
  {
    forall i | 0 <= i < |acts| + 1 ensures Can((states + [s])[i], (acts + [a])[i], (states + [s])[i + 1]) {
      if i < |acts| { assert Can(states[i], acts[i], states[i + 1]); }
    }
  }

  lemma FreshReaches(payloadLen: PayloadLen)
    ensures var s := System(Empty(payloadLen, map[]), Runs.FRESH, {}); Reaches([s], [], s)
  {
    EmptyIsInitial(payloadLen);
    FreshIsSound(1, payloadLen, map[]);
  }

  /** The caller creates page 1, writes `data` to it and lets go of it. */
  lemma PageOneWritten(states: seq<System>, acts: seq<Act>, payloadLen: PayloadLen, ledger: Runs.Ledger, disk: Disk, data: PageData)
    returns (states': seq<System>, acts': seq<Act>)
    requires Reaches(states, acts, System(Empty(payloadLen, disk), ledger, {})) && 1 in ledger.live
    ensures Reaches(states', acts', System(Unused(payloadLen, data, true, disk), ledger, {1}))
  {
    states', acts' := PageOneCreated(states, acts, payloadLen, ledger, disk);
    var blank, s1 := BlankPage(payloadLen), System(Held(payloadLen, BlankPage(payloadLen), false, disk), ledger, {1});
    var s2, s3, s4, s5 := System(Held(payloadLen, blank, true, disk), ledger, {1}), System(Held(payloadLen, data, true, disk), ledger, {1}),
                          System(Held(payloadLen, data, false, disk), ledger, {1}), System(Unused(payloadLen, data, true, disk), ledger, {1});
    TakeWriteStep(payloadLen, blank, disk);
    PoolCan(s1.pool, TakeWrite(0), s2.pool, ledger, {1}, {1});
    ReachesNext(states', acts', s1, PoolAct(TakeWrite(0)), s2);
    PutStep(payloadLen, blank, data, disk);
    PoolCan(s2.pool, Put(0, data), s3.pool, ledger, {1}, {1});
    ReachesNext(states' + [s2], acts' + [PoolAct(TakeWrite(0))], s2, PoolAct(Put(0, data)), s3);
    states', acts' := states' + [s2] + [s3], acts' + [PoolAct(TakeWrite(0))] + [PoolAct(Put(0, data))];
    ReleaseStep(payloadLen, data, disk);
    PoolCan(s3.pool, ReleaseWrite(0), s4.pool, ledger, {1}, {1});
    ReachesNext(states', acts', s3, PoolAct(ReleaseWrite(0)), s4);
    DropStep(payloadLen, data, disk);
    PoolCan(s4.pool, Drop(0), s5.pool, ledger, {1}, {1});
    ReachesNext(states' + [s4], acts' + [PoolAct(ReleaseWrite(0))], s4, PoolAct(Drop(0)), s5);
    states', acts' := states' + [s4] + [s5], acts' + [PoolAct(ReleaseWrite(0))] + [PoolAct(Drop(0))];
  }

  lemma PageOneCreated(states: seq<System>, acts: seq<Act>, payloadLen: PayloadLen, ledger: Runs.Ledger, disk: Disk)
    returns (states': seq<System>, acts': seq<Act>)
    requires Reaches(states, acts, System(Empty(payloadLen, disk), ledger, {})) && 1 in ledger.live
    ensures Reaches(states', acts', System(Held(payloadLen, BlankPage(payloadLen), false, disk), ledger, {1}))
  {
    var s0, s1, s2 := System(Empty(payloadLen, disk), ledger, {}), System(Begun(payloadLen, disk), ledger, {}),
                      System(Held(payloadLen, BlankPage(payloadLen), false, disk), ledger, {1});
    BeginStep(payloadLen, disk);
    PoolCan(s0.pool, Begin(NewPage(1)), s1.pool, ledger, {}, {});
    ReachesNext(states, acts, s0, PoolAct(Begin(NewPage(1))), s1);
    FillStep(payloadLen, disk);
    PoolCan(s1.pool, FillNew(0), s2.pool, ledger, {}, {1});
    ReachesNext(states + [s1], acts + [PoolAct(Begin(NewPage(1)))], s1, PoolAct(FillNew(0)), s2);
    states', acts' := states + [s1] + [s2], acts + [PoolAct(Begin(NewPage(1)))] + [PoolAct(FillNew(0))];
  }

  lemma Allocates(states: seq<System>, acts: seq<Act>, p: State, ledger: Runs.Ledger, created: set<u64>, id: u64, ledger': Runs.Ledger)
    returns (states': seq<System>, acts': seq<Act>)
    requires Reaches(states, acts, System(p, ledger, created)) && Runs.Occurs(ledger, Runs.Allocated(id), ledger')
    ensures Reaches(states', acts', System(p, ledger', created))
  {
    AllocateCan(p, ledger, id, ledger', created);
    ReachesNext(states, acts, System(p, ledger, created), LedgerAct(Runs.Allocated(id)), System(p, ledger', created));
    states', acts' := states + [System(p, ledger', created)], acts + [LedgerAct(Runs.Allocated(id))];
  }

  lemma Frees(states: seq<System>, acts: seq<Act>, p: State, ledger: Runs.Ledger, created: set<u64>, id: u64, ledger': Runs.Ledger, created': set<u64>)
    returns (states': seq<System>, acts': seq<Act>)
    requires Reaches(states, acts, System(p, ledger, created)) && Runs.Occurs(ledger, Runs.Freed(id), ledger')
    requires created' == created - {id} && p.control.Idle? && p.guards == map[]
    ensures Reaches(states', acts', System(p, ledger', created'))
  {
    FreeCan(p, ledger, id, ledger', created, created');
    ReachesNext(states, acts, System(p, ledger, created), LedgerAct(Runs.Freed(id)), System(p, ledger', created'));
    states', acts' := states + [System(p, ledger', created')], acts + [LedgerAct(Runs.Freed(id))];
  }

  lemma Writes(states: seq<System>, acts: seq<Act>, p: State, ledger: Runs.Ledger, created: set<u64>, id: u64, page: PageData, p': State)
    returns (states': seq<System>, acts': seq<Act>)
    requires Reaches(states, acts, System(p, ledger, created)) && (id == 0 || id in ledger.alloc.free)
    requires p' == p.(disk := p.disk[id := page])
    ensures Reaches(states', acts', System(p', ledger, created))
  {
    WriteCan(p, ledger, created, id, page, p');
    ReachesNext(states, acts, System(p, ledger, created), AllocatorWrite(id, Good(page)), System(p', ledger, created));
    states', acts' := states + [System(p', ledger, created)], acts + [AllocatorWrite(id, Good(page))];
  }

  /** The flush that comes too late. */
  lemma Flushes(states: seq<System>, acts: seq<Act>, payloadLen: PayloadLen, data: PageData, disk: Disk, ledger: Runs.Ledger)
    requires Reaches(states, acts, System(Unused(payloadLen, data, true, disk), ledger, {}))
    ensures var flushed := System(Unused(payloadLen, data, false, disk[1 := data]), ledger, {});
      Reaches(states + [flushed], acts + [PoolAct(FlushOne(1))], flushed)
  {
    var s, s' := System(Unused(payloadLen, data, true, disk), ledger, {}), System(Unused(payloadLen, data, false, disk[1 := data]), ledger, {});
    FlushStep(payloadLen, data, disk);
    PoolCan(s.pool, FlushOne(1), s'.pool, ledger, {}, {});
    ReachesNext(states, acts, s, PoolAct(FlushOne(1)), s');
  }

  // ---------- First: nothing is left ----------

  const ONE_HELD := Runs.Ledger(Runs.Alloc([], 2), {1})
  const ONE_FREED := Runs.Ledger(Runs.Alloc([1], 2), {})

  function Synced(payloadLen: PayloadLen): Disk { Persisted(map[], payloadLen, [1], 2) }

  lemma SyncedIs(payloadLen: PayloadLen)
    ensures Synced(payloadLen) == map[1 := LinkPage(payloadLen, Chain.NO_PAGE)][0 := Superblock(payloadLen, 1, 2, 1)]
  {
    assert Linked(map[], payloadLen, [1], 0) == map[];
    assert Linked(map[], payloadLen, [1], 1) == map[1 := LinkPage(payloadLen, Chain.NO_PAGE)];
  }

  /** A persisted list without duplicates is described. */
  lemma PersistedOwn(disk: Disk, payloadLen: PayloadLen, l: seq<u64>, next: u64)
    requires |l| <= 0xffff_ffff_ffff_ffff && next >= 1 && InRange(l, next) && NoDuplicates(l)
    ensures Describes(Persisted(disk, payloadLen, l, next), l, next)
  {
    PersistThenReopen(disk, payloadLen, l, next, l, next);
  }

  lemma OneAllocated()
    ensures Runs.Occurs(Runs.FRESH, Runs.Allocated(1), ONE_HELD) && Runs.Occurs(ONE_HELD, Runs.Freed(1), ONE_FREED)
  {
    assert {1} - {1} == {} && [] + [1] == [1];
  }

  /** Allocate id 1, create and write its page, let go of it, free it, and sync the allocator. */
  lemma HistorySynced(payloadLen: PayloadLen, data: PageData) returns (states: seq<System>, acts: seq<Act>)
    ensures Reaches(states, acts, System(Unused(payloadLen, data, true, Synced(payloadLen)), ONE_FREED, {}))
  {
    OneAllocated();
    FreshReaches(payloadLen);
    var start := System(Empty(payloadLen, map[]), Runs.FRESH, {});
    states, acts := Allocates([start], [], start.pool, Runs.FRESH, {}, 1, ONE_HELD);
    states, acts := PageOneWritten(states, acts, payloadLen, ONE_HELD, map[], data);
    var p := Unused(payloadLen, data, true, map[]);
    states, acts := Frees(states, acts, p, ONE_HELD, {1}, 1, ONE_FREED, {});
    var link, superblock := LinkPage(payloadLen, Chain.NO_PAGE), Superblock(payloadLen, 1, 2, 1);
    var q, r := Unused(payloadLen, data, true, map[1 := link]), Unused(payloadLen, data, true, map[1 := link][0 := superblock]);
    states, acts := Writes(states, acts, p, ONE_FREED, {}, 1, link, q);
    states, acts := Writes(states, acts, q, ONE_FREED, {}, 0, superblock, r);
    SyncedIs(payloadLen);
  }

  /** With one page on the list, a new link must end it. */
  lemma OnlyEnd(d: Disk, data: PageData, l: seq<u64>, next: u64)
    requires Describes(d, [1], 2) && Describes(d[1 := data], l, next)
    ensures ReadU64(data.payload, LINK_NEXT_OFF) == Chain.NO_PAGE
  {
    var listed: seq<u64> := [1];
    PageLeaves(d, listed, 2, 0, data, l, next);
    assert l[1..] == [];
  }

  /**
   Every act is permitted, and the store describes the allocator up to the flush; unless the
   page happens to say what its link said, the store describes none at all after it.
   */
  lemma LateFlushLosesAllocator(payloadLen: PayloadLen, data: PageData)
    returns (states: seq<System>, acts: seq<Act>, synced: System, flushed: System)
    requires ReadU64(data.payload, LINK_NEXT_OFF) != Chain.NO_PAGE
    ensures Reaches(states, acts, synced) && Reaches(states + [flushed], acts + [PoolAct(FlushOne(1))], flushed)
    ensures Describes(synced.pool.disk, synced.ledger.alloc.free, synced.ledger.alloc.next)
    ensures forall l, next :: !Describes(flushed.pool.disk, l, next)
  {
    states, acts := HistorySynced(payloadLen, data);
    synced := System(Unused(payloadLen, data, true, Synced(payloadLen)), ONE_FREED, {});
    flushed := System(Unused(payloadLen, data, false, Synced(payloadLen)[1 := data]), ONE_FREED, {});
    Flushes(states, acts, payloadLen, data, Synced(payloadLen), ONE_FREED);
    PersistedOwn(map[], payloadLen, [1], 2);
    forall l, next ensures !Describes(flushed.pool.disk, l, next) {
      if Describes(flushed.pool.disk, l, next) { OnlyEnd(Synced(payloadLen), data, l, next); }
    }
  }

  // ---------- Second: another allocator is left ----------

  const THREE_HELD := Runs.Ledger(Runs.Alloc([], 4), {1, 2, 3})
  const THIRD_FREED := Runs.Ledger(Runs.Alloc([3], 4), {1, 2})
  const TWO_FREED := Runs.Ledger(Runs.Alloc([1, 2], 4), {3})
  const MISLED := Runs.Ledger(Runs.Alloc([1, 3], 4), {3})

  /** The store after a sync with page 3 free: its link says it is the last. */
  function OldSync(payloadLen: PayloadLen): Disk { Persisted(map[], payloadLen, [3], 4) }

  /** The store after the next sync, with pages 1 and 2 free and page 3 in use again. */
  function NewSync(payloadLen: PayloadLen): Disk { Persisted(OldSync(payloadLen), payloadLen, [1, 2], 4) }

  lemma OldSyncIs(payloadLen: PayloadLen)
    ensures OldSync(payloadLen) == map[3 := LinkPage(payloadLen, Chain.NO_PAGE)][0 := Superblock(payloadLen, 3, 4, 1)]
  {
    assert Linked(map[], payloadLen, [3], 0) == map[];
    assert Linked(map[], payloadLen, [3], 1) == map[3 := LinkPage(payloadLen, Chain.NO_PAGE)];
  }

  lemma NewSyncIs(payloadLen: PayloadLen)
    ensures NewSync(payloadLen)
         == OldSync(payloadLen)[1 := LinkPage(payloadLen, 2)][2 := LinkPage(payloadLen, Chain.NO_PAGE)][0 := Superblock(payloadLen, 1, 4, 2)]
  {
    var d := OldSync(payloadLen);
    assert Linked(d, payloadLen, [1, 2], 0) == d;
    assert Linked(d, payloadLen, [1, 2], 1) == d[1 := LinkPage(payloadLen, 2)];
    assert Linked(d, payloadLen, [1, 2], 2) == d[1 := LinkPage(payloadLen, 2)][2 := LinkPage(payloadLen, Chain.NO_PAGE)];
  }

  lemma ThreeAllocated()
    ensures var one, two := Runs.Ledger(Runs.Alloc([], 2), {1}), Runs.Ledger(Runs.Alloc([], 3), {1, 2});
      && Runs.Occurs(Runs.FRESH, Runs.Allocated(1), one) && Runs.Occurs(one, Runs.Allocated(2), two)
      && Runs.Occurs(two, Runs.Allocated(3), THREE_HELD)
  {
    assert {1} + {2} == {1, 2} && {1, 2} + {3} == {1, 2, 3};
  }

  lemma ThirdReused()
    ensures Runs.Occurs(THREE_HELD, Runs.Freed(3), THIRD_FREED) && Runs.Occurs(THIRD_FREED, Runs.Allocated(3), THREE_HELD)
  {
    assert {1, 2, 3} - {3} == {1, 2} && {1, 2} + {3} == {1, 2, 3};
    assert [] + [3] == [3] && [3][..0] == [];
  }

  lemma TwoFreed()
    ensures var one := Runs.Ledger(Runs.Alloc([1], 4), {2, 3});
      Runs.Occurs(THREE_HELD, Runs.Freed(1), one) && Runs.Occurs(one, Runs.Freed(2), TWO_FREED)
  {
    assert {1, 2, 3} - {1} == {2, 3} && {2, 3} - {2} == {3};
    assert [] + [1] == [1] && [1] + [2] == [1, 2];
  }

  /** Allocate 1, 2 and 3, free 3, sync, and allocate 3 again. */
  lemma HistoryReused(payloadLen: PayloadLen) returns (states: seq<System>, acts: seq<Act>)
    ensures Reaches(states, acts, System(Empty(payloadLen, OldSync(payloadLen)), THREE_HELD, {}))
  {
    ThreeAllocated();
    ThirdReused();
    FreshReaches(payloadLen);
    var p := Empty(payloadLen, map[]);
    var one, two := Runs.Ledger(Runs.Alloc([], 2), {1}), Runs.Ledger(Runs.Alloc([], 3), {1, 2});
    states, acts := Allocates([System(p, Runs.FRESH, {})], [], p, Runs.FRESH, {}, 1, one);
    states, acts := Allocates(states, acts, p, one, {}, 2, two);
    states, acts := Allocates(states, acts, p, two, {}, 3, THREE_HELD);
    states, acts := Frees(states, acts, p, THREE_HELD, {}, 3, THIRD_FREED, {});
    var link, superblock := LinkPage(payloadLen, Chain.NO_PAGE), Superblock(payloadLen, 3, 4, 1);
    var q, r := Empty(payloadLen, map[3 := link]), Empty(payloadLen, map[3 := link][0 := superblock]);
    states, acts := Writes(states, acts, p, THIRD_FREED, {}, 3, link, q);
    states, acts := Writes(states, acts, q, THIRD_FREED, {}, 0, superblock, r);
    OldSyncIs(payloadLen);
    states, acts := Allocates(states, acts, r, THIRD_FREED, {}, 3, THREE_HELD);
  }

  /** Create and write page 1, free 1 and 2, and sync again. */
  lemma HistoryMisled(payloadLen: PayloadLen, data: PageData) returns (states: seq<System>, acts: seq<Act>)
    ensures Reaches(states, acts, System(Unused(payloadLen, data, true, NewSync(payloadLen)), TWO_FREED, {}))
  {
    var d := OldSync(payloadLen);
    states, acts := HistoryReused(payloadLen);
    states, acts := PageOneWritten(states, acts, payloadLen, THREE_HELD, d, data);
    TwoFreed();
    var p, one := Unused(payloadLen, data, true, d), Runs.Ledger(Runs.Alloc([1], 4), {2, 3});
    states, acts := Frees(states, acts, p, THREE_HELD, {1}, 1, one, {});
    states, acts := Frees(states, acts, p, one, {}, 2, TWO_FREED, {});
    var first, last, superblock := LinkPage(payloadLen, 2), LinkPage(payloadLen, Chain.NO_PAGE), Superblock(payloadLen, 1, 4, 2);
    var q, r := Unused(payloadLen, data, true, d[1 := first]), Unused(payloadLen, data, true, d[1 := first][2 := last]);
    states, acts := Writes(states, acts, p, TWO_FREED, {}, 1, first, q);
    states, acts := Writes(states, acts, q, TWO_FREED, {}, 2, last, r);
    states, acts := Writes(states, acts, r, TWO_FREED, {}, 0, superblock, Unused(payloadLen, data, true, d[1 := first][2 := last][0 := superblock]));
    NewSyncIs(payloadLen);
  }

  /** Page 3 still carries the link of the sync before last. */
  lemma StaleLink(payloadLen: PayloadLen)
    ensures 3 in NewSync(payloadLen) && NewSync(payloadLen)[3] == LinkPage(payloadLen, Chain.NO_PAGE)
  {
    OldSyncIs(payloadLen);
    NewSyncIs(payloadLen);
  }

  /** A page that begins with the number 3 links page 1 to page 3. */
  lemma Misleads(d: Disk, data: PageData)
    requires Describes(d, [1, 2], 4) && ReadU64(data.payload, LINK_NEXT_OFF) == 3
    requires 3 in d && ReadU64(d[3].payload, LINK_NEXT_OFF) == Chain.NO_PAGE
    ensures Describes(d[1 := data], [1, 3], 4)
  {
    var links := Links(d[1 := data]);
    var listed: seq<u64>, misled: seq<u64> := [1, 2], [1, 3];
    assert 3 in links && links[3] == Chain.NO_PAGE;
    ChainCons(links, 3, 4, Chain.NO_PAGE, []);
    assert [3] + [] == misled[1..] && misled[..1] == listed[..1];
    PageLeaves(d, listed, 4, 0, data, misled, 4);
  }

  lemma TwoIds()
    ensures InRange([1, 2], 4) && NoDuplicates([1, 2])
  {
  }

  lemma NewSyncDescribes(payloadLen: PayloadLen)
    ensures Describes(NewSync(payloadLen), [1, 2], 4)
  {
    TwoIds();
    PersistedOwn(OldSync(payloadLen), payloadLen, [1, 2], 4);
  }

  lemma ThirdEnds(payloadLen: PayloadLen)
    ensures 3 in NewSync(payloadLen) && ReadU64(NewSync(payloadLen)[3].payload, LINK_NEXT_OFF) == Chain.NO_PAGE
  {
    StaleLink(payloadLen);
    LinkPageReads(payloadLen, Chain.NO_PAGE);
  }

  /**
   Every act is permitted, and no write is torn.  The flush leaves a store that describes an
   allocator in which the held id 3 is free; opened from that store, the allocator hands 3
   out again at once.
   */
  lemma LateFlushSharesPage(payloadLen: PayloadLen, data: PageData)
    returns (states: seq<System>, acts: seq<Act>, synced: System, flushed: System, misled: System, shared: System)
    requires ReadU64(data.payload, LINK_NEXT_OFF) == 3
    ensures Reaches(states, acts, synced) && Describes(synced.pool.disk, synced.ledger.alloc.free, synced.ledger.alloc.next)
    ensures Reaches(states + [flushed] + [misled] + [shared],
                    acts + [PoolAct(FlushOne(1))] + [Reopening([1, 3], 4)] + [LedgerAct(Runs.Allocated(3))], shared)
    ensures 3 in flushed.ledger.live && 3 in misled.ledger.live
    ensures Can(synced, PoolAct(FlushOne(1)), flushed) && Can(flushed, Reopening([1, 3], 4), misled)
    ensures Can(misled, LedgerAct(Runs.Allocated(3)), shared) && !Sound(misled)
  {
    states, acts := HistoryMisled(payloadLen, data);
    NewSyncDescribes(payloadLen);
    ThirdEnds(payloadLen);
    var d := NewSync(payloadLen);
    Misleads(d, data);
    synced := System(Unused(payloadLen, data, true, d), TWO_FREED, {});
    flushed := System(Unused(payloadLen, data, false, d[1 := data]), TWO_FREED, {});
    misled := System(flushed.pool, MISLED, {});
    var after := Runs.Ledger(Runs.Alloc([1], 4), {3});
    shared := System(flushed.pool, after, {});
    Flushes(states, acts, payloadLen, data, d, TWO_FREED);
    FlushStep(payloadLen, data, d);
    PoolCan(synced.pool, FlushOne(1), flushed.pool, TWO_FREED, {}, {});
    OpenCan(flushed.pool, TWO_FREED, [1, 3], 4);
    ReachesNext(states + [flushed], acts + [PoolAct(FlushOne(1))], flushed, Reopening([1, 3], 4), misled);
    SharedHandOut();
    AllocateCan(flushed.pool, MISLED, 3, after, {});
    ReachesNext(states + [flushed] + [misled], acts + [PoolAct(FlushOne(1))] + [Reopening([1, 3], 4)],
                misled, LedgerAct(Runs.Allocated(3)), shared);
    assert 3 in MISLED.alloc.free by { assert MISLED.alloc.free[1] == 3; }
  }

  lemma OpenCan(p: State, ledger: Runs.Ledger, free: seq<u64>, next: u64)
    requires Describes(p.disk, free, next)
    ensures Can(System(p, ledger, {}), Reopening(free, next), System(p, Runs.Ledger(Runs.Alloc(free, next), ledger.live), {}))
  {
  }

  lemma SharedHandOut()
    ensures Runs.Occurs(MISLED, Runs.Allocated(3), Runs.Ledger(Runs.Alloc([1], 4), {3}))
  {
    assert [1, 3][..1] == [1] && {3} + {3} == {3};
  }

  /** Such data exists: a page whose first eight bytes are the number 3. */
  lemma PageSpellingThree(payloadLen: PayloadLen) returns (data: PageData)
    ensures ReadU64(data.payload, LINK_NEXT_OFF) == 3
  {
    data := PageData(0, Splice(BlankPage(payloadLen).payload, LINK_NEXT_OFF, U64Bytes(3)));
    ReadWrittenU64(BlankPage(payloadLen).payload, LINK_NEXT_OFF, 3);
  }
}
