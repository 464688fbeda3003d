/**
 The pool and the allocator over one shared store: pool pages stay right although the
 allocator writes straight to the store, and a checkpoint puts both on the store.
 */
module Checkpoint {
  import opened PageError
  import opened Disk
  import Chain
  import opened FreeChain
  import opened PoolSystem
  import opened PoolInvariant
  import opened PoolTransparency
  import Runs = AllocatorRuns
  import Alloc = PageAllocator
  import Pool = BufferPool
  import Fields
  import PageStore

  // ---------- Interleaving pool, allocator and callers ----------

  /** `created` holds the live ids whose page has been introduced with `new_page` since they were handed out. */
  datatype System = System(pool: State, ledger: Runs.Ledger, created: set<u64>)

  datatype Act =
    | PoolAct(l: Label)
    | LedgerAct(e: Runs.Event)
    | AllocatorWrite(id: u64, slot: Slot)
    | Reopening(free: seq<u64>, next: u64)
    | Initialising
    | Appearing(id: u64, page: PageData)

  /** Callers introduce only ids they hold, and fetch only pages that were introduced. */
  predicate Allowed(sys: System, op: Op) {
    match op
    case Fetch(id) => id in sys.created
    case NewPage(id) => id in sys.ledger.live
  }

  /** The id the mutex holder is admitting a page for, if it is. */
  predicate Admitting(s: State, id: u64) {
    (s.control.Sweeping? || s.control.Evicting? || s.control.Filling?) && s.control.op.id == id
  }

  function NowCreated(sys: System, l: Label): set<u64> {
    match l
    case Hit(op, _) => if op.NewPage? then sys.created + {op.id} else sys.created
    case FillNew(_) => if sys.pool.control.Filling? then sys.created + {sys.pool.control.op.id} else sys.created
    case _ => sys.created
  }

  ghost predicate Can(sys: System, a: Act, sys': System) {
    match a
    case PoolAct(l) =>
      && Enabled(sys.pool, l)
      && (l.Hit? ==> Allowed(sys, l.op)) && (l.Begin? ==> Allowed(sys, l.op))
      && sys' == System(Next(sys.pool, l), sys.ledger, NowCreated(sys, l))
    case LedgerAct(e) =>
      // An id is freed only once nobody is using its page.
      && (e.Freed? ==> !Admitting(sys.pool, e.id) && forall g :: g in sys.pool.guards ==> sys.pool.guards[g].id != e.id)
      && !e.Reopened?
      && Runs.Occurs(sys.ledger, e, sys'.ledger) && sys'.pool == sys.pool
      && sys'.created == if e.Freed? then sys.created - {e.id} else sys.created
    case AllocatorWrite(id, slot) =>
      // Links go to free pages, the superblock to page 0; a failed write may leave any slot there.
      && (id == 0 || id in sys.ledger.alloc.free)
      && sys' == sys.(pool := sys.pool.(disk := WithSlot(sys.pool.disk, id, slot)))
    case Reopening(free, next) =>
      // The allocator is opened anew from whatever the store holds by now.
      && Describes(sys.pool.disk, free, next)
      && sys' == sys.(ledger := Runs.Ledger(Runs.Alloc(free, next), sys.ledger.live))
    case Initialising =>
      // There is no page 0, so opening writes the superblock of an empty allocator.
      && 0 !in sys.pool.disk
      && sys' == System(sys.pool.(disk := sys.pool.disk[0 := EmptySuperblock(sys.pool.payloadLen)]),
                        Runs.Ledger(Runs.Alloc([], 1), sys.ledger.live), sys.created)
    case Appearing(id, page) =>
      // A slot that could not be read becomes readable, as when zeros complete a torn tail of a file.
      && id !in sys.pool.disk
      && sys' == sys.(pool := sys.pool.(disk := sys.pool.disk[id := page]))
  }

  function EmptySuperblock(payloadLen: PayloadLen): PageData { Superblock(payloadLen, Chain.NO_PAGE, 1, 0) }

  /** What opening the allocator anew must find for nobody to lose or share a page. */
  predicate Safe(sys: System, a: Act) {
    match a
    case Reopening(free, next) => Runs.FitsLive(sys.ledger.live, free, next)
    case Initialising => sys.ledger.live == {}
    case _ => true
  }

  ghost predicate Sound(sys: System) {
    && Inv(sys.pool) && Runs.Partition(sys.ledger)
    && sys.created <= sys.ledger.live
    && (forall id :: id in sys.created ==> CleanAt(sys.pool, id) && View(sys.pool, id).Some?)
    && (forall g :: g in sys.pool.guards ==> sys.pool.guards[g].id in sys.created)
    && (forall id: u64 :: Admitting(sys.pool, id) ==> Allowed(sys, sys.pool.control.op))
  }

  /** What an act does to the logical page `id`. */
  ghost function Changes(sys: System, a: Act, id: u64, page: Option<PageData>): Option<PageData> {
    match a
    case PoolAct(l) => Effect(sys.pool, l, id, page)
    case _ => page
  }

  lemma NewlyCreatedClean(s: State, l: Label, id: u64)
    requires Inv(s) && Enabled(s, l)
    requires (l.Hit? && l.op == NewPage(id)) || (l.FillNew? && s.control.op.id == id)
    ensures CleanAt(Next(s, l), id) && View(Next(s, l), id) == Some(BlankPage(s.payloadLen))
  {
  }

  lemma PoolActPages(sys: System, l: Label, sys': System, id: u64)
    requires Sound(sys) && Can(sys, PoolAct(l), sys') && id in sys'.created
    ensures CleanAt(sys'.pool, id)
    ensures View(sys'.pool, id) == Effect(sys.pool, l, id, View(sys.pool, id))
  {
    if id in sys.created {
      StepView(sys.pool, l, id);
    } else {
      NewlyCreatedClean(sys.pool, l, id);
    }
  }

  lemma CreatedGrows(sys: System, l: Label, sys': System)
    requires Sound(sys) && Can(sys, PoolAct(l), sys')
    ensures sys.created <= sys'.created <= sys'.ledger.live
  {
    assert sys.pool.control.Filling? ==> Admitting(sys.pool, sys.pool.control.op.id);
  }

  /** What guards do makes no guard and keeps their ids. */
  lemma GuardKept(s: State, l: Label, g: nat)
    requires Enabled(s, l) && ByGuard(l) && g in Next(s, l).guards
    ensures g in s.guards && Next(s, l).guards[g].id == s.guards[g].id
  {
  }

  /** Guards come from hits and fills only, and keep their id. */
  lemma GuardOrigin(s: State, l: Label, g: nat)
    requires Inv(s) && Enabled(s, l) && g in Next(s, l).guards
    ensures g in s.guards ==> Next(s, l).guards[g].id == s.guards[g].id
    ensures g !in s.guards && l.Hit? ==> Next(s, l).guards[g].id == l.op.id
    ensures g !in s.guards && !l.Hit? ==> (l.FillFetched? || l.FillNew?) && s.control.Filling? && Next(s, l).guards[g].id == s.control.op.id
  {
    if ByGuard(l) {
      GuardKept(s, l, g);
    }
  }

  lemma PoolActGuards(sys: System, l: Label, sys': System)
    requires Sound(sys) && Can(sys, PoolAct(l), sys')
    ensures forall g :: g in sys'.pool.guards ==> sys'.pool.guards[g].id in sys'.created
  {
    CreatedGrows(sys, l, sys');
    forall g | g in sys'.pool.guards ensures sys'.pool.guards[g].id in sys'.created {
      GuardOrigin(sys.pool, l, g);
      assert sys.pool.control.Filling? ==> Admitting(sys.pool, sys.pool.control.op.id);
    }
  }

  /** A miss goes on admitting the page it began with. */
  lemma AdmitsOrigin(s: State, l: Label, id: u64)
    requires Inv(s) && Enabled(s, l) && !l.Begin? && Admitting(Next(s, l), id)
    ensures Admitting(s, id) && Next(s, l).control.op == s.control.op
  {
  }

  lemma PoolActAdmits(sys: System, l: Label, sys': System)
    requires Sound(sys) && Can(sys, PoolAct(l), sys')
    ensures forall id: u64 :: Admitting(sys'.pool, id) ==> Allowed(sys', sys'.pool.control.op)
  {
    forall id: u64 | Admitting(sys'.pool, id) ensures Allowed(sys', sys'.pool.control.op) {
      if !l.Begin? { AdmitsOrigin(sys.pool, l, id); }
    }
  }

  lemma LedgerActSound(sys: System, e: Runs.Event, sys': System)
    requires Sound(sys) && Can(sys, LedgerAct(e), sys')
    ensures Sound(sys')
  {
    Runs.EventKeeps(sys.ledger, e, sys'.ledger);
    forall id: u64 | Admitting(sys'.pool, id) ensures Allowed(sys', sys'.pool.control.op) {
      assert Admitting(sys.pool, id);
    }
  }

  /** The allocator writes only where no created page lives. */
  lemma AllocatorWriteSound(sys: System, id: u64, slot: Slot, sys': System)
    requires Sound(sys) && Can(sys, AllocatorWrite(id, slot), sys')
    ensures Sound(sys')
    ensures forall i :: i in sys.created ==> View(sys'.pool, i) == View(sys.pool, i)
  {
    SameTable(sys.pool, sys'.pool);
    SameGuardPart(sys.pool, sys'.pool);
    forall i | i in sys.created ensures CleanAt(sys'.pool, i) && View(sys'.pool, i) == View(sys.pool, i) {
      assert i in sys.ledger.live && i != id;
    }
    forall i: u64 | Admitting(sys'.pool, i) ensures Allowed(sys', sys'.pool.control.op) {
      assert Admitting(sys.pool, i);
    }
  }

  /** A slot becoming readable touches no page anybody created. */
  lemma AppearingSound(sys: System, id: u64, page: PageData, sys': System)
    requires Sound(sys) && Can(sys, Appearing(id, page), sys')
    ensures Sound(sys')
    ensures forall i :: i in sys.created ==> View(sys'.pool, i) == View(sys.pool, i)
  {
    SameTable(sys.pool, sys'.pool);
    SameGuardPart(sys.pool, sys'.pool);
    forall i | i in sys.created ensures CleanAt(sys'.pool, i) && View(sys'.pool, i) == View(sys.pool, i) {
      assert View(sys.pool, i).Some?;
    }
    forall i: u64 | Admitting(sys'.pool, i) ensures Allowed(sys', sys'.pool.control.op) {
      assert Admitting(sys.pool, i);
    }
  }

  /** Opening the allocator anew changes the ledger only; whether the ids are still divided is a matter of counting. */
  lemma ReopeningSound(sys: System, free: seq<u64>, next: u64, sys': System)
    requires Sound(sys) && Can(sys, Reopening(free, next), sys')
    ensures Sound(sys') <==> Runs.FitsLive(sys.ledger.live, free, next)
  {
    DescribedIds(sys.pool.disk, free, next);
    Runs.PartitionByCount(sys'.ledger);
    forall i: u64 | Admitting(sys'.pool, i) ensures Allowed(sys', sys'.pool.control.op) {
      assert Admitting(sys.pool, i);
    }
  }

  /** What a store describes is a list of distinct ids below its mark. */
  lemma DescribedIds(disk: Disk, free: seq<u64>, next: u64)
    requires Describes(disk, free, next)
    ensures next >= 1 && Chain.NoDuplicates(free) && Chain.InRange(free, next)
  {
    Chain.ChainNoDuplicates(Links(disk), DescribedHead(disk), next, free);
  }

  function DescribedHead(disk: Disk): u64
    requires 0 in disk
  {
    Fields.ReadU64(disk[0].payload, SB_HEAD_OFF)
  }

  /** An empty allocator, and any page at all in slot 0. */
  function Restarted(sys: System, page: PageData): System {
    System(sys.pool.(disk := sys.pool.disk[0 := page]), Runs.Ledger(Runs.Alloc([], 1), sys.ledger.live), sys.created)
  }

  lemma RestartedKeeps(sys: System, page: PageData)
    requires Sound(sys)
    ensures forall i :: i in sys.created ==> CleanAt(Restarted(sys, page).pool, i) && View(Restarted(sys, page).pool, i) == View(sys.pool, i)
  {
    forall i | i in sys.created ensures CleanAt(Restarted(sys, page).pool, i) && View(Restarted(sys, page).pool, i) == View(sys.pool, i) {
      assert i in sys.ledger.live && i != 0;
    }
  }

  lemma RestartedDivides(live: set<u64>)
    requires forall id :: id in live ==> 1 <= id
    ensures Runs.Partition(Runs.Ledger(Runs.Alloc([], 1), live)) <==> live == {}
  {
    if live != {} {
      var id :| id in live;
      assert 1 <= id;
    }
  }

  lemma RestartedSound(sys: System, page: PageData)
    requires Sound(sys)
    ensures Sound(Restarted(sys, page)) <==> sys.ledger.live == {}
  {
    var sys' := Restarted(sys, page);
    RestartedKeeps(sys, page);
    RestartedDivides(sys.ledger.live);
    SameTable(sys.pool, sys'.pool);
    SameGuardPart(sys.pool, sys'.pool);
    forall i: u64 | Admitting(sys'.pool, i) ensures Allowed(sys', sys'.pool.control.op) {
      assert Admitting(sys.pool, i);
    }
  }

  lemma InitialisingSound(sys: System, sys': System)
    requires Sound(sys) && Can(sys, Initialising, sys')
    ensures Sound(sys') <==> sys.ledger.live == {}
    ensures forall i :: i in sys.created ==> View(sys'.pool, i) == View(sys.pool, i)
  {
    var page := EmptySuperblock(sys.pool.payloadLen);
    assert sys' == Restarted(sys, page);
    RestartedSound(sys, page);
    RestartedKeeps(sys, page);
  }

  lemma PoolActSound(sys: System, l: Label, sys': System)
    requires Sound(sys) && Can(sys, PoolAct(l), sys')
    ensures Sound(sys')
    ensures forall id :: id in sys'.created ==> View(sys'.pool, id) == Effect(sys.pool, l, id, View(sys.pool, id))
  {
    StepInv(sys.pool, l);
    CreatedGrows(sys, l, sys');
    PoolActGuards(sys, l, sys');
    PoolActAdmits(sys, l, sys');
    forall id | id in sys'.created
      ensures CleanAt(sys'.pool, id) && View(sys'.pool, id) == Effect(sys.pool, l, id, View(sys.pool, id)) && View(sys'.pool, id).Some?
    {
      PoolActPages(sys, l, sys', id);
    }
  }

  /**
   Every act of anyone changes created pages only as the plain map would, and keeps the stack
   sound if and only if it is safe; only opening the allocator anew ever is not.
   */
  lemma ActSound(sys: System, a: Act, sys': System)
    requires Sound(sys) && Can(sys, a, sys')
    ensures Sound(sys') <==> Safe(sys, a)
    ensures forall id :: id in sys'.created ==> View(sys'.pool, id) == Changes(sys, a, id, View(sys.pool, id))
  {
    match a
    case PoolAct(l) => PoolActSound(sys, l, sys');
    case LedgerAct(e) => LedgerActSound(sys, e, sys');
    case AllocatorWrite(id, slot) => AllocatorWriteSound(sys, id, slot, sys');
    case Reopening(free, next) => ReopeningSound(sys, free, next, sys');
    case Initialising => InitialisingSound(sys, sys');
    case Appearing(id, page) => AppearingSound(sys, id, page, sys');
  }

  /** A history of the whole stack. */
  ghost predicate History(states: seq<System>, acts: seq<Act>) {
    |states| == |acts| + 1 && forall i {:trigger acts[i]} :: 0 <= i < |acts| ==> Can(states[i], acts[i], states[i + 1])
  }

  /** A state is sound when every act before it was safe. */
  lemma {:induction false} SoundSoFar(states: seq<System>, acts: seq<Act>, i: nat)
    requires History(states, acts) && Sound(states[0]) && i < |states|
    requires forall k {:trigger acts[k]} :: 0 <= k < i ==> Safe(states[k], acts[k])
    ensures Sound(states[i])
    decreases i
  {
    if i > 0 {
      SoundSoFar(states, acts, i - 1);
      ActSound(states[i - 1], acts[i - 1], states[i]);
    }
  }

  /** Every state of a history is sound if and only if every opening of the allocator in it was safe. */
  lemma HistorySound(states: seq<System>, acts: seq<Act>)
    requires History(states, acts) && Sound(states[0])
    ensures (forall i :: 0 <= i < |states| ==> Sound(states[i])) <==> (forall k {:trigger acts[k]} :: 0 <= k < |acts| ==> Safe(states[k], acts[k]))
  {
    if forall i :: 0 <= i < |states| ==> Sound(states[i]) {
      forall k | 0 <= k < |acts| ensures Safe(states[k], acts[k]) {
        assert Sound(states[k]) && Sound(states[k + 1]);
        ActSound(states[k], acts[k], states[k + 1]);
      }
    }
    if forall k {:trigger acts[k]} :: 0 <= k < |acts| ==> Safe(states[k], acts[k]) {
      forall i | 0 <= i < |states| ensures Sound(states[i]) { SoundSoFar(states, acts, i); }
    }
  }

  /** A fresh pool over a freshly initialised store is a sound start. */
  lemma FreshIsSound(capacity: nat, payloadLen: PayloadLen, disk: Disk)
    ensures Sound(System(Initial(capacity, payloadLen, disk), Runs.FRESH, {}))
  {
    InitialInv(capacity, payloadLen, disk);
  }

  // ---------- A checkpoint ----------

  /** The ids whose slots carry the allocator's own state. */
  ghost predicate AllocatorOwns(freeList: seq<u64>, id: u64) { id == 0 || id in freeList }

  function Owned(freeList: seq<u64>): set<u64> { {0} + set id | id in freeList }

  /** No frame holds an unflushed copy of `id`. */
  ghost predicate StillClean(s: State, id: u64) {
    id in s.resident && s.resident[id] < |s.frames| ==> !s.frames[s.resident[id]].dirty
  }

  /** Nothing in the pool can write any of `ids`: no dirty copy, no guard, nobody admitting one. */
  ghost predicate Dormant(s: State, ids: set<u64>) {
    && (forall id :: id in ids ==> StillClean(s, id))
    && (forall g :: g in s.guards ==> s.guards[g].id !in ids)
    && (forall id: u64 :: Admitting(s, id) ==> id !in ids)
  }

  /** No resident page is dirty. */
  ghost predicate AllClean(s: State) {
    forall k :: 0 <= k < |s.frames| && k in s.resident.Values ==> !s.frames[k].dirty
  }

  /** The store holds these pages as the pool shows them. */
  ghost predicate OnStore(s: State, ids: set<u64>) {
    forall id :: id in ids ==> Stored(s.disk, id) == View(s, id)
  }

  /** After a complete flush nothing in the pool can write a page of the allocator's. */
  lemma CleanIsDormant(sys: System)
    requires Sound(sys) && sys.pool.control.Idle? && AllClean(sys.pool)
    ensures Dormant(sys.pool, Owned(sys.ledger.alloc.free))
  {
    forall id | id in Owned(sys.ledger.alloc.free) ensures StillClean(sys.pool, id) {
      if id in sys.pool.resident { assert sys.pool.resident[id] in sys.pool.resident.Values; }
    }
  }

  /** The running pool and allocator as a state of the whole stack. */
  ghost function Snapshot(pool: Pool.BufferPool, alloc: Alloc.PageAllocator, live: set<u64>, created: set<u64>): System
    reads pool, pool.store, pool.frames, alloc
  {
    System(pool.Sys(Idle), Runs.Ledger(alloc.State(), live), created)
  }

  /** The pool's half of a checkpoint. */
  method FlushPool(pool: Pool.BufferPool, alloc: Alloc.PageAllocator, ghost live: set<u64>, ghost created: set<u64>)
    returns (r: Result<()>)
    requires pool.Valid() && alloc.Valid() && pool.store == alloc.store && Sound(Snapshot(pool, alloc, live, created))
    requires Pool.Unborrowed(pool.Sys(Idle))
    modifies pool.frames, pool.store
    ensures pool.Valid() && Sound(Snapshot(pool, alloc, live, created))
    ensures forall id :: id in created ==> View(pool.Sys(Idle), id) == old(View(pool.Sys(Idle), id))
    ensures r.Success? ==> OnStore(pool.Sys(Idle), created) && AllClean(pool.Sys(Idle))
    ensures r.Failure? ==> r.error == Io
    ensures r.Failure? <==> pool.store.faults != old(pool.store.faults)
  {
    ghost var s0 := pool.Sys(Idle);
    ghost var ls;
    r, ls := pool.FlushAll();
    SoundStill(s0, pool.Sys(Idle), Runs.Ledger(alloc.State(), live), created);
    SameViews(s0, pool.Sys(Idle), Runs.Ledger(alloc.State(), live), created);
    if r.Success? {
      FlushedPages(s0, pool.Sys(Idle), created);
    }
  }

  /** The allocator's half, after it. */
  method SyncAllocator(pool: Pool.BufferPool, alloc: Alloc.PageAllocator, ghost live: set<u64>, ghost created: set<u64>)
    returns (r: Result<()>)
    requires pool.Valid() && alloc.Valid() && pool.store == alloc.store && Sound(Snapshot(pool, alloc, live, created))
    requires OnStore(pool.Sys(Idle), created) && AllClean(pool.Sys(Idle))
    modifies pool.store
    ensures pool.Valid() && Sound(Snapshot(pool, alloc, live, created))
    ensures forall id :: id in created ==> View(pool.Sys(Idle), id) == old(View(pool.Sys(Idle), id))
    ensures OnStore(pool.Sys(Idle), created) && AllClean(pool.Sys(Idle)) && Dormant(pool.Sys(Idle), Owned(alloc.freeList))
    ensures r.Success? ==> Describes(pool.store.disk, alloc.freeList, alloc.nextNew) && pool.store.synced == pool.store.disk
    ensures r.Failure? ==> r.error == Io
    ensures r.Failure? <==> pool.store.faults != old(pool.store.faults)
  {
    ghost var s0 := pool.Sys(Idle);
    r := alloc.Sync();
    assert pool.Sys(Idle) == s0.(disk := pool.store.disk);
    AfterSync(s0, Runs.Ledger(alloc.State(), live), created, pool.store.disk);
    CleanIsDormant(Snapshot(pool, alloc, live, created));
    if r.Success? {
      PersistThenReopen(s0.disk, alloc.store.payloadLen, alloc.freeList, alloc.nextNew, alloc.freeList, alloc.nextNew);
    }
  }

  /**
   `flush_all` and then the allocator's `sync`, from any state a history can reach.  When
   both succeed every created page is on the store as the pool shows it, and the store
   describes exactly this allocator, durably.  They fail only when the store does, and then
   nothing has been lost.
   */
  method FlushThenSync(pool: Pool.BufferPool, alloc: Alloc.PageAllocator, ghost live: set<u64>, ghost created: set<u64>)
    returns (r: Result<()>)
    requires pool.Valid() && alloc.Valid() && pool.store == alloc.store && Sound(Snapshot(pool, alloc, live, created))
    requires Pool.Unborrowed(pool.Sys(Idle))
    modifies pool.frames, pool.store
    ensures pool.Valid() && Sound(Snapshot(pool, alloc, live, created))
    ensures forall id :: id in created ==> View(pool.Sys(Idle), id) == old(View(pool.Sys(Idle), id))
    ensures r.Success? ==> OnStore(pool.Sys(Idle), created)
    ensures r.Success? ==> Describes(pool.store.disk, alloc.freeList, alloc.nextNew)
    ensures r.Success? ==> AllClean(pool.Sys(Idle)) && Dormant(pool.Sys(Idle), Owned(alloc.freeList))
    ensures r.Success? ==> pool.store.synced == pool.store.disk
    ensures r.Failure? ==> r.error == Io
    ensures r.Failure? <==> pool.store.faults != old(pool.store.faults)
  {
    r := FlushPool(pool, alloc, live, created);
    if r.Failure? {
      return;
    }
    r := SyncAllocator(pool, alloc, live, created);
  }

  lemma SameViews(s: State, s': State, ledger: Runs.Ledger, created: set<u64>)
    requires Sound(System(s, ledger, created)) && Pool.Transparent(s, s')
    ensures forall id :: id in created ==> View(s', id) == View(s, id)
  {
  }

  /** With the same guards and ledger, soundness is the pool's invariant and clean created pages. */
  lemma SoundStill(s: State, s': State, ledger: Runs.Ledger, created: set<u64>)
    requires Sound(System(s, ledger, created)) && Inv(s') && s'.control.Idle? && s'.guards == s.guards
    requires forall id :: id in created ==> CleanAt(s, id) ==> CleanAt(s', id) && View(s', id) == View(s, id)
    ensures Sound(System(s', ledger, created))
  {
  }

  /** The allocator's writes after a complete flush change nothing of the created pages. */
  lemma AfterSync(s: State, ledger: Runs.Ledger, created: set<u64>, disk: Disk)
    requires Sound(System(s, ledger, created)) && s.control.Idle? && OnStore(s, created) && AllClean(s)
    requires Alloc.Untouched(s.disk, disk, ledger.alloc.free)
    ensures var t := s.(disk := disk);
      && Sound(System(t, ledger, created)) && OnStore(t, created) && AllClean(t)
      && forall id :: id in created ==> View(t, id) == View(s, id)
  {
    FailInv(s, disk);
    forall id | id in created ensures Stored(disk, id) == Stored(s.disk, id) {
      assert !AllocatorOwns(ledger.alloc.free, id);
    }
    SoundStill(s, s.(disk := disk), ledger, created);
  }

  /** After a complete flush the store agrees with the pool on every page whose clean copy agreed before. */
  lemma FlushedPages(s: State, s': State, ids: set<u64>)
    requires Inv(s) && Inv(s') && Pool.AllFlushed(s, s') && Pool.Transparent(s, s')
    requires forall id :: id in ids ==> CleanAt(s, id)
    ensures OnStore(s', ids) && AllClean(s')
  {
    forall id | id in ids ensures Stored(s'.disk, id) == View(s', id) {
      assert CleanAt(s, id);
      if id in s.resident { assert Pool.FlushedAt(s, s', id); }
    }
    forall k | 0 <= k < |s'.frames| && k in s'.resident.Values ensures !s'.frames[k].dirty {
      var id :| id in s'.resident && s'.resident[id] == k;
      assert Pool.FlushedAt(s, s', id);
    }
  }

  /** Reopening a store that describes an allocator either reports an I/O failure or restores exactly that allocator. */
  method Reopen(store: PageStore.PageStore, ghost freeList: seq<u64>, ghost nextNew: u64) returns (r: Result<Alloc.PageAllocator>)
    requires Describes(store.disk, freeList, nextNew)
    modifies store
    ensures store.disk == old(store.disk)
    ensures r.Success? ==> fresh(r.value) && r.value.store == store && r.value.freeList == freeList && r.value.nextNew == nextNew
    ensures r.Failure? ==> r.error == Io
    ensures r.Failure? <==> store.faults != old(store.faults)
  {
    r := Alloc.Open(store);
    if r.Success? {
      DescribesUnique(store.disk, freeList, nextNew, r.value.freeList, r.value.nextNew);
    }
  }

  /** A pool just opened shows what is on the store. */
  lemma FreshView(capacity: nat, payloadLen: PayloadLen, disk: Disk, id: u64)
    ensures var s := Initial(capacity, payloadLen, disk); View(s, id) == Stored(disk, id) && CleanAt(s, id)
  {
  }

  /** A new pool over a store that holds every created page. */
  lemma StartedAgain(s: State, ledger: Runs.Ledger, created: set<u64>, capacity: nat)
    requires Sound(System(s, ledger, created)) && OnStore(s, created)
    ensures var t := Initial(capacity, s.payloadLen, s.disk);
      Sound(System(t, ledger, created)) && forall id :: id in created ==> View(t, id) == View(s, id)
  {
    InitialInv(capacity, s.payloadLen, s.disk);
    forall id | id in created ensures View(Initial(capacity, s.payloadLen, s.disk), id) == View(s, id) && CleanAt(Initial(capacity, s.payloadLen, s.disk), id) {
      FreshView(capacity, s.payloadLen, s.disk, id);
    }
  }

  /**
   Checkpoint, then start again from nothing but the store: the new allocator is the old
   one, and the new pool shows every created page as the old one did.
   */
  method Restart(pool: Pool.BufferPool, alloc: Alloc.PageAllocator, capacity: nat, ghost live: set<u64>, ghost created: set<u64>)
    returns (r: Result<(Pool.BufferPool, Alloc.PageAllocator)>)
    requires pool.Valid() && alloc.Valid() && pool.store == alloc.store && Sound(Snapshot(pool, alloc, live, created))
    requires Pool.Unborrowed(pool.Sys(Idle))
    modifies pool.frames, pool.store
    ensures r.Success? ==> r.value.0.Valid() && r.value.0.store == pool.store && r.value.1.store == pool.store
    ensures r.Success? ==> r.value.1.State() == old(alloc.State())
    ensures r.Success? ==> forall id :: id in created ==> View(r.value.0.Sys(Idle), id) == old(View(pool.Sys(Idle), id))
    ensures r.Success? ==> Sound(Snapshot(r.value.0, r.value.1, live, created))
    ensures r.Failure? ==> r.error == Io
    ensures r.Failure? <==> pool.store.faults != old(pool.store.faults)
  {
    var saved := FlushThenSync(pool, alloc, live, created);
    if saved.Failure? {
      return Failure(saved.error);
    }
    ghost var flushed, ledger := pool.Sys(Idle), Runs.Ledger(alloc.State(), live);
    StartedAgain(flushed, ledger, created, capacity);
    var reopened := Reopen(pool.store, alloc.freeList, alloc.nextNew);
    if reopened.Failure? {
      return Failure(reopened.error);
    }
    var restarted := new Pool.BufferPool(pool.store, capacity);
    assert restarted.Sys(Idle) == Initial(capacity, flushed.payloadLen, flushed.disk);
    assert Snapshot(restarted, reopened.value, live, created) == System(Initial(capacity, flushed.payloadLen, flushed.disk), ledger, created);
    r := Success((restarted, reopened.value));
  }
}
