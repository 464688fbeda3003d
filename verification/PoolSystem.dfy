/**
 The buffer pool of `src/pool.rs` as a system of atomic steps.

 At most one thread holds the core mutex; `control` says how far it has got.  Guards are
 taken, used and dropped by any thread at any time, also while another thread is in the
 middle of the clock sweep.  `PageGuard::write` (set the dirty flag, then take the frame
 lock) is one step, enabled when the lock is free.
 */
module PoolSystem {
  import opened PageError
  import opened Disk

  /** What a frame that was never filled has for an id. */
  const NO_PAGE: u64 := 0xffff_ffff_ffff_ffff

  datatype Frame = Frame(id: u64, pin: nat, dirty: bool, referenced: bool, page: PageData)

  /** A live `PageGuard`: its frame, the page it was handed out for, and its borrows of the frame lock. */
  datatype Guard = Guard(slot: nat, id: u64, readers: nat, writing: bool)

  /** The call that is admitting a page. */
  datatype Op = Fetch(id: u64) | NewPage(id: u64)

  /** What the holder of the core mutex is doing. */
  datatype Control =
    | Idle
    | Sweeping(op: Op, steps: nat)
    | Evicting(op: Op, slot: nat)
    | Filling(op: Op, slot: nat)
    | FlushingAll(todo: set<u64>)

  datatype State = State(
    frames: seq<Frame>,
    resident: map<u64, nat>,
    free: seq<nat>,
    hand: nat,
    disk: Disk,
    guards: map<nat, Guard>,
    control: Control,
    payloadLen: PayloadLen)

  datatype Label =
    | Hit(op: Op, g: nat)
    | Begin(op: Op)
    | Sweep
    | Exhausted
    | EvictClean
    | EvictDirty
    | EvictFailed(torn: Option<Slot>)
    | FillFetched(g: nat)
    | FillFailed(junk: PageData)
    | FillNew(g: nat)
    | FlushOne(id: u64)
    | FlushOneFailed(id: u64, torn: Option<Slot>)
    | BeginFlushAll
    | FlushNextClean(id: u64)
    | FlushNext(id: u64)
    | FlushNextFailed(id: u64, torn: Option<Slot>)
    | EndFlushAll
    | TakeRead(g: nat)
    | TakeWrite(g: nat)
    | Put(g: nat, data: PageData)
    | ReleaseRead(g: nat)
    | ReleaseWrite(g: nat)
    | Drop(g: nat)

  // ---------- Helpers ----------

  function GuardsOn(guards: map<nat, Guard>, slot: nat): set<nat> {
    set g | g in guards && guards[g].slot == slot
  }

  /** No guard borrows the page in `slot`, so its frame lock can be taken for writing at once. */
  ghost predicate LockFree(s: State, slot: nat) {
    forall g :: g in s.guards && s.guards[g].slot == slot ==> s.guards[g].readers == 0 && !s.guards[g].writing
  }

  ghost predicate NoWriter(s: State, slot: nat) {
    forall g :: g in s.guards && s.guards[g].slot == slot ==> !s.guards[g].writing
  }

  /** The frame in `slot` is the one the map names for its id. */
  predicate Mapped(s: State, slot: nat)
    requires slot < |s.frames|
  {
    s.frames[slot].id in s.resident && s.resident[s.frames[slot].id] == slot
  }

  function WithFrame(s: State, slot: nat, f: Frame): State
    requires slot < |s.frames|
  {
    s.(frames := s.frames[slot := f])
  }

  /** `install`: the frame belongs to `id` from now on, with one pin and one guard. */
  function Installed(s: State, slot: nat, id: u64, dirty: bool, page: PageData, g: nat): State
    requires slot < |s.frames|
  {
    WithFrame(s, slot, Frame(id, 1, dirty, true, page))
      .(resident := s.resident[id := slot], guards := s.guards[g := Guard(slot, id, 0, false)], control := Idle)
  }

  /** The page in `slot` reached the store under `id`. */
  function Flushed(s: State, slot: nat, id: u64): State
    requires slot < |s.frames|
  {
    WithFrame(s, slot, s.frames[slot].(dirty := false)).(disk := s.disk[id := s.frames[slot].page])
  }

  // ---------- Steps of the thread that holds the core mutex ----------

  /** `fetch` or `new_page` of a resident page. */
  ghost predicate CanHit(s: State, op: Op, g: nat) {
    s.control.Idle? && op.id in s.resident && s.resident[op.id] < |s.frames| && g !in s.guards
    && (op.NewPage? ==> LockFree(s, s.resident[op.id]))
  }

  function AfterHit(s: State, op: Op, g: nat): State
    requires op.id in s.resident && s.resident[op.id] < |s.frames|
  {
    var slot := s.resident[op.id];
    var f := s.frames[slot];
    var f' := if op.NewPage?
              then f.(page := BlankPage(s.payloadLen), pin := f.pin + 1, dirty := true, referenced := true)
              else f.(pin := f.pin + 1, referenced := true);
    WithFrame(s, slot, f').(guards := s.guards[g := Guard(slot, op.id, 0, false)])
  }

  /** A miss: `take_slot` pops a free frame, or starts the sweep. */
  ghost predicate CanBegin(s: State, op: Op) { s.control.Idle? && op.id !in s.resident }

  function AfterBegin(s: State, op: Op): State {
    if s.free != [] then
      s.(free := s.free[..|s.free| - 1], control := Filling(op, s.free[|s.free| - 1]))
    else
      s.(control := Sweeping(op, 0))
  }

  /** One turn of the clock sweep. */
  ghost predicate CanSweep(s: State) {
    s.control.Sweeping? && s.control.steps < 2 * |s.frames| && s.hand < |s.frames|
  }

  function AfterSweep(s: State): State
    requires s.control.Sweeping? && s.hand < |s.frames|
  {
    var slot := s.hand;
    var f := s.frames[slot];
    var moved := s.(hand := (s.hand + 1) % |s.frames|);
    if f.pin > 0 then
      moved.(control := Sweeping(s.control.op, s.control.steps + 1))
    else if f.referenced then
      WithFrame(moved, slot, f.(referenced := false)).(control := Sweeping(s.control.op, s.control.steps + 1))
    else
      moved.(control := Evicting(s.control.op, slot))
  }

  /** Both passes found nothing: `BufferPoolExhausted`. */
  ghost predicate CanExhaust(s: State) { s.control.Sweeping? && s.control.steps >= 2 * |s.frames| }

  /** Returning to the caller, whatever the outcome. */
  function AfterReturn(s: State): State { s.(control := Idle) }

  /** The victim is clean, or is flushed first; then it leaves the map. */
  ghost predicate CanEvict(s: State, dirty: bool) {
    s.control.Evicting? && s.control.slot < |s.frames| && s.frames[s.control.slot].dirty == dirty
    && (dirty ==> LockFree(s, s.control.slot))
  }

  function AfterEvict(s: State): State
    requires s.control.Evicting? && s.control.slot < |s.frames|
  {
    var slot := s.control.slot;
    var victim := s.frames[slot].id;
    var s' := if s.frames[slot].dirty then Flushed(s, slot, victim) else s;
    s'.(resident := s.resident - {victim}, control := Filling(s.control.op, slot))
  }

  /** The victim's write failed: the call returns the error. */
  function AfterEvictFailed(s: State, torn: Option<Slot>): State
    requires s.control.Evicting? && s.control.slot < |s.frames|
  {
    s.(disk := Torn(s.disk, s.frames[s.control.slot].id, torn), control := Idle)
  }

  ghost predicate CanFill(s: State) {
    s.control.Filling? && s.control.slot < |s.frames| && LockFree(s, s.control.slot)
  }

  /** The page was read from the store and is installed clean. */
  ghost predicate CanFillFetched(s: State, g: nat) {
    CanFill(s) && s.control.op.Fetch? && g !in s.guards && Stored(s.disk, s.control.op.id).Some?
  }

  function AfterFillFetched(s: State, g: nat): State
    requires s.control.Filling? && s.control.slot < |s.frames| && Stored(s.disk, s.control.op.id).Some?
  {
    Installed(s, s.control.slot, s.control.op.id, false, Stored(s.disk, s.control.op.id).value, g)
  }

  /** The read failed, leaving anything in the buffer: the frame goes back on the free list. */
  ghost predicate CanFillFailed(s: State) { CanFill(s) && s.control.op.Fetch? }

  function AfterFillFailed(s: State, junk: PageData): State
    requires s.control.Filling? && s.control.slot < |s.frames|
  {
    WithFrame(s, s.control.slot, s.frames[s.control.slot].(page := junk)).(free := s.free + [s.control.slot], control := Idle)
  }

  /** A blank page is installed dirty. */
  ghost predicate CanFillNew(s: State, g: nat) { CanFill(s) && s.control.op.NewPage? && g !in s.guards }

  function AfterFillNew(s: State, g: nat): State
    requires s.control.Filling? && s.control.slot < |s.frames|
  {
    Installed(s, s.control.slot, s.control.op.id, true, BlankPage(s.payloadLen), g)
  }

  /** `flush_slot` of a dirty resident page; of a clean one it does nothing. */
  ghost predicate CanFlush(s: State, id: u64) {
    && id in s.resident && s.resident[id] < |s.frames|
    && s.frames[s.resident[id]].dirty && LockFree(s, s.resident[id])
  }

  function AfterFlush(s: State, id: u64): State
    requires id in s.resident && s.resident[id] < |s.frames|
  {
    Flushed(s, s.resident[id], id)
  }

  ghost predicate Todo(s: State, id: u64) { s.control.FlushingAll? && id in s.control.todo }

  function Done(s: State, id: u64): State
    requires s.control.FlushingAll?
  {
    s.(control := FlushingAll(s.control.todo - {id}))
  }

  // ---------- Steps of any thread that owns a guard ----------

  ghost predicate Live(s: State, g: nat) { g in s.guards && s.guards[g].slot < |s.frames| }

  ghost predicate CanDrop(s: State, g: nat) {
    Live(s, g) && s.guards[g].readers == 0 && !s.guards[g].writing && s.frames[s.guards[g].slot].pin > 0
  }

  function AfterDrop(s: State, g: nat): State
    requires g in s.guards && s.guards[g].slot < |s.frames| && s.frames[s.guards[g].slot].pin > 0
  {
    var slot := s.guards[g].slot;
    WithFrame(s, slot, s.frames[slot].(pin := s.frames[slot].pin - 1)).(guards := s.guards - {g})
  }

  function AfterTakeWrite(s: State, g: nat): State
    requires g in s.guards && s.guards[g].slot < |s.frames|
  {
    var slot := s.guards[g].slot;
    WithFrame(s, slot, s.frames[slot].(dirty := true)).(guards := s.guards[g := s.guards[g].(writing := true)])
  }

  function AfterPut(s: State, g: nat, data: PageData): State
    requires g in s.guards && s.guards[g].slot < |s.frames|
  {
    WithFrame(s, s.guards[g].slot, s.frames[s.guards[g].slot].(page := data))
  }

  function WithReaders(s: State, g: nat, readers: nat): State
    requires g in s.guards
  {
    s.(guards := s.guards[g := s.guards[g].(readers := readers)])
  }

  // ---------- All steps ----------

  ghost predicate Enabled(s: State, l: Label) {
    match l
    case Hit(op, g) => CanHit(s, op, g)
    case Begin(op) => CanBegin(s, op)
    case Sweep => CanSweep(s)
    case Exhausted => CanExhaust(s)
    case EvictClean => CanEvict(s, false)
    case EvictDirty => CanEvict(s, true)
    case EvictFailed(_) => CanEvict(s, true)
    case FillFetched(g) => CanFillFetched(s, g)
    case FillFailed(_) => CanFillFailed(s)
    case FillNew(g) => CanFillNew(s, g)
    case FlushOne(id) => s.control.Idle? && CanFlush(s, id)
    case FlushOneFailed(id, _) => s.control.Idle? && CanFlush(s, id)
    case BeginFlushAll => s.control.Idle?
    case FlushNextClean(id) => Todo(s, id) && id in s.resident && s.resident[id] < |s.frames| && !s.frames[s.resident[id]].dirty
    case FlushNext(id) => Todo(s, id) && CanFlush(s, id)
    case FlushNextFailed(id, _) => Todo(s, id) && CanFlush(s, id)
    case EndFlushAll => s.control.FlushingAll? && s.control.todo == {}
    case TakeRead(g) => Live(s, g) && NoWriter(s, s.guards[g].slot)
    case TakeWrite(g) => Live(s, g) && LockFree(s, s.guards[g].slot)
    case Put(g, _) => Live(s, g) && s.guards[g].writing
    case ReleaseRead(g) => Live(s, g) && s.guards[g].readers > 0
    case ReleaseWrite(g) => Live(s, g) && s.guards[g].writing
    case Drop(g) => CanDrop(s, g)
  }

  ghost function Next(s: State, l: Label): State
    requires Enabled(s, l)
  {
    match l
    case Hit(op, g) => AfterHit(s, op, g)
    case Begin(op) => AfterBegin(s, op)
    case Sweep => AfterSweep(s)
    case Exhausted => AfterReturn(s)
    case EvictClean => AfterEvict(s)
    case EvictDirty => AfterEvict(s)
    case EvictFailed(torn) => AfterEvictFailed(s, torn)
    case FillFetched(g) => AfterFillFetched(s, g)
    case FillFailed(junk) => AfterFillFailed(s, junk)
    case FillNew(g) => AfterFillNew(s, g)
    case FlushOne(id) => AfterFlush(s, id)
    case FlushOneFailed(id, torn) => s.(disk := Torn(s.disk, id, torn))
    case BeginFlushAll => s.(control := FlushingAll(s.resident.Keys))
    case FlushNextClean(id) => Done(s, id)
    case FlushNext(id) => Done(AfterFlush(s, id), id)
    case FlushNextFailed(id, torn) => AfterReturn(s.(disk := Torn(s.disk, id, torn)))
    case EndFlushAll => AfterReturn(s)
    case TakeRead(g) => WithReaders(s, g, s.guards[g].readers + 1)
    case TakeWrite(g) => AfterTakeWrite(s, g)
    case Put(g, data) => AfterPut(s, g, data)
    case ReleaseRead(g) => WithReaders(s, g, s.guards[g].readers - 1)
    case ReleaseWrite(g) => s.(guards := s.guards[g := s.guards[g].(writing := false)])
    case Drop(g) => AfterDrop(s, g)
  }

  /** `s'` is reached from `s` by the steps `ls`, in that order. */
  ghost predicate Run(s: State, ls: seq<Label>, s': State)
    decreases |ls|
  {
    if ls == [] then s == s' else Enabled(s, ls[0]) && Run(Next(s, ls[0]), ls[1..], s')
  }

  lemma {:induction false} RunAppend(s: State, a: seq<Label>, t: State, b: seq<Label>, u: State)
    requires Run(s, a, t) && Run(t, b, u)
    ensures Run(s, a + b, u)
    decreases |a|
  {
    if a == [] {
      assert a + b == b;
    } else {
      assert (a + b)[1..] == a[1..] + b;
      RunAppend(Next(s, a[0]), a[1..], t, b, u);
    }
  }

  /** `new`: every frame blank and free, the hand at zero. */
  function Initial(capacity: nat, payloadLen: PayloadLen, disk: Disk): State {
    var n := if capacity == 0 then 1 else capacity;
    State(seq(n, _ => Frame(NO_PAGE, 0, false, false, BlankPage(payloadLen))),
          map[], seq(n, i => i), 0, disk, map[], Idle, payloadLen)
  }
}
