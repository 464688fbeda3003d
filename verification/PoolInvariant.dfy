/** What every reachable state of the pool satisfies, with guards dropped and pages written at any moment. */
module PoolInvariant {
  import opened PageError
  import opened Disk
  import opened PoolSystem

  // ---------- The invariant ----------

  /** The map is one-to-one into the frames, and each mapped frame carries the id it is mapped under. */
  ghost predicate MapInv(s: State) {
    forall id :: id in s.resident ==> s.resident[id] < |s.frames| && s.frames[s.resident[id]].id == id
  }

  /** The frame a miss has taken and not yet installed or put back. */
  ghost predicate Taken(s: State, slot: nat) {
    s.control.Filling? && s.control.slot == slot
  }

  ghost predicate FreeInv(s: State) {
    && (forall i :: 0 <= i < |s.free| ==> s.free[i] < |s.frames|)
    && (forall i, j :: 0 <= i < j < |s.free| ==> s.free[i] != s.free[j])
  }

  /** Every frame is mapped, free or taken, and only one of them: a failed miss never leaks a frame. */
  ghost predicate PartitionInv(s: State) {
    && (forall slot :: 0 <= slot < |s.frames| ==> Mapped(s, slot) || slot in s.free || Taken(s, slot))
    && (forall slot :: 0 <= slot < |s.frames| && slot in s.free ==> !Mapped(s, slot) && !Taken(s, slot))
    && (forall slot :: 0 <= slot < |s.frames| && Taken(s, slot) ==> !Mapped(s, slot))
  }

  ghost predicate ControlInv(s: State) {
    match s.control
    case Idle => true
    case Sweeping(op, steps) => op.id !in s.resident && s.free == [] && steps <= 2 * |s.frames|
    case Evicting(op, slot) =>
      op.id !in s.resident && s.free == [] && slot < |s.frames| && Mapped(s, slot) && s.frames[slot].pin == 0
    case Filling(op, slot) => op.id !in s.resident && slot < |s.frames| && s.frames[slot].pin == 0
    case FlushingAll(todo) => todo <= s.resident.Keys
  }

  /** A live guard's page stays mapped to the guard's frame under the id it was handed out for. */
  ghost predicate GuardInv(s: State) {
    forall g :: g in s.guards ==> s.guards[g].id in s.resident && s.resident[s.guards[g].id] == s.guards[g].slot
  }

  /** Each frame's pin count is the number of live guards on it. */
  ghost predicate PinInv(s: State) {
    forall slot :: 0 <= slot < |s.frames| ==> s.frames[slot].pin == |GuardsOn(s.guards, slot)|
  }

  /** A frame lock held for writing is held alone. */
  ghost predicate LockInv(s: State) {
    forall g, h :: g in s.guards && h in s.guards && g != h && s.guards[g].slot == s.guards[h].slot && s.guards[g].writing
      ==> !s.guards[h].writing && s.guards[h].readers == 0
  }

  /** A guard never borrows its own page for reading and writing at once. */
  ghost predicate BorrowInv(s: State) {
    forall g :: g in s.guards && s.guards[g].writing ==> s.guards[g].readers == 0
  }

  /** A page borrowed for writing is marked dirty, and stays so until the borrow ends. */
  ghost predicate WriterInv(s: State) {
    forall g :: g in s.guards && s.guards[g].writing && s.guards[g].slot < |s.frames| ==> s.frames[s.guards[g].slot].dirty
  }

  /** The frame table: where every frame and every resident page is. */
  ghost predicate TableInv(s: State) {
    |s.frames| > 0 && s.hand < |s.frames| && MapInv(s) && FreeInv(s) && PartitionInv(s)
  }

  /** The guards: what they pin and what they lock. */
  ghost predicate GuardsInv(s: State) {
    GuardInv(s) && PinInv(s) && LockInv(s) && BorrowInv(s) && WriterInv(s)
  }

  ghost predicate Inv(s: State) {
    TableInv(s) && ControlInv(s) && GuardsInv(s)
  }

  // ---------- Frame conditions ----------

  /** Pages, flags, pins and store contents do not matter to the frame table. */
  lemma SameTable(s: State, s': State)
    requires TableInv(s)
    requires |s'.frames| == |s.frames| && s'.resident == s.resident && s'.free == s.free && s'.hand < |s.frames|
    requires forall k :: 0 <= k < |s.frames| ==> s'.frames[k].id == s.frames[k].id
    requires s.control.Filling? <==> s'.control.Filling?
    requires s.control.Filling? ==> s'.control.slot == s.control.slot
    ensures TableInv(s')
    ensures forall k :: 0 <= k < |s.frames| ==> (Mapped(s', k) <==> Mapped(s, k))
  {
    assert forall k :: 0 <= k < |s.frames| ==> (Mapped(s', k) <==> Mapped(s, k));
    assert forall k :: Taken(s', k) <==> Taken(s, k);
  }

  /** Only guards, pins, the map and the dirty flags of frames being written matter to the guard part. */
  lemma SameGuardPart(s: State, s': State)
    requires GuardsInv(s)
    requires s'.guards == s.guards && s'.resident == s.resident && |s'.frames| == |s.frames|
    requires forall k :: 0 <= k < |s.frames| ==> s'.frames[k].pin == s.frames[k].pin
    requires forall k :: 0 <= k < |s.frames| ==> (s.frames[k].dirty ==> s'.frames[k].dirty || LockFree(s, k))
    ensures GuardsInv(s')
  {
  }

  // ---------- Initially ----------

  lemma InitialInv(capacity: nat, payloadLen: PayloadLen, disk: Disk)
    ensures Inv(Initial(capacity, payloadLen, disk))
  {
    var s := Initial(capacity, payloadLen, disk);
    forall slot | 0 <= slot < |s.frames| ensures slot in s.free && GuardsOn(s.guards, slot) == {} {
      assert s.free[slot] == slot;
    }
  }

  // ---------- Guards and pins ----------

  lemma AddGuard(guards: map<nat, Guard>, g: nat, guard: Guard, slot: nat)
    requires g !in guards
    ensures |GuardsOn(guards[g := guard], slot)| == |GuardsOn(guards, slot)| + (if guard.slot == slot then 1 else 0)
  {
    if guard.slot == slot {
      assert GuardsOn(guards[g := guard], slot) == GuardsOn(guards, slot) + {g};
    } else {
      assert GuardsOn(guards[g := guard], slot) == GuardsOn(guards, slot);
    }
  }

  lemma RemoveGuard(guards: map<nat, Guard>, g: nat, slot: nat)
    requires g in guards
    ensures |GuardsOn(guards - {g}, slot)| == |GuardsOn(guards, slot)| - (if guards[g].slot == slot then 1 else 0)
  {
    if guards[g].slot == slot {
      assert GuardsOn(guards - {g}, slot) == GuardsOn(guards, slot) - {g};
      assert g in GuardsOn(guards, slot);
    } else {
      assert GuardsOn(guards - {g}, slot) == GuardsOn(guards, slot);
    }
  }

  lemma SameGuards(guards: map<nat, Guard>, g: nat, guard: Guard, slot: nat)
    requires g in guards && guard.slot == guards[g].slot
    ensures GuardsOn(guards[g := guard], slot) == GuardsOn(guards, slot)
  {
  }

  /** An unpinned frame has no guards, so nobody holds or waits for its lock. */
  lemma UnpinnedUnlocked(s: State, slot: nat)
    requires Inv(s) && slot < |s.frames| && s.frames[slot].pin == 0
    ensures forall g :: g in s.guards ==> s.guards[g].slot != slot
    ensures LockFree(s, slot)
  {
    assert GuardsOn(s.guards, slot) == {};
    forall g | g in s.guards ensures s.guards[g].slot != slot {
      assert s.guards[g].slot == slot <==> g in GuardsOn(s.guards, slot);
    }
  }

  /** A frame with a live guard is pinned, so dropping the guard cannot take the count below zero. */
  lemma GuardedIsPinned(s: State, g: nat)
    requires Inv(s) && g in s.guards
    ensures Live(s, g) && s.frames[s.guards[g].slot].pin > 0
  {
    assert g in GuardsOn(s.guards, s.guards[g].slot);
  }

  // ---------- Every step ----------

  lemma HitInv(s: State, op: Op, g: nat)
    requires Inv(s) && CanHit(s, op, g)
    ensures Inv(AfterHit(s, op, g))
  {
    var s' := AfterHit(s, op, g);
    SameTable(s, s');
    NewGuard(s, s', g, s.resident[op.id], op.id);
  }

  /** One more guard and one more pin on a mapped frame. */
  lemma NewGuard(s: State, s': State, g: nat, slot: nat, id: u64)
    requires GuardsInv(s) && g !in s.guards && slot < |s.frames|
    requires s'.guards == s.guards[g := Guard(slot, id, 0, false)] && |s'.frames| == |s.frames|
    requires forall k :: 0 <= k < |s.frames| ==> s'.frames[k].pin == s.frames[k].pin + (if k == slot then 1 else 0)
    requires forall k :: 0 <= k < |s.frames| ==> (s.frames[k].dirty ==> s'.frames[k].dirty || LockFree(s, k))
    requires id in s'.resident && s'.resident[id] == slot
    requires forall h :: h in s.guards ==> s.guards[h].id in s'.resident && s'.resident[s.guards[h].id] == s.guards[h].slot
    ensures GuardsInv(s')
  {
    forall k | 0 <= k < |s'.frames| ensures s'.frames[k].pin == |GuardsOn(s'.guards, k)| {
      AddGuard(s.guards, g, Guard(slot, id, 0, false), k);
    }
  }

  lemma BeginInv(s: State, op: Op)
    requires Inv(s) && CanBegin(s, op)
    ensures Inv(AfterBegin(s, op))
  {
    SameGuardPart(s, AfterBegin(s, op));
    if s.free != [] {
      TakeFree(s, op);
    } else {
      SameTable(s, AfterBegin(s, op));
    }
  }

  lemma TakeFree(s: State, op: Op)
    requires Inv(s) && CanBegin(s, op) && s.free != []
    ensures TableInv(AfterBegin(s, op)) && ControlInv(AfterBegin(s, op))
  {
    var s' := AfterBegin(s, op);
    var last := s.free[|s.free| - 1];
    assert last in s.free;
    assert forall k :: k in s.free <==> k in s'.free || k == last;
    assert last !in s'.free;
    assert forall k :: 0 <= k < |s.frames| ==> (Mapped(s', k) <==> Mapped(s, k));
    UnmappedIsUnpinned(s, last);
  }

  /** Nothing pins a frame that is not mapped. */
  lemma UnmappedIsUnpinned(s: State, slot: nat)
    requires Inv(s) && slot < |s.frames| && !Mapped(s, slot)
    ensures s.frames[slot].pin == 0
  {
    assert GuardsOn(s.guards, slot) == {} by {
      forall g | g in s.guards ensures s.guards[g].slot != slot {}
    }
  }

  /** When the free list is empty and nothing is taken every frame is mapped, so the victim is. */
  lemma SweepInv(s: State)
    requires Inv(s) && CanSweep(s)
    ensures Inv(AfterSweep(s))
  {
    SameGuardPart(s, AfterSweep(s));
    SameTable(s, AfterSweep(s));
    assert Mapped(s, s.hand);
  }

  lemma EvictInv(s: State, dirty: bool)
    requires Inv(s) && CanEvict(s, dirty)
    ensures Inv(AfterEvict(s))
  {
    EvictTable(s, dirty);
    var s' := AfterEvict(s);
    UnpinnedUnlocked(s, s.control.slot);
    assert WriterInv(s');
    forall g | g in s'.guards ensures s'.guards[g].id in s'.resident && s'.resident[s'.guards[g].id] == s'.guards[g].slot {
      assert s.guards[g].slot != s.control.slot;
    }
  }

  lemma EvictTable(s: State, dirty: bool)
    requires Inv(s) && CanEvict(s, dirty)
    ensures TableInv(AfterEvict(s)) && ControlInv(AfterEvict(s))
  {
    var s' := AfterEvict(s);
    var slot := s.control.slot;
    var victim := s.frames[slot].id;
    assert s'.resident == s.resident - {victim};
    forall k | 0 <= k < |s.frames| && k != slot ensures Mapped(s', k) <==> Mapped(s, k) {
      if Mapped(s, k) { assert s.frames[k].id != victim; }
    }
    assert forall k :: Taken(s', k) <==> k == slot;
  }

  /** A failed write touches nothing but the store. */
  lemma FailInv(s: State, disk: Disk)
    requires Inv(s) && !s.control.Filling?
    ensures Inv(s.(disk := disk)) && Inv(AfterReturn(s.(disk := disk)))
  {
    SameTable(s, s.(disk := disk));
    SameTable(s, AfterReturn(s.(disk := disk)));
    SameGuardPart(s, s.(disk := disk));
    SameGuardPart(s, AfterReturn(s.(disk := disk)));
  }

  lemma FillFailedInv(s: State, junk: PageData)
    requires Inv(s) && CanFillFailed(s)
    ensures Inv(AfterFillFailed(s, junk))
  {
    var s' := AfterFillFailed(s, junk);
    var slot := s.control.slot;
    SameGuardPart(s, s');
    assert Taken(s, slot);
    assert slot !in s.free;
    assert forall k :: k in s'.free <==> k in s.free || k == slot;
    assert forall k :: 0 <= k < |s.frames| ==> (Mapped(s', k) <==> Mapped(s, k));
  }

  /** `install` overwrites the pin count of a frame that has none: no pin is ever erased. */
  lemma InstallErasesNoPin(s: State)
    requires Inv(s) && s.control.Filling?
    ensures s.frames[s.control.slot].pin == 0 && GuardsOn(s.guards, s.control.slot) == {}
  {
    UnpinnedUnlocked(s, s.control.slot);
  }

  lemma InstalledInv(s: State, dirty: bool, page: PageData, g: nat)
    requires Inv(s) && s.control.Filling? && g !in s.guards
    ensures Inv(Installed(s, s.control.slot, s.control.op.id, dirty, page, g))
  {
    var slot, id := s.control.slot, s.control.op.id;
    var s' := Installed(s, slot, id, dirty, page, g);
    InstalledTable(s, dirty, page, g);
    InstallErasesNoPin(s);
    forall h | h in s.guards ensures s.guards[h].id in s'.resident && s'.resident[s.guards[h].id] == s.guards[h].slot {
      assert s.guards[h].id != id;
    }
    NewGuard(s, s', g, slot, id);
  }

  lemma InstalledTable(s: State, dirty: bool, page: PageData, g: nat)
    requires Inv(s) && s.control.Filling? && g !in s.guards
    ensures TableInv(Installed(s, s.control.slot, s.control.op.id, dirty, page, g))
  {
    var slot, id := s.control.slot, s.control.op.id;
    var s' := Installed(s, slot, id, dirty, page, g);
    assert Taken(s, slot);
    forall i | i in s.resident ensures s.resident[i] != slot {
      assert s.frames[s.resident[i]].id == i;
    }
    forall k | 0 <= k < |s.frames| && k != slot ensures Mapped(s', k) <==> Mapped(s, k) {}
    assert Mapped(s', slot);
  }

  lemma FlushInv(s: State, id: u64)
    requires Inv(s) && CanFlush(s, id)
    ensures Inv(AfterFlush(s, id))
  {
    SameTable(s, AfterFlush(s, id));
    SameGuardPart(s, AfterFlush(s, id));
  }

  lemma ControlOnlyInv(s: State, control: Control)
    requires Inv(s) && !s.control.Filling? && !control.Filling? && ControlInv(s.(control := control))
    ensures Inv(s.(control := control))
  {
    SameTable(s, s.(control := control));
    SameGuardPart(s, s.(control := control));
  }

  /** Borrowing and returning the frame lock. */
  lemma BorrowInvariant(s: State, s': State, g: nat)
    requires Inv(s) && g in s.guards && g in s'.guards
    requires s'.guards == s.guards[g := s'.guards[g]] && s'.control == s.control
    requires s'.resident == s.resident && s'.free == s.free && s'.hand == s.hand && |s'.frames| == |s.frames|
    requires forall k :: 0 <= k < |s.frames| ==> s'.frames[k].id == s.frames[k].id && s'.frames[k].pin == s.frames[k].pin
    requires forall k :: 0 <= k < |s.frames| ==> (s.frames[k].dirty ==> s'.frames[k].dirty)
    requires s'.guards[g].writing ==> s'.guards[g].slot < |s.frames| && s'.frames[s'.guards[g].slot].dirty
    requires s'.guards[g].slot == s.guards[g].slot && s'.guards[g].id == s.guards[g].id
    requires s'.guards[g].writing ==> s'.guards[g].readers == 0
    requires forall h :: h in s.guards && h != g && s.guards[h].slot == s.guards[g].slot && s'.guards[g].writing ==>
               !s.guards[h].writing && s.guards[h].readers == 0
    requires forall h :: h in s.guards && h != g && s.guards[h].slot == s.guards[g].slot && s.guards[h].writing ==>
               s'.guards[g].readers == 0
    ensures Inv(s')
  {
    SameTable(s, s');
    BorrowPins(s, s', g);
  }

  lemma BorrowPins(s: State, s': State, g: nat)
    requires PinInv(s) && g in s.guards && g in s'.guards
    requires s'.guards == s.guards[g := s'.guards[g]] && |s'.frames| == |s.frames| && s'.guards[g].slot == s.guards[g].slot
    requires forall k :: 0 <= k < |s.frames| ==> s'.frames[k].pin == s.frames[k].pin
    ensures PinInv(s')
  {
    forall slot | 0 <= slot < |s'.frames| ensures s'.frames[slot].pin == |GuardsOn(s'.guards, slot)| {
      SameGuards(s.guards, g, s'.guards[g], slot);
    }
  }

  lemma PutInv(s: State, g: nat, data: PageData)
    requires Inv(s) && Live(s, g)
    ensures Inv(AfterPut(s, g, data))
  {
    SameTable(s, AfterPut(s, g, data));
    SameGuardPart(s, AfterPut(s, g, data));
  }

  lemma DropInv(s: State, g: nat)
    requires Inv(s) && CanDrop(s, g)
    ensures Inv(AfterDrop(s, g))
  {
    var s' := AfterDrop(s, g);
    SameTable(s, s');
    forall slot | 0 <= slot < |s'.frames| ensures s'.frames[slot].pin == |GuardsOn(s'.guards, slot)| {
      RemoveGuard(s.guards, g, slot);
    }
    DropControl(s, g);
  }

  lemma DropControl(s: State, g: nat)
    requires Inv(s) && CanDrop(s, g)
    ensures ControlInv(AfterDrop(s, g))
  {
    if s.control.Evicting? || s.control.Filling? {
      UnpinnedUnlocked(s, s.control.slot);
    }
  }

  lemma MutexStepInv(s: State, l: Label)
    requires Inv(s) && Enabled(s, l)
    requires !ByGuard(l)
    ensures Inv(Next(s, l))
  {
    match l
    case Hit(op, g) => HitInv(s, op, g);
    case Begin(op) => BeginInv(s, op);
    case Sweep => SweepInv(s);
    case EvictClean => EvictInv(s, false);
    case EvictDirty => EvictInv(s, true);
    case FillFetched(g) => InstalledInv(s, false, Stored(s.disk, s.control.op.id).value, g);
    case FillFailed(junk) => FillFailedInv(s, junk);
    case FillNew(g) => InstalledInv(s, true, BlankPage(s.payloadLen), g);
    case FlushOne(id) => FlushInv(s, id);
    case FlushNext(id) =>
      FlushInv(s, id);
      ControlOnlyInv(AfterFlush(s, id), FlushingAll(s.control.todo - {id}));
    case FlushNextClean(id) => ControlOnlyInv(s, FlushingAll(s.control.todo - {id}));
    case BeginFlushAll => ControlOnlyInv(s, FlushingAll(s.resident.Keys));
    case EndFlushAll => ControlOnlyInv(s, Idle);
    case Exhausted => ControlOnlyInv(s, Idle);
    case EvictFailed(torn) => FailInv(s, Torn(s.disk, s.frames[s.control.slot].id, torn));
    case FlushOneFailed(id, torn) => FailInv(s, Torn(s.disk, id, torn));
    case FlushNextFailed(id, torn) => FailInv(s, Torn(s.disk, id, torn));
  }

  lemma TakeStepInv(s: State, l: Label)
    requires Inv(s) && Enabled(s, l) && (l.TakeRead? || l.TakeWrite?)
    ensures Inv(Next(s, l))
  {
    BorrowInvariant(s, Next(s, l), l.g);
  }

  lemma ReleaseStepInv(s: State, l: Label)
    requires Inv(s) && Enabled(s, l) && (l.ReleaseRead? || l.ReleaseWrite?)
    ensures Inv(Next(s, l))
  {
    BorrowInvariant(s, Next(s, l), l.g);
  }

  predicate ByGuard(l: Label) {
    l.Put? || l.Drop? || l.TakeRead? || l.TakeWrite? || l.ReleaseRead? || l.ReleaseWrite?
  }

  lemma GuardStepInv(s: State, l: Label)
    requires Inv(s) && Enabled(s, l) && ByGuard(l)
    ensures Inv(Next(s, l))
  {
    if l.Put? {
      PutInv(s, l.g, l.data);
    } else if l.Drop? {
      DropInv(s, l.g);
    } else if l.TakeRead? || l.TakeWrite? {
      TakeStepInv(s, l);
    } else {
      ReleaseStepInv(s, l);
    }
  }

  /** Every step of every thread keeps the invariant, including every error path. */
  lemma StepInv(s: State, l: Label)
    requires Inv(s) && Enabled(s, l)
    ensures Inv(Next(s, l))
  {
    if ByGuard(l) {
      GuardStepInv(s, l);
    } else {
      MutexStepInv(s, l);
    }
  }

  /** Every run from a fresh pool, over any store, stays inside the invariant. */
  lemma {:induction false} RunInv(s: State, ls: seq<Label>, s': State)
    requires Inv(s) && Run(s, ls, s')
    ensures Inv(s')
    decreases |ls|
  {
    if ls != [] {
      StepInv(s, ls[0]);
      RunInv(Next(s, ls[0]), ls[1..], s');
    }
  }

  /** Neither evicting a victim nor filling a taken frame ever waits for a frame lock. */
  lemma EvictionNeverWaits(s: State)
    requires Inv(s) && (s.control.Evicting? || s.control.Filling?)
    ensures LockFree(s, s.control.slot)
    ensures s.control.Evicting? ==> Enabled(s, if s.frames[s.control.slot].dirty then EvictDirty else EvictClean)
    ensures s.control.Filling? && s.control.op.NewPage? ==> forall g :: g !in s.guards ==> Enabled(s, FillNew(g))
  {
    UnpinnedUnlocked(s, s.control.slot);
  }
}
