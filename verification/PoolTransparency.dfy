/**
 The pool is invisible: reading through it agrees with a plain map from ids to pages that
 only `new_page` and writes through a guard ever change.  Everything is stated one id at
 a time, so that other users of the store may write to other ids.
 */
module PoolTransparency {
  import opened PageError
  import opened Disk
  import opened PoolSystem
  import opened PoolInvariant

  /** What reading `id` through the pool returns. */
  function View(s: State, id: u64): Option<PageData> {
    if id in s.resident && s.resident[id] < |s.frames| then Some(s.frames[s.resident[id]].page) else Stored(s.disk, id)
  }

  /** A resident page not marked dirty is what the store holds for it. */
  predicate CleanAt(s: State, id: u64) {
    id in s.resident && s.resident[id] < |s.frames| && !s.frames[s.resident[id]].dirty ==>
      Stored(s.disk, id) == Some(s.frames[s.resident[id]].page)
  }

  /** What a step does to the logical page `id`: `new_page` blanks it, a guard write replaces it, nothing else touches it. */
  ghost function Effect(s: State, l: Label, id: u64, page: Option<PageData>): Option<PageData> {
    match l
    case Hit(op, _) => if op == NewPage(id) then Some(BlankPage(s.payloadLen)) else page
    case FillNew(_) => if s.control.Filling? && s.control.op.id == id then Some(BlankPage(s.payloadLen)) else page
    case Put(g, data) => if g in s.guards && s.guards[g].id == id then Some(data) else page
    case _ => page
  }

  // ---------- One step ----------

  /** The frame table and pages are as before; the store may differ only where `id` is resident and dirty. */
  lemma Unchanged(s: State, s': State, id: u64)
    requires Inv(s) && CleanAt(s, id)
    requires s'.resident == s.resident && |s'.frames| == |s.frames|
    requires forall k :: 0 <= k < |s.frames| ==> s'.frames[k].page == s.frames[k].page && (s.frames[k].dirty ==> s'.frames[k].dirty)
    requires Stored(s'.disk, id) == Stored(s.disk, id) || (id in s.resident && s.frames[s.resident[id]].dirty)
    ensures CleanAt(s', id) && View(s', id) == View(s, id)
  {
  }

  lemma HitView(s: State, op: Op, g: nat, id: u64)
    requires Inv(s) && CanHit(s, op, g) && CleanAt(s, id)
    ensures CleanAt(AfterHit(s, op, g), id)
    ensures View(AfterHit(s, op, g), id) == Effect(s, Hit(op, g), id, View(s, id))
  {
    if id in s.resident && id != op.id {
      assert s.frames[s.resident[id]].id == id && s.frames[s.resident[op.id]].id == op.id;
    }
  }

  lemma EvictView(s: State, dirty: bool, id: u64)
    requires Inv(s) && CanEvict(s, dirty) && CleanAt(s, id)
    ensures CleanAt(AfterEvict(s), id) && View(AfterEvict(s), id) == View(s, id)
  {
    var victim := s.frames[s.control.slot].id;
    if id in s.resident && id != victim {
      assert s.frames[s.resident[id]].id == id;
    }
  }

  lemma EvictFailedView(s: State, torn: Option<Slot>, id: u64)
    requires Inv(s) && CanEvict(s, true) && CleanAt(s, id)
    ensures CleanAt(AfterEvictFailed(s, torn), id) && View(AfterEvictFailed(s, torn), id) == View(s, id)
  {
    Unchanged(s, AfterEvictFailed(s, torn), id);
  }

  lemma InstalledView(s: State, dirty: bool, page: PageData, g: nat, id: u64)
    requires Inv(s) && s.control.Filling? && CleanAt(s, id)
    requires !dirty ==> Stored(s.disk, s.control.op.id) == Some(page)
    ensures var s' := Installed(s, s.control.slot, s.control.op.id, dirty, page, g);
      CleanAt(s', id) && View(s', id) == if s.control.op.id == id then Some(page) else View(s, id)
  {
    assert Taken(s, s.control.slot);
    if id in s.resident {
      assert s.frames[s.resident[id]].id == id;
    }
  }

  lemma FillFailedView(s: State, junk: PageData, id: u64)
    requires Inv(s) && CanFillFailed(s) && CleanAt(s, id)
    ensures CleanAt(AfterFillFailed(s, junk), id) && View(AfterFillFailed(s, junk), id) == View(s, id)
  {
    assert Taken(s, s.control.slot);
    if id in s.resident {
      assert s.frames[s.resident[id]].id == id;
    }
  }

  lemma FlushView(s: State, flushed: u64, id: u64)
    requires Inv(s) && CanFlush(s, flushed) && CleanAt(s, id)
    ensures CleanAt(AfterFlush(s, flushed), id) && View(AfterFlush(s, flushed), id) == View(s, id)
  {
    if id in s.resident && id != flushed {
      assert s.frames[s.resident[id]].id == id && s.frames[s.resident[flushed]].id == flushed;
    }
  }

  lemma PutView(s: State, g: nat, data: PageData, id: u64)
    requires Inv(s) && Enabled(s, Put(g, data)) && CleanAt(s, id)
    ensures CleanAt(AfterPut(s, g, data), id)
    ensures View(AfterPut(s, g, data), id) == Effect(s, Put(g, data), id, View(s, id))
  {
    if id in s.resident {
      assert s.frames[s.resident[id]].id == id && s.frames[s.resident[s.guards[g].id]].id == s.guards[g].id;
    }
  }

  /** Steps of the mutex holder that move no page and write nothing to the store. */
  predicate Bookkeeping(l: Label) {
    l.Begin? || l.Sweep? || l.Exhausted? || l.BeginFlushAll? || l.FlushNextClean? || l.EndFlushAll?
  }

  lemma BookkeepingView(s: State, l: Label, id: u64)
    requires Inv(s) && Enabled(s, l) && CleanAt(s, id) && Bookkeeping(l)
    ensures CleanAt(Next(s, l), id) && View(Next(s, l), id) == View(s, id)
  {
    Unchanged(s, Next(s, l), id);
  }

  predicate Borrowing(l: Label) { l.TakeRead? || l.TakeWrite? || l.ReleaseRead? || l.ReleaseWrite? || l.Drop? }

  lemma BorrowingView(s: State, l: Label, id: u64)
    requires Inv(s) && Enabled(s, l) && CleanAt(s, id) && Borrowing(l)
    ensures CleanAt(Next(s, l), id) && View(Next(s, l), id) == View(s, id)
  {
    Unchanged(s, Next(s, l), id);
  }

  lemma WriteBackView(s: State, l: Label, id: u64)
    requires Inv(s) && Enabled(s, l) && CleanAt(s, id)
    requires l.FlushOne? || l.FlushNext? || l.FlushOneFailed? || l.FlushNextFailed?
    ensures CleanAt(Next(s, l), id) && View(Next(s, l), id) == View(s, id)
  {
    if l.FlushOne? || l.FlushNext? {
      FlushView(s, l.id, id);
    } else {
      Unchanged(s, Next(s, l), id);
    }
  }

  lemma EvictStepView(s: State, l: Label, id: u64)
    requires Inv(s) && Enabled(s, l) && CleanAt(s, id)
    requires l.EvictClean? || l.EvictDirty? || l.EvictFailed?
    ensures CleanAt(Next(s, l), id) && View(Next(s, l), id) == View(s, id)
  {
    if l.EvictFailed? {
      EvictFailedView(s, l.torn, id);
    } else {
      EvictView(s, l.EvictDirty?, id);
    }
  }

  /** `fetch`, flushing, eviction and every error leave every logical page alone; the rest do what they say. */
  lemma StepView(s: State, l: Label, id: u64)
    requires Inv(s) && Enabled(s, l) && CleanAt(s, id)
    ensures CleanAt(Next(s, l), id)
    ensures View(Next(s, l), id) == Effect(s, l, id, View(s, id))
  {
    if Bookkeeping(l) {
      BookkeepingView(s, l, id);
    } else if Borrowing(l) {
      BorrowingView(s, l, id);
    } else if l.FlushOne? || l.FlushNext? || l.FlushOneFailed? || l.FlushNextFailed? {
      WriteBackView(s, l, id);
    } else if l.EvictClean? || l.EvictDirty? || l.EvictFailed? {
      EvictStepView(s, l, id);
    } else {
      match l
      case Hit(op, g) => HitView(s, op, g, id);
      case FillFetched(g) => InstalledView(s, false, Stored(s.disk, s.control.op.id).value, g, id);
      case FillFailed(junk) => FillFailedView(s, junk, id);
      case FillNew(g) => InstalledView(s, true, BlankPage(s.payloadLen), g, id);
      case Put(g, data) => PutView(s, g, data, id);
    }
  }

  // ---------- Every run ----------

  /** The logical page after a run, by the plain map's rules. */
  ghost function Expected(s: State, ls: seq<Label>, id: u64, page: Option<PageData>): Option<PageData>
    decreases |ls|
  {
    if ls == [] || !Enabled(s, ls[0]) then
      page
    else
      Expected(Next(s, ls[0]), ls[1..], id, Effect(s, ls[0], id, page))
  }

  /** Over every run, reading any page through the pool gives exactly what the plain map holds. */
  lemma {:induction false} RunView(s: State, ls: seq<Label>, s': State, id: u64)
    requires Inv(s) && Run(s, ls, s') && CleanAt(s, id)
    ensures CleanAt(s', id) && View(s', id) == Expected(s, ls, id, View(s, id))
    decreases |ls|
  {
    if ls != [] {
      StepInv(s, ls[0]);
      StepView(s, ls[0], id);
      RunView(Next(s, ls[0]), ls[1..], s', id);
    }
  }

  /** A guard reads the logical page it was handed out for, whatever happened in between. */
  lemma GuardReadsView(s: State, g: nat)
    requires Inv(s) && g in s.guards
    ensures Live(s, g) && View(s, s.guards[g].id) == Some(s.frames[s.guards[g].slot].page)
  {
  }
}
