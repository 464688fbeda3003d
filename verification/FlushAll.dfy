/** `flush_all`: its result does not depend on the order of the map, and a failed attempt can be retried. */
module FlushAll {
  import opened PageError
  import opened Disk
  import opened PoolSystem
  import opened PoolInvariant
  import opened PoolTransparency

  /** The store with every resident page written to it. */
  function WrittenBack(s: State): Disk {
    map id | id in s.disk.Keys + s.resident.Keys && View(s, id).Some? :: View(s, id).value
  }

  /** Such a store holds what the pool shows. */
  lemma WrittenBackView(s: State, id: u64)
    ensures Stored(WrittenBack(s), id) == View(s, id)
  {
  }

  ghost predicate AllCleanAgree(s: State) { forall id :: id in s.resident ==> CleanAt(s, id) }

  /** The steps of a flush, and guard steps that change no page. */
  predicate FlushLabel(l: Label) {
    l.FlushNext? || l.FlushNextClean? || l.FlushNextFailed? || l.TakeRead? || l.ReleaseRead? || l.Drop?
  }

  /** Every resident page is still dirty or agrees with the store, and those already visited are clean. */
  ghost predicate Progress(s: State) {
    s.control.FlushingAll? ==>
      forall id :: id in s.resident && id !in s.control.todo && s.resident[id] < |s.frames| ==> !s.frames[s.resident[id]].dirty
  }

  /** Flushing changes no logical page, so not what would be written back either. */
  lemma FlushStepBack(s: State, l: Label)
    requires Inv(s) && Enabled(s, l) && FlushLabel(l) && AllCleanAgree(s)
    ensures WrittenBack(Next(s, l)) == WrittenBack(s)
  {
    forall id: u64 ensures Stored(WrittenBack(Next(s, l)), id) == Stored(WrittenBack(s), id) {
      assert CleanAt(s, id);
      StepView(s, l, id);
      WrittenBackView(s, id);
      WrittenBackView(Next(s, l), id);
    }
    SameStored(WrittenBack(Next(s, l)), WrittenBack(s));
  }

  lemma FlushStep(s: State, l: Label)
    requires Inv(s) && Enabled(s, l) && FlushLabel(l) && Progress(s)
    ensures Progress(Next(s, l)) && Next(s, l).resident == s.resident
  {
    if !l.FlushNextFailed? {
      FlushProgress(s, l);
    }
  }

  lemma FlushProgress(s: State, l: Label)
    requires Inv(s) && Enabled(s, l) && Progress(s)
    requires l.FlushNext? || l.FlushNextClean? || l.TakeRead? || l.ReleaseRead? || l.Drop?
    ensures Progress(Next(s, l))
  {
  }

  lemma AgreeStep(s: State, l: Label)
    requires Inv(s) && Enabled(s, l) && FlushLabel(l) && AllCleanAgree(s)
    ensures AllCleanAgree(Next(s, l))
  {
    forall id | id in s.resident ensures CleanAt(Next(s, l), id) { StepView(s, l, id); }
    assert Next(s, l).resident == s.resident;
  }

  lemma {:induction false} FlushRun(s: State, ls: seq<Label>, s': State)
    requires Inv(s) && Run(s, ls, s') && Progress(s) && AllCleanAgree(s)
    requires forall i :: 0 <= i < |ls| ==> FlushLabel(ls[i])
    ensures Inv(s') && Progress(s') && AllCleanAgree(s')
    ensures WrittenBack(s') == WrittenBack(s) && s'.resident == s.resident
    decreases |ls|
  {
    if ls != [] {
      StepInv(s, ls[0]);
      FlushStep(s, ls[0]);
      FlushStepBack(s, ls[0]);
      AgreeStep(s, ls[0]);
      FlushRun(Next(s, ls[0]), ls[1..], s');
    }
  }

  lemma AllClean(s: State)
    requires Inv(s) && AllCleanAgree(s)
    requires forall id :: id in s.resident ==> !s.frames[s.resident[id]].dirty
    ensures WrittenBack(s) == s.disk
  {
    forall id: u64 ensures Stored(WrittenBack(s), id) == Stored(s.disk, id) {
      WrittenBackView(s, id);
      assert CleanAt(s, id);
    }
    SameStored(WrittenBack(s), s.disk);
  }

  /**
   A flush that gets through its list, in whatever order the map yields it, leaves the one
   store in which every resident page has been written, and every frame clean.
   */
  lemma FlushAllComplete(s: State, ls: seq<Label>, s': State)
    requires Inv(s) && s.control == FlushingAll(s.resident.Keys) && AllCleanAgree(s)
    requires Run(s, ls, s') && forall i :: 0 <= i < |ls| ==> FlushLabel(ls[i])
    requires Enabled(s', EndFlushAll)
    ensures s'.disk == WrittenBack(s)
    ensures Inv(s') && forall id :: id in s'.resident ==> !s'.frames[s'.resident[id]].dirty
  {
    FlushRun(s, ls, s');
    AllClean(s');
  }

  /** Each resident page is still dirty, or the store holds it. */
  ghost predicate DirtyOrStored(s: State) {
    forall id :: id in s.resident && s.resident[id] < |s.frames| ==>
      s.frames[s.resident[id]].dirty || Stored(s.disk, id) == Some(s.frames[s.resident[id]].page)
  }

  lemma AgreeMeansDirtyOrStored(s: State)
    requires Inv(s) && AllCleanAgree(s)
    ensures DirtyOrStored(s)
  {
    forall id | id in s.resident ensures CleanAt(s, id) {}
  }

  lemma BeginFlushAllAgrees(s: State)
    requires Inv(s) && s.control.Idle? && AllCleanAgree(s)
    ensures Inv(s.(control := FlushingAll(s.resident.Keys)))
    ensures AllCleanAgree(s.(control := FlushingAll(s.resident.Keys)))
    ensures WrittenBack(s.(control := FlushingAll(s.resident.Keys))) == WrittenBack(s)
  {
    var u := s.(control := FlushingAll(s.resident.Keys));
    ControlOnlyInv(s, FlushingAll(s.resident.Keys));
    forall id | id in u.resident ensures CleanAt(u, id) { assert CleanAt(s, id); }
  }

  lemma {:induction false} FlushKeepsViews(s: State, ls: seq<Label>, t: State, id: u64)
    requires Inv(s) && Run(s, ls, t) && CleanAt(s, id)
    requires forall i :: 0 <= i < |ls| ==> FlushLabel(ls[i])
    ensures Inv(t) && CleanAt(t, id) && View(t, id) == View(s, id)
    decreases |ls|
  {
    if ls != [] {
      StepInv(s, ls[0]);
      StepView(s, ls[0], id);
      FlushKeepsViews(Next(s, ls[0]), ls[1..], t, id);
    }
  }

  /** What a page is on the store after anything at all and then a complete flush. */
  lemma FlushAfterRun(t: State, between: seq<Label>, u: State, more: seq<Label>, s': State, id: u64)
    requires Inv(t) && AllCleanAgree(t) && Run(t, between, u) && u.control.Idle?
    requires Run(u.(control := FlushingAll(u.resident.Keys)), more, s') && forall i :: 0 <= i < |more| ==> FlushLabel(more[i])
    requires Enabled(s', EndFlushAll)
    ensures Stored(s'.disk, id) == Expected(t, between, id, View(t, id))
  {
    PoolInvariant.RunInv(t, between, u);
    forall i: u64 ensures CleanAt(u, i) {
      assert CleanAt(t, i);
      RunView(t, between, u, i);
    }
    assert CleanAt(t, id);
    RunView(t, between, u, id);
    BeginFlushAllAgrees(u);
    FlushAllComplete(u.(control := FlushingAll(u.resident.Keys)), more, s');
    WrittenBackView(u, id);
  }

  /**
   A flush that fails on the way, even tearing the slot it was writing, leaves each page
   dirty or agreeing with the store.  Whatever callers do next, a retry that succeeds, again
   in any order, leaves the store holding every page as the plain map has it by then; with
   nothing done in between that is the store the first attempt was heading for.
   */
  lemma FlushAllRetry(s: State, ls: seq<Label>, t: State, between: seq<Label>, u: State, more: seq<Label>, s': State)
    requires Inv(s) && s.control == FlushingAll(s.resident.Keys) && AllCleanAgree(s)
    requires Run(s, ls, t) && forall i :: 0 <= i < |ls| ==> FlushLabel(ls[i])
    requires Run(t, between, u) && u.control.Idle?
    requires Run(u.(control := FlushingAll(u.resident.Keys)), more, s') && forall i :: 0 <= i < |more| ==> FlushLabel(more[i])
    requires Enabled(s', EndFlushAll)
    ensures DirtyOrStored(t)
    ensures forall id: u64 :: Stored(s'.disk, id) == Expected(t, between, id, View(s, id))
    ensures between == [] ==> s'.disk == WrittenBack(s)
  {
    FlushRun(s, ls, t);
    AgreeMeansDirtyOrStored(t);
    forall id: u64 ensures Stored(s'.disk, id) == Expected(t, between, id, View(s, id)) {
      assert CleanAt(s, id);
      FlushKeepsViews(s, ls, t, id);
      FlushAfterRun(t, between, u, more, s', id);
    }
    if between == [] {
      forall id: u64 ensures Stored(s'.disk, id) == Stored(WrittenBack(s), id) { WrittenBackView(s, id); }
      SameStored(s'.disk, WrittenBack(s));
    }
  }
}
