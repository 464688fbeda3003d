/**
 `PageGuard::write` as its two instructions: the dirty flag is set, and then the frame lock is
 taken.  The step system takes them as one; here is exactly what can go wrong in between.
 */
module SplitWrite {
  import opened PageError
  import opened Disk
  import opened PoolSystem
  import opened PoolInvariant
  import opened PoolTransparency
  import opened LateFlush

  /** The first instruction. */
  function AfterMark(s: State, g: nat): State
    requires g in s.guards && s.guards[g].slot < |s.frames|
  {
    WithFrame(s, s.guards[g].slot, s.frames[s.guards[g].slot].(dirty := true))
  }

  /** The second, once the lock is free. */
  function AfterLock(s: State, g: nat): State
    requires g in s.guards
  {
    s.(guards := s.guards[g := s.guards[g].(writing := true)])
  }

  /** With nothing in between they are the one step. */
  lemma MarkThenLock(s: State, g: nat)
    requires g in s.guards && s.guards[g].slot < |s.frames|
    ensures AfterLock(AfterMark(s, g), g) == AfterTakeWrite(s, g)
  {
  }

  lemma MarkInv(s: State, g: nat)
    requires Inv(s) && Live(s, g)
    ensures Inv(AfterMark(s, g))
  {
    SameTable(s, AfterMark(s, g));
    SameGuardPart(s, AfterMark(s, g));
  }

  // ---------- What happens in between ----------

  /** The owner of the guard is between its two instructions, so the guard does nothing else. */
  predicate NotBy(l: Label, g: nat) {
    (l.Put? || l.Drop? || l.TakeRead? || l.TakeWrite? || l.ReleaseRead? || l.ReleaseWrite?) ==> l.g != g
  }

  /** The frame in `slot` is written back and marked clean. */
  predicate Flushes(s: State, l: Label, slot: nat) {
    (l.FlushOne? || l.FlushNext?) && l.id in s.resident && s.resident[l.id] == slot
  }

  /** The frame in `slot` is marked dirty by somebody else. */
  predicate Marks(s: State, l: Label, slot: nat) {
    || (l.TakeWrite? && l.g in s.guards && s.guards[l.g].slot == slot)
    || (l.Hit? && l.op.NewPage? && l.op.id in s.resident && s.resident[l.op.id] == slot)
  }

  /** The flag after a run. */
  ghost function Flag(s: State, ls: seq<Label>, slot: nat, dirty: bool): bool
    decreases |ls|
  {
    if ls == [] || !Enabled(s, ls[0]) then
      dirty
    else
      Flag(Next(s, ls[0]), ls[1..], slot, !Flushes(s, ls[0], slot) && (dirty || Marks(s, ls[0], slot)))
  }

  /** A guard somebody holds on to keeps its frame, and only flushes clear that frame's flag. */
  lemma GuardStepFlag(s: State, l: Label, g: nat)
    requires Inv(s) && Enabled(s, l) && g in s.guards && NotBy(l, g) && ByGuard(l)
    ensures g in Next(s, l).guards && Next(s, l).guards[g] == s.guards[g]
    ensures var slot := s.guards[g].slot;
      slot < |Next(s, l).frames| && Next(s, l).frames[slot].dirty == (s.frames[slot].dirty || Marks(s, l, slot))
  {
    if l.TakeWrite? || l.Put? {
      WriterStepFlag(s, l, g);
    }
  }

  lemma WriterStepFlag(s: State, l: Label, g: nat)
    requires Inv(s) && Enabled(s, l) && g in s.guards && NotBy(l, g) && (l.TakeWrite? || l.Put?)
    ensures g in Next(s, l).guards && Next(s, l).guards[g] == s.guards[g]
    ensures var slot := s.guards[g].slot;
      slot < |Next(s, l).frames| && Next(s, l).frames[slot].dirty == (s.frames[slot].dirty || Marks(s, l, slot))
  {
  }

  /** The frame of a live guard is neither the victim nor the frame being filled. */
  lemma GuardedElsewhere(s: State, g: nat)
    requires Inv(s) && g in s.guards && (s.control.Evicting? || s.control.Filling?)
    ensures s.guards[g].slot != s.control.slot
  {
    UnpinnedUnlocked(s, s.control.slot);
  }

  lemma FlushStepFlag(s: State, l: Label, g: nat)
    requires Inv(s) && Enabled(s, l) && g in s.guards && (l.FlushOne? || l.FlushNext? || l.FlushOneFailed? || l.FlushNextFailed? || l.FlushNextClean?)
    ensures g in Next(s, l).guards && Next(s, l).guards[g] == s.guards[g]
    ensures var slot := s.guards[g].slot;
      slot < |Next(s, l).frames| && Next(s, l).frames[slot].dirty == (!Flushes(s, l, slot) && s.frames[slot].dirty)
  {
  }

  lemma MissStepFlag(s: State, l: Label, g: nat)
    requires Inv(s) && Enabled(s, l) && g in s.guards
    requires l.EvictClean? || l.EvictDirty? || l.EvictFailed? || l.FillFetched? || l.FillFailed? || l.FillNew?
    ensures g in Next(s, l).guards && Next(s, l).guards[g] == s.guards[g]
    ensures var slot := s.guards[g].slot; slot < |Next(s, l).frames| && Next(s, l).frames[slot].dirty == s.frames[slot].dirty
  {
    GuardedElsewhere(s, g);
  }

  lemma OtherStepFlag(s: State, l: Label, g: nat)
    requires Inv(s) && Enabled(s, l) && g in s.guards
    requires l.Hit? || l.Begin? || l.Sweep? || l.Exhausted? || l.BeginFlushAll? || l.EndFlushAll?
    ensures g in Next(s, l).guards && Next(s, l).guards[g] == s.guards[g]
    ensures var slot := s.guards[g].slot;
      slot < |Next(s, l).frames| && Next(s, l).frames[slot].dirty == (s.frames[slot].dirty || Marks(s, l, slot))
  {
  }

  lemma StepFlag(s: State, l: Label, g: nat)
    requires Inv(s) && Enabled(s, l) && g in s.guards && NotBy(l, g)
    ensures g in Next(s, l).guards && Next(s, l).guards[g] == s.guards[g]
    ensures var slot := s.guards[g].slot;
      && slot < |s.frames| && slot < |Next(s, l).frames|
      && Next(s, l).frames[slot].dirty == (!Flushes(s, l, slot) && (s.frames[slot].dirty || Marks(s, l, slot)))
  {
    if ByGuard(l) {
      GuardStepFlag(s, l, g);
    } else if l.FlushOne? || l.FlushNext? || l.FlushOneFailed? || l.FlushNextFailed? || l.FlushNextClean? {
      FlushStepFlag(s, l, g);
    } else if l.EvictClean? || l.EvictDirty? || l.EvictFailed? || l.FillFetched? || l.FillFailed? || l.FillNew? {
      MissStepFlag(s, l, g);
    } else {
      OtherStepFlag(s, l, g);
    }
  }

  lemma {:induction false} RunFlag(s: State, ls: seq<Label>, t: State, g: nat)
    requires Inv(s) && Run(s, ls, t) && g in s.guards && forall i :: 0 <= i < |ls| ==> NotBy(ls[i], g)
    ensures Inv(t) && g in t.guards && t.guards[g] == s.guards[g]
    ensures var slot := s.guards[g].slot;
      slot < |s.frames| && slot < |t.frames| && t.frames[slot].dirty == Flag(s, ls, slot, s.frames[slot].dirty)
    decreases |ls|
  {
    if ls != [] {
      StepInv(s, ls[0]);
      StepFlag(s, ls[0], g);
      RunFlag(Next(s, ls[0]), ls[1..], t, g);
    }
  }

  // ---------- Exactly when a write is lost ----------

  /** Taking the lock leaves the system in its invariant if and only if the flag is still set. */
  lemma LockedIff(t: State, g: nat)
    requires Inv(t) && Live(t, g) && LockFree(t, t.guards[g].slot)
    ensures Inv(AfterLock(t, g)) <==> t.frames[t.guards[g].slot].dirty
  {
    var slot := t.guards[g].slot;
    if t.frames[slot].dirty {
      assert t.frames[slot := t.frames[slot].(dirty := true)] == t.frames;
      assert AfterLock(t, g) == AfterTakeWrite(t, g);
      TakeStepInv(t, TakeWrite(g));
    } else {
      assert AfterLock(t, g).guards[g].writing;
    }
  }

  /**
   Whatever others do between the two instructions, the write that follows is protected, as
   the pool's invariant says, exactly when the flag survived.
   */
  lemma SplitWriteIff(s: State, g: nat, ls: seq<Label>, t: State)
    requires Inv(s) && Live(s, g) && Run(AfterMark(s, g), ls, t) && forall i :: 0 <= i < |ls| ==> NotBy(ls[i], g)
    requires LockFree(t, s.guards[g].slot)
    ensures g in t.guards && (Inv(AfterLock(t, g)) <==> Flag(AfterMark(s, g), ls, s.guards[g].slot, true))
  {
    MarkInv(s, g);
    RunFlag(AfterMark(s, g), ls, t, g);
    LockedIff(t, g);
  }

  /** A flush of the frame happens in the run. */
  ghost predicate FlushedBetween(s: State, ls: seq<Label>, slot: nat)
    decreases |ls|
  {
    ls != [] && Enabled(s, ls[0]) && (Flushes(s, ls[0], slot) || FlushedBetween(Next(s, ls[0]), ls[1..], slot))
  }

  /** Nobody else marks the frame dirty in the run. */
  ghost predicate Unmarked(s: State, ls: seq<Label>, slot: nat)
    decreases |ls|
  {
    ls != [] && Enabled(s, ls[0]) ==> !Marks(s, ls[0], slot) && Unmarked(Next(s, ls[0]), ls[1..], slot)
  }

  lemma {:induction false} FlagIff(s: State, ls: seq<Label>, slot: nat, dirty: bool)
    requires Unmarked(s, ls, slot)
    ensures Flag(s, ls, slot, dirty) <==> dirty && !FlushedBetween(s, ls, slot)
    decreases |ls|
  {
    if ls != [] && Enabled(s, ls[0]) {
      FlagIff(Next(s, ls[0]), ls[1..], slot, !Flushes(s, ls[0], slot) && dirty);
    }
  }

  /** With nobody else writing to the page, it is protected if and only if no flush of its frame falls in between. */
  lemma LostIffFlushedBetween(s: State, g: nat, ls: seq<Label>, t: State)
    requires Inv(s) && Live(s, g) && Run(AfterMark(s, g), ls, t) && forall i :: 0 <= i < |ls| ==> NotBy(ls[i], g)
    requires LockFree(t, s.guards[g].slot) && Unmarked(AfterMark(s, g), ls, s.guards[g].slot)
    ensures g in t.guards && (Inv(AfterLock(t, g)) <==> !FlushedBetween(AfterMark(s, g), ls, s.guards[g].slot))
  {
    SplitWriteIff(s, g, ls, t);
    FlagIff(AfterMark(s, g), ls, s.guards[g].slot, true);
  }

  // ---------- A write that is lost ----------

  /** The frame holds page 1, is clean, and is borrowed for writing all the same. */
  function Exposed(payloadLen: PayloadLen, page: PageData, disk: Disk): State {
    State([Frame(1, 1, false, true, page)], map[1 := 0], [], 0, disk, map[0 := Guard(0, 1, 0, true)], Idle, payloadLen)
  }

  lemma FlushBetween(payloadLen: PayloadLen, page: PageData, disk: Disk)
    ensures var s := AfterMark(Held(payloadLen, page, false, disk), 0);
      && Enabled(s, FlushOne(1)) && LockFree(Next(s, FlushOne(1)), 0) && 0 in Next(s, FlushOne(1)).guards
      && AfterLock(Next(s, FlushOne(1)), 0) == Exposed(payloadLen, page, disk[1 := page])
  {
    var s := AfterMark(Held(payloadLen, page, false, disk), 0);
    var f := Frame(1, 1, false, true, page);
    assert s.frames == [Frame(1, 1, true, true, page)];
    assert CanFlush(s, 1) && s.frames[0 := f] == [f];
    assert Next(s, FlushOne(1)).guards[0 := Guard(0, 1, 0, true)] == map[0 := Guard(0, 1, 0, true)];
  }

  /** The write goes into the clean frame, and the guard goes away. */
  lemma WriteIntoClean(payloadLen: PayloadLen, page: PageData, data: PageData, disk: Disk)
    ensures Run(Exposed(payloadLen, page, disk), [Put(0, data), ReleaseWrite(0), Drop(0)], Unused(payloadLen, data, false, disk))
  {
    var s0, s1 := Exposed(payloadLen, page, disk), Exposed(payloadLen, data, disk);
    var f, h := Frame(1, 1, false, true, data), Frame(1, 0, false, true, data);
    assert s0.frames[0 := f] == [f] && Next(s0, Put(0, data)) == s1;
    var s2 := Next(s1, ReleaseWrite(0));
    assert s2.guards == map[0 := Guard(0, 1, 0, false)];
    assert s2.frames[0 := h] == [h] && s2.guards - {0} == map[];
    assert Next(s2, Drop(0)) == Unused(payloadLen, data, false, disk);
    ThreeSteps(s0, Put(0, data), s1, ReleaseWrite(0), s2, Drop(0), Unused(payloadLen, data, false, disk));
  }

  lemma ThreeSteps(s0: State, a: Label, s1: State, b: Label, s2: State, c: Label, s3: State)
    requires Enabled(s0, a) && Next(s0, a) == s1 && Enabled(s1, b) && Next(s1, b) == s2 && Enabled(s2, c) && Next(s2, c) == s3
    ensures Run(s0, [a, b, c], s3)
  {
    assert [a, b, c][1..] == [b, c] && [b, c][1..] == [c] && [c][1..] == [];
    assert Run(s3, [], s3);
    assert Run(s2, [c], s3);
    assert Run(s1, [b, c], s3);
  }

  /** A miss sweeps past the frame once and then takes it. */
  lemma SweepTwice(payloadLen: PayloadLen, data: PageData, disk: Disk) returns (s: State)
    ensures Run(Unused(payloadLen, data, false, disk), [Begin(NewPage(2)), Sweep, Sweep], s)
    ensures s == State([Frame(1, 0, false, false, data)], map[1 := 0], [], 0, disk, map[], Evicting(NewPage(2), 0), payloadLen)
  {
    var s0 := Unused(payloadLen, data, false, disk);
    var s1 := Next(s0, Begin(NewPage(2)));
    var f := Frame(1, 0, false, false, data);
    assert s1.frames[0 := f] == [f];
    var s2 := Next(s1, Sweep);
    assert s2 == State([f], map[1 := 0], [], 0, disk, map[], Sweeping(NewPage(2), 1), payloadLen);
    s := State([f], map[1 := 0], [], 0, disk, map[], Evicting(NewPage(2), 0), payloadLen);
    assert Next(s2, Sweep) == s;
    ThreeSteps(s0, Begin(NewPage(2)), s1, Sweep, s2, Sweep, s);
  }

  lemma EvictClean1(payloadLen: PayloadLen, data: PageData, disk: Disk, s: State)
    requires s == State([Frame(1, 0, false, false, data)], map[1 := 0], [], 0, disk, map[], Evicting(NewPage(2), 0), payloadLen)
    ensures Enabled(s, EvictClean) && View(s, 1) == Some(data) && View(Next(s, EvictClean), 1) == Stored(disk, 1)
  {
  }

  /**
   The losing run: the flag is set, the frame is flushed, the lock is taken, and `data` is
   written.  The guard reads `data` back, but once the frame is reused the page is `page` again.
   */
  lemma WriteLost(payloadLen: PayloadLen, page: PageData, data: PageData, disk: Disk) returns (written: State, evicting: State)
    ensures var marked := AfterMark(Held(payloadLen, page, false, disk), 0);
      && Enabled(marked, FlushOne(1)) && 0 in Next(marked, FlushOne(1)).guards && LockFree(Next(marked, FlushOne(1)), 0)
      && Run(AfterLock(Next(marked, FlushOne(1)), 0), [Put(0, data), ReleaseWrite(0), Drop(0)], written)
    ensures Run(written, [Begin(NewPage(2)), Sweep, Sweep], evicting) && Enabled(evicting, EvictClean)
    ensures View(written, 1) == Some(data) && View(Next(evicting, EvictClean), 1) == Some(page)
  {
    FlushBetween(payloadLen, page, disk);
    written := Unused(payloadLen, data, false, disk[1 := page]);
    WriteIntoClean(payloadLen, page, data, disk[1 := page]);
    evicting := SweepTwice(payloadLen, data, disk[1 := page]);
    EvictClean1(payloadLen, data, disk[1 := page], evicting);
  }
}
