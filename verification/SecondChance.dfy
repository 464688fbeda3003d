/**
 The second chance.  A frame's reference bit says whether it was handed out since the hand
 last passed it, and nothing else does; and a frame that has the bit when a sweep begins is
 not its victim as long as there is an unpinned frame without it, whatever guards do meanwhile.
 */
module SecondChance {
  import opened PoolSystem
  import opened PoolInvariant
  import opened ClockSweep

  // ---------- What the bit says ----------

  /** `fetch` or `new_page` returns a guard on `slot`. */
  predicate HandsOut(s: State, l: Label, slot: nat) {
    || (l.Hit? && l.op.id in s.resident && s.resident[l.op.id] == slot)
    || ((l.FillFetched? || l.FillNew?) && s.control.Filling? && s.control.slot == slot)
  }

  /** The hand passes over `slot` while nobody pins it. */
  predicate Passes(s: State, l: Label, slot: nat) {
    l.Sweep? && s.hand == slot && slot < |s.frames| && s.frames[slot].pin == 0
  }

  /** After a run: whether the frame was handed out since the hand last passed it, `bit` being so at the start. */
  ghost function UsedSince(s: State, ls: seq<Label>, slot: nat, bit: bool): bool
    decreases |ls|
  {
    if ls == [] || !Enabled(s, ls[0]) then bit
    else UsedSince(Next(s, ls[0]), ls[1..], slot, HandsOut(s, ls[0], slot) || (bit && !Passes(s, ls[0], slot)))
  }

  lemma GuardStepBit(s: State, l: Label, slot: nat)
    requires Enabled(s, l) && ByGuard(l) && slot < |s.frames|
    ensures |Next(s, l).frames| == |s.frames| && Next(s, l).frames[slot].referenced == s.frames[slot].referenced
  {
  }

  lemma FlushStepBit(s: State, l: Label, slot: nat)
    requires Enabled(s, l) && slot < |s.frames|
    requires l.FlushOne? || l.FlushOneFailed? || l.BeginFlushAll? || l.FlushNextClean? || l.FlushNext? || l.FlushNextFailed? || l.EndFlushAll?
    ensures |Next(s, l).frames| == |s.frames| && Next(s, l).frames[slot].referenced == s.frames[slot].referenced
  {
  }

  lemma MissStepBit(s: State, l: Label, slot: nat)
    requires Enabled(s, l) && slot < |s.frames|
    requires l.Begin? || l.Exhausted? || l.EvictClean? || l.EvictDirty? || l.EvictFailed? || l.FillFailed?
    ensures |Next(s, l).frames| == |s.frames| && Next(s, l).frames[slot].referenced == s.frames[slot].referenced
  {
  }

  /** A hand-out sets the bit, the passing hand clears it, and no other step touches it. */
  lemma StepBit(s: State, l: Label, slot: nat)
    requires Enabled(s, l) && slot < |s.frames|
    ensures |Next(s, l).frames| == |s.frames|
    ensures Next(s, l).frames[slot].referenced == (HandsOut(s, l, slot) || (s.frames[slot].referenced && !Passes(s, l, slot)))
  {
    if ByGuard(l) {
      GuardStepBit(s, l, slot);
    } else if l.Begin? || l.Exhausted? || l.EvictClean? || l.EvictDirty? || l.EvictFailed? || l.FillFailed? {
      MissStepBit(s, l, slot);
    } else if !l.Hit? && !l.Sweep? && !l.FillFetched? && !l.FillNew? {
      FlushStepBit(s, l, slot);
    }
  }

  /** The hand moves on by one frame at every turn of a sweep, and at no other step. */
  lemma StepHand(s: State, l: Label)
    requires Enabled(s, l)
    ensures Next(s, l).hand == if l.Sweep? then (s.hand + 1) % |s.frames| else s.hand
  {
  }

  /** Over every run the bit is exactly that. */
  lemma {:induction false} BitMeansUsed(s: State, ls: seq<Label>, t: State, slot: nat)
    requires Run(s, ls, t) && slot < |s.frames|
    ensures |t.frames| == |s.frames| && t.frames[slot].referenced == UsedSince(s, ls, slot, s.frames[slot].referenced)
    decreases |ls|
  {
    if ls != [] {
      StepBit(s, ls[0], slot);
      BitMeansUsed(Next(s, ls[0]), ls[1..], t, slot);
    }
  }

  // ---------- The chance ----------

  /** `k` has not been considered by the sweep without its bit, and cannot be before it reaches `u`. */
  ghost predicate Spared(s: State, k: nat, d: nat, u: nat, e: nat) {
    && k < |s.frames| && u < |s.frames| && d < |s.frames| && e < |s.frames| && s.hand < |s.frames|
    && (s.control.Sweeping? ==>
          && Fresh(s, u) && s.control.steps <= e && Distance(|s.frames|, s.hand, u) == e - s.control.steps
          && Distance(|s.frames|, s.hand, k) == (if s.control.steps <= d then d - s.control.steps else |s.frames| + d - s.control.steps)
          && (s.control.steps <= d ==> s.frames[k].referenced))
    && (s.control.Evicting? ==> s.control.slot != k)
    && (s.control.Sweeping? || s.control.Evicting?)
  }

  lemma SparedTurn(s: State, k: nat, d: nat, u: nat, e: nat)
    requires CanSweep(s) && Spared(s, k, d, u, e)
    ensures Spared(AfterSweep(s), k, d, u, e)
  {
    TurnedHand(|s.frames|, s.hand, u);
    TurnedHand(|s.frames|, s.hand, k);
  }

  lemma SparedGuardStep(s: State, l: Label, k: nat, d: nat, u: nat, e: nat)
    requires Inv(s) && Enabled(s, l) && ByGuard(l) && Spared(s, k, d, u, e)
    ensures Spared(Next(s, l), k, d, u, e)
  {
    GuardStepBit(s, l, k);
    GuardStepBit(s, l, u);
    if l.Drop? { UnpinnedKeepsOut(s, l.g, u); }
  }

  lemma {:induction false} SparedRun(s: State, ls: seq<Label>, t: State, k: nat, d: nat, u: nat, e: nat)
    requires Inv(s) && Run(s, ls, t) && Spared(s, k, d, u, e) && forall i :: 0 <= i < |ls| ==> DuringSweep(ls[i])
    ensures Spared(t, k, d, u, e)
    decreases |ls|
  {
    if ls != [] {
      StepInv(s, ls[0]);
      if ls[0].Sweep? { SparedTurn(s, k, d, u, e); } else { SparedGuardStep(s, ls[0], k, d, u, e); }
      SparedRun(Next(s, ls[0]), ls[1..], t, k, d, u, e);
    }
  }

  /** The victim of a sweep had its bit clear when the sweep began, unless every unpinned frame had its bit set. */
  lemma VictimWasUnused(s: State, ls: seq<Label>, t: State, u: nat)
    requires Inv(s) && s.control.Sweeping? && s.control.steps == 0 && Fresh(s, u)
    requires Run(s, ls, t) && forall i :: 0 <= i < |ls| ==> DuringSweep(ls[i])
    ensures t.control.Evicting? ==> t.control.slot < |s.frames| && !s.frames[t.control.slot].referenced
  {
    if t.control.Evicting? {
      SweepFindsUnpinned(s, ls, t, u);
      var n, k := |s.frames|, t.control.slot;
      BitMeansUsed(s, ls, t, u);
      if s.frames[k].referenced {
        SparedRun(s, ls, t, k, Distance(n, s.hand, k), u, Distance(n, s.hand, u));
      }
    }
  }

  /**
   The whole rule.  A frame is handed out; then come any steps of anyone in which the hand
   does not pass it; then a sweep, with guards used and dropped in between.  If the sweep
   takes the frame, then every unpinned frame had its bit set when it began.
   */
  lemma SecondChance(s: State, use: Label, between: seq<Label>, t: State, sweep: seq<Label>, v: State, slot: nat)
    requires Inv(s) && Enabled(s, use) && slot < |s.frames| && HandsOut(s, use, slot)
    requires Run(Next(s, use), between, t) && NotPassed(Next(s, use), between, slot)
    requires t.control.Sweeping? && t.control.steps == 0
    requires Run(t, sweep, v) && forall i :: 0 <= i < |sweep| ==> DuringSweep(sweep[i])
    requires v.control.Evicting? && v.control.slot == slot
    ensures forall k: nat :: Unpinned(t, k) ==> t.frames[k].referenced
  {
    StepInv(s, use);
    StepBit(s, use, slot);
    RunInv(Next(s, use), between, t);
    BitMeansUsed(Next(s, use), between, t, slot);
    StaysUsed(Next(s, use), between, slot);
    forall k: nat | Unpinned(t, k) ensures t.frames[k].referenced {
      if !t.frames[k].referenced { VictimWasUnused(t, sweep, v, k); }
    }
  }

  /** The hand does not pass over `slot` in this run. */
  ghost predicate NotPassed(s: State, ls: seq<Label>, slot: nat)
    decreases |ls|
  {
    ls == [] || !Enabled(s, ls[0]) || (!Passes(s, ls[0], slot) && NotPassed(Next(s, ls[0]), ls[1..], slot))
  }

  lemma {:induction false} StaysUsed(s: State, ls: seq<Label>, slot: nat)
    requires NotPassed(s, ls, slot)
    ensures UsedSince(s, ls, slot, true)
    decreases |ls|
  {
    if ls != [] && Enabled(s, ls[0]) {
      StaysUsed(Next(s, ls[0]), ls[1..], slot);
    }
  }
}
