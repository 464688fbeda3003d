/** The clock sweep of `find_victim`: what it returns alone, and what it returns while guards are dropped around it. */
module ClockSweep {
  import opened PoolSystem
  import opened PoolInvariant

  /** How many turns of the hand from `hand` until it points at `slot`. */
  function Distance(n: nat, hand: nat, slot: nat): (d: nat)
    requires hand < n && slot < n
    ensures d < n
  {
    if slot >= hand then slot - hand else slot - hand + n
  }

  // ---------- Alone ----------

  /** The sweep run to its end with nothing in between. */
  function SweepAlone(s: State): State
    requires s.control.Sweeping? && s.hand < |s.frames|
    decreases 2 * |s.frames| - s.control.steps
  {
    if s.control.steps >= 2 * |s.frames| then s
    else
      var s' := AfterSweep(s);
      if s'.control.Sweeping? then SweepAlone(s') else s'
  }

  function Unpinned(s: State, slot: nat): bool { slot < |s.frames| && s.frames[slot].pin == 0 }

  function Fresh(s: State, slot: nat): bool { Unpinned(s, slot) && !s.frames[slot].referenced }

  /** `v` is the cyclically first fresh frame, from the hand on. */
  ghost predicate NearestFresh(s: State, v: nat)
    requires s.hand < |s.frames|
  {
    Fresh(s, v) && forall k: nat :: Fresh(s, k) ==> Distance(|s.frames|, s.hand, v) <= Distance(|s.frames|, s.hand, k)
  }

  /** `v` is the cyclically first unpinned frame, from the hand on. */
  ghost predicate NearestUnpinned(s: State, v: nat)
    requires s.hand < |s.frames|
  {
    Unpinned(s, v) && forall k: nat :: Unpinned(s, k) ==> Distance(|s.frames|, s.hand, v) <= Distance(|s.frames|, s.hand, k)
  }

  /** The frames with the reference bits of unpinned frames closer than `t` cleared. */
  function ClearedUpTo(s: State, t: nat): (frames: seq<Frame>)
    requires s.hand < |s.frames|
    ensures |frames| == |s.frames|
  {
    seq(|s.frames|, k requires 0 <= k < |s.frames| =>
      if s.frames[k].pin == 0 && Distance(|s.frames|, s.hand, k) < t then s.frames[k].(referenced := false) else s.frames[k])
  }

  /** The hand after `t` turns, up to two full rounds. */
  function HandAfter(n: nat, hand: nat, t: nat): (h: nat)
    requires hand < n && t <= 2 * n
    ensures h < n
  {
    if hand + t < n then hand + t else if hand + t < 2 * n then hand + t - n else hand + t - 2 * n
  }

  function SweptTo(s: State, t: nat): State
    requires s.control.Sweeping? && s.hand < |s.frames| && t <= 2 * |s.frames|
  {
    s.(frames := ClearedUpTo(s, t), hand := HandAfter(|s.frames|, s.hand, t), control := Sweeping(s.control.op, t))
  }

  /** Nothing within the first `t` turns could be chosen: not on the first visit, not on the second. */
  ghost predicate Passed(s: State, t: nat)
    requires s.hand < |s.frames|
  {
    forall k :: 0 <= k < |s.frames| && s.frames[k].pin == 0 ==>
      (Distance(|s.frames|, s.hand, k) < t ==> s.frames[k].referenced) && t <= |s.frames| + Distance(|s.frames|, s.hand, k)
  }

  lemma NextHand(n: nat, hand: nat, t: nat)
    requires hand < n && t < 2 * n
    ensures (HandAfter(n, hand, t) + 1) % n == HandAfter(n, hand, t + 1)
    ensures Distance(n, hand, HandAfter(n, hand, t)) == if t < n then t else t - n
  {
    Wrap(n, HandAfter(n, hand, t));
  }

  lemma Wrap(n: nat, h: nat)
    requires h < n
    ensures (h + 1) % n == if h + 1 == n then 0 else h + 1
  {
    if h + 1 == n { assert (h + 1) % n == 0; } else { assert (h + 1) % n == h + 1; }
  }

  lemma DistanceInjective(n: nat, hand: nat, j: nat, k: nat)
    requires hand < n && j < n && k < n && Distance(n, hand, j) == Distance(n, hand, k)
    ensures j == k
  {
  }

  /** Whether the turn after `t` others passes over its frame. */
  predicate PassesOver(s: State, t: nat)
    requires s.hand < |s.frames| && t < 2 * |s.frames|
  {
    var k := HandAfter(|s.frames|, s.hand, t);
    s.frames[k].pin > 0 || (t < |s.frames| && s.frames[k].referenced)
  }

  lemma PassedOneMore(s: State, t: nat)
    requires s.control.Sweeping? && s.hand < |s.frames| && t < 2 * |s.frames| && Passed(s, t) && PassesOver(s, t)
    ensures Passed(s, t + 1)
  {
    var n := |s.frames|;
    var k := HandAfter(n, s.hand, t);
    NextHand(n, s.hand, t);
    forall j | 0 <= j < n && s.frames[j].pin == 0
      ensures (Distance(n, s.hand, j) < t + 1 ==> s.frames[j].referenced) && t + 1 <= n + Distance(n, s.hand, j)
    {
      if Distance(n, s.hand, j) == Distance(n, s.hand, k) { DistanceInjective(n, s.hand, j, k); }
    }
  }

  lemma ClearedOneMore(s: State, t: nat, j: nat)
    requires s.control.Sweeping? && s.hand < |s.frames| && t < 2 * |s.frames| && PassesOver(s, t) && j < |s.frames|
    ensures AfterSweep(SweptTo(s, t)).frames[j] == ClearedUpTo(s, t + 1)[j]
  {
    var n := |s.frames|;
    var k := HandAfter(n, s.hand, t);
    NextHand(n, s.hand, t);
    if Distance(n, s.hand, j) == Distance(n, s.hand, k) { DistanceInjective(n, s.hand, j, k); }
  }

  /** One more turn passes over a pinned frame or clears a reference bit. */
  lemma PassOne(s: State, t: nat)
    requires s.control.Sweeping? && s.hand < |s.frames| && t < 2 * |s.frames| && Passed(s, t) && PassesOver(s, t)
    ensures Passed(s, t + 1) && AfterSweep(SweptTo(s, t)) == SweptTo(s, t + 1)
  {
    PassedOneMore(s, t);
    NextHand(|s.frames|, s.hand, t);
    forall j | 0 <= j < |s.frames|
      ensures AfterSweep(SweptTo(s, t)).frames[j] == ClearedUpTo(s, t + 1)[j]
    {
      ClearedOneMore(s, t, j);
    }
    assert AfterSweep(SweptTo(s, t)).frames == ClearedUpTo(s, t + 1);
  }

  /** The sweep stopped at `v` with the bits of the first `t` frames cleared. */
  function StoppedAt(s: State, t: nat, v: nat): State
    requires s.control.Sweeping? && s.hand < |s.frames|
  {
    s.(frames := ClearedUpTo(s, t), hand := (v + 1) % |s.frames|, control := Evicting(s.control.op, v))
  }

  /** One more turn finds the victim. */
  lemma StopAt(s: State, t: nat)
    requires s.control.Sweeping? && s.hand < |s.frames| && t < 2 * |s.frames| && Passed(s, t)
    requires var k := HandAfter(|s.frames|, s.hand, t); s.frames[k].pin == 0 && (t < |s.frames| ==> !s.frames[k].referenced)
    ensures AfterSweep(SweptTo(s, t)) == StoppedAt(s, t, HandAfter(|s.frames|, s.hand, t))
  {
    NextHand(|s.frames|, s.hand, t);
  }

  /** The first unpinned frame with a clear reference bit; the bits passed over are cleared. */
  ghost predicate StoppedAtFresh(s: State, s': State, v: nat)
    requires s.control.Sweeping? && s.hand < |s.frames|
  {
    NearestFresh(s, v) && s' == StoppedAt(s, Distance(|s.frames|, s.hand, v), v)
  }

  /** A full round clears every unpinned frame's bit; then the first unpinned frame. */
  ghost predicate StoppedAtCleared(s: State, s': State, v: nat)
    requires s.control.Sweeping? && s.hand < |s.frames|
  {
    NearestUnpinned(s, v) && s' == StoppedAt(s, |s.frames|, v)
  }

  /** What the whole sweep amounts to, from its first turn; when everything is pinned it changes nothing. */
  ghost predicate SweepOutcome(s: State, s': State)
    requires s.control.Sweeping? && s.hand < |s.frames|
  {
    if exists k: nat :: Fresh(s, k) then
      exists v: nat :: StoppedAtFresh(s, s', v)
    else if exists k: nat :: Unpinned(s, k) then
      exists v: nat :: StoppedAtCleared(s, s', v)
    else
      s' == s.(control := Sweeping(s.control.op, 2 * |s.frames|))
  }

  lemma ClearedByRound(s: State, t: nat)
    requires s.hand < |s.frames| && t >= |s.frames|
    ensures ClearedUpTo(s, t) == ClearedUpTo(s, |s.frames|)
  {
  }

  lemma Unroll(s: State)
    requires CanSweep(s)
    ensures SweepAlone(s) == if AfterSweep(s).control.Sweeping? then SweepAlone(AfterSweep(s)) else AfterSweep(s)
  {
  }

  lemma SweepStops(s: State, t: nat)
    requires s.control.Sweeping? && s.hand < |s.frames| && t < 2 * |s.frames| && Passed(s, t) && !PassesOver(s, t)
    ensures SweepOutcome(s, SweepAlone(SweptTo(s, t)))
  {
    Unroll(SweptTo(s, t));
    StopAt(s, t);
    FoundOutcome(s, t, HandAfter(|s.frames|, s.hand, t));
  }

  lemma {:induction false} SweepFrom(s: State, t: nat)
    requires s.control.Sweeping? && s.hand < |s.frames| && t <= 2 * |s.frames| && Passed(s, t)
    ensures SweepOutcome(s, SweepAlone(SweptTo(s, t)))
    decreases 2 * |s.frames| - t
  {
    if t == 2 * |s.frames| {
      EverythingPinned(s);
      assert SweepAlone(SweptTo(s, t)) == SweptTo(s, t);
    } else {
      if PassesOver(s, t) {
        PassOne(s, t);
        SweepFrom(s, t + 1);
        Unroll(SweptTo(s, t));
      } else {
        SweepStops(s, t);
      }
    }
  }

  lemma EverythingPinned(s: State)
    requires s.control.Sweeping? && s.hand < |s.frames| && Passed(s, 2 * |s.frames|)
    ensures SweepOutcome(s, SweptTo(s, 2 * |s.frames|))
  {
    forall k | 0 <= k < |s.frames| ensures s.frames[k].pin > 0 {}
    assert ClearedUpTo(s, 2 * |s.frames|) == s.frames;
  }

  lemma FoundOutcome(s: State, t: nat, v: nat)
    requires s.control.Sweeping? && s.hand < |s.frames| && t < 2 * |s.frames| && Passed(s, t)
    requires v == HandAfter(|s.frames|, s.hand, t) && s.frames[v].pin == 0 && (t < |s.frames| ==> !s.frames[v].referenced)
    ensures SweepOutcome(s, StoppedAt(s, t, v))
  {
    NextHand(|s.frames|, s.hand, t);
    if t < |s.frames| {
      assert Fresh(s, v);
      FirstFresh(s, t, v);
      assert StoppedAtFresh(s, StoppedAt(s, t, v), v);
    } else {
      NoneFresh(s, t);
      assert Unpinned(s, v);
      FirstUnpinned(s, t, v);
      ClearedByRound(s, t);
      assert StoppedAtCleared(s, StoppedAt(s, t, v), v);
    }
  }

  lemma FirstFresh(s: State, t: nat, v: nat)
    requires s.hand < |s.frames| && t < |s.frames| && Passed(s, t)
    requires Fresh(s, v) && Distance(|s.frames|, s.hand, v) == t
    ensures NearestFresh(s, v)
  {
  }

  lemma NoneFresh(s: State, t: nat)
    requires s.hand < |s.frames| && t >= |s.frames| && Passed(s, t)
    ensures forall k: nat :: !Fresh(s, k)
  {
    forall k: nat ensures !Fresh(s, k) {
      if k < |s.frames| {
        var d := Distance(|s.frames|, s.hand, k);
        assert d < t;
      }
    }
  }

  lemma FirstUnpinned(s: State, t: nat, v: nat)
    requires s.hand < |s.frames| && |s.frames| <= t < 2 * |s.frames| && Passed(s, t)
    requires Unpinned(s, v) && Distance(|s.frames|, s.hand, v) == t - |s.frames|
    ensures NearestUnpinned(s, v)
  {
  }

  /** The sweep returns the cyclically first frame it may, and leaves exactly the bits and the hand its rule says. */
  lemma SweepExact(s: State)
    requires s.control.Sweeping? && s.control.steps == 0 && s.hand < |s.frames|
    ensures SweepOutcome(s, SweepAlone(s))
  {
    assert ClearedUpTo(s, 0) == s.frames;
    assert SweptTo(s, 0) == s;
    SweepFrom(s, 0);
  }

  /**
   The frame the clock names: from the hand on, the first unpinned one that was not used
   since the hand last passed it; if they all were, the first unpinned one.
   */
  ghost predicate VictimIs(s: State, v: nat)
    requires s.hand < |s.frames|
  {
    if exists k: nat :: Fresh(s, k) then NearestFresh(s, v) else NearestUnpinned(s, v)
  }

  lemma StoppedFresh(s: State, s': State, v: nat)
    requires s.control.Sweeping? && s.hand < |s.frames| && StoppedAtFresh(s, s', v)
    ensures s'.control == Evicting(s.control.op, v) && s'.hand == (v + 1) % |s.frames| && VictimIs(s, v)
  {
    assert Fresh(s, v);
  }

  lemma StoppedCleared(s: State, s': State, v: nat)
    requires s.control.Sweeping? && s.hand < |s.frames| && StoppedAtCleared(s, s', v) && !exists k: nat :: Fresh(s, k)
    ensures s'.control == Evicting(s.control.op, v) && s'.hand == (v + 1) % |s.frames| && VictimIs(s, v)
  {
    assert Unpinned(s, v);
  }

  lemma SweepVictim(s: State)
    requires s.control.Sweeping? && s.control.steps == 0 && s.hand < |s.frames| && SweepAlone(s).control.Evicting?
    ensures VictimIs(s, SweepAlone(s).control.slot) && SweepAlone(s).hand == (SweepAlone(s).control.slot + 1) % |s.frames|
  {
    SweepExact(s);
    OutcomeVictim(s, SweepAlone(s));
  }

  lemma OutcomeVictim(s: State, s': State)
    requires s.control.Sweeping? && s.hand < |s.frames| && SweepOutcome(s, s') && s'.control.Evicting?
    ensures VictimIs(s, s'.control.slot) && s'.hand == (s'.control.slot + 1) % |s.frames|
  {
    if exists k: nat :: Fresh(s, k) {
      var v: nat :| StoppedAtFresh(s, s', v);
      StoppedFresh(s, s', v);
    } else if exists k: nat :: Unpinned(s, k) {
      var v: nat :| StoppedAtCleared(s, s', v);
      StoppedCleared(s, s', v);
    }
  }

  /** The sweep changes no more than reference bits, the hand and the control. */
  lemma {:induction false} SweepAloneBounds(s: State)
    requires s.control.Sweeping? && s.hand < |s.frames|
    ensures var e := SweepAlone(s);
      && |e.frames| == |s.frames|
      && (e.control.Sweeping? ==> CanExhaust(e) && e.control.op == s.control.op)
      && (e.control.Evicting? ==> e.control.op == s.control.op && e.control.slot < |s.frames|)
      && (e.control.Sweeping? || e.control.Evicting?)
      && e.guards == s.guards
    decreases 2 * |s.frames| - s.control.steps
  {
    if s.control.steps < 2 * |s.frames| && AfterSweep(s).control.Sweeping? {
      SweepAloneBounds(AfterSweep(s));
    }
  }

  /** The sweep alone is a run of sweep turns. */
  lemma {:induction false} SweepAloneRun(s: State) returns (ls: seq<Label>)
    requires s.control.Sweeping? && s.hand < |s.frames|
    ensures Run(s, ls, SweepAlone(s)) && forall i :: 0 <= i < |ls| ==> ls[i] == Sweep
    decreases 2 * |s.frames| - s.control.steps
  {
    if s.control.steps >= 2 * |s.frames| {
      ls := [];
    } else {
      var s' := AfterSweep(s);
      assert Next(s, Sweep) == s';
      if s'.control.Sweeping? {
        var rest := SweepAloneRun(s');
        ls := [Sweep] + rest;
        assert ls[1..] == rest;
      } else {
        ls := [Sweep];
        assert ls[1..] == [];
      }
    }
  }

  // ---------- With guards used and dropped in between ----------

  /** What can happen while one thread is sweeping: its own turns, and steps of guards. */
  predicate DuringSweep(l: Label) { l.Sweep? || ByGuard(l) }

  /** How far a sweep that started at `hand0` with frame `u` unpinned has got. */
  ghost predicate Tracked(s: State, u: nat, d: nat) {
    && u < |s.frames| && d < |s.frames| && s.hand < |s.frames|
    && (s.control.Sweeping? ==>
          s.frames[u].pin == 0
          && s.control.steps <= |s.frames| + d
          && Distance(|s.frames|, s.hand, u) == (if s.control.steps <= d then d - s.control.steps else |s.frames| + d - s.control.steps)
          && (s.control.steps > d ==> !s.frames[u].referenced))
  }

  lemma TurnedHand(n: nat, hand: nat, u: nat)
    requires hand < n && u < n
    ensures Distance(n, (hand + 1) % n, u) == if hand == u then n - 1 else Distance(n, hand, u) - 1
  {
    Wrap(n, hand);
  }

  lemma TrackedTurn(s: State, u: nat, d: nat)
    requires CanSweep(s) && Tracked(s, u, d)
    ensures Tracked(AfterSweep(s), u, d)
  {
    TurnedHand(|s.frames|, s.hand, u);
    var s' := AfterSweep(s);
    if s'.control.Sweeping? {
      if s.hand == u {
        assert s.control.steps == d;
      } else {
        assert s'.frames[u] == s.frames[u];
      }
    }
  }

  /** Guard steps never pin a frame or touch its reference bit. */
  lemma TrackedGuardStep(s: State, l: Label, u: nat, d: nat)
    requires Inv(s) && Enabled(s, l) && ByGuard(l) && Tracked(s, u, d)
    ensures Tracked(Next(s, l), u, d)
  {
    if l.Drop? { UnpinnedKeepsOut(s, l.g, u); }
  }

  lemma UnpinnedKeepsOut(s: State, g: nat, u: nat)
    requires Inv(s) && g in s.guards && u < |s.frames|
    ensures s.frames[u].pin == 0 ==> s.guards[g].slot != u
  {
    if s.frames[u].pin == 0 { UnpinnedUnlocked(s, u); }
  }

  lemma {:induction false} TrackedRun(s: State, ls: seq<Label>, s': State, u: nat, d: nat)
    requires Inv(s) && Run(s, ls, s') && Tracked(s, u, d)
    requires forall i :: 0 <= i < |ls| ==> DuringSweep(ls[i])
    ensures Inv(s') && Tracked(s', u, d)
    decreases |ls|
  {
    if ls != [] {
      StepInv(s, ls[0]);
      if ls[0].Sweep? { TrackedTurn(s, u, d); } else { TrackedGuardStep(s, ls[0], u, d); }
      TrackedRun(Next(s, ls[0]), ls[1..], s', u, d);
    }
  }

  /**
   If any frame was unpinned when the sweep began, then however guards are used and dropped
   while it runs, it never gives up; and the frame it stops at is still unpinned.
   */
  lemma SweepFindsUnpinned(s: State, ls: seq<Label>, s': State, u: nat)
    requires Inv(s) && s.control.Sweeping? && s.control.steps == 0
    requires Unpinned(s, u)
    requires Run(s, ls, s') && forall i :: 0 <= i < |ls| ==> DuringSweep(ls[i])
    ensures !CanExhaust(s')
    ensures s'.control.Evicting? ==> s'.control.slot < |s'.frames| && s'.frames[s'.control.slot].pin == 0
  {
    TrackedRun(s, ls, s', u, Distance(|s.frames|, s.hand, u));
  }

  /** `BufferPoolExhausted` means every frame was pinned when the sweep began. */
  lemma ExhaustedMeansAllPinned(s: State, ls: seq<Label>, s': State)
    requires Inv(s) && s.control.Sweeping? && s.control.steps == 0
    requires Run(s, ls, s') && forall i :: 0 <= i < |ls| ==> DuringSweep(ls[i])
    requires CanExhaust(s')
    ensures forall k :: 0 <= k < |s.frames| ==> s.frames[k].pin > 0
  {
    forall k | 0 <= k < |s.frames| ensures s.frames[k].pin > 0 {
      if s.frames[k].pin == 0 { SweepFindsUnpinned(s, ls, s', k); }
    }
  }
}
