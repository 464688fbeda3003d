/** `BufferPool` and `PageGuard` as the source writes them, each call proved to be a run of the step system. */
module BufferPool {
  import opened PageError
  import opened Disk
  import opened PoolSystem
  import opened PoolInvariant
  import opened PoolTransparency
  import opened ClockSweep
  import PageStore

  class FrameInner {
    var id: u64
    var pin: nat
    var dirty: bool
    var referenced: bool
    var page: PageData

    constructor (page: PageData)
      ensures Value() == Frame(NO_PAGE, 0, false, false, page)
    {
      this.id := NO_PAGE;
      this.pin := 0;
      this.dirty := false;
      this.referenced := false;
      this.page := page;
    }

    function Value(): Frame
      reads this
    {
      Frame(id, pin, dirty, referenced, page)
    }
  }

  /** No logical page changes from `s` to `s'`, at any id whose clean copy agrees with the store. */
  ghost predicate Transparent(s: State, s': State) {
    forall id: u64 :: CleanAt(s, id) ==> CleanAt(s', id) && View(s', id) == View(s, id)
  }

  ghost predicate AllPinned(s: State) { forall k :: 0 <= k < |s.frames| ==> s.frames[k].pin > 0 }

  /** No logical page but `id` changes from `s` to `s'`. */
  ghost predicate TransparentBut(s: State, s': State, but: u64) {
    forall id: u64 :: id != but && CleanAt(s, id) ==> CleanAt(s', id) && View(s', id) == View(s, id)
  }

  /** Steps that change no logical page. */
  predicate Invisible(l: Label) { !l.Put? && !l.FillNew? && !(l.Hit? && l.op.NewPage?) }

  lemma InvisibleStep(s: State, l: Label)
    requires Inv(s) && Enabled(s, l) && Invisible(l)
    ensures Inv(Next(s, l)) && Transparent(s, Next(s, l))
  {
    StepInv(s, l);
    forall id: u64 | CleanAt(s, id) ensures CleanAt(Next(s, l), id) && View(Next(s, l), id) == View(s, id) {
      StepView(s, l, id);
    }
  }

  predicate AllInvisible(ls: seq<Label>) { forall i :: 0 <= i < |ls| ==> Invisible(ls[i]) }

  /** The steps of a miss after its first. */
  predicate MissStep(l: Label) {
    l.Sweep? || l.Exhausted? || l.EvictClean? || l.EvictDirty? || l.EvictFailed? || l.FillFetched? || l.FillFailed? || l.FillNew?
  }

  /** One miss and nothing else. */
  predicate MissRun(op: Op, ls: seq<Label>) {
    ls != [] && ls[0] == Begin(op) && forall i :: 1 <= i < |ls| ==> MissStep(ls[i])
  }

  lemma MissSnoc(op: Op, ls: seq<Label>, l: Label)
    requires MissRun(op, ls) && MissStep(l)
    ensures MissRun(op, ls + [l])
  {
  }

  predicate FlushAllStep(l: Label) {
    l.BeginFlushAll? || l.FlushNext? || l.FlushNextClean? || l.FlushNextFailed? || l.EndFlushAll?
  }

  /** A walk over the map writing pages back, and nothing else. */
  predicate FlushAllSteps(ls: seq<Label>) { forall i :: 0 <= i < |ls| ==> FlushAllStep(ls[i]) }

  lemma {:induction false} InvisibleRun(s: State, ls: seq<Label>, s': State)
    requires Inv(s) && Run(s, ls, s') && AllInvisible(ls)
    ensures Inv(s') && Transparent(s, s')
    decreases |ls|
  {
    if ls != [] {
      InvisibleStep(s, ls[0]);
      InvisibleRun(Next(s, ls[0]), ls[1..], s');
    }
  }

  /** A run extended by one step. */
  lemma RunSnoc(s: State, ls: seq<Label>, t: State, l: Label)
    requires Run(s, ls, t) && Enabled(t, l)
    ensures Run(s, ls + [l], Next(t, l))
  {
    assert Run(Next(t, l), [], Next(t, l));
    RunAppend(s, ls, t, [l], Next(t, l));
  }

  /** One more step of an invisible run. */
  lemma ExtendRun(s: State, ls: seq<Label>, t: State, l: Label, s': State)
    requires Inv(t) && Run(s, ls, t) && AllInvisible(ls)
    requires Enabled(t, l) && Invisible(l) && s' == Next(t, l)
    ensures Run(s, ls + [l], s') && Inv(s') && AllInvisible(ls + [l])
  {
    RunSnoc(s, ls, t, l);
    StepInv(t, l);
  }

  class BufferPool {
    const store: PageStore.PageStore
    const frames: seq<FrameInner>
    var resident: map<u64, nat>
    var free: seq<nat>
    var hand: nat
    ghost var guards: map<nat, Guard>

    ghost predicate Shape() {
      forall i, j :: 0 <= i < j < |frames| ==> frames[i] != frames[j]
    }

    /** The state of the step system this pool is in, while the mutex holder is at `control`. */
    ghost function Sys(control: Control): State
      reads this, store, frames
    {
      State(seq(|frames|, i requires 0 <= i < |frames| reads frames => frames[i].Value()),
            resident, free, hand, store.disk, guards, control, store.payloadLen)
    }

    ghost predicate Valid()
      reads this, store, frames
    {
      Shape() && Inv(Sys(Idle))
    }

    constructor (store: PageStore.PageStore, capacity: nat)
      ensures Valid() && this.store == store && fresh(frames)
      ensures Sys(Idle) == Initial(capacity, store.payloadLen, store.disk)
      ensures |frames| == (if capacity == 0 then 1 else capacity) && resident == map[] && guards == map[]
      ensures hand == 0 && |free| == |frames| && forall k :: 0 <= k < |free| ==> free[k] == k
      ensures forall k :: 0 <= k < |frames| ==> IsBlank(frames[k].page, store.payloadLen) && frames[k].pin == 0 && !frames[k].dirty
    {
      var n := if capacity == 0 then 1 else capacity;
      var fs: seq<FrameInner> := [];
      while |fs| < n
        invariant |fs| <= n && fresh(fs)
        invariant forall i, j :: 0 <= i < j < |fs| ==> fs[i] != fs[j]
        invariant forall i :: 0 <= i < |fs| ==> fs[i].Value() == Frame(NO_PAGE, 0, false, false, BlankPage(store.payloadLen))
      {
        var f := new FrameInner(BlankPage(store.payloadLen));
        fs := fs + [f];
      }
      this.store := store;
      this.frames := fs;
      this.resident := map[];
      this.free := seq(n, i => i);
      this.hand := 0;
      this.guards := map[];
      new;
      InitialInv(capacity, store.payloadLen, store.disk);
      assert Sys(Idle).frames == Initial(capacity, store.payloadLen, store.disk).frames;
    }

    /** The page cannot be read, and the error says in which way: there is no such slot, or what is there is not the page. */
    predicate NotStored(id: u64, e: Error)
      reads store
    {
      Stored(store.disk, id) == None && ReadError(e) && (e.ShortRead? <==> store.Missing(id)) && (e.ShortRead? ==> e.slot == id)
    }

    // ---------- Internal steps ----------

    /** One turn of `find_victim`'s loop: whether the frame under the hand may be reused. */
    method Turn(ghost op: Op, ghost steps: nat) returns (found: bool)
      requires Shape() && hand < |frames| && steps < 2 * |frames|
      modifies this`hand, frames
      ensures hand < |frames|
      ensures Sys(if found then Evicting(op, old(hand)) else Sweeping(op, steps + 1)) == AfterSweep(old(Sys(Sweeping(op, steps))))
    {
      ghost var before := Sys(Sweeping(op, steps));
      var frame := frames[hand];
      hand := (hand + 1) % |frames|;
      if frame.pin > 0 {
        return false;
      }
      if frame.referenced {
        frame.referenced := false;
        assert Sys(Sweeping(op, steps + 1)).frames == AfterSweep(before).frames;
        return false;
      }
      found := true;
    }

    /** A turn on the way to where the whole sweep ends. */
    method TurnTowards(ghost op: Op, ghost steps: nat, ghost end: State) returns (found: bool)
      requires Shape() && hand < |frames| && steps < 2 * |frames|
      requires SweepAlone(Sys(Sweeping(op, steps))) == end
      modifies this`hand, frames
      ensures hand < |frames|
      ensures found ==> Sys(Evicting(op, old(hand))) == end
      ensures !found ==> SweepAlone(Sys(Sweeping(op, steps + 1))) == end
    {
      Unroll(Sys(Sweeping(op, steps)));
      found := Turn(op, steps);
    }

    /** `find_victim`: exactly the sweep of the step system, run to its end. */
    method FindVictim(ghost op: Op) returns (victim: Option<nat>)
      requires Shape() && hand < |frames|
      modifies this`hand, frames
      ensures Sys(if victim.Some? then Evicting(op, victim.value) else Sweeping(op, 2 * |frames|))
              == SweepAlone(old(Sys(Sweeping(op, 0))))
    {
      var n := |frames|;
      var steps := 0;
      ghost var end := SweepAlone(Sys(Sweeping(op, 0)));
      while steps < 2 * n
        invariant steps <= 2 * n && hand < n
        invariant SweepAlone(Sys(Sweeping(op, steps))) == end
      {
        var slot := hand;
        var found := TurnTowards(op, steps, end);
        steps := steps + 1;
        if found {
          return Some(slot);
        }
      }
      victim := None;
    }

    /** `flush_slot`. */
    method FlushSlot(slot: nat, id: u64, ghost control: Control) returns (r: Result<()>, ghost torn: Option<Slot>)
      requires Shape() && slot < |frames|
      modifies store, frames
      ensures !old(frames[slot].dirty) ==> r.Success? && Sys(control) == old(Sys(control))
      ensures old(frames[slot].dirty) && r.Success? ==> Sys(control) == Flushed(old(Sys(control)), slot, id)
      ensures r.Failure? ==> old(frames[slot].dirty) && r.error == Io
                             && Sys(control) == old(Sys(control)).(disk := Torn(old(store.disk), id, torn))
      ensures r.Failure? <==> store.faults != old(store.faults)
      ensures r.Success? ==> !frames[slot].dirty
      ensures PagesKept(old(store.disk), store.disk, id)
    {
      torn := None;
      ghost var before := Sys(control);
      var frame := frames[slot];
      if frame.dirty {
        r, torn := store.Write(id, frame.page);
        if r.Failure? {
          assert Sys(control).frames == before.frames;
          return;
        }
        frame.dirty := false;
        assert Sys(control).frames == Flushed(before, slot, id).frames;
      } else {
        r := Success(());
      }
    }

    /** The victim's part of `take_slot`: flushed first if dirty, then unmapped. */
    method EvictVictim(ghost op: Op, slot: nat) returns (r: Result<nat>, ghost torn: Option<Slot>)
      requires Shape() && slot < |frames|
      modifies this`resident, frames, store
      ensures r.Success? ==> r.value == slot && Sys(Filling(op, slot)) == AfterEvict(old(Sys(Evicting(op, slot))))
      ensures r.Failure? ==> r.error == Io && old(frames[slot].dirty)
                             && Sys(Idle) == AfterEvictFailed(old(Sys(Evicting(op, slot))), torn)
      ensures r.Failure? <==> store.faults != old(store.faults)
    {
      var victimId := frames[slot].id;
      var flushed: Result<()>;
      flushed, torn := FlushSlot(slot, victimId, Evicting(op, slot));
      if flushed.Failure? {
        return Failure(flushed.error), torn;
      }
      resident := resident - {victimId};
      r := Success(slot);
    }

    /** `take_slot`: a free frame, or the swept victim. */
    method TakeSlot(ghost op: Op) returns (r: Result<nat>, ghost torn: Option<Slot>)
      requires Shape() && hand < |frames|
      requires forall i :: 0 <= i < |free| ==> free[i] < |frames|
      modifies this`resident, this`free, this`hand, frames, store
      ensures TakeOutcome(old(Sys(Idle)), op, r, torn, if r.Success? then Sys(Filling(op, r.value)) else Sys(Idle))
      ensures r == Failure(Io) <==> store.faults != old(store.faults)
    {
      torn := None;
      if free != [] {
        var slot := free[|free| - 1];
        free := free[..|free| - 1];
        return Success(slot), torn;
      }
      var victim := FindVictim(op);
      if victim == None {
        return Failure(BufferPoolExhausted(|frames|)), torn;
      }
      SweepAloneBounds(old(Sys(Sweeping(op, 0))));
      r, torn := EvictVictim(op, victim.value);
    }

    /** `take_slot` as a run: the caller ends up filling a frame nobody else can see, or with an error. */
    method Admit(op: Op) returns (r: Result<nat>, ghost ls: seq<Label>)
      requires Valid() && op.id !in resident
      modifies this`resident, this`free, this`hand, frames, store
      ensures Admitted(old(Sys(Idle)), op, r, ls, if r.Success? then Sys(Filling(op, r.value)) else Sys(Idle))
      ensures r.Success? ==> FrameFor(old(Sys(Idle)), r.value, hand)
      ensures r == Failure(Io) <==> store.faults != old(store.faults)
    {
      ghost var s0 := Sys(Idle);
      ghost var torn: Option<Slot>;
      r, torn := TakeSlot(op);
      ghost var s1 := if r.Success? then Sys(Filling(op, r.value)) else Sys(Idle);
      ls := TakeRun(s0, op, r, torn, s1);
      TakeControl(s0, op, r, torn, s1);
      TakeVerdict(s0, op, r, torn, s1);
      if r.Success? {
        TakenFrame(s0, op, r, torn, s1);
      }
    }

    /** `install`: the frame is populated and handed out with one pin. */
    method Install(slot: nat, id: u64, dirty: bool, ghost op: Op, ghost g: nat)
      requires Shape() && slot < |frames| && op.id == id
      modifies this`resident, this`guards, frames
      ensures Sys(Idle) == Installed(old(Sys(Filling(op, slot))), slot, id, dirty, old(frames[slot].page), g)
      ensures HandedAs(frames[slot], old(frames[slot].page), dirty) && resident == old(resident)[id := slot]
      ensures hand == old(hand) && free == old(free)
    {
      ghost var before := Sys(Filling(op, slot));
      var frame := frames[slot];
      frame.id := id;
      frame.dirty := dirty;
      frame.referenced := true;
      frame.pin := 1;
      resident := resident[id := slot];
      guards := guards[g := Guard(slot, id, 0, false)];
      assert Sys(Idle).frames == Installed(before, slot, id, dirty, before.frames[slot].page, g).frames;
    }

    /** The cached half of `fetch` and `new_page`. */
    method PinResident(id: u64, op: Op, ghost g: nat) returns (frame: FrameInner)
      requires Shape() && op.id == id && id in resident && resident[id] < |frames|
      modifies this`guards, frames
      ensures frame == frames[resident[id]] && Sys(Idle) == AfterHit(old(Sys(Idle)), op, g)
      ensures op.Fetch? ==> HandedAs(frame, old(frames[resident[id]].page), old(frames[resident[id]].dirty))
      ensures op.NewPage? ==> HandedAs(frame, frame.page, true) && IsBlank(frame.page, store.payloadLen)
    {
      ghost var before := Sys(Idle);
      frame := frames[resident[id]];
      if op.NewPage? {
        frame.page := BlankPage(store.payloadLen);
        frame.dirty := true;
      }
      frame.pin := frame.pin + 1;
      frame.referenced := true;
      guards := guards[g := Guard(resident[id], id, 0, false)];
      assert Sys(Idle).frames == AfterHit(before, op, g).frames;
    }

    /** The miss half of `fetch`: read the page into the taken frame, or put the frame back. */
    method Load(slot: nat, id: u64, ghost g: nat) returns (r: Result<FrameInner>, ghost junk: PageData)
      requires Shape() && slot < |frames|
      modifies this`resident, this`free, this`guards, frames, store`faults
      ensures r.Success? ==> Stored(store.disk, id).Some? && r.value == frames[slot]
                             && HandedAs(r.value, Stored(store.disk, id).value, false) && resident == old(resident)[id := slot]
                             && Sys(Idle) == AfterFillFetched(old(Sys(Filling(Op.Fetch(id), slot))), g)
      ensures r.Failure? ==> Sys(Idle) == AfterFillFailed(old(Sys(Filling(Op.Fetch(id), slot))), junk)
      ensures hand == old(hand) && free == if r.Failure? then old(free) + [slot] else old(free)
      ensures r.Failure? && r.error != Io ==> NotStored(id, r.error)
      ensures r == Failure(Io) <==> store.faults != old(store.faults)
    {
      ghost var before := Sys(Filling(Op.Fetch(id), slot));
      var frame := frames[slot];
      var read := store.Read(id);
      if read.Failure? {
        var rubbish: PageData := *;
        junk := rubbish;
        frame.page := rubbish;
        free := free + [slot];
        assert Sys(Idle).frames == AfterFillFailed(before, junk).frames;
        return Failure(read.error), junk;
      }
      junk := read.value;
      frame.page := read.value;
      assert Sys(Filling(Op.Fetch(id), slot)).frames == before.frames[slot := before.frames[slot].(page := read.value)];
      Install(slot, id, false, Op.Fetch(id), g);
      assert Sys(Idle).frames == AfterFillFetched(before, g).frames;
      r := Success(frame);
    }

    /** The miss half of `new_page`: blank the taken frame and install it dirty. */
    method Create(slot: nat, id: u64, ghost g: nat) returns (frame: FrameInner)
      requires Shape() && slot < |frames|
      modifies this`resident, this`guards, frames
      ensures frame == frames[slot] && Sys(Idle) == AfterFillNew(old(Sys(Filling(Op.NewPage(id), slot))), g)
      ensures HandedAs(frame, frame.page, true) && IsBlank(frame.page, store.payloadLen) && resident == old(resident)[id := slot]
      ensures hand == old(hand) && free == old(free)
    {
      ghost var before := Sys(Filling(Op.NewPage(id), slot));
      frame := frames[slot];
      frame.page := BlankPage(store.payloadLen);
      assert Sys(Filling(Op.NewPage(id), slot)).frames
          == before.frames[slot := before.frames[slot].(page := BlankPage(store.payloadLen))];
      Install(slot, id, true, Op.NewPage(id), g);
      assert Sys(Idle).frames == AfterFillNew(before, g).frames;
    }

    /** The miss half of `fetch` as a run. */
    method LoadRun(slot: nat, id: u64, ghost g: nat, ghost s0: State, ghost before: seq<Label>)
      returns (r: Result<FrameInner>, ghost ls: seq<Label>)
      requires Shape() && slot < |frames| && Inv(s0) && g !in guards
      requires Admitted(s0, Op.Fetch(id), Success(slot), before, Sys(Filling(Op.Fetch(id), slot)))
      modifies this`resident, this`free, this`guards, frames, store`faults
      ensures Valid() && Run(s0, ls, Sys(Idle)) && Transparent(s0, Sys(Idle)) && MissRun(Op.Fetch(id), ls)
      ensures r.Success? ==> Handed(id, g, r.value) && guards == old(guards)[g := guards[g]] && resident[id] == slot
      ensures hand == old(hand) && free == if r.Failure? then old(free) + [slot] else old(free)
      ensures r.Success? ==> Stored(store.disk, id).Some? && HandedAs(r.value, Stored(store.disk, id).value, false)
      ensures r == Failure(Io) <==> store.faults != old(store.faults)
      ensures r.Failure? ==> guards == old(guards)
      ensures r.Failure? && r.error != Io ==> NotStored(id, r.error)
    {
      ghost var s1 := Sys(Filling(Op.Fetch(id), slot));
      ghost var junk: PageData;
      r, junk := Load(slot, id, g);
      ls := FetchFilled(s0, before, s1, id, g, slot, r.Success?, junk, Sys(Idle));
    }

    /** `fetch` of a page that is not resident. */
    method FetchMissing(id: u64, ghost g: nat) returns (r: Result<FrameInner>, ghost ls: seq<Label>)
      requires Valid() && g !in guards && id !in resident
      modifies this, frames, store
      ensures Valid() && Run(old(Sys(Idle)), ls, Sys(Idle)) && Transparent(old(Sys(Idle)), Sys(Idle))
      ensures MissRun(Op.Fetch(id), ls)
      ensures r.Success? ==> Handed(id, g, r.value) && guards == old(guards)[g := guards[g]]
      ensures r.Success? ==> FrameFor(old(Sys(Idle)), resident[id], hand)
      ensures r.Success? ==> Stored(store.disk, id).Some? && HandedAs(r.value, Stored(store.disk, id).value, false)
      ensures r == Failure(Io) <==> store.faults != old(store.faults)
      ensures r.Failure? ==> guards == old(guards)
      ensures r == Failure(BufferPoolExhausted(|frames|)) <==> AllPinned(old(Sys(Idle)))
      ensures r.Failure? && r.error != Io && !r.error.BufferPoolExhausted? ==>
        NotStored(id, r.error) && free != [] && FrameFor(old(Sys(Idle)), free[|free| - 1], hand)
    {
      ghost var s0 := Sys(Idle);
      var taken;
      taken, ls := Admit(Op.Fetch(id));
      if taken.Failure? {
        InvisibleRun(s0, ls, Sys(Idle));
        return Failure(taken.error), ls;
      }
      r, ls := LoadRun(taken.value, id, g, s0, ls);
    }

    // ---------- The public calls ----------

    /**
     `fetch`.  The frame handed out is referenced, whoever asked for it before; on a miss it
     is the one the clock names, and the page in it is clean.  The call reports an I/O error
     exactly when the store did.
     */
    method Fetch(id: u64, ghost g: nat) returns (r: Result<FrameInner>, ghost ls: seq<Label>)
      requires Valid() && g !in guards
      modifies this, frames, store
      ensures Valid() && Run(old(Sys(Idle)), ls, Sys(Idle)) && Transparent(old(Sys(Idle)), Sys(Idle))
      ensures r.Success? ==> Handed(id, g, r.value) && guards == old(guards)[g := guards[g]]
      ensures r.Failure? ==> guards == old(guards)
      ensures old(id in resident) ==> r.Success? && ls == [Hit(Op.Fetch(id), g)] && store.disk == old(store.disk)
      ensures old(id !in resident) ==> MissRun(Op.Fetch(id), ls)
      ensures old(id in resident) ==>
        resident == old(resident) && hand == old(hand) && HandedAs(r.value, old(frames[resident[id]].page), old(frames[resident[id]].dirty))
      ensures old(id !in resident) && r.Success? ==> FrameFor(old(Sys(Idle)), resident[id], hand)
      ensures old(id !in resident) && r.Success? ==> Stored(store.disk, id).Some? && HandedAs(r.value, Stored(store.disk, id).value, false)
      ensures r == Failure(Io) <==> store.faults != old(store.faults)
      ensures old(id !in resident) ==> (r == Failure(BufferPoolExhausted(|frames|)) <==> AllPinned(old(Sys(Idle))))
      ensures r.Failure? && r.error != Io && !r.error.BufferPoolExhausted? ==>
        NotStored(id, r.error) && free != [] && FrameFor(old(Sys(Idle)), free[|free| - 1], hand)
    {
      if id in resident {
        ghost var s0 := Sys(Idle);
        var frame := PinResident(id, Op.Fetch(id), g);
        ls := HitRun(s0, Op.Fetch(id), g);
        InvisibleRun(s0, ls, Sys(Idle));
        r := Success(frame);
      } else {
        r, ls := FetchMissing(id, g);
      }
    }

    /** `new_page` of a page that is not resident. */
    method NewPageMissing(id: u64, ghost g: nat) returns (r: Result<FrameInner>, ghost ls: seq<Label>)
      requires Valid() && g !in guards && id !in resident
      modifies this, frames, store
      ensures Valid() && Run(old(Sys(Idle)), ls, Sys(Idle)) && TransparentBut(old(Sys(Idle)), Sys(Idle), id)
      ensures MissRun(Op.NewPage(id), ls)
      ensures r.Success? ==> Handed(id, g, r.value) && guards == old(guards)[g := guards[g]]
      ensures r.Success? ==> HandedAs(r.value, r.value.page, true) && IsBlank(r.value.page, store.payloadLen)
      ensures r.Success? ==> FrameFor(old(Sys(Idle)), resident[id], hand)
      ensures r.Failure? ==> r.error == Io || r.error == BufferPoolExhausted(|frames|)
      ensures r == Failure(Io) <==> store.faults != old(store.faults)
      ensures r.Failure? ==> guards == old(guards) && Transparent(old(Sys(Idle)), Sys(Idle))
      ensures r == Failure(BufferPoolExhausted(|frames|)) <==> AllPinned(old(Sys(Idle)))
    {
      ghost var s0 := Sys(Idle);
      var taken;
      taken, ls := Admit(Op.NewPage(id));
      if taken.Failure? {
        InvisibleRun(s0, ls, Sys(Idle));
        return Failure(taken.error), ls;
      }
      ghost var s1 := Sys(Filling(Op.NewPage(id), taken.value));
      var frame := Create(taken.value, id, g);
      ls := NewPageFilled(s0, ls, s1, id, g, taken.value, Sys(Idle));
      r := Success(frame);
    }

    /** `new_page`: a blank, dirty page; the caller of a resident page must not be holding it borrowed. */
    method NewPage(id: u64, ghost g: nat) returns (r: Result<FrameInner>, ghost ls: seq<Label>)
      requires Valid() && g !in guards
      requires id in resident ==> LockFree(Sys(Idle), resident[id])
      modifies this, frames, store
      ensures Valid() && Run(old(Sys(Idle)), ls, Sys(Idle)) && TransparentBut(old(Sys(Idle)), Sys(Idle), id)
      ensures r.Success? ==> Handed(id, g, r.value) && guards == old(guards)[g := guards[g]]
      ensures r.Success? ==> HandedAs(r.value, r.value.page, true) && IsBlank(r.value.page, store.payloadLen)
      ensures r.Failure? ==> r.error == Io || r.error == BufferPoolExhausted(|frames|)
      ensures r == Failure(Io) <==> store.faults != old(store.faults)
      ensures old(id !in resident) && r.Success? ==> FrameFor(old(Sys(Idle)), resident[id], hand)
      ensures r.Failure? ==> guards == old(guards) && Transparent(old(Sys(Idle)), Sys(Idle))
      ensures old(id in resident) ==> r.Success? && ls == [Hit(Op.NewPage(id), g)] && store.disk == old(store.disk)
      ensures old(id !in resident) ==> MissRun(Op.NewPage(id), ls)
      ensures old(id !in resident) ==> (r == Failure(BufferPoolExhausted(|frames|)) <==> AllPinned(old(Sys(Idle))))
    {
      if id in resident {
        ghost var s0 := Sys(Idle);
        var frame := PinResident(id, Op.NewPage(id), g);
        ls := HitRun(s0, Op.NewPage(id), g);
        HitInv(s0, Op.NewPage(id), g);
        HitTransparentBut(s0, id, g);
        r := Success(frame);
      } else {
        r, ls := NewPageMissing(id, g);
      }
    }

    /** `flush`: of a dirty page, nobody must be borrowing it. */
    method Flush(id: u64) returns (r: Result<()>, ghost ls: seq<Label>)
      requires Valid()
      requires id in resident && resident[id] < |frames| && frames[resident[id]].dirty ==> LockFree(Sys(Idle), resident[id])
      modifies frames, store
      ensures Valid() && Run(old(Sys(Idle)), ls, Sys(Idle)) && Transparent(old(Sys(Idle)), Sys(Idle))
      ensures FlushedOne(old(Sys(Idle)), id, r, Sys(Idle))
      ensures r.Success? && CleanAt(old(Sys(Idle)), id) && id in resident ==> Stored(store.disk, id) == View(Sys(Idle), id)
      ensures r.Failure? <==> store.faults != old(store.faults)
      ensures r.Success? && id in resident && resident[id] < |frames| ==> !frames[resident[id]].dirty
      ensures PagesKept(old(store.disk), store.disk, id)
    {
      ghost var s0 := Sys(Idle);
      ls := [];
      r := Success(());
      if id in resident {
        var slot := resident[id];
        ghost var wasDirty := frames[slot].dirty;
        ghost var torn: Option<Slot>;
        r, torn := FlushSlot(slot, id, Idle);
        if wasDirty {
          ls := FlushOneRun(s0, id, r.Failure?, torn, Sys(Idle));
        }
      }
      InvisibleRun(s0, ls, Sys(Idle));
    }

    /** One iteration of `flush_all`'s loop. */
    method FlushNextOf(id: u64, ghost todo: set<u64>) returns (r: Result<()>, ghost torn: Option<Slot>)
      requires Shape() && id in resident && resident[id] < |frames|
      modifies frames, store
      ensures FlushNextOutcome(old(Sys(FlushingAll(todo))), id, r, torn, Sys(if r.Success? then FlushingAll(todo - {id}) else Idle))
      ensures r.Failure? <==> store.faults != old(store.faults)
    {
      r, torn := FlushSlot(resident[id], id, FlushingAll(todo));
    }

    /** `flush_all`: the map is walked in whatever order it yields. */
    method FlushAll() returns (r: Result<()>, ghost ls: seq<Label>)
      requires Valid()
      requires Unborrowed(Sys(Idle))
      modifies frames, store
      ensures Valid() && Run(old(Sys(Idle)), ls, Sys(Idle)) && Transparent(old(Sys(Idle)), Sys(Idle))
      ensures FlushAllSteps(ls)
      ensures r.Success? ==> AllFlushed(old(Sys(Idle)), Sys(Idle))
      ensures r.Failure? ==> r.error == Io
      ensures r.Failure? <==> store.faults != old(store.faults)
    {
      ghost var s0 := Sys(Idle);
      var todo := resident.Keys;
      ls := BeginRun(s0);
      FlushedSoFarStart(s0);
      while todo != {}
        invariant todo <= resident.Keys
        invariant FlushedSoFar(s0, ls, Sys(FlushingAll(todo))) && store.faults == old(store.faults)
        decreases todo
      {
        var id :| id in todo;
        ghost var t := Sys(FlushingAll(todo));
        ghost var torn: Option<Slot>;
        r, torn := FlushNextOf(id, todo);
        if r.Failure? {
          ls := FlushFailed(s0, ls, t, id, r, torn, Sys(Idle));
          return;
        }
        ls := FlushAdvance(s0, ls, t, id, r, torn, Sys(FlushingAll(todo - {id})));
        todo := todo - {id};
      }
      ls := FlushFinish(s0, ls, Sys(FlushingAll({})));
      r := Success(());
    }

    /** `checkpoint`: flush everything, then make the store durable. */
    method Checkpoint() returns (r: Result<()>, ghost ls: seq<Label>)
      requires Valid()
      requires Unborrowed(Sys(Idle))
      modifies frames, store
      ensures Valid() && Run(old(Sys(Idle)), ls, Sys(Idle)) && Transparent(old(Sys(Idle)), Sys(Idle))
      ensures FlushAllSteps(ls)
      ensures r.Success? ==> AllFlushed(old(Sys(Idle)), Sys(Idle)) && store.synced == store.disk
      ensures r.Failure? ==> r.error == Io
      ensures r.Failure? <==> store.faults != old(store.faults)
    {
      r, ls := FlushAll();
      if r.Success? {
        ghost var flushed := Sys(Idle);
        r := store.Sync();
        assert Sys(Idle).frames == flushed.frames;
        assert Sys(Idle) == flushed;
      }
    }

    // ---------- Guards ----------

    /** `PageGuard::write`: the page is marked dirty and locked. */
    method GuardWrite(frame: FrameInner, ghost g: nat)
      requires Valid() && g in guards && guards[g].slot < |frames| && frame == frames[guards[g].slot]
      requires LockFree(Sys(Idle), guards[g].slot)
      modifies this`guards, frame
      ensures Valid() && Sys(Idle) == AfterTakeWrite(old(Sys(Idle)), g) && frame.dirty
      ensures Transparent(old(Sys(Idle)), Sys(Idle))
    {
      ghost var s0 := Sys(Idle);
      frame.dirty := true;
      guards := guards[g := guards[g].(writing := true)];
      assert Sys(Idle).frames == AfterTakeWrite(s0, g).frames;
      InvisibleStep(s0, TakeWrite(g));
    }

    /** Writing through a `PageMut`: only the guard's own page changes. */
    method PutPage(frame: FrameInner, data: PageData, ghost g: nat)
      requires Valid() && g in guards && guards[g].slot < |frames| && frame == frames[guards[g].slot]
      requires guards[g].writing
      modifies frame
      ensures Valid() && Sys(Idle) == AfterPut(old(Sys(Idle)), g, data)
      ensures View(Sys(Idle), guards[g].id) == Some(data)
      ensures TransparentBut(old(Sys(Idle)), Sys(Idle), guards[g].id)
    {
      ghost var s0 := Sys(Idle);
      frame.page := data;
      assert Sys(Idle).frames == AfterPut(s0, g, data).frames;
      StepInv(s0, Put(g, data));
      PutTransparentBut(s0, g, data);
    }

    /** A `PageMut` going out of scope. */
    ghost method EndWrite(g: nat)
      requires Valid() && g in guards && guards[g].slot < |frames| && guards[g].writing
      modifies this`guards
      ensures Valid() && guards == old(guards)[g := old(guards)[g].(writing := false)]
      ensures Transparent(old(Sys(Idle)), Sys(Idle))
    {
      var s0 := Sys(Idle);
      guards := guards[g := guards[g].(writing := false)];
      assert Sys(Idle).frames == s0.frames;
      InvisibleStep(s0, ReleaseWrite(g));
    }

    /** `PageGuard::read`: the logical page the guard was handed out for. */
    method GuardRead(frame: FrameInner, ghost g: nat) returns (data: PageData)
      requires Valid() && g in guards && guards[g].slot < |frames| && frame == frames[guards[g].slot]
      ensures Some(data) == View(Sys(Idle), guards[g].id)
    {
      GuardReadsView(Sys(Idle), g);
      data := frame.page;
    }

    /** `Drop for PageGuard`. */
    method DropGuard(frame: FrameInner, ghost g: nat)
      requires Valid() && g in guards && guards[g].slot < |frames| && frame == frames[guards[g].slot]
      requires guards[g].readers == 0 && !guards[g].writing
      modifies this`guards, frame
      ensures Valid() && CanDrop(old(Sys(Idle)), g) && Sys(Idle) == AfterDrop(old(Sys(Idle)), g)
      ensures guards == old(guards) - {g} && Transparent(old(Sys(Idle)), Sys(Idle))
    {
      ghost var s0 := Sys(Idle);
      GuardedIsPinned(s0, g);
      frame.pin := frame.pin - 1;
      guards := guards - {g};
      assert Sys(Idle).frames == AfterDrop(s0, g).frames;
      InvisibleStep(s0, Drop(g));
    }

    /** `g` is a live guard on `frame`, which holds the logical page `id`. */
    ghost predicate Handed(id: u64, g: nat, frame: FrameInner)
      reads this, store, frames
    {
      && g in guards && id in resident && resident[id] < |frames|
      && guards[g] == Guard(resident[id], id, 0, false) && frame == frames[resident[id]]
      && View(Sys(Idle), id) == Some(frame.page)
    }
  }

  /** A frame as it is handed out: holding `page`, pinned, and used by somebody since the clock hand saw it. */
  ghost predicate HandedAs(frame: FrameInner, page: PageData, dirty: bool)
    reads frame
  {
    frame.page == page && frame.dirty == dirty && frame.pin > 0 && frame.referenced
  }

  /** Every stored page but `id` is as it was. */
  ghost predicate PagesKept(disk: Disk, disk': Disk, id: u64) {
    forall other: u64 :: other != id ==> Stored(disk', other) == Stored(disk, other)
  }

  /** The frame a miss must take, and the hand it must leave: the last frame freed, else the one the clock names. */
  ghost predicate FrameFor(s: State, slot: nat, hand: nat) {
    if s.free != [] then
      slot == s.free[|s.free| - 1] && hand == s.hand
    else
      s.hand < |s.frames| && VictimIs(s, slot) && hand == (slot + 1) % |s.frames|
  }

  lemma TakenFrame(s: State, op: Op, r: Result<nat>, torn: Option<Slot>, s': State)
    requires Inv(s) && CanBegin(s, op) && TakeOutcome(s, op, r, torn, s') && r.Success?
    ensures FrameFor(s, r.value, s'.hand)
  {
    if s.free == [] {
      SweepVictim(AfterBegin(s, op));
      SameVictim(AfterBegin(s, op), s, r.value);
    }
  }

  lemma SameVictim(s: State, s': State, v: nat)
    requires s.hand < |s.frames| && VictimIs(s, v) && s'.frames == s.frames && s'.hand == s.hand
    ensures VictimIs(s', v)
  {
    forall k: nat ensures Fresh(s', k) == Fresh(s, k) && Unpinned(s', k) == Unpinned(s, k) {}
  }

  /** What a miss has done by the time it fills its frame, or gives up. */
  ghost predicate Admitted(s: State, op: Op, r: Result<nat>, ls: seq<Label>, s': State) {
    && Run(s, ls, s') && AllInvisible(ls) && MissRun(op, ls) && Inv(s') && s'.guards == s.guards && |s'.frames| == |s.frames|
    && (r.Success? ==> s'.control == Filling(op, r.value))
    && (r.Failure? ==> s'.control == Idle && (r.error == Io || r.error == BufferPoolExhausted(|s.frames|)))
    && (r == Failure(BufferPoolExhausted(|s.frames|)) <==> AllPinned(s))
  }

  /** The miss ended with guard `g` on `slot`, which holds the logical page `id`. */
  ghost predicate HandedOut(s: State, s': State, id: u64, g: nat, slot: nat) {
    && slot < |s'.frames| && id in s'.resident && s'.resident[id] == slot
    && s'.guards == s.guards[g := Guard(slot, id, 0, false)] && View(s', id) == Some(s'.frames[slot].page)
  }

  /** The rest of a `fetch` miss. */
  lemma FetchFilled(s0: State, ls: seq<Label>, s1: State, id: u64, g: nat, slot: nat, loaded: bool, junk: PageData, s': State)
    returns (more: seq<Label>)
    requires Inv(s0) && Inv(s1) && Run(s0, ls, s1) && AllInvisible(ls) && MissRun(Op.Fetch(id), ls)
    requires s1.control == Filling(Op.Fetch(id), slot) && slot < |s1.frames| && g !in s1.guards
    requires loaded ==> Stored(s1.disk, id).Some? && s' == AfterFillFetched(s1, g)
    requires !loaded ==> s' == AfterFillFailed(s1, junk)
    ensures Run(s0, more, s') && Inv(s') && Transparent(s0, s') && MissRun(Op.Fetch(id), more)
    ensures if loaded then HandedOut(s1, s', id, g, slot) else s'.guards == s1.guards
  {
    var last := if loaded then FillFetched(g) else FillFailed(junk);
    EvictionNeverWaits(s1);
    ExtendRun(s0, ls, s1, last, s');
    more := ls + [last];
    InvisibleRun(s0, more, s');
  }

  /** The rest of a `new_page` miss. */
  lemma NewPageFilled(s0: State, ls: seq<Label>, s1: State, id: u64, g: nat, slot: nat, s': State) returns (more: seq<Label>)
    requires Inv(s0) && Inv(s1) && Run(s0, ls, s1) && AllInvisible(ls) && MissRun(Op.NewPage(id), ls)
    requires s1.control == Filling(Op.NewPage(id), slot) && slot < |s1.frames| && g !in s1.guards
    requires s' == AfterFillNew(s1, g)
    ensures Run(s0, more, s') && Inv(s') && TransparentBut(s0, s', id) && MissRun(Op.NewPage(id), more)
    ensures HandedOut(s1, s', id, g, slot)
  {
    InvisibleRun(s0, ls, s1);
    EvictionNeverWaits(s1);
    RunSnoc(s0, ls, s1, FillNew(g));
    more := ls + [FillNew(g)];
    InstalledInv(s1, true, BlankPage(s1.payloadLen), g);
    forall i: u64 | i != id && CleanAt(s0, i) ensures CleanAt(s', i) && View(s', i) == View(s0, i) {
      InstalledView(s1, true, BlankPage(s1.payloadLen), g, i);
    }
  }

  lemma HitRun(s: State, op: Op, g: nat) returns (ls: seq<Label>)
    requires CanHit(s, op, g)
    ensures Run(s, ls, AfterHit(s, op, g)) && ls == [Hit(op, g)]
  {
    OneStep(s, Hit(op, g));
    ls := [Hit(op, g)];
  }

  lemma HitTransparentBut(s: State, id: u64, g: nat)
    requires Inv(s) && CanHit(s, Op.NewPage(id), g)
    ensures TransparentBut(s, AfterHit(s, Op.NewPage(id), g), id)
  {
    forall i: u64 | i != id && CleanAt(s, i)
      ensures CleanAt(AfterHit(s, Op.NewPage(id), g), i) && View(AfterHit(s, Op.NewPage(id), g), i) == View(s, i)
    {
      HitView(s, Op.NewPage(id), g, i);
    }
  }

  lemma PutTransparentBut(s: State, g: nat, data: PageData)
    requires Inv(s) && Enabled(s, Put(g, data))
    ensures TransparentBut(s, AfterPut(s, g, data), s.guards[g].id)
    ensures View(AfterPut(s, g, data), s.guards[g].id) == Some(data)
  {
    forall i: u64 | i != s.guards[g].id && CleanAt(s, i)
      ensures CleanAt(AfterPut(s, g, data), i) && View(AfterPut(s, g, data), i) == View(s, i)
    {
      PutView(s, g, data, i);
    }
  }

  lemma FlushOneRun(s: State, id: u64, failed: bool, torn: Option<Slot>, s': State) returns (ls: seq<Label>)
    requires Inv(s) && s.control.Idle? && CanFlush(s, id)
    requires s' == if failed then s.(disk := Torn(s.disk, id, torn)) else AfterFlush(s, id)
    ensures Run(s, ls, s') && AllInvisible(ls)
  {
    var l := if failed then FlushOneFailed(id, torn) else FlushOne(id);
    OneStep(s, l);
    ls := [l];
  }

  /** `flush`: nothing to do, or the page is on the store and clean, or the write failed. */
  ghost predicate FlushedOne(s: State, id: u64, r: Result<()>, s': State) {
    if id !in s.resident || s.resident[id] >= |s.frames| || !s.frames[s.resident[id]].dirty then
      r.Success? && s' == s
    else if r.Success? then
      s' == AfterFlush(s, id)
    else
      r.error == Io && exists torn: Option<Slot> :: s' == s.(disk := Torn(s.disk, id, torn))
  }

  /** What `take_slot` may do once the sweep is over. */
  ghost predicate SweptOutcome(swept: State, r: Result<nat>, torn: Option<Slot>, s': State) {
    if !swept.control.Evicting? then
      r == Failure(BufferPoolExhausted(|swept.frames|)) && s' == AfterReturn(swept)
    else
      && swept.control.slot < |swept.frames|
      && (r.Success? ==> r.value == swept.control.slot && s' == AfterEvict(swept))
      && (r.Failure? ==> r.error == Io && swept.frames[swept.control.slot].dirty && s' == AfterEvictFailed(swept, torn))
  }

  /** What `take_slot` may do, in terms of the step system. */
  ghost predicate TakeOutcome(s: State, op: Op, r: Result<nat>, torn: Option<Slot>, s': State)
    requires s.hand < |s.frames|
  {
    if s.free != [] then
      r == Success(s.free[|s.free| - 1]) && s' == AfterBegin(s, op)
    else
      SweptOutcome(SweepAlone(AfterBegin(s, op)), r, torn, s')
  }

  lemma OneStep(s: State, l: Label)
    requires Enabled(s, l)
    ensures Run(s, [l], Next(s, l))
  {
    assert [l][1..] == [];
    assert Run(Next(s, l), [], Next(s, l));
  }

  lemma FreeFrameUnpinned(s: State)
    requires Inv(s) && s.free != [] && s.control.Idle?
    ensures exists k :: 0 <= k < |s.frames| && s.frames[k].pin == 0
  {
    var k := s.free[0];
    assert k in s.free;
    UnmappedIsUnpinned(s, k);
  }

  /** The sweep gives up exactly when every frame is pinned. */
  lemma SweepVerdict(s: State)
    requires Inv(s) && s.control.Sweeping? && s.control.steps == 0
    ensures SweepAlone(s).control.Sweeping? <==> AllPinned(s)
  {
    SweepExact(s);
    if k :| 0 <= k < |s.frames| && s.frames[k].pin == 0 {
      assert Unpinned(s, k);
    } else {
      forall k: nat ensures !Unpinned(s, k) && !Fresh(s, k) {}
    }
  }

  lemma SweepRun(s: State, op: Op) returns (ls: seq<Label>)
    requires Inv(s) && CanBegin(s, op) && s.free == []
    ensures Run(s, ls, SweepAlone(AfterBegin(s, op))) && Inv(SweepAlone(AfterBegin(s, op)))
    ensures AllInvisible(ls) && MissRun(op, ls)
  {
    var begun := AfterBegin(s, op);
    OneStep(s, Begin(op));
    BeginInv(s, op);
    var sweeps := SweepAloneRun(begun);
    PoolInvariant.RunInv(begun, sweeps, SweepAlone(begun));
    RunAppend(s, [Begin(op)], begun, sweeps, SweepAlone(begun));
    ls := [Begin(op)] + sweeps;
  }

  /** The sweep's run and the step that ends it. */
  lemma SweptRun(s: State, op: Op, before: seq<Label>, swept: State, r: Result<nat>, torn: Option<Slot>, s': State) returns (ls: seq<Label>)
    requires Inv(swept) && Run(s, before, swept) && AllInvisible(before) && MissRun(op, before)
    requires SweptOutcome(swept, r, torn, s') && (swept.control.Evicting? || CanExhaust(swept))
    ensures Run(s, ls, s') && Inv(s') && AllInvisible(ls) && MissRun(op, ls)
  {
    var last := LastStep(swept, r, torn);
    LastStepTo(swept, r, torn, s');
    ExtendRun(s, before, swept, last, s');
    MissSnoc(op, before, last);
    ls := before + [last];
  }

  /** Whatever `take_slot` does is an invisible run. */
  lemma TakeRun(s: State, op: Op, r: Result<nat>, torn: Option<Slot>, s': State) returns (ls: seq<Label>)
    requires Inv(s) && CanBegin(s, op) && TakeOutcome(s, op, r, torn, s')
    ensures Run(s, ls, s') && Inv(s') && AllInvisible(ls) && MissRun(op, ls)
  {
    if s.free != [] {
      OneStep(s, Begin(op));
      BeginInv(s, op);
      ls := [Begin(op)];
    } else {
      var before := SweepRun(s, op);
      SweepAloneBounds(AfterBegin(s, op));
      ls := SweptRun(s, op, before, SweepAlone(AfterBegin(s, op)), r, torn, s');
    }
  }

  lemma TakeControl(s: State, op: Op, r: Result<nat>, torn: Option<Slot>, s': State)
    requires Inv(s) && CanBegin(s, op) && TakeOutcome(s, op, r, torn, s')
    ensures r.Success? ==> s'.control == Filling(op, r.value)
    ensures r.Failure? ==> s'.control == Idle && (r.error == Io || r.error == BufferPoolExhausted(|s.frames|))
    ensures s'.guards == s.guards && |s'.frames| == |s.frames|
  {
    if s.free == [] { SweepAloneBounds(AfterBegin(s, op)); }
  }

  lemma TakeVerdict(s: State, op: Op, r: Result<nat>, torn: Option<Slot>, s': State)
    requires Inv(s) && CanBegin(s, op) && TakeOutcome(s, op, r, torn, s')
    ensures r == Failure(BufferPoolExhausted(|s.frames|)) <==> AllPinned(s)
  {
    if s.free != [] {
      FreeFrameUnpinned(s);
    } else {
      BeginInv(s, op);
      SweepVerdict(AfterBegin(s, op));
      SweepAloneBounds(AfterBegin(s, op));
    }
  }

  /** The step after the sweep: giving up, evicting, or failing to flush the victim. */
  ghost function LastStep(swept: State, r: Result<nat>, torn: Option<Slot>): Label {
    if !swept.control.Evicting? || swept.control.slot >= |swept.frames| then Exhausted
    else if r.Failure? then EvictFailed(torn)
    else if swept.frames[swept.control.slot].dirty then EvictDirty
    else EvictClean
  }

  lemma LastStepTo(swept: State, r: Result<nat>, torn: Option<Slot>, s': State)
    requires Inv(swept) && SweptOutcome(swept, r, torn, s')
    requires swept.control.Evicting? || CanExhaust(swept)
    ensures Enabled(swept, LastStep(swept, r, torn)) && s' == Next(swept, LastStep(swept, r, torn))
    ensures r.Success? ==> s'.control == Filling(swept.control.op, r.value)
    ensures r.Failure? ==> s'.control == Idle && (r.error == Io || r.error == BufferPoolExhausted(|swept.frames|))
  {
    if swept.control.Evicting? { EvictionNeverWaits(swept); }
  }

  // ---------- flush_all ----------

  /** Nobody is borrowing a page that has to be flushed, so a flush waits for nobody. */
  ghost predicate Unborrowed(s: State) {
    forall id :: id in s.resident && s.resident[id] < |s.frames| && s.frames[s.resident[id]].dirty ==> LockFree(s, s.resident[id])
  }

  /** What one iteration does to the state. */
  ghost predicate FlushNextOutcome(t: State, id: u64, r: Result<()>, torn: Option<Slot>, t': State) {
    && t.control.FlushingAll? && id in t.resident && t.resident[id] < |t.frames|
    && (r.Success? ==> t' == if t.frames[t.resident[id]].dirty then Done(AfterFlush(t, id), id) else Done(t, id))
    && (r.Failure? ==> r.error == Io && t.frames[t.resident[id]].dirty && t' == AfterReturn(t.(disk := Torn(t.disk, id, torn))))
  }

  /** `s'` has every dirty page of `s` written to the store and marked clean, and nothing else changed. */
  ghost predicate AllFlushed(s: State, s': State) {
    && s'.resident == s.resident && |s'.frames| == |s.frames| && s'.guards == s.guards
    && (forall id: u64 :: id !in s.resident ==> Stored(s'.disk, id) == Stored(s.disk, id))
    && (forall id: u64 :: id in s.resident && s.resident[id] < |s.frames| ==> FlushedAt(s, s', id))
  }

  ghost predicate FlushedAt(s: State, s': State, id: u64)
    requires id in s.resident && s.resident[id] < |s.frames| == |s'.frames|
  {
    var slot := s.resident[id];
    && s'.frames[slot] == s.frames[slot].(dirty := false)
    && Stored(s'.disk, id) == if s.frames[slot].dirty then Some(s.frames[slot].page) else Stored(s.disk, id)
  }

  /** Part of the way through: what is off the list is done, what is on it is untouched. */
  ghost predicate FlushedSoFar(s: State, ls: seq<Label>, t: State) {
    && Inv(t) && Run(s, ls, t) && AllInvisible(ls) && FlushAllSteps(ls) && FlushedPart(s, t)
  }

  ghost predicate FlushedPart(s: State, t: State) {
    && t.control.FlushingAll?
    && Unborrowed(t)
    && t.resident == s.resident && |t.frames| == |s.frames| && t.guards == s.guards
    && (forall id: u64 :: id !in s.resident ==> Stored(t.disk, id) == Stored(s.disk, id))
    && (forall id: u64 :: id in s.resident && s.resident[id] < |s.frames| && id !in t.control.todo ==> FlushedAt(s, t, id))
    && (forall id: u64 :: id in s.resident && s.resident[id] < |s.frames| && id in t.control.todo ==>
          t.frames[s.resident[id]] == s.frames[s.resident[id]] && Stored(t.disk, id) == Stored(s.disk, id))
  }

  lemma BeginRun(s: State) returns (ls: seq<Label>)
    requires s.control.Idle?
    ensures ls == [BeginFlushAll] && Run(s, ls, s.(control := FlushingAll(s.resident.Keys)))
  {
    OneStep(s, BeginFlushAll);
    ls := [BeginFlushAll];
  }

  lemma FlushedSoFarStart(s: State)
    requires Inv(s) && s.control.Idle? && Unborrowed(s)
    ensures FlushedSoFar(s, [BeginFlushAll], s.(control := FlushingAll(s.resident.Keys)))
  {
    var ls := BeginRun(s);
    ControlOnlyInv(s, FlushingAll(s.resident.Keys));
  }

  ghost function FlushLabelFor(t: State, id: u64, r: Result<()>, torn: Option<Slot>): Label {
    if r.Failure? then FlushNextFailed(id, torn)
    else if id in t.resident && t.resident[id] < |t.frames| && t.frames[t.resident[id]].dirty then FlushNext(id)
    else FlushNextClean(id)
  }

  lemma FlushLabelEnabled(t: State, id: u64, r: Result<()>, torn: Option<Slot>, t': State)
    requires Inv(t) && Unborrowed(t) && t.control.FlushingAll? && id in t.control.todo && FlushNextOutcome(t, id, r, torn, t')
    ensures Enabled(t, FlushLabelFor(t, id, r, torn)) && t' == Next(t, FlushLabelFor(t, id, r, torn))
  {
  }

  lemma FlushNextRun(s: State, ls: seq<Label>, t: State, id: u64, r: Result<()>, torn: Option<Slot>, t': State) returns (more: seq<Label>)
    requires FlushedSoFar(s, ls, t) && id in t.control.todo && FlushNextOutcome(t, id, r, torn, t')
    ensures Inv(t') && Run(s, more, t') && AllInvisible(more) && FlushAllSteps(more)
  {
    var l := FlushLabelFor(t, id, r, torn);
    FlushLabelEnabled(t, id, r, torn, t');
    ExtendRun(s, ls, t, l, t');
    more := ls + [l];
  }

  lemma OthersUntouched(t: State, id: u64, r: Result<()>, torn: Option<Slot>, t': State, i: u64)
    requires Inv(t) && FlushNextOutcome(t, id, r, torn, t') && r.Success?
    requires i != id && i in t.resident
    ensures |t'.frames| == |t.frames| && t'.frames[t.resident[i]] == t.frames[t.resident[i]]
    ensures Stored(t'.disk, i) == Stored(t.disk, i)
  {
    assert t.frames[t.resident[i]].id == i && t.frames[t.resident[id]].id == id;
  }

  lemma FlushedStays(s: State, t: State, t': State, i: u64)
    requires i in s.resident && s.resident[i] < |s.frames| == |t.frames| == |t'.frames| && FlushedAt(s, t, i)
    requires t'.frames[s.resident[i]] == t.frames[s.resident[i]] && Stored(t'.disk, i) == Stored(t.disk, i)
    ensures FlushedAt(s, t', i)
  {
  }

  lemma FlushedHere(s: State, t: State, id: u64, r: Result<()>, torn: Option<Slot>, t': State)
    requires Inv(t) && FlushedPart(s, t) && id in t.control.todo && FlushNextOutcome(t, id, r, torn, t') && r.Success?
    ensures id in s.resident && s.resident[id] < |s.frames| == |t'.frames| && FlushedAt(s, t', id)
  {
  }

  lemma FlushedElsewhere(s: State, t: State, id: u64, r: Result<()>, torn: Option<Slot>, t': State, i: u64)
    requires Inv(t) && FlushedPart(s, t) && id in t.control.todo && FlushNextOutcome(t, id, r, torn, t') && r.Success?
    requires i != id && i in s.resident && s.resident[i] < |s.frames|
    ensures |t'.frames| == |s.frames|
    ensures i !in t.control.todo ==> FlushedAt(s, t', i)
    ensures i in t.control.todo ==> t'.frames[s.resident[i]] == s.frames[s.resident[i]] && Stored(t'.disk, i) == Stored(s.disk, i)
  {
    OthersUntouched(t, id, r, torn, t', i);
    if i !in t.control.todo { FlushedStays(s, t, t', i); }
  }

  lemma StaysUnborrowed(t: State, id: u64, r: Result<()>, torn: Option<Slot>, t': State)
    requires Inv(t) && Unborrowed(t) && FlushNextOutcome(t, id, r, torn, t') && r.Success?
    ensures Unborrowed(t') && t'.control.FlushingAll? && t'.resident == t.resident && |t'.frames| == |t.frames| && t'.guards == t.guards
    ensures forall i: u64 :: i != id ==> Stored(t'.disk, i) == Stored(t.disk, i)
  {
  }

  lemma FlushPartAdvance(s: State, t: State, id: u64, r: Result<()>, torn: Option<Slot>, t': State)
    requires Inv(t) && FlushedPart(s, t) && id in t.control.todo && FlushNextOutcome(t, id, r, torn, t') && r.Success?
    ensures FlushedPart(s, t')
  {
    FlushedHere(s, t, id, r, torn, t');
    StaysUnborrowed(t, id, r, torn, t');
    forall i: u64 | i != id && i in s.resident && s.resident[i] < |s.frames|
      ensures i !in t.control.todo ==> FlushedAt(s, t', i)
      ensures i in t.control.todo ==> t'.frames[s.resident[i]] == s.frames[s.resident[i]] && Stored(t'.disk, i) == Stored(s.disk, i)
    {
      FlushedElsewhere(s, t, id, r, torn, t', i);
    }
  }

  lemma FlushAdvance(s: State, ls: seq<Label>, t: State, id: u64, r: Result<()>, torn: Option<Slot>, t': State) returns (more: seq<Label>)
    requires FlushedSoFar(s, ls, t) && id in t.control.todo && FlushNextOutcome(t, id, r, torn, t') && r.Success?
    ensures FlushedSoFar(s, more, t')
  {
    more := FlushNextRun(s, ls, t, id, r, torn, t');
    FlushPartAdvance(s, t, id, r, torn, t');
  }

  lemma FlushFailed(s: State, ls: seq<Label>, t: State, id: u64, r: Result<()>, torn: Option<Slot>, t': State) returns (more: seq<Label>)
    requires Inv(s) && FlushedSoFar(s, ls, t) && id in t.control.todo && FlushNextOutcome(t, id, r, torn, t') && r.Failure?
    ensures Inv(t') && Run(s, more, t') && FlushAllSteps(more) && Transparent(s, t') && r.error == Io
  {
    more := FlushNextRun(s, ls, t, id, r, torn, t');
    InvisibleRun(s, more, t');
  }

  lemma FlushFinish(s: State, ls: seq<Label>, t: State) returns (more: seq<Label>)
    requires Inv(s) && FlushedSoFar(s, ls, t) && t.control == FlushingAll({})
    ensures Inv(AfterReturn(t)) && Run(s, more, AfterReturn(t)) && FlushAllSteps(more)
    ensures Transparent(s, AfterReturn(t)) && AllFlushed(s, AfterReturn(t))
  {
    ExtendRun(s, ls, t, EndFlushAll, AfterReturn(t));
    more := ls + [EndFlushAll];
    InvisibleRun(s, more, AfterReturn(t));
    AllFlushedAtEnd(s, t);
  }

  lemma AllFlushedAtEnd(s: State, t: State)
    requires FlushedPart(s, t) && t.control == FlushingAll({})
    ensures AllFlushed(s, AfterReturn(t))
  {
    forall id: u64 | id in s.resident && s.resident[id] < |s.frames| ensures FlushedAt(s, AfterReturn(t), id) {
      assert FlushedAt(s, t, id);
    }
  }
}
