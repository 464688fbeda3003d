/**
 What becomes of a checkpointed allocator once the stack goes on: which writes leave it on
 the store, which do not, and how a page flushed too late destroys it.
 */
module AfterCheckpoint {
  import opened PageError
  import opened Fields
  import opened Disk
  import opened Chain
  import opened FreeChain
  import opened PoolSystem
  import opened PoolInvariant
  import opened Checkpoint
  import Runs = AllocatorRuns

  // ---------- One write ----------

  /** Two stores that agree on page 0 and on the pages of a chain describe it alike. */
  lemma {:induction false} ChainReadsItsPages(d: Disk, d': Disk, cur: u64, next: u64, l: seq<u64>)
    requires forall id :: id in l ==> Stored(d', id) == Stored(d, id)
    requires IsChain(Links(d), cur, next, l)
    ensures IsChain(Links(d'), cur, next, l)
    decreases |l|
  {
    if l != [] {
      SameLink(d, d', cur);
      ChainReadsItsPages(d, d', Links(d)[cur], next, l[1..]);
    }
  }

  lemma SameLink(d: Disk, d': Disk, id: u64)
    requires Stored(d', id) == Stored(d, id)
    ensures id in Links(d) <==> id in Links(d')
    ensures id in Links(d) ==> Links(d')[id] == Links(d)[id]
  {
  }

  /** What a store describes depends on page 0 and the free pages only. */
  lemma DescribesLocally(d: Disk, d': Disk, l: seq<u64>, next: u64)
    requires Describes(d, l, next) && Stored(d', 0) == Stored(d, 0)
    requires forall id :: id in l ==> Stored(d', id) == Stored(d, id)
    ensures Describes(d', l, next)
  {
    ChainReadsItsPages(d, d', ReadU64(Stored(d, 0).value.payload, SB_HEAD_OFF), next, l);
  }

  /** The link the chain needs at a free id. */
  lemma {:induction false} ChainLinkAt(links: map<u64, u64>, cur: u64, next: u64, l: seq<u64>, i: nat)
    requires IsChain(links, cur, next, l) && i < |l|
    ensures l[i] in links && links[l[i]] == Successor(l, i)
    decreases i
  {
    if i > 0 {
      ChainLinkAt(links, links[cur], next, l[1..], i - 1);
    }
  }

  /** Writing a readable page other than page 0. */
  lemma PageAfterSync(d: Disk, l: seq<u64>, next: u64, id: u64, page: PageData)
    requires Describes(d, l, next) && id != 0
    ensures Describes(d[id := page], l, next) <==>
            forall i :: 0 <= i < |l| && l[i] == id ==> ReadU64(page.payload, LINK_NEXT_OFF) == Successor(l, i)
  {
    var d' := d[id := page];
    var head := ReadU64(Stored(d, 0).value.payload, SB_HEAD_OFF);
    assert Stored(d', 0) == Stored(d, 0);
    assert id in Links(d') && Links(d')[id] == ReadU64(page.payload, LINK_NEXT_OFF);
    if Describes(d', l, next) {
      forall i | 0 <= i < |l| && l[i] == id ensures ReadU64(page.payload, LINK_NEXT_OFF) == Successor(l, i) {
        ChainLinkAt(Links(d'), head, next, l, i);
      }
    }
    if forall i :: 0 <= i < |l| && l[i] == id ==> ReadU64(page.payload, LINK_NEXT_OFF) == Successor(l, i) {
      SameLinksSameChain(Links(d), Links(d'), head, next, l, d, d', id);
    }
  }

  lemma SameLinksSameChain(links: map<u64, u64>, links': map<u64, u64>, head: u64, next: u64, l: seq<u64>, d: Disk, d': Disk, id: u64)
    requires links == Links(d) && links' == Links(d') && IsChain(links, head, next, l)
    requires forall k: u64 :: k != id ==> Stored(d', k) == Stored(d, k)
    requires id in links' && forall i :: 0 <= i < |l| && l[i] == id ==> links'[id] == Successor(l, i)
    ensures IsChain(links', head, next, l)
  {
    forall i | 0 <= i < |l| ensures l[i] in links' && links'[l[i]] == Successor(l, i) {
      ChainLinkAt(links, head, next, l, i);
      if l[i] != id { SameLink(d, d', l[i]); }
    }
    ChainNoDuplicates(links, head, next, l);
    LinksMakeChain(links', next, l, 0);
    assert l[0..] == l;
    assert l == [] ==> head == Chain.NO_PAGE;
  }

  lemma {:induction false} LinksMakeChain(links: map<u64, u64>, next: u64, l: seq<u64>, i: nat)
    requires i <= |l| && InRange(l, next)
    requires forall k :: 0 <= k < |l| ==> l[k] in links && links[l[k]] == Successor(l, k)
    ensures IsChain(links, At(l, i), next, l[i..])
    decreases |l| - i
  {
    if i < |l| {
      LinksMakeChain(links, next, l, i + 1);
      assert l[i..][1..] == l[i + 1..];
    }
  }

  /** Losing a page other than page 0. */
  lemma LossAfterSync(d: Disk, l: seq<u64>, next: u64, id: u64)
    requires Describes(d, l, next) && id != 0
    ensures Describes(d - {id}, l, next) <==> id !in l
  {
    if id in l {
      var i :| 0 <= i < |l| && l[i] == id;
      if Describes(d - {id}, l, next) {
        ChainLinkAt(Links(d - {id}), ReadU64(Stored(d, 0).value.payload, SB_HEAD_OFF), next, l, i);
      }
    } else {
      DescribesLocally(d, d - {id}, l, next);
    }
  }

  /** A slot 0 that says the same. */
  ghost predicate SameSuperblock(slot: Slot, l: seq<u64>, next: u64) {
    && slot.Good? && HasSuperblock(slot.data.payload)
    && ReadU64(slot.data.payload, SB_HEAD_OFF) == Head(l) && ReadU64(slot.data.payload, SB_NEXT_OFF) == next
    && ReadU64(slot.data.payload, SB_FREECOUNT_OFF) == |l|
  }

  lemma HeadOfChain(links: map<u64, u64>, head: u64, next: u64, l: seq<u64>)
    requires IsChain(links, head, next, l)
    ensures head == Head(l)
  {
  }

  lemma SuperblockAfterSync(d: Disk, l: seq<u64>, next: u64, data: PageData)
    requires Describes(d, l, next)
    ensures Describes(d[0 := data], l, next) <==> SameSuperblock(Good(data), l, next)
  {
    var p := data.payload;
    var links, links' := Links(d), Links(d[0 := data]);
    var head := ReadU64(Stored(d, 0).value.payload, SB_HEAD_OFF);
    HeadOfChain(links, head, next, l);
    SuperblockLink(d, data);
    ChainElsewhere(links, links', head, next, l);
    assert Stored(d[0 := data], 0) == Some(data);
    if IsChain(links', ReadU64(p, SB_HEAD_OFF), next, l) { HeadOfChain(links', ReadU64(p, SB_HEAD_OFF), next, l); }
  }

  /** What lands in slot `id` leaves the allocator's state as it is. */
  ghost predicate Fits(l: seq<u64>, next: u64, id: u64, slot: Slot) {
    if id == 0 then
      SameSuperblock(slot, l, next)
    else
      forall i :: 0 <= i < |l| && l[i] == id ==> slot.Good? && ReadU64(slot.data.payload, LINK_NEXT_OFF) == Successor(l, i)
  }

  /**
   Whatever lands in a slot of a store that describes an allocator, whole or torn, leaves it
   describing the same one exactly when the slot is not one of the allocator's own, or what
   lands says what was there.
   */
  lemma SlotAfterSync(d: Disk, l: seq<u64>, next: u64, id: u64, slot: Slot)
    requires Describes(d, l, next)
    ensures Describes(WithSlot(d, id, slot), l, next) <==> Fits(l, next, id, slot)
  {
    match slot
    case Good(data) =>
      if id == 0 { SuperblockAfterSync(d, l, next, data); } else { PageAfterSync(d, l, next, id, data); }
    case Corrupt =>
      if id != 0 { LossAfterSync(d, l, next, id); }
  }

  // ---------- Every step and every act ----------

  /** The slot a step of the pool writes, and what lands in it. */
  ghost function Written(s: State, l: Label): Option<(u64, Slot)>
    requires Enabled(s, l)
  {
    match l
    case EvictDirty => Some((s.frames[s.control.slot].id, Good(s.frames[s.control.slot].page)))
    case EvictFailed(torn) => LandedIn(s.frames[s.control.slot].id, torn)
    case FlushOne(id) => Some((id, Good(s.frames[s.resident[id]].page)))
    case FlushNext(id) => Some((id, Good(s.frames[s.resident[id]].page)))
    case FlushOneFailed(id, torn) => LandedIn(id, torn)
    case FlushNextFailed(id, torn) => LandedIn(id, torn)
    case _ => None
  }

  function LandedIn(id: u64, torn: Option<Slot>): Option<(u64, Slot)> {
    if torn.Some? then Some((id, torn.value)) else None
  }

  function WithWritten(d: Disk, w: Option<(u64, Slot)>): Disk {
    if w.Some? then WithSlot(d, w.value.0, w.value.1) else d
  }

  lemma GuardsWriteNothing(s: State, l: Label)
    requires Inv(s) && Enabled(s, l) && ByGuard(l)
    ensures Next(s, l).disk == s.disk && Written(s, l) == None
  {
  }

  lemma EvictionWrites(s: State, l: Label)
    requires Inv(s) && Enabled(s, l) && (l.EvictDirty? || l.EvictClean? || l.EvictFailed?)
    ensures Next(s, l).disk == WithWritten(s.disk, Written(s, l))
  {
  }

  lemma FlushWrites(s: State, l: Label)
    requires Inv(s) && Enabled(s, l) && (l.FlushOne? || l.FlushNext? || l.FlushOneFailed? || l.FlushNextFailed?)
    ensures Next(s, l).disk == WithWritten(s.disk, Written(s, l))
  {
  }

  /** What is written is all that happens to the store. */
  lemma WrittenIsAll(s: State, l: Label)
    requires Inv(s) && Enabled(s, l)
    ensures Next(s, l).disk == WithWritten(s.disk, Written(s, l))
  {
    if ByGuard(l) {
      GuardsWriteNothing(s, l);
    } else if l.EvictDirty? || l.EvictClean? || l.EvictFailed? {
      EvictionWrites(s, l);
    } else if l.FlushOne? || l.FlushNext? || l.FlushOneFailed? || l.FlushNextFailed? {
      FlushWrites(s, l);
    }
  }

  ghost predicate WriteFits(l: seq<u64>, next: u64, w: Option<(u64, Slot)>) {
    w.Some? ==> Fits(l, next, w.value.0, w.value.1)
  }

  /** A step of the pool leaves a checkpointed allocator on the store exactly when what it writes fits. */
  lemma StepAfterSync(s: State, step: Label, l: seq<u64>, next: u64)
    requires Inv(s) && Enabled(s, step) && Describes(s.disk, l, next)
    ensures Describes(Next(s, step).disk, l, next) <==> WriteFits(l, next, Written(s, step))
  {
    WrittenIsAll(s, step);
    var w := Written(s, step);
    if w.Some? { SlotAfterSync(s.disk, l, next, w.value.0, w.value.1); }
  }

  ghost predicate WritesFit(s: State, ls: seq<Label>, l: seq<u64>, next: u64)
    decreases |ls|
  {
    ls != [] && Enabled(s, ls[0]) ==> WriteFits(l, next, Written(s, ls[0])) && WritesFit(Next(s, ls[0]), ls[1..], l, next)
  }

  ghost predicate DescribesThroughout(s: State, ls: seq<Label>, l: seq<u64>, next: u64)
    decreases |ls|
  {
    Describes(s.disk, l, next) && (ls != [] && Enabled(s, ls[0]) ==> DescribesThroughout(Next(s, ls[0]), ls[1..], l, next))
  }

  /** Over any run the checkpoint is on the store throughout exactly when every write fits, freed ids reused or not. */
  lemma {:induction false} RunAfterSync(s: State, ls: seq<Label>, s': State, l: seq<u64>, next: u64)
    requires Inv(s) && Run(s, ls, s') && Describes(s.disk, l, next)
    ensures DescribesThroughout(s, ls, l, next) <==> WritesFit(s, ls, l, next)
    ensures WritesFit(s, ls, l, next) ==> Describes(s'.disk, l, next)
    decreases |ls|
  {
    if ls != [] {
      var t := Next(s, ls[0]);
      StepAfterSync(s, ls[0], l, next);
      StepInv(s, ls[0]);
      if Describes(t.disk, l, next) {
        RunAfterSync(t, ls[1..], s', l, next);
      }
    }
  }

  ghost function WrittenByAct(sys: System, a: Act): Option<(u64, Slot)>
    requires a.PoolAct? ==> Enabled(sys.pool, a.l)
  {
    match a
    case PoolAct(l) => Written(sys.pool, l)
    case LedgerAct(_) => None
    case AllocatorWrite(id, slot) => Some((id, slot))
    case Reopening(_, _) => None
    case Initialising => Some((0, Good(EmptySuperblock(sys.pool.payloadLen))))
    case Appearing(id, page) => Some((id, Good(page)))
  }

  lemma ActWritten(sys: System, a: Act, sys': System)
    requires Inv(sys.pool) && Can(sys, a, sys')
    ensures sys'.pool.disk == WithWritten(sys.pool.disk, WrittenByAct(sys, a))
  {
    if a.PoolAct? { WrittenIsAll(sys.pool, a.l); }
  }

  /** The same for every act of anyone: the pool, the callers, and the allocator itself at its next sync. */
  lemma ActAfterSync(sys: System, a: Act, sys': System, l: seq<u64>, next: u64)
    requires Inv(sys.pool) && Can(sys, a, sys') && Describes(sys.pool.disk, l, next)
    ensures Describes(sys'.pool.disk, l, next) <==> WriteFits(l, next, WrittenByAct(sys, a))
  {
    ActWritten(sys, a, sys');
    var w := WrittenByAct(sys, a);
    if w.Some? { SlotAfterSync(sys.pool.disk, l, next, w.value.0, w.value.1); }
  }

  // ---------- Histories ----------

  lemma ActInv(sys: System, a: Act, sys': System)
    requires Inv(sys.pool) && Can(sys, a, sys')
    ensures Inv(sys'.pool)
  {
    if a.PoolAct? {
      StepInv(sys.pool, a.l);
    } else {
      SameTable(sys.pool, sys'.pool);
      SameGuardPart(sys.pool, sys'.pool);
    }
  }

  lemma {:induction false} PoolInvAt(states: seq<System>, acts: seq<Act>, i: nat)
    requires History(states, acts) && Inv(states[0].pool) && i < |states|
    ensures Inv(states[i].pool)
    decreases i
  {
    if i > 0 {
      PoolInvAt(states, acts, i - 1);
      ActInv(states[i - 1], acts[i - 1], states[i]);
    }
  }

  /** What act `k` of a history writes leaves this allocator on the store. */
  ghost predicate ActFits(states: seq<System>, acts: seq<Act>, k: nat, l: seq<u64>, next: u64)
    requires k < |acts| < |states|
  {
    (acts[k].PoolAct? ==> Enabled(states[k].pool, acts[k].l)) ==> WriteFits(l, next, WrittenByAct(states[k], acts[k]))
  }

  lemma DescribedNext(states: seq<System>, acts: seq<Act>, l: seq<u64>, next: u64, i: nat)
    requires History(states, acts) && 0 < i < |states| && Inv(states[i - 1].pool) && Describes(states[i - 1].pool.disk, l, next)
    requires forall k :: 0 <= k < i ==> ActFits(states, acts, k, l, next)
    ensures Describes(states[i].pool.disk, l, next)
  {
    assert Can(states[i - 1], acts[i - 1], states[i]);
    assert ActFits(states, acts, i - 1, l, next);
    ActAfterSync(states[i - 1], acts[i - 1], states[i], l, next);
  }

  lemma {:induction false} DescribedAt(states: seq<System>, acts: seq<Act>, l: seq<u64>, next: u64, i: nat)
    requires History(states, acts) && Inv(states[0].pool) && Describes(states[0].pool.disk, l, next) && i < |states|
    requires forall k :: 0 <= k < i ==> ActFits(states, acts, k, l, next)
    ensures Describes(states[i].pool.disk, l, next)
    decreases i
  {
    if i > 0 {
      DescribedAt(states, acts, l, next, i - 1);
      PoolInvAt(states, acts, i - 1);
      DescribedNext(states, acts, l, next, i);
    }
  }

  /** Over any history a checkpoint is on the store throughout if and only if everything written fits it. */
  lemma HistoryAfterSync(states: seq<System>, acts: seq<Act>, l: seq<u64>, next: u64)
    requires History(states, acts) && Inv(states[0].pool) && Describes(states[0].pool.disk, l, next)
    ensures (forall i :: 0 <= i < |states| ==> Describes(states[i].pool.disk, l, next))
       <==> (forall k :: 0 <= k < |acts| ==> ActFits(states, acts, k, l, next))
  {
    if forall i :: 0 <= i < |states| ==> Describes(states[i].pool.disk, l, next) {
      forall k | 0 <= k < |acts| ensures ActFits(states, acts, k, l, next) {
        PoolInvAt(states, acts, k);
        assert Describes(states[k].pool.disk, l, next) && Describes(states[k + 1].pool.disk, l, next);
        ActAfterSync(states[k], acts[k], states[k + 1], l, next);
      }
    }
    if forall k :: 0 <= k < |acts| ==> ActFits(states, acts, k, l, next) {
      forall i | 0 <= i < |states| ensures Describes(states[i].pool.disk, l, next) { DescribedAt(states, acts, l, next, i); }
    }
  }

  /**
   When everything written since a checkpoint fits it, opening the allocator anew gives that
   checkpoint and nothing else.  It is safe if and only if no id held by now is free in the
   checkpoint or beyond its mark, and the numbers add up.
   */
  lemma ReopeningAfterSync(states: seq<System>, acts: seq<Act>, l: seq<u64>, next: u64, j: nat)
    requires History(states, acts) && Inv(states[0].pool) && Describes(states[0].pool.disk, l, next)
    requires j < |acts| && acts[j].Reopening? && forall k :: 0 <= k < j ==> ActFits(states, acts, k, l, next)
    ensures acts[j] == Reopening(l, next) && states[j + 1].ledger.alloc == Runs.Alloc(l, next)
    ensures Sound(states[j]) ==> (Sound(states[j + 1]) <==> Runs.FitsLive(states[j].ledger.live, l, next))
  {
    DescribedAt(states, acts, l, next, j);
    assert Can(states[j], acts[j], states[j + 1]);
    DescribesUnique(states[j].pool.disk, l, next, acts[j].free, acts[j].next);
    if Sound(states[j]) { ActSound(states[j], acts[j], states[j + 1]); }
  }

  /** Acts that leave the ledger as it is. */
  predicate KeepsLedger(a: Act) { !a.Reopening? && !a.Initialising? && (a.LedgerAct? ==> a.e.Refused?) }

  lemma {:induction false} LedgerAt(states: seq<System>, acts: seq<Act>, i: nat)
    requires History(states, acts) && i < |states| && forall k {:trigger acts[k]} :: 0 <= k < i ==> KeepsLedger(acts[k])
    ensures states[i].ledger == states[0].ledger
    decreases i
  {
    if i > 0 {
      LedgerAt(states, acts, i - 1);
      assert KeepsLedger(acts[i - 1]) && Can(states[i - 1], acts[i - 1], states[i]);
    }
  }

  /** With no id handed out or freed since the checkpoint either, opening the allocator anew changes nothing at all. */
  lemma ReopeningChangesNothing(states: seq<System>, acts: seq<Act>, j: nat)
    requires History(states, acts) && Inv(states[0].pool) && j < |acts| && acts[j].Reopening?
    requires Describes(states[0].pool.disk, states[0].ledger.alloc.free, states[0].ledger.alloc.next)
    requires forall k :: 0 <= k < j ==> ActFits(states, acts, k, states[0].ledger.alloc.free, states[0].ledger.alloc.next)
    requires forall k {:trigger acts[k]} :: 0 <= k < j ==> KeepsLedger(acts[k])
    ensures states[j + 1] == states[j]
  {
    ReopeningAfterSync(states, acts, states[0].ledger.alloc.free, states[0].ledger.alloc.next, j);
    LedgerAt(states, acts, j);
    assert Can(states[j], acts[j], states[j + 1]);
  }

  // ---------- What a write leaves ----------

  /** Links that agree along the chain up to `l[i]` lead there. */
  lemma {:induction false} PathAlong(links: map<u64, u64>, links': map<u64, u64>, head: u64, next: u64, l: seq<u64>, i: nat)
    requires IsChain(links, head, next, l) && i < |l|
    requires forall k :: 0 <= k < i ==> l[k] in links && l[k] in links' && links'[l[k]] == links[l[k]]
    ensures Path(links', head, next, l[..i], l[i])
    decreases i
  {
    if i > 0 {
      assert l[0] in links' && links'[l[0]] == links[head];
      PathAlong(links, links', links[head], next, l[1..], i - 1);
      assert l[..i][1..] == l[1..][..i - 1];
    }
  }

  lemma {:induction false} PathThenChain(links: map<u64, u64>, head: u64, next: u64, ids: seq<u64>, cur: u64, c: seq<u64>)
    requires Path(links, head, next, ids, cur) && IsChain(links, cur, next, c)
    ensures IsChain(links, head, next, ids + c)
    decreases |ids|
  {
    if ids == [] {
      assert ids + c == c;
    } else {
      assert (ids + c)[1..] == ids[1..] + c;
      PathThenChain(links, links[head], next, ids[1..], cur, c);
    }
  }

  /** The links before `l[i]` survive a change at `l[i]`. */
  lemma PathToChange(d: Disk, d': Disk, l: seq<u64>, next: u64, i: nat)
    requires Describes(d, l, next) && i < |l|
    requires forall id: u64 :: id != l[i] ==> Stored(d', id) == Stored(d, id)
    ensures 0 in d' && DescribedHead(d') == DescribedHead(d) && Path(Links(d'), DescribedHead(d'), next, l[..i], l[i])
    ensures l[i] != Chain.NO_PAGE && 1 <= l[i] < next
  {
    DescribedIds(d, l, next);
    assert Stored(d', 0) == Stored(d, 0);
    HeadOfChain(Links(d), DescribedHead(d), next, l);
    forall k | 0 <= k < i ensures l[k] in Links(d) && l[k] in Links(d') && Links(d')[l[k]] == Links(d)[l[k]] {
      ChainLinkAt(Links(d), DescribedHead(d), next, l, k);
      SameLink(d, d', l[k]);
    }
    PathAlong(Links(d), Links(d'), DescribedHead(d), next, l, i);
    ChainSuffix(Links(d), DescribedHead(d), next, l, i);
  }

  lemma SameClaims(d: Disk, d': Disk, l: seq<u64>, next: u64, l': seq<u64>, next': u64)
    requires Describes(d, l, next) && Stored(d', 0) == Stored(d, 0)
    ensures Describes(d', l', next') <==>
            next' == next && |l'| == |l| && IsChain(Links(d'), DescribedHead(d), next, l')
  {
  }

  /**
   A readable page written over free page `l[i]` leaves a store that describes exactly the
   lists that begin like the old one up to `l[i]` and go on with the chain from the new link,
   if that makes up the old length; such a list can hold ids that are not free.
   */
  lemma PageLeaves(d: Disk, l: seq<u64>, next: u64, i: nat, page: PageData, l': seq<u64>, next': u64)
    requires Describes(d, l, next) && i < |l|
    ensures Describes(d[l[i] := page], l', next') <==>
            && next' == next && |l'| == |l| && l'[..i + 1] == l[..i + 1]
            && IsChain(Links(d[l[i] := page]), ReadU64(page.payload, LINK_NEXT_OFF), next, l'[i + 1..])
  {
    var d' := d[l[i] := page];
    PathToChange(d, d', l, next, i);
    SameClaims(d, d', l, next, l', next');
    if |l'| == |l| {
      ChainThrough(Links(d'), DescribedHead(d), next, l, i, l');
    }
  }

  /** A chain that reaches `l[i]` along `l` is that path, and then a chain from the link there. */
  lemma ChainThrough(links: map<u64, u64>, head: u64, next: u64, l: seq<u64>, i: nat, l': seq<u64>)
    requires i < |l| == |l'| && l[i] in links && 1 <= l[i] < next && l[i] != Chain.NO_PAGE
    requires Path(links, head, next, l[..i], l[i])
    ensures IsChain(links, head, next, l') <==> l'[..i + 1] == l[..i + 1] && IsChain(links, links[l[i]], next, l'[i + 1..])
  {
    if IsChain(links, head, next, l') {
      PathIsPrefix(links, head, next, l[..i], l[i], l');
      assert l'[i..][1..] == l'[i + 1..] && l'[..i + 1] == l'[..i] + [l'[i..][0]];
      assert l[..i + 1] == l[..i] + [l[i]];
    }
    if l'[..i + 1] == l[..i + 1] && IsChain(links, links[l[i]], next, l'[i + 1..]) {
      ChainCons(links, l[i], next, links[l[i]], l'[i + 1..]);
      PathThenChain(links, head, next, l[..i], l[i], [l[i]] + l'[i + 1..]);
      assert l[..i] == l'[..i + 1][..i] && l[i] == l'[..i + 1][i];
      assert l' == l[..i] + ([l[i]] + l'[i + 1..]);
    }
  }

  /** A free page that can no longer be read leaves a store that describes nothing. */
  lemma LossLeaves(d: Disk, l: seq<u64>, next: u64, i: nat, l': seq<u64>, next': u64)
    requires Describes(d, l, next) && i < |l|
    ensures !Describes(d - {l[i]}, l', next')
  {
    var d' := d - {l[i]};
    PathToChange(d, d', l, next, i);
    SameClaims(d, d', l, next, l', next');
    if IsChain(Links(d'), DescribedHead(d), next, l') {
      PathIsPrefix(Links(d'), DescribedHead(d), next, l[..i], l[i], l');
    }
  }

  /** A page that is not the allocator's leaves what the store describes as it is. */
  lemma ElsewhereLeaves(d: Disk, l: seq<u64>, next: u64, id: u64, slot: Slot, l': seq<u64>, next': u64)
    requires Describes(d, l, next) && id != 0 && id !in l
    ensures Describes(WithSlot(d, id, slot), l', next') <==> l' == l && next' == next
  {
    DescribesLocally(d, WithSlot(d, id, slot), l, next);
    if Describes(WithSlot(d, id, slot), l', next') {
      DescribesUnique(WithSlot(d, id, slot), l, next, l', next');
    }
  }

  /**
   After such a write the ids are still divided if and only if the list the store now
   describes holds no id anybody holds: the mark and the length have not changed.
   */
  lemma ReopenedAfterWrite(sys: System, i: nat, page: PageData, free: seq<u64>, next: u64)
    requires Sound(sys) && Describes(sys.pool.disk, sys.ledger.alloc.free, sys.ledger.alloc.next) && i < |sys.ledger.alloc.free|
    requires Describes(sys.pool.disk[sys.ledger.alloc.free[i] := page], free, next)
    ensures Runs.FitsLive(sys.ledger.live, free, next) <==> forall id :: id in sys.ledger.live ==> id !in free
    ensures Runs.Partition(Runs.Ledger(Runs.Alloc(free, next), sys.ledger.live)) <==> forall id :: id in sys.ledger.live ==> id !in free
  {
    PageLeaves(sys.pool.disk, sys.ledger.alloc.free, sys.ledger.alloc.next, i, page, free, next);
    DescribedIds(sys.pool.disk[sys.ledger.alloc.free[i] := page], free, next);
    Runs.PartitionByCount(sys.ledger);
    Runs.PartitionByCount(Runs.Ledger(Runs.Alloc(free, next), sys.ledger.live));
  }

  // ---------- Traffic that keeps away ----------

  /** Callers that keep away from the ids. */
  predicate KeepsAway(l: Label, ids: set<u64>) {
    (l.Hit? ==> l.op.id !in ids) && (l.Begin? ==> l.op.id !in ids)
  }

  /** A dirty page is written under its own id, so not under a dormant one. */
  lemma DirtyElsewhere(s: State, ids: set<u64>, slot: nat)
    requires Inv(s) && Dormant(s, ids) && slot < |s.frames| && Mapped(s, slot) && s.frames[slot].dirty
    ensures s.frames[slot].id !in ids
  {
  }

  lemma WrittenElsewhere(s: State, l: Label, ids: set<u64>)
    requires Inv(s) && Enabled(s, l) && Dormant(s, ids) && Written(s, l).Some?
    ensures Written(s, l).value.0 !in ids
  {
    if l.EvictDirty? || l.EvictFailed? {
      DirtyElsewhere(s, ids, s.control.slot);
    }
  }

  lemma DormantStore(s: State, l: Label, ids: set<u64>)
    requires Inv(s) && Enabled(s, l) && Dormant(s, ids)
    ensures forall id :: id in ids ==> Stored(Next(s, l).disk, id) == Stored(s.disk, id)
  {
    WrittenIsAll(s, l);
    if Written(s, l).Some? {
      WrittenElsewhere(s, l, ids);
    }
  }

  lemma DormantTakeWrite(s: State, l: Label, ids: set<u64>, id: u64)
    requires Inv(s) && Enabled(s, l) && Dormant(s, ids) && id in ids && l.TakeWrite?
    ensures StillClean(Next(s, l), id)
  {
    if id in s.resident {
      assert s.guards[l.g].id !in ids;
      assert s.frames[s.resident[id]].id == id;
    }
  }

  lemma DormantGuardStep(s: State, l: Label, ids: set<u64>, id: u64)
    requires Inv(s) && Enabled(s, l) && Dormant(s, ids) && id in ids && ByGuard(l)
    ensures StillClean(Next(s, l), id)
  {
    if l.TakeWrite? {
      DormantTakeWrite(s, l, ids, id);
    }
  }

  lemma DormantHit(s: State, op: Op, g: nat, ids: set<u64>, id: u64)
    requires Inv(s) && CanHit(s, op, g) && Dormant(s, ids) && id in ids && op.id !in ids
    ensures StillClean(AfterHit(s, op, g), id)
  {
    if id in s.resident {
      assert s.frames[s.resident[op.id]].id == op.id && s.frames[s.resident[id]].id == id;
    }
  }

  lemma DormantFill(s: State, l: Label, ids: set<u64>, id: u64)
    requires Inv(s) && Enabled(s, l) && Dormant(s, ids) && id in ids && s.control.Filling? && !ByGuard(l)
    ensures StillClean(Next(s, l), id)
  {
    assert Admitting(s, s.control.op.id);
    if id in s.resident {
      assert s.frames[s.resident[id]].id == id;
      assert Taken(s, s.control.slot);
    }
  }

  lemma DormantOther(s: State, l: Label, ids: set<u64>, id: u64)
    requires Inv(s) && Enabled(s, l) && Dormant(s, ids) && id in ids && !s.control.Filling? && !ByGuard(l) && !l.Hit?
    ensures StillClean(Next(s, l), id)
  {
  }

  lemma DormantFrames(s: State, l: Label, ids: set<u64>, id: u64)
    requires Inv(s) && Enabled(s, l) && Dormant(s, ids) && KeepsAway(l, ids) && id in ids
    ensures StillClean(Next(s, l), id)
  {
    if ByGuard(l) {
      DormantGuardStep(s, l, ids, id);
    } else if l.Hit? {
      DormantHit(s, l.op, l.g, ids, id);
    } else if s.control.Filling? {
      DormantFill(s, l, ids, id);
    } else {
      DormantOther(s, l, ids, id);
    }
  }

  lemma DormantRest(s: State, l: Label, ids: set<u64>)
    requires Inv(s) && Enabled(s, l) && Dormant(s, ids) && KeepsAway(l, ids)
    ensures forall g :: g in Next(s, l).guards ==> Next(s, l).guards[g].id !in ids
    ensures forall id: u64 :: Admitting(Next(s, l), id) ==> id !in ids
  {
    assert s.control.Filling? ==> Admitting(s, s.control.op.id);
    forall g | g in Next(s, l).guards ensures Next(s, l).guards[g].id !in ids { GuardOrigin(s, l, g); }
    forall id: u64 | Admitting(Next(s, l), id) ensures id !in ids {
      if !l.Begin? { assert Admitting(s, id); }
    }
  }

  /** Over any run in which callers keep away from some ids, dormant slots stay as they are on the store. */
  lemma {:induction false} DormantRun(s: State, ls: seq<Label>, s': State, ids: set<u64>)
    requires Inv(s) && Run(s, ls, s') && Dormant(s, ids)
    requires forall i :: 0 <= i < |ls| ==> KeepsAway(ls[i], ids)
    ensures Dormant(s', ids) && forall id :: id in ids ==> Stored(s'.disk, id) == Stored(s.disk, id)
    decreases |ls|
  {
    if ls != [] {
      var t := Next(s, ls[0]);
      assert KeepsAway(ls[0], ids);
      StepInv(s, ls[0]);
      DormantStore(s, ls[0], ids);
      forall id | id in ids ensures StillClean(t, id) {
        DormantFrames(s, ls[0], ids, id);
      }
      DormantRest(s, ls[0], ids);
      DormantRun(t, ls[1..], s', ids);
    }
  }

  /**
   After a checkpoint the allocator's pages are dormant, so any amount of pool traffic on
   other pages, with evictions, flushes and failed writes, leaves it on the store.
   */
  lemma CheckpointSurvives(s: State, ls: seq<Label>, s': State, l: seq<u64>, next: u64)
    requires Inv(s) && Run(s, ls, s') && Describes(s.disk, l, next)
    requires Dormant(s, Owned(l)) && forall i :: 0 <= i < |ls| ==> KeepsAway(ls[i], Owned(l))
    ensures Describes(s'.disk, l, next)
  {
    DormantRun(s, ls, s', Owned(l));
    DescribesLocally(s.disk, s'.disk, l, next);
  }
}
