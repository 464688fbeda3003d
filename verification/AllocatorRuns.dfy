/** Every run of allocations, frees and reopenings, and what it guarantees about the ids handed out. */
module AllocatorRuns {
  import opened PageError
  import opened Disk
  import opened Chain
  import opened FreeChain

  /** The allocator's memory: the free list and the high-water mark. */
  datatype Alloc = Alloc(free: seq<u64>, next: u64)

  /** `allocate`. */
  function Allocating(a: Alloc): (Result<u64>, Alloc) {
    if a.free != [] then
      (Success(a.free[|a.free| - 1]), a.(free := a.free[..|a.free| - 1]))
    else if a.next + 1 <= 0xffff_ffff_ffff_ffff && a.next + 1 != NO_PAGE then
      (Success(a.next), a.(next := a.next + 1))
    else
      (Failure(InvalidPageId(a.next)), a)
  }

  /** `free`. */
  function Freeing(a: Alloc, id: u64): (Result<()>, Alloc) {
    if id == 0 || id >= a.next then (Failure(InvalidPageId(id)), a)
    else (Success(()), a.(free := a.free + [id]))
  }

  /** Freeing is undone by the next allocation: it hands out that very id and restores the state. */
  lemma FreedComesFirst(a: Alloc, id: u64)
    requires Freeing(a, id).0.Success?
    ensures Allocating(Freeing(a, id).1) == (Success(id), a)
  {
    assert (a.free + [id])[..|a.free|] == a.free;
  }

  /** The allocator together with the ids its callers currently hold. */
  datatype Ledger = Ledger(alloc: Alloc, live: set<u64>)

  datatype Event = Allocated(id: u64) | Refused | Freed(id: u64) | Reopened(disk: Disk, payloadLen: PayloadLen)

  /** One event; callers free only ids they hold, and reopening follows a successful `sync` over any store. */
  ghost predicate Occurs(s: Ledger, e: Event, s': Ledger) {
    match e
    case Allocated(id) => Allocating(s.alloc) == (Success(id), s'.alloc) && s'.live == s.live + {id}
    case Refused => Allocating(s.alloc).0.Failure? && s' == s
    case Freed(id) => id in s.live && Freeing(s.alloc, id) == (Success(()), s'.alloc) && s'.live == s.live - {id}
    case Reopened(disk, payloadLen) =>
      && s'.live == s.live && |s.alloc.free| <= 0xffff_ffff_ffff_ffff
      && Describes(Persisted(disk, payloadLen, s.alloc.free, s.alloc.next), s'.alloc.free, s'.alloc.next)
  }

  /** A run: the states before, between and after its events. */
  ghost predicate Run(states: seq<Ledger>, events: seq<Event>) {
    |states| == |events| + 1 && forall i {:trigger events[i]} :: 0 <= i < |events| ==> Occurs(states[i], events[i], states[i + 1])
  }

  /** Live ids and the free list divide `1..next` between them, without overlap or repetition. */
  ghost predicate Partition(s: Ledger) {
    && 1 <= s.alloc.next < NO_PAGE
    && NoDuplicates(s.alloc.free) && InRange(s.alloc.free, s.alloc.next)
    && (forall id :: id in s.live ==> 1 <= id < s.alloc.next && id !in s.alloc.free)
    && (forall id: u64 :: 1 <= id < s.alloc.next ==> id in s.live || id in s.alloc.free)
  }

  // ---------- Dividing is a matter of counting ----------

  predicate Below(id: u64, next: u64) { 1 <= id < next }

  function Ids(next: u64): set<u64>
    requires next >= 1
  {
    set id: u64 | id < next && Below(id, next)
  }

  lemma {:induction false} IdsSize(next: u64)
    requires next >= 1
    ensures |Ids(next)| == next - 1
    decreases next
  {
    if next == 1 {
      assert Ids(1) == {};
    } else {
      IdsSize(next - 1);
      assert Ids(next) == Ids(next - 1) + {next - 1};
    }
  }

  function Members(l: seq<u64>): set<u64> { set id | id in l }

  lemma {:induction false} MembersSize(l: seq<u64>)
    requires NoDuplicates(l)
    ensures |Members(l)| == |l|
    decreases |l|
  {
    if l == [] {
      assert Members(l) == {};
    } else {
      var rest := l[..|l| - 1];
      MembersSize(rest);
      assert l == rest + [l[|l| - 1]];
      assert Members(l) == Members(rest) + {l[|l| - 1]};
    }
  }

  lemma SubsetSize(a: set<u64>, b: set<u64>)
    requires a <= b
    ensures |a| <= |b| && (|a| == |b| <==> a == b)
  {
    assert b == a + (b - a);
  }

  /** What a list and a mark must be for an allocator that does not hand out what is held, nor lose what is not. */
  predicate FitsLive(live: set<u64>, free: seq<u64>, next: u64) {
    next < NO_PAGE && (forall id :: id in live ==> id < next && id !in free) && |free| + |live| == next - 1
  }

  /** Ids are divided exactly when none is both held and free and the numbers add up. */
  lemma PartitionByCount(s: Ledger)
    requires s.alloc.next >= 1 && NoDuplicates(s.alloc.free) && InRange(s.alloc.free, s.alloc.next)
    requires forall id :: id in s.live ==> 1 <= id
    ensures Partition(s) <==> FitsLive(s.live, s.alloc.free, s.alloc.next)
  {
    var members, ids := Members(s.alloc.free), Ids(s.alloc.next);
    MembersSize(s.alloc.free);
    IdsSize(s.alloc.next);
    if Partition(s) || FitsLive(s.live, s.alloc.free, s.alloc.next) {
      assert members !! s.live;
      assert |members + s.live| == |members| + |s.live|;
      assert members + s.live <= ids;
      SubsetSize(members + s.live, ids);
      if Partition(s) { assert members + s.live == ids; }
      if FitsLive(s.live, s.alloc.free, s.alloc.next) {
        forall id: u64 | 1 <= id < s.alloc.next ensures id in s.live || id in s.alloc.free {
          assert id in ids;
        }
      }
    }
  }

  const FRESH := Ledger(Alloc([], 1), {})

  lemma AllocatedKeeps(s: Ledger, id: u64, s': Ledger)
    requires Partition(s) && Occurs(s, Allocated(id), s')
    ensures Partition(s') && id !in s.live && id != 0 && id != NO_PAGE && id < s'.alloc.next
  {
    if s.alloc.free != [] {
      var n := |s.alloc.free| - 1;
      assert forall x: u64 :: x in s.alloc.free <==> x in s'.alloc.free || x == id;
      assert s.alloc.free[n] == id;
    }
  }

  lemma FreedKeeps(s: Ledger, id: u64, s': Ledger)
    requires Partition(s) && Occurs(s, Freed(id), s')
    ensures Partition(s')
  {
    assert forall x: u64 :: x in s'.alloc.free <==> x in s.alloc.free || x == id;
  }

  lemma ReopenedSame(s: Ledger, disk: Disk, payloadLen: PayloadLen, s': Ledger)
    requires Partition(s) && Occurs(s, Reopened(disk, payloadLen), s')
    ensures s' == s
  {
    PersistThenReopen(disk, payloadLen, s.alloc.free, s.alloc.next, s'.alloc.free, s'.alloc.next);
  }

  lemma EventKeeps(s: Ledger, e: Event, s': Ledger)
    requires Partition(s) && Occurs(s, e, s')
    ensures Partition(s')
  {
    match e
    case Allocated(id) => AllocatedKeeps(s, id, s');
    case Refused =>
    case Freed(id) => FreedKeeps(s, id, s');
    case Reopened(disk, payloadLen) => ReopenedSame(s, disk, payloadLen, s');
  }

  /** Every state of every run from a fresh store divides the ids. */
  lemma {:induction false} RunKeeps(states: seq<Ledger>, events: seq<Event>, i: nat)
    requires Run(states, events) && Partition(states[0]) && i < |states|
    ensures Partition(states[i])
    decreases i
  {
    if i > 0 {
      RunKeeps(states, events, i - 1);
      EventKeeps(states[i - 1], events[i - 1], states[i]);
    }
  }

  /** An id handed out is never page 0, never the sentinel, and never an id someone still holds. */
  lemma HandedOutIsNew(states: seq<Ledger>, events: seq<Event>, i: nat)
    requires Run(states, events) && states[0] == FRESH && i < |events| && events[i].Allocated?
    ensures events[i].id != 0 && events[i].id != NO_PAGE && events[i].id !in states[i].live
  {
    RunKeeps(states, events, i);
    AllocatedKeeps(states[i], events[i].id, states[i + 1]);
  }

  lemma HeldStep(states: seq<Ledger>, events: seq<Event>, k: nat, id: u64)
    requires Run(states, events) && k < |events| && id in states[k].live && events[k] != Freed(id)
    ensures id in states[k + 1].live
  {
  }

  /** Held until freed. */
  lemma {:induction false} HeldUntilFreed(states: seq<Ledger>, events: seq<Event>, i: nat, j: nat, id: u64)
    requires Run(states, events) && i <= j < |states|
    requires id in states[i].live && forall k :: i <= k < j ==> events[k] != Freed(id)
    ensures id in states[j].live
    decreases j
  {
    if i < j {
      HeldUntilFreed(states, events, i, j - 1, id);
      HeldStep(states, events, j - 1, id);
    }
  }

  /** Between two times the same id is handed out, it was freed; reopening in between makes no difference. */
  lemma NoDoubleHandOut(states: seq<Ledger>, events: seq<Event>, i: nat, j: nat)
    requires Run(states, events) && states[0] == FRESH && i < j < |events|
    requires events[i].Allocated? && events[j] == events[i]
    ensures exists k :: i < k < j && events[k] == Freed(events[i].id)
  {
    var id := events[i].id;
    assert Occurs(states[i], events[i], states[i + 1]);
    HandedOutIsNew(states, events, j);
    if forall k :: i < k < j ==> events[k] != Freed(id) {
      HeldUntilFreed(states, events, i + 1, j, id);
    }
  }

  /** Allocation is refused exactly when every id up to the sentinel is in use. */
  lemma RefusedOnlyWhenFull(s: Ledger)
    requires Partition(s)
    ensures Allocating(s.alloc).0.Failure? <==> s.alloc.free == [] && s.alloc.next == NO_PAGE - 1
    ensures Allocating(s.alloc).0.Failure? <==> forall id: u64 :: 1 <= id < NO_PAGE - 1 ==> id in s.live
  {
    if s.alloc.free != [] {
      assert s.alloc.free[0] in s.alloc.free;
    } else if s.alloc.next < NO_PAGE - 1 {
      assert s.alloc.next !in s.live;
    }
  }
}
