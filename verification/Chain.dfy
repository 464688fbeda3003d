/** Chains of links through page ids, whatever the pages are made of. */
module Chain {
  import opened PageError

  /** "No page": the empty free list and the end of the chain. */
  const NO_PAGE: u64 := 0xffff_ffff_ffff_ffff

  /** `l` is the chain from `cur`: every id real, every link readable, ending at `NO_PAGE`. */
  predicate IsChain(links: map<u64, u64>, cur: u64, next: u64, l: seq<u64>)
    decreases |l|
  {
    if l == [] then
      cur == NO_PAGE
    else
      && l[0] == cur && cur != NO_PAGE && 1 <= cur < next
      && cur in links && IsChain(links, links[cur], next, l[1..])
  }

  predicate NoDuplicates(l: seq<u64>) {
    forall i, j :: 0 <= i < j < |l| ==> l[i] != l[j]
  }

  predicate InRange(l: seq<u64>, next: u64) {
    forall i :: 0 <= i < |l| ==> 1 <= l[i] < next
  }

  /** A store determines at most one chain from any id. */
  lemma {:induction false} ChainUnique(links: map<u64, u64>, cur: u64, next: u64, a: seq<u64>, b: seq<u64>)
    requires IsChain(links, cur, next, a) && IsChain(links, cur, next, b)
    ensures a == b
    decreases |a|
  {
    if a != [] {
      ChainUnique(links, links[cur], next, a[1..], b[1..]);
      assert a == [a[0]] + a[1..] && b == [b[0]] + b[1..];
    }
  }

  lemma {:induction false} ChainSuffix(links: map<u64, u64>, cur: u64, next: u64, l: seq<u64>, i: nat)
    requires IsChain(links, cur, next, l) && i < |l|
    ensures IsChain(links, l[i], next, l[i..]) && 1 <= l[i] < next
    decreases i
  {
    if i > 0 {
      ChainSuffix(links, links[cur], next, l[1..], i - 1);
      assert l[1..][i - 1..] == l[i..];
    }
  }

  /** A chain never visits an id twice. */
  lemma ChainNoDuplicates(links: map<u64, u64>, cur: u64, next: u64, l: seq<u64>)
    requires IsChain(links, cur, next, l)
    ensures NoDuplicates(l) && InRange(l, next)
  {
    forall i | 0 <= i < |l| ensures 1 <= l[i] < next { ChainSuffix(links, cur, next, l, i); }
    forall i, j | 0 <= i < j < |l| ensures l[i] != l[j] {
      ChainSuffix(links, cur, next, l, i);
      ChainSuffix(links, cur, next, l, j);
      if l[i] == l[j] {
        ChainUnique(links, l[i], next, l[i..], l[j..]);
      }
    }
  }

  lemma InRangeAt(l: seq<u64>, next: nat, i: nat)
    requires i < |l| && forall j :: 0 <= j < |l| ==> 1 <= l[j] < next
    ensures 1 <= l[i] < next
  {
  }

  /** Distinct ids in `1..next` number fewer than `next`. */
  lemma {:induction false} FewIds(l: seq<u64>, next: nat)
    requires NoDuplicates(l) && forall i :: 0 <= i < |l| ==> 1 <= l[i] < next
    ensures next >= 1 ==> |l| <= next - 1
    ensures next == 0 ==> |l| == 0
    decreases next
  {
    if next > 1 {
      if i :| 0 <= i < |l| && l[i] == next - 1 {
        var rest := l[..i] + l[i + 1..];
        FewIds(rest, next - 1);
      } else {
        FewIds(l, next - 1);
      }
    } else if |l| > 0 {
      InRangeAt(l, next, 0);
    }
  }

  // ---------- A path walked so far ----------

  /** Walking from `head` through exactly `ids` arrives at `cur`. */
  predicate Path(links: map<u64, u64>, head: u64, next: u64, ids: seq<u64>, cur: u64)
    decreases |ids|
  {
    if ids == [] then
      head == cur
    else
      && ids[0] == head && head != NO_PAGE && 1 <= head < next
      && head in links && Path(links, links[head], next, ids[1..], cur)
  }

  lemma {:induction false} PathExtend(links: map<u64, u64>, head: u64, next: u64, ids: seq<u64>, cur: u64)
    requires Path(links, head, next, ids, cur)
    requires cur != NO_PAGE && 1 <= cur < next && cur in links
    ensures Path(links, head, next, ids + [cur], links[cur])
    decreases |ids|
  {
    if ids == [] {
      assert ([cur])[1..] == [];
    } else {
      assert (ids + [cur])[1..] == ids[1..] + [cur];
      PathExtend(links, links[head], next, ids[1..], cur);
    }
  }

  /** Any chain from `head` goes through the path walked so far. */
  lemma {:induction false} PathIsPrefix(links: map<u64, u64>, head: u64, next: u64, ids: seq<u64>, cur: u64, l: seq<u64>)
    requires Path(links, head, next, ids, cur) && IsChain(links, head, next, l)
    ensures |ids| <= |l| && l[..|ids|] == ids && IsChain(links, cur, next, l[|ids|..])
    decreases |ids|
  {
    if ids == [] {
      assert l[0..] == l;
    } else {
      PathIsPrefix(links, links[head], next, ids[1..], cur, l[1..]);
      assert l[..|ids|] == [l[0]] + l[1..][..|ids| - 1];
      assert l[|ids|..] == l[1..][|ids| - 1..];
    }
  }

  /** Of two paths from one id the longer goes on where the shorter ends. */
  lemma {:induction false} PathGoesOn(links: map<u64, u64>, head: u64, next: u64, a: seq<u64>, x: u64, b: seq<u64>, y: u64)
    requires Path(links, head, next, a, x) && Path(links, head, next, b, y) && |a| <= |b|
    ensures a == b[..|a|] && Path(links, x, next, b[|a|..], y)
    decreases |a|
  {
    if a == [] {
      assert b[0..] == b;
    } else {
      PathGoesOn(links, links[head], next, a[1..], x, b[1..], y);
      assert b[..|a|] == [b[0]] + b[1..][..|a| - 1] && a == [a[0]] + a[1..];
      assert b[|a|..] == b[1..][|a| - 1..];
    }
  }

  lemma {:induction false} PathFrom(links: map<u64, u64>, head: u64, next: u64, ids: seq<u64>, cur: u64, i: nat)
    requires Path(links, head, next, ids, cur) && i < |ids|
    ensures Path(links, ids[i], next, ids[i..], cur) && ids[i] in links && 1 <= ids[i] < next
    decreases i
  {
    if i > 0 {
      PathFrom(links, links[head], next, ids[1..], cur, i - 1);
      assert ids[1..][i - 1..] == ids[i..];
    }
  }

  /** A real id whose page carries no readable link. */
  predicate Missing(links: map<u64, u64>, next: u64, cur: u64) { 1 <= cur < next && cur != NO_PAGE && cur !in links }

  /** Walking from `head` arrives at such an id in fewer than `n` steps. */
  ghost predicate DeadEnd(links: map<u64, u64>, head: u64, next: u64, n: nat) {
    exists ids: seq<u64>, cur: u64 :: |ids| < n && Path(links, head, next, ids, cur) && Missing(links, next, cur)
  }

  /** A path that comes back to where it started meets none. */
  lemma {:induction false} CycleNeverEnds(links: map<u64, u64>, head: u64, next: u64, cycle: seq<u64>, ids: seq<u64>, cur: u64)
    requires cycle != [] && Path(links, head, next, cycle, head) && Path(links, head, next, ids, cur)
    ensures !Missing(links, next, cur)
    decreases |ids|
  {
    if |ids| < |cycle| {
      PathGoesOn(links, head, next, ids, cur, cycle, head);
    } else {
      PathGoesOn(links, head, next, cycle, head, ids, cur);
      CycleNeverEnds(links, head, next, cycle, ids[|cycle|..], cur);
    }
  }

  /** A walk that stopped for any other reason has no dead end within its bound. */
  lemma WalkedPast(links: map<u64, u64>, head: u64, next: u64, ids: seq<u64>, cur: u64, n: nat)
    requires Path(links, head, next, ids, cur)
    requires |ids| >= n || cur == NO_PAGE || !(1 <= cur < next) || cur in ids
    ensures !DeadEnd(links, head, next, n)
  {
    forall ids': seq<u64>, cur': u64 | |ids'| < n && Path(links, head, next, ids', cur') ensures !Missing(links, next, cur') {
      if |ids'| < |ids| {
        PathGoesOn(links, head, next, ids', cur', ids, cur);
        PathFrom(links, head, next, ids, cur, |ids'|);
      } else {
        PathGoesOn(links, head, next, ids, cur, ids', cur');
        if cur in ids {
          var i :| 0 <= i < |ids| && ids[i] == cur;
          PathFrom(links, head, next, ids, cur, i);
          CycleNeverEnds(links, cur, next, ids[i..], ids'[|ids|..], cur');
        }
      }
    }
  }

  /** Nor has a chain. */
  lemma ChainHasNoDeadEnd(links: map<u64, u64>, head: u64, next: u64, l: seq<u64>, n: nat)
    requires IsChain(links, head, next, l)
    ensures !DeadEnd(links, head, next, n)
  {
    forall ids: seq<u64>, cur: u64 | Path(links, head, next, ids, cur) && cur != NO_PAGE ensures cur in links {
      PathIsPrefix(links, head, next, ids, cur, l);
    }
  }

  /** A path that has reached the end is a chain. */
  lemma {:induction false} PathToEnd(links: map<u64, u64>, head: u64, next: u64, ids: seq<u64>)
    requires Path(links, head, next, ids, NO_PAGE)
    ensures IsChain(links, head, next, ids)
    decreases |ids|
  {
    if ids != [] {
      PathToEnd(links, links[head], next, ids[1..]);
    }
  }

  // ---------- Writing a list as a chain ----------

  /** What follows position `i` of the free list. */
  function Successor(l: seq<u64>, i: nat): u64
    requires i < |l|
  {
    if i + 1 < |l| then l[i + 1] else NO_PAGE
  }

  function Head(l: seq<u64>): u64 { if l == [] then NO_PAGE else l[0] }

  /** The links after those of the first `n` positions have been written, in order. */
  function WrittenLinks(links: map<u64, u64>, l: seq<u64>, n: nat): map<u64, u64>
    requires n <= |l|
  {
    if n == 0 then links else WrittenLinks(links, l, n - 1)[l[n - 1] := Successor(l, n - 1)]
  }

  /** The last write to an id wins. */
  lemma {:induction false} LastWriteWins(links: map<u64, u64>, l: seq<u64>, n: nat, k: nat)
    requires k < n <= |l| && forall j :: k < j < n ==> l[j] != l[k]
    ensures l[k] in WrittenLinks(links, l, n) && WrittenLinks(links, l, n)[l[k]] == Successor(l, k)
  {
    if n - 1 != k {
      LastWriteWins(links, l, n - 1, k);
    }
  }

  /** The last position of `x` in `l`. */
  function LastIndex(l: seq<u64>, x: u64): (k: nat)
    requires x in l
    ensures k < |l| && l[k] == x && forall j :: k < j < |l| ==> l[j] != x
  {
    LastBefore(l, x, |l|)
  }

  function LastBefore(l: seq<u64>, x: u64, n: nat): (k: nat)
    requires n <= |l| && x in l[..n]
    ensures k < n && l[k] == x && forall j :: k < j < n ==> l[j] != x
  {
    if l[n - 1] == x then n - 1 else LastBefore(l, x, n - 1)
  }

  /** The ids a walk over the written links visits from position `i` on: each jump goes to what follows an id's last position. */
  function Visited(l: seq<u64>, i: nat): seq<u64>
    requires i <= |l|
    decreases |l| - i
  {
    if i == |l| then []
    else
      var k := LastIndex(l, l[i]);
      if k < i then [] else [l[i]] + Visited(l, k + 1)
  }

  /** The walk visits every position only if there are no duplicates to jump over. */
  lemma {:induction false} VisitedLength(l: seq<u64>, i: nat)
    requires i <= |l|
    ensures |Visited(l, i)| <= |l| - i
    ensures |Visited(l, i)| == |l| - i ==> Visited(l, i) == l[i..] && forall j :: i <= j < |l| ==> LastIndex(l, l[j]) == j
    decreases |l| - i
  {
    if i < |l| {
      var k := LastIndex(l, l[i]);
      if k >= i {
        VisitedLength(l, k + 1);
        assert k == i ==> l[i..] == [l[i]] + l[i + 1..];
      }
    }
  }

  function At(l: seq<u64>, i: nat): u64
    requires i <= |l|
  {
    if i < |l| then l[i] else NO_PAGE
  }

  /** Position `k` is the last one of its id. */
  predicate IsLast(l: seq<u64>, k: nat) {
    k < |l| && forall j :: k < j < |l| ==> l[j] != l[k]
  }

  /** Each id links to what follows its last position. */
  ghost predicate LastLinks(links: map<u64, u64>, l: seq<u64>) {
    forall k: nat {:trigger IsLast(l, k)} :: IsLast(l, k) ==> l[k] in links && links[l[k]] == Successor(l, k)
  }

  lemma {:induction false} VisitedIsChain(links: map<u64, u64>, l: seq<u64>, next: u64, i: nat)
    requires i <= |l| && InRange(l, next) && LastLinks(links, l)
    ensures IsChain(links, At(l, i), next, Visited(l, i))
    decreases |l| - i
  {
    if i < |l| {
      var k := LinkOfLast(links, l, i);
      VisitedIsChain(links, l, next, k + 1);
      ChainCons(links, l[i], next, At(l, k + 1), Visited(l, k + 1));
    }
  }

  /** A visit to the id at `i` goes on to what follows its last position. */
  lemma LinkOfLast(links: map<u64, u64>, l: seq<u64>, i: nat) returns (k: nat)
    requires i < |l| && LastLinks(links, l)
    ensures i <= k < |l| && l[i] in links && links[l[i]] == At(l, k + 1)
    ensures Visited(l, i) == [l[i]] + Visited(l, k + 1)
  {
    k := LastIndex(l, l[i]);
    assert IsLast(l, k);
  }

  lemma ChainCons(links: map<u64, u64>, id: u64, next: u64, link: u64, rest: seq<u64>)
    requires id != NO_PAGE && 1 <= id < next && id in links && links[id] == link
    requires IsChain(links, link, next, rest)
    ensures IsChain(links, id, next, [id] + rest)
  {
    assert ([id] + rest)[1..] == rest;
  }

  lemma LastIndexIdentity(l: seq<u64>)
    ensures NoDuplicates(l) <==> forall j :: 0 <= j < |l| ==> LastIndex(l, l[j]) == j
  {
    if forall j :: 0 <= j < |l| ==> LastIndex(l, l[j]) == j {
      forall i, j | 0 <= i < j < |l| ensures l[i] != l[j] {
        assert LastIndex(l, l[i]) == i;
      }
    }
  }

  lemma {:induction false} VisitedAll(l: seq<u64>, i: nat)
    requires i <= |l| && NoDuplicates(l)
    ensures Visited(l, i) == l[i..]
    decreases |l| - i
  {
    if i < |l| {
      LastIndexIdentity(l);
      assert LastIndex(l, l[i]) == i;
      VisitedAll(l, i + 1);
    }
  }

  lemma VisitedIffNoDuplicates(l: seq<u64>)
    ensures |Visited(l, 0)| == |l| <==> NoDuplicates(l)
    ensures NoDuplicates(l) ==> Visited(l, 0) == l
  {
    VisitedLength(l, 0);
    LastIndexIdentity(l);
    assert l[0..] == l;
    if NoDuplicates(l) { VisitedAll(l, 0); }
  }

  /** The chain left by writing a list is the visited part of it. */
  lemma WrittenChain(links: map<u64, u64>, l: seq<u64>, next: u64)
    requires InRange(l, next)
    ensures IsChain(WrittenLinks(links, l, |l|), Head(l), next, Visited(l, 0))
  {
    var w := WrittenLinks(links, l, |l|);
    forall k: nat | IsLast(l, k) ensures l[k] in w && w[l[k]] == Successor(l, k) {
      LastWriteWins(links, l, |l|, k);
    }
    VisitedIsChain(w, l, next, 0);
  }

  /** Chains look only at links of ids in range. */
  lemma {:induction false} ChainElsewhere(links: map<u64, u64>, links': map<u64, u64>, cur: u64, next: u64, l: seq<u64>)
    requires forall id: u64 :: 1 <= id < next ==> (id in links <==> id in links') && (id in links ==> links[id] == links'[id])
    ensures IsChain(links, cur, next, l) <==> IsChain(links', cur, next, l)
    decreases |l|
  {
    if l != [] && 1 <= cur < next && cur in links {
      ChainElsewhere(links, links', links[cur], next, l[1..]);
    }
  }

  /** The chain left by writing a list is the list itself when it has no duplicates, and strictly shorter when it has. */
  lemma WrittenChainExact(links: map<u64, u64>, l: seq<u64>, next: u64, c: seq<u64>)
    requires InRange(l, next) && IsChain(WrittenLinks(links, l, |l|), Head(l), next, c)
    ensures if NoDuplicates(l) then c == l else |c| < |l|
  {
    WrittenChain(links, l, next);
    ChainUnique(WrittenLinks(links, l, |l|), Head(l), next, c, Visited(l, 0));
    VisitedIffNoDuplicates(l);
    VisitedLength(l, 0);
  }
}
