/** The buddy frame allocator of kernel/mem/buddy.c.

    `pages` and `freeList` are the allocator's own state. The ghost sequence `tiling` gives,
    for every page, the order of the block the page lies in, free or allocated. The head of
    that block follows by rounding down, so the blocks cover all pages and cannot overlap. */
module Buddy {
  import opened Common
  import opened Orders

  const HUGE: nat := 9            // BUDDY_2M_PAGE
  const MAX_ORDER: nat := 10      // BUDDY_MAX_ORDER

  /** The fields of `struct page_info` that the allocator reads or writes. */
  datatype PageInfo = PageInfo(order: nat, free: bool, avail: bool, ref: nat)

  datatype State = State(ps: seq<PageInfo>, fl: seq<seq<nat>>, tiling: seq<nat>)

  /** An allocated block, as the allocator's clients see it. */
  datatype Own = Own(order: nat, ref: nat)

  const NO_HOLE: int := -1

  // ---- Specification ------------------------------------------------------------------

  ghost predicate Tiled(t: seq<nat>) {
    && Down(|t|, HUGE) == |t|
    && (forall p :: 0 <= p < |t| ==> t[p] <= HUGE)
    && (forall p, q {:trigger Down(q, t[p])} ::
          0 <= p < |t| && 0 <= q < |t| && Down(q, t[p]) == Down(p, t[p]) ==> t[q] == t[p])
  }

  /** Head of the block that holds page p. */
  ghost function Head(t: seq<nat>, p: nat): (h: nat)
    requires p < |t|
    ensures h <= p
  {
    Down(p, t[p])
  }

  /** pp_order is right at a head; a page inside a block is available, unreferenced and
      not marked free; a page marked free is available and unreferenced; an unavailable
      page is a block of its own. */
  ghost predicate PageOk(s: State, p: nat)
    requires p < |s.ps| == |s.tiling|
  {
    && (Head(s.tiling, p) == p ==> s.ps[p].order == s.tiling[p])
    && (Head(s.tiling, p) != p ==> !s.ps[p].free)
    && (Head(s.tiling, p) != p || s.ps[p].free ==> s.ps[p].avail && s.ps[p].ref == 0)
    && (!s.ps[p].avail ==> s.tiling[p] == 0)
  }

  ghost predicate Flags(s: State) {
    && |s.ps| == |s.tiling|
    && forall p: nat :: p < |s.ps| ==> PageOk(s, p)
  }

  ghost predicate OnList(s: State, hole: int, k: nat, i: nat) {
    i < |s.ps| && i != hole && s.ps[i].free && s.ps[i].order == k
  }

  /** The list of order k holds exactly the free heads of order k. */
  ghost predicate Listed(s: State, hole: int) {
    && |s.fl| == MAX_ORDER
    && (forall k :: 0 <= k < MAX_ORDER ==> Distinct(s.fl[k]))
    && (forall k, i: nat {:trigger i in s.fl[k]} :: 0 <= k < MAX_ORDER ==> (i in s.fl[k] <==> OnList(s, hole, k, i)))
  }

  /** No two buddies of the same order are both free. */
  ghost predicate Coalesced(s: State, hole: int) {
    forall i: nat, k: nat {:trigger Mate(i, k)} :: k < HUGE && Mate(i, k) >= 0 && OnList(s, hole, k, i) ==>
      !OnList(s, hole, k, Mate(i, k))
  }

  /** The block being split or merged, when there is one, is on no list. */
  ghost predicate HoleOk(s: State, hole: int) {
    hole == NO_HOLE ||
    (0 <= hole < |s.ps| && |s.ps| == |s.tiling| && Head(s.tiling, hole) == hole
     && s.ps[hole].avail && s.ps[hole].ref == 0)
  }

  ghost predicate Inv(s: State, hole: int) {
    Tiled(s.tiling) && Flags(s) && Listed(s, hole) && Coalesced(s, hole) && HoleOk(s, hole)
  }

  /** Page p is free, or part of the block in flight. */
  ghost predicate InPool(s: State, hole: int, p: nat) {
    p < |s.tiling| == |s.ps| && (Head(s.tiling, p) == hole || s.ps[Head(s.tiling, p)].free)
  }

  ghost function Pool(s: State, hole: int): set<nat> {
    set p: nat | p < |s.tiling| && InPool(s, hole, p)
  }

  ghost function FreePages(s: State): set<nat> { Pool(s, NO_HOLE) }

  ghost function BlockPages(h: nat, k: nat): set<nat> {
    set p: nat | p < h + Pow2(k) && Down(p, k) == h
  }

  ghost predicate IsOwned(s: State, hole: int, h: nat) {
    h < |s.tiling| == |s.ps| && Head(s.tiling, h) == h && s.ps[h].avail && !s.ps[h].free && h != hole
  }

  /** The allocated blocks of available memory: head, order and reference count. */
  ghost function Owned(s: State, hole: int): map<nat, Own> {
    map h: nat | h < |s.tiling| && IsOwned(s, hole, h) :: Own(s.tiling[h], s.ps[h].ref)
  }

  /** The free blocks as (head, order). */
  ghost function FreeBlocks(s: State): set<(nat, nat)> {
    set h: nat, k: nat | h < |s.ps| && k < MAX_ORDER && OnList(s, NO_HOLE, k, h) :: (h, k)
  }

  /** The order-k block of h takes order v. */
  ghost function Retile(t: seq<nat>, h: nat, k: nat, v: nat): (r: seq<nat>)
    ensures |r| == |t|
  {
    seq(|t|, (p: nat) requires p < |t| => if Down(p, k) == h then v else t[p])
  }

  // ---- Tiling lemmas ------------------------------------------------------------------

  lemma InRange(n: nat, p: nat, q: nat, k: nat)
    requires Down(n, HUGE) == n && p < n && k <= HUGE && Down(q, k) == Down(p, k)
    ensures q < n
  {
    DownUp(p, q, k, HUGE);
    DownRoom(p, n, HUGE);
  }

  lemma HeadFacts(t: seq<nat>, p: nat)
    requires Tiled(t) && p < |t|
    ensures t[Head(t, p)] == t[p] && Head(t, Head(t, p)) == Head(t, p)
  {
    DownDown(p, t[p], t[p]);
  }

  lemma BlockIsHead(t: seq<nat>, h: nat, q: nat)
    requires Tiled(t) && h < |t| && Head(t, h) == h && q < |t|
    ensures Down(q, t[h]) == h <==> Head(t, q) == h
    ensures Down(q, t[h]) == h ==> t[q] == t[h]
  {
    if Head(t, q) == h { HeadFacts(t, q); }
  }

  lemma RetileSplit(t: seq<nat>, h: nat, k: nat)
    requires Tiled(t) && h < |t| && t[h] == k + 1 && Head(t, h) == h
    ensures Tiled(Retile(t, h, k + 1, k))
  {
    var t' := Retile(t, h, k + 1, k);
    forall p, q | 0 <= p < |t| && 0 <= q < |t| && Down(q, t'[p]) == Down(p, t'[p])
      ensures t'[q] == t'[p]
    {
      if Down(p, k + 1) == h {
        DownUp(q, p, k, k + 1);
      } else if Down(q, k + 1) == h {
        BlockIsHead(t, h, q);
      }
    }
  }

  lemma RetileMerge(t: seq<nat>, h: nat, k: nat)
    requires Tiled(t) && k < HUGE && Down(h, k + 1) == h && h + Pow2(k) < |t|
    requires t[h] == k && t[h + Pow2(k)] == k
    ensures Tiled(Retile(t, h, k + 1, k + 1))
    ensures forall p :: 0 <= p < |t| && Down(p, k + 1) == h ==> t[p] == k
  {
    var t' := Retile(t, h, k + 1, k + 1);
    UpperHalf(h, k);
    DownAligned(h, k, k + 1);
    forall p | 0 <= p < |t| && Down(p, k + 1) == h ensures t[p] == k {
      DownHalf(p, k);
      assert Down(p, k) == Down(h, t[h]) || Down(p, k) == Down(h + Pow2(k), t[h + Pow2(k)]);
    }
    forall p, q | 0 <= p < |t| && 0 <= q < |t| && Down(q, t'[p]) == Down(p, t'[p])
      ensures t'[q] == t'[p]
    {
      if Down(p, k + 1) != h && Down(q, k + 1) == h {
        DownUp(q, p, k, k + 1);
        assert false;
      }
    }
  }

  lemma InBlock(s: State, hole: int, h: nat, p: nat)
    requires Inv(s, hole) && h < |s.ps| && Head(s.tiling, h) == h
    ensures p in BlockPages(h, s.tiling[h]) <==> p < |s.ps| && Head(s.tiling, p) == h
  {
    if p in BlockPages(h, s.tiling[h]) { InRange(|s.ps|, h, p, s.tiling[h]); }
    if p < |s.ps| { BlockIsHead(s.tiling, h, p); }
    DownIff(p, h, s.tiling[h]);
  }

  // ---- One turn of the split loop -----------------------------------------------------

  ghost function SplitState(s: State, h: nat, k: nat): (r: State)
    requires h + Pow2(k) < |s.ps| && k < |s.fl|
  {
    var b := h + Pow2(k);
    State(s.ps[h := s.ps[h].(order := k)][b := s.ps[b].(order := k, free := true)],
          s.fl[k := s.fl[k] + [b]],
          Retile(s.tiling, h, k + 1, k))
  }

  ghost predicate CanSplit(t: seq<nat>, h: nat, k: nat) {
    Tiled(t) && h < |t| && Head(t, h) == h && t[h] == k + 1
  }

  lemma SplitBuddy(t: seq<nat>, h: nat, k: nat)
    requires CanSplit(t, h, k)
    ensures Mate(h, k) == h + Pow2(k) < |t| && k < HUGE
    ensures Down(h + Pow2(k), k) == h + Pow2(k) && Down(h + Pow2(k), k + 1) == h && Down(h, k) == h
    ensures Head(t, h + Pow2(k)) == h
  {
    UpperHalf(h, k);
    InRange(|t|, h, h + Pow2(k), k + 1);
    BlockIsHead(t, h, h + Pow2(k));
  }

  /** Heads after the split: the two halves inside the block, the old heads outside. */
  lemma SplitHeads(t: seq<nat>, h: nat, k: nat, p: nat)
    requires CanSplit(t, h, k) && p < |t| && h + Pow2(k) < |t|
    ensures var t' := Retile(t, h, k + 1, k);
            && (Head(t, p) == h ==> t'[p] == k && (Head(t', p) == h || Head(t', p) == h + Pow2(k)))
            && (Head(t, p) != h ==> Head(t', p) == Head(t, p) && t'[p] == t[p])
            && Head(t', h) == h && Head(t', h + Pow2(k)) == h + Pow2(k)
  {
    hide Down;
    hide Pow2;
    SplitBuddy(t, h, k);
    BlockIsHead(t, h, p);
    DownHalf(p, k);
  }

  lemma SplitPageOk(s: State, h: nat, k: nat, p: nat)
    requires CanSplit(s.tiling, h, k) && Flags(s) && HoleOk(s, h) && k < |s.fl|
    requires h + Pow2(k) < |s.ps| && p < |s.ps|
    ensures PageOk(SplitState(s, h, k), p)
  {
    hide Retile;
    hide Down;
    hide Pow2;
    hide Tiled;
    SplitBuddy(s.tiling, h, k);
    SplitHeads(s.tiling, h, k, p);
    assert PageOk(s, p);
    if p != h && p != h + Pow2(k) && Head(s.tiling, p) == h {
      assert SplitState(s, h, k).ps[p] == s.ps[p];
    }
  }

  lemma SplitView(s: State, h: nat, k: nat, p: nat)
    requires CanSplit(s.tiling, h, k) && Flags(s) && k < |s.fl|
    requires h + Pow2(k) < |s.ps| && p < |s.ps|
    ensures InPool(SplitState(s, h, k), h, p) == InPool(s, h, p)
    ensures IsOwned(SplitState(s, h, k), h, p) == IsOwned(s, h, p)
    ensures IsOwned(s, h, p) ==> SplitState(s, h, k).tiling[p] == s.tiling[p]
    ensures SplitState(s, h, k).ps[p].ref == s.ps[p].ref
  {
    hide Tiled;
    hide Retile;
    SplitBuddy(s.tiling, h, k);
    SplitHeads(s.tiling, h, k, p);
    HeadFacts(s.tiling, p);
  }

  lemma SplitLists(s: State, h: nat, k: nat)
    requires CanSplit(s.tiling, h, k) && Flags(s) && Listed(s, h) && Coalesced(s, h) && k < |s.fl|
    ensures h + Pow2(k) < |s.ps|
    ensures Listed(SplitState(s, h, k), h) && Coalesced(SplitState(s, h, k), h)
  {
    hide Down;
    hide Pow2;
    hide Tiled;
    hide Retile;
    SplitBuddy(s.tiling, h, k);
    MateFacts(h, k);
    var b := h + Pow2(k);
    var s' := SplitState(s, h, k);
    assert PageOk(s, b);
    forall j: nat, i: nat ensures OnList(s', h, j, i) <==> OnList(s, h, j, i) || (j == k && i == b) {}
    forall i: nat | Mate(i, k) == b && OnList(s, h, k, i) ensures false { MateOfFree(s, h, k, i); }
    hide OnList;
    hide Flags;
    AddListed(s, s', h, k, b);
  }

  lemma MateOfFree(s: State, hole: int, k: nat, i: nat)
    requires Flags(s) && OnList(s, hole, k, i)
    ensures Head(s.tiling, i) == i && s.tiling[i] == k && Down(i, k) == i
    ensures Mate(i, k) >= 0 && Mate(Mate(i, k), k) == i
  {
    assert PageOk(s, i);
    MateFacts(i, k);
  }

  /** Adding block b at the tail of its list keeps the lists right if its buddy is not free. */
  lemma AddListed(s: State, s': State, hole: int, k: nat, b: nat)
    requires Listed(s, hole) && Coalesced(s, hole) && k < MAX_ORDER && !OnList(s, hole, k, b)
    requires s'.fl == s.fl[k := s.fl[k] + [b]]
    requires forall j: nat, i: nat :: OnList(s', hole, j, i) <==> OnList(s, hole, j, i) || (j == k && i == b)
    requires k < HUGE && Mate(b, k) >= 0 ==> !OnList(s', hole, k, Mate(b, k))
    requires forall i: nat :: k < HUGE && Mate(i, k) == b ==> !OnList(s, hole, k, i)
    ensures Listed(s', hole) && Coalesced(s', hole)
  {
    assert b !in s.fl[k];
    forall j, i: nat | 0 <= j < MAX_ORDER ensures i in s'.fl[j] <==> OnList(s', hole, j, i) {
      assert i in s.fl[j] <==> OnList(s, hole, j, i);
    }
  }

  lemma SplitStep(s: State, h: nat, k: nat)
    requires Inv(s, h) && s.tiling[h] == k + 1
    ensures h + Pow2(k) < |s.ps| && k < HUGE && Mate(h, k) == h + Pow2(k)
    ensures var s' := SplitState(s, h, k);
            Inv(s', h) && s'.tiling[h] == k && Pool(s', h) == Pool(s, h) && Owned(s', h) == Owned(s, h)
  {
    RetileSplit(s.tiling, h, k);
    SplitBuddy(s.tiling, h, k);
    SplitHeads(s.tiling, h, k, h);
    SplitLists(s, h, k);
    forall p: nat | p < |s.ps| { SplitPageOk(s, h, k, p); }
    forall p: nat | p < |s.ps| { SplitView(s, h, k, p); }
    SameView(s, h, SplitState(s, h, k), h);
  }

  lemma SameView(s: State, hole: int, s': State, hole': int)
    requires |s.ps| == |s.tiling| == |s'.ps| == |s'.tiling|
    requires forall p: nat {:trigger InPool(s', hole', p)} :: p < |s.ps| ==> InPool(s', hole', p) == InPool(s, hole, p)
    requires forall p: nat {:trigger IsOwned(s', hole', p)} ::
               p < |s.ps| ==> IsOwned(s', hole', p) == IsOwned(s, hole, p)
    requires forall p: nat {:trigger IsOwned(s', hole', p)} :: p < |s.ps| && IsOwned(s', hole', p) ==>
               s'.tiling[p] == s.tiling[p] && s'.ps[p].ref == s.ps[p].ref
    ensures Pool(s', hole') == Pool(s, hole) && Owned(s', hole') == Owned(s, hole)
  {
  }

  // ---- One turn of the merge loop -----------------------------------------------------

  ghost predicate CanMerge(t: seq<nat>, lo: nat, k: nat) {
    && Tiled(t) && k < HUGE && Down(lo, k + 1) == lo && lo + Pow2(k) < |t|
    && t[lo] == k && t[lo + Pow2(k)] == k
  }

  ghost function MergeState(s: State, lo: nat, k: nat, b: nat): (r: State)
    requires lo + Pow2(k) < |s.ps| && k < |s.fl|
  {
    var hi := lo + Pow2(k);
    State(s.ps[hi := s.ps[hi].(free := false)][lo := s.ps[lo].(order := k + 1)],
          s.fl[k := Without(s.fl[k], b)],
          Retile(s.tiling, lo, k + 1, k + 1))
  }

  /** Heads after the merge: the lower half inside the new block, the old heads outside. */
  lemma MergeHeads(t: seq<nat>, lo: nat, k: nat, p: nat)
    requires CanMerge(t, lo, k) && p < |t|
    ensures var t', hi := Retile(t, lo, k + 1, k + 1), lo + Pow2(k);
            && Head(t', lo) == lo
            && (Head(t, p) == lo || Head(t, p) == hi ==> Head(t', p) == lo && t'[p] == k + 1)
            && (Head(t, p) != lo && Head(t, p) != hi ==> Head(t', p) == Head(t, p) && t'[p] == t[p])
            && Head(t, lo) == lo && Head(t, hi) == hi
  {
    hide Down;
    hide Pow2;
    RetileMerge(t, lo, k);
    UpperHalf(lo, k);
    DownHalf(p, k);
    HeadFacts(t, p);
    if Head(t, p) == lo || Head(t, p) == lo + Pow2(k) { DownDown(p, k, k + 1); }
  }

  lemma MergePageOk(s: State, lo: nat, k: nat, b: nat, p: nat)
    requires CanMerge(s.tiling, lo, k) && Flags(s) && k < |s.fl| && p < |s.ps|
    requires s.ps[lo].avail && s.ps[lo].ref == 0 && s.ps[lo + Pow2(k)].avail && s.ps[lo + Pow2(k)].ref == 0
    ensures PageOk(MergeState(s, lo, k, b), p)
  {
    hide Down;
    hide Pow2;
    hide Tiled;
    hide Retile;
    MergeHeads(s.tiling, lo, k, p);
    assert PageOk(s, p);
  }

  lemma MergeInside(s: State, hole: nat, lo: nat, k: nat, b: nat, p: nat)
    requires CanMerge(s.tiling, lo, k) && Flags(s) && k < |s.fl| && p < |s.ps|
    requires (hole == lo && b == lo + Pow2(k)) || (b == lo && hole == lo + Pow2(k))
    requires s.ps[b].free && Head(s.tiling, p) in {lo, lo + Pow2(k)}
    ensures InPool(MergeState(s, lo, k, b), lo, p) && InPool(s, hole, p)
    ensures !IsOwned(MergeState(s, lo, k, b), lo, p) && !IsOwned(s, hole, p)
  {
    hide Retile;
    hide Down;
    hide Pow2;
    hide Tiled;
    MergeHeads(s.tiling, lo, k, p);
  }

  lemma MergeOutside(s: State, hole: nat, lo: nat, k: nat, b: nat, p: nat)
    requires CanMerge(s.tiling, lo, k) && Flags(s) && k < |s.fl| && p < |s.ps|
    requires hole == lo || hole == lo + Pow2(k)
    requires Head(s.tiling, p) !in {lo, lo + Pow2(k)}
    ensures MergeState(s, lo, k, b).tiling[p] == s.tiling[p]
    ensures InPool(MergeState(s, lo, k, b), lo, p) == InPool(s, hole, p)
    ensures IsOwned(MergeState(s, lo, k, b), lo, p) == IsOwned(s, hole, p)
  {
    hide Tiled;
    MergeHeads(s.tiling, lo, k, p);
    HeadFacts(s.tiling, p);
  }

  lemma MergeView(s: State, hole: nat, lo: nat, k: nat, b: nat, p: nat)
    requires CanMerge(s.tiling, lo, k) && Flags(s) && k < |s.fl| && p < |s.ps|
    requires (hole == lo && b == lo + Pow2(k)) || (b == lo && hole == lo + Pow2(k))
    requires s.ps[b].free
    ensures InPool(MergeState(s, lo, k, b), lo, p) == InPool(s, hole, p)
    ensures IsOwned(MergeState(s, lo, k, b), lo, p) == IsOwned(s, hole, p)
    ensures IsOwned(s, hole, p) ==> MergeState(s, lo, k, b).tiling[p] == s.tiling[p]
    ensures MergeState(s, lo, k, b).ps[p].ref == s.ps[p].ref
  {
    hide Tiled;
    hide InPool;
    hide IsOwned;
    if Head(s.tiling, p) in {lo, lo + Pow2(k)} {
      MergeInside(s, hole, lo, k, b, p);
    } else {
      MergeOutside(s, hole, lo, k, b, p);
    }
  }

  lemma MergeLists(s: State, hole: nat, lo: nat, k: nat, b: nat)
    requires CanMerge(s.tiling, lo, k) && Flags(s) && Listed(s, hole) && Coalesced(s, hole)
    requires (hole == lo && b == lo + Pow2(k)) || (b == lo && hole == lo + Pow2(k))
    requires OnList(s, hole, k, b)
    ensures Listed(MergeState(s, lo, k, b), lo) && Coalesced(MergeState(s, lo, k, b), lo)
  {
    var s' := MergeState(s, lo, k, b);
    assert forall j: nat, i: nat :: OnList(s', lo, j, i) <==> OnList(s, hole, j, i) && i != b;
    WithoutFacts(s.fl[k], b);
    forall j, i: nat | 0 <= j < MAX_ORDER ensures i in s'.fl[j] <==> OnList(s', lo, j, i) {
      assert i in s.fl[j] <==> OnList(s, hole, j, i);
    }
  }

  lemma MergeStep(s: State, hole: nat, k: nat)
    requires Inv(s, hole) && s.tiling[hole] == k < HUGE
    requires Mate(hole, k) >= 0 && OnList(s, hole, k, Mate(hole, k))
    ensures var b := Mate(hole, k);
            var lo := if b < hole then b else hole;
            && lo + Pow2(k) < |s.ps| && (lo == b ==> hole == lo + Pow2(k)) && (lo == hole ==> b == lo + Pow2(k))
            && var s' := MergeState(s, lo, k, b);
               Inv(s', lo) && s'.tiling[lo] == k + 1 && Pool(s', lo) == Pool(s, hole) && Owned(s', lo) == Owned(s, hole)
  {
    var b := Mate(hole, k);
    var lo := if b < hole then b else hole;
    MateFacts(hole, k);
    MateOfFree(s, hole, k, b);
    assert CanMerge(s.tiling, lo, k);
    RetileMerge(s.tiling, lo, k);
    MergeHeads(s.tiling, lo, k, lo);
    assert PageOk(s, b);
    forall p: nat | p < |s.ps| { MergePageOk(s, lo, k, b, p); }
    forall p: nat | p < |s.ps| { MergeView(s, hole, lo, k, b, p); }
    MergeLists(s, hole, lo, k, b);
    SameView(s, hole, MergeState(s, lo, k, b), lo);
  }

  // ---- Taking a block out of the partition and putting it back -------------------------

  /** `list_pop` of a non-empty list: its head block leaves the lists. */
  lemma PopStep(s: State, k: nat)
    requires Inv(s, NO_HOLE) && k < MAX_ORDER && s.fl[k] != []
    ensures var h := s.fl[k][0];
            var s' := s.(fl := s.fl[k := s.fl[k][1..]]);
            && h < |s.ps| && s.ps[h].order == s.tiling[h] == k && h !in Owned(s, NO_HOLE)
            && Inv(s', h) && Pool(s', h) == FreePages(s) && Owned(s', h) == Owned(s, NO_HOLE)
  {
    var h := s.fl[k][0];
    var s' := s.(fl := s.fl[k := s.fl[k][1..]]);
    assert h in s.fl[k] && OnList(s, NO_HOLE, k, h) && PageOk(s, h);
    assert forall j: nat, i: nat :: OnList(s', h, j, i) <==> OnList(s, NO_HOLE, j, i) && i != h;
    assert forall i :: i in s.fl[k] <==> i == h || i in s.fl[k][1..];
    forall j, i: nat | 0 <= j < MAX_ORDER ensures i in s'.fl[j] <==> OnList(s', h, j, i) {
      assert i in s.fl[j] <==> OnList(s, NO_HOLE, j, i);
    }
    assert forall p: nat :: p < |s.ps| ==> PageOk(s', p) == PageOk(s, p);
    SameView(s, NO_HOLE, s', h);
  }

  /** The block handed to page_free is lifted out of the allocated blocks. */
  lemma LiftStep(s: State, h: nat)
    requires Inv(s, NO_HOLE) && h in Owned(s, NO_HOLE) && s.ps[h].ref == 0
    ensures Inv(s, h) && Owned(s, h) == Owned(s, NO_HOLE) - {h}
    ensures Pool(s, h) == FreePages(s) + BlockPages(h, s.tiling[h])
    ensures FreePages(s) !! BlockPages(h, s.tiling[h])
  {
    assert forall j: nat, i: nat :: OnList(s, h, j, i) <==> OnList(s, NO_HOLE, j, i);
    forall j, i: nat | 0 <= j < MAX_ORDER ensures i in s.fl[j] <==> OnList(s, h, j, i) {
      assert i in s.fl[j] <==> OnList(s, NO_HOLE, j, i);
    }
    forall p: nat { InBlock(s, NO_HOLE, h, p); }
  }

  /** buddy_split's last line: the block in flight becomes allocated. */
  lemma AllocStep(s: State, h: nat)
    requires Inv(s, h)
    ensures var s' := s.(ps := s.ps[h := s.ps[h].(free := false)]);
            && Inv(s', NO_HOLE)
            && Owned(s', NO_HOLE) == Owned(s, h)[h := Own(s.tiling[h], 0)]
            && FreePages(s') == Pool(s, h) - BlockPages(h, s.tiling[h])
            && BlockPages(h, s.tiling[h]) <= Pool(s, h)
  {
    var s' := s.(ps := s.ps[h := s.ps[h].(free := false)]);
    assert forall j: nat, i: nat :: OnList(s', NO_HOLE, j, i) <==> OnList(s, h, j, i);
    forall j, i: nat | 0 <= j < MAX_ORDER ensures i in s'.fl[j] <==> OnList(s', NO_HOLE, j, i) {
      assert i in s.fl[j] <==> OnList(s, h, j, i);
    }
    assert forall p: nat :: p < |s.ps| && PageOk(s, p) ==> PageOk(s', p);
    forall p: nat { InBlock(s, h, h, p); }
    forall p: nat | p < |s.ps| { HeadFacts(s.tiling, p); }
  }

  /** page_free's last lines: the merged block goes to the tail of its list. */
  lemma FreeStep(s: State, h: nat, k: nat)
    requires Inv(s, h) && s.tiling[h] == k
    requires k == HUGE || (Mate(h, k) >= 0 && !OnList(s, h, k, Mate(h, k)))
    ensures var s' := s.(ps := s.ps[h := s.ps[h].(free := true)], fl := s.fl[k := s.fl[k] + [h]]);
            Inv(s', NO_HOLE) && Owned(s', NO_HOLE) == Owned(s, h) && FreePages(s') == Pool(s, h)
  {
    var s' := s.(ps := s.ps[h := s.ps[h].(free := true)], fl := s.fl[k := s.fl[k] + [h]]);
    assert PageOk(s, h);
    assert forall p: nat :: p < |s.ps| && PageOk(s, p) ==> PageOk(s', p);
    FreeLists(s, s', h, k);
    forall p: nat | p < |s.ps| { HeadFacts(s.tiling, p); }
    SameView(s, h, s', NO_HOLE);
  }

  lemma FreeLists(s: State, s': State, h: nat, k: nat)
    requires Inv(s, h) && s.tiling[h] == k && s.ps[h].order == k
    requires k == HUGE || (Mate(h, k) >= 0 && !OnList(s, h, k, Mate(h, k)))
    requires s' == s.(ps := s.ps[h := s.ps[h].(free := true)], fl := s.fl[k := s.fl[k] + [h]])
    ensures Listed(s', NO_HOLE) && Coalesced(s', NO_HOLE)
  {
    var r := s.(ps := s.ps[h := s.ps[h].(free := false)]);
    assert forall j: nat, i: nat :: OnList(r, NO_HOLE, j, i) <==> OnList(s, h, j, i);
    assert forall j, i: nat :: 0 <= j < MAX_ORDER ==> (i in s.fl[j] <==> OnList(s, h, j, i));
    MateFacts(h, k);
    forall i: nat | k < HUGE && Mate(i, k) == h && OnList(s, h, k, i) ensures false { MateOfFree(s, h, k, i); }
    assert forall j: nat, i: nat :: OnList(s', NO_HOLE, j, i) <==> OnList(s, h, j, i) || (j == k && i == h);
    AddListed(r, s', NO_HOLE, k, h);
  }

  // ---- The free blocks are a function of the free pages --------------------------------

  ghost predicate AllFree(s: State, h: nat, k: nat) {
    forall p :: p in BlockPages(h, k) ==> p in FreePages(s)
  }

  /** No aligned run of 2^k pages is free. */
  ghost predicate NoRun(s: State, k: nat) {
    forall h: nat :: Down(h, k) == h ==> !AllFree(s, h, k)
  }

  /** Without a free page there is no free run of any size. */
  lemma NoPageNoRun(s: State, k: nat)
    requires NoRun(s, 0)
    ensures NoRun(s, k)
  {
    forall h: nat | Down(h, k) == h ensures !AllFree(s, h, k) {
      if AllFree(s, h, k) {
        assert h in BlockPages(h, k);
        assert Down(h, 0) == h && AllFree(s, h, 0);
      }
    }
  }

  /** An aligned run of free pages lies inside one free block: this is what merging buys. */
  lemma {:induction false} RunInOneBlock(s: State, h: nat, k: nat)
    requires Inv(s, NO_HOLE) && k <= HUGE && Down(h, k) == h && AllFree(s, h, k)
    ensures h < |s.ps| && s.tiling[h] >= k
    decreases k
  {
    hide Tiled;
    hide Listed;
    hide Coalesced;
    hide Down;
    hide Pow2;
    assert h in BlockPages(h, k);
    if k > 0 {
      UpperHalf(h, k - 1);
      var u := h + Pow2(k - 1);
      forall p | p in BlockPages(h, k - 1) || p in BlockPages(u, k - 1) ensures p in FreePages(s) {
        DownDown(p, k - 1, k);
        assert p in BlockPages(h, k);
      }
      RunInOneBlock(s, h, k - 1);
      RunInOneBlock(s, u, k - 1);
      HalvesMerge(s, h, u, k - 1);
    }
  }

  lemma HalvesMerge(s: State, h: nat, u: nat, k: nat)
    requires Inv(s, NO_HOLE) && k < HUGE && Down(h, k + 1) == h && u == h + Pow2(k) < |s.ps|
    requires h in FreePages(s) && u in FreePages(s) && s.tiling[h] >= k && s.tiling[u] >= k
    ensures s.tiling[h] > k
  {
    hide Down;
    hide Pow2;
    hide Tiled;
    hide Listed;
    UpperHalf(h, k);
    MateFacts(h, k);
    if s.tiling[u] > k {
      BlockSpan(s.tiling, u, h, k + 1);
    } else if s.tiling[h] == k {
      FreeHead(s, h, k);
      FreeHead(s, u, k);
      assert false;
    }
  }

  lemma FreeHead(s: State, h: nat, k: nat)
    requires Inv(s, NO_HOLE) && h in FreePages(s) && s.tiling[h] == k && Down(h, k) == h
    ensures OnList(s, NO_HOLE, k, h)
  {
    assert PageOk(s, h);
  }

  /** A block that holds the whole order-k run of p holds every page of the run. */
  lemma BlockSpan(t: seq<nat>, p: nat, q: nat, k: nat)
    requires Tiled(t) && p < |t| && q < |t| && Down(p, k) == Down(q, k) && t[p] >= k
    ensures t[q] == t[p]
  {
    DownUp(p, q, k, t[p]);
  }

  /** The free blocks are the maximal aligned runs of free pages. */
  lemma FreeBlocksAreMaximalRuns(s: State, h: nat, k: nat)
    requires Inv(s, NO_HOLE) && k <= HUGE
    ensures (h, k) in FreeBlocks(s) <==>
              Down(h, k) == h && AllFree(s, h, k) && (k == HUGE || !AllFree(s, Down(h, k + 1), k + 1))
  {
    if (h, k) in FreeBlocks(s) {
      MateOfFree(s, NO_HOLE, k, h);
      forall p { InBlock(s, NO_HOLE, h, p); }
      if k < HUGE && AllFree(s, Down(h, k + 1), k + 1) {
        DownDown(h, k + 1, k + 1);
        RunInOneBlock(s, Down(h, k + 1), k + 1);
        BlockSpan(s.tiling, Down(h, k + 1), h, k + 1);
        assert false;
      }
    }
    if Down(h, k) == h && AllFree(s, h, k) && (k == HUGE || !AllFree(s, Down(h, k + 1), k + 1)) {
      RunInOneBlock(s, h, k);
      assert h in BlockPages(h, k);
      if s.tiling[h] > k {
        ParentAllFree(s, h, k);
        assert false;
      }
      FreeHead(s, h, k);
    }
  }

  lemma ParentAllFree(s: State, h: nat, k: nat)
    requires Inv(s, NO_HOLE) && h in FreePages(s) && s.tiling[h] > k
    ensures AllFree(s, Down(h, k + 1), k + 1)
  {
    var g := Head(s.tiling, h);
    HeadFacts(s.tiling, h);
    forall p | p in BlockPages(Down(h, k + 1), k + 1) ensures p in FreePages(s) {
      DownUp(p, h, k + 1, s.tiling[h]);
      InRange(|s.ps|, h, p, s.tiling[h]);
      BlockIsHead(s.tiling, g, p);
    }
  }

  /** Canonical form: states with the same free pages have the same free blocks, whatever
      the history of allocations and releases that led to them. */
  lemma CanonicalForm(s: State, s': State)
    requires Inv(s, NO_HOLE) && Inv(s', NO_HOLE) && FreePages(s) == FreePages(s')
    ensures FreeBlocks(s) == FreeBlocks(s')
  {
    forall h: nat, k: nat | k < MAX_ORDER
      ensures (h, k) in FreeBlocks(s) <==> (h, k) in FreeBlocks(s')
    {
      FreeBlocksAreMaximalRuns(s, h, k);
      FreeBlocksAreMaximalRuns(s', h, k);
    }
  }

  // ---- Counting -----------------------------------------------------------------------

  function WeightedSum(fl: seq<seq<nat>>, k: nat): nat
    requires k <= |fl|
  {
    if k == 0 then 0 else WeightedSum(fl, k - 1) + |fl[k - 1]| * Pow2(k - 1)
  }

  lemma {:induction false} IntervalSize(h: nat, m: nat, b: set<nat>)
    requires forall p: nat :: p in b <==> h <= p < h + m
    ensures |b| == m
    decreases m
  {
    if m == 0 {
      assert b == {};
    } else {
      IntervalSize(h, m - 1, b - {h + m - 1});
    }
  }

  lemma BlockSize(h: nat, k: nat)
    requires Down(h, k) == h
    ensures |BlockPages(h, k)| == Pow2(k)
  {
    forall p: nat { DownIff(p, h, k); }
    IntervalSize(h, Pow2(k), BlockPages(h, k));
  }

  ghost function Covered(n: nat, q: seq<nat>, k: nat): set<nat> {
    set p: nat | p < n && Down(p, k) in q
  }

  lemma CoveredGrow(n: nat, r: seq<nat>, h: nat, k: nat)
    requires h !in r && Down(h, k) == h && h + Pow2(k) <= n
    ensures |Covered(n, r + [h], k)| == |Covered(n, r, k)| + Pow2(k)
  {
    BlockSize(h, k);
    assert Covered(n, r + [h], k) == Covered(n, r, k) + BlockPages(h, k);
    assert Covered(n, r, k) !! BlockPages(h, k);
  }

  lemma {:induction false} CoveredSize(n: nat, q: seq<nat>, k: nat)
    requires Distinct(q) && forall i :: 0 <= i < |q| ==> Down(q[i], k) == q[i] && q[i] + Pow2(k) <= n
    ensures |Covered(n, q, k)| == |q| * Pow2(k)
  {
    if q == [] {
      assert Covered(n, q, k) == {};
    } else {
      var r, h := q[..|q| - 1], q[|q| - 1];
      CoveredSize(n, r, k);
      assert q == r + [h];
      CoveredGrow(n, r, h, k);
      assert (|r| + 1) * Pow2(k) == |r| * Pow2(k) + Pow2(k);
    }
  }

  ghost function FreeBelow(s: State, k: nat): set<nat> {
    set p: nat | p < |s.tiling| && InPool(s, NO_HOLE, p) && s.tiling[p] < k
  }

  lemma OrderPages(s: State, k: nat, p: nat)
    requires Inv(s, NO_HOLE) && k < MAX_ORDER && p < |s.ps|
    ensures Down(p, k) in s.fl[k] <==> InPool(s, NO_HOLE, p) && s.tiling[p] == k
  {
    HeadFacts(s.tiling, p);
    var d := Down(p, k);
    assert d in s.fl[k] <==> OnList(s, NO_HOLE, k, d);
    if OnList(s, NO_HOLE, k, d) {
      MateOfFree(s, NO_HOLE, k, d);
      BlockIsHead(s.tiling, d, p);
    }
    assert PageOk(s, Head(s.tiling, p));
  }

  lemma ListSize(s: State, k: nat)
    requires Inv(s, NO_HOLE) && k < MAX_ORDER
    ensures |Covered(|s.ps|, s.fl[k], k)| == |s.fl[k]| * Pow2(k)
  {
    forall i | 0 <= i < |s.fl[k]| ensures Down(s.fl[k][i], k) == s.fl[k][i] && s.fl[k][i] + Pow2(k) <= |s.ps| {
      var h := s.fl[k][i];
      assert h in s.fl[k];
      assert OnList(s, NO_HOLE, k, h);
      MateOfFree(s, NO_HOLE, k, h);
      DownAligned(|s.ps|, k, HUGE);
      DownRoom(h, |s.ps|, k);
    }
    CoveredSize(|s.ps|, s.fl[k], k);
  }

  lemma FreeBelowStep(s: State, k: nat)
    requires Inv(s, NO_HOLE) && k < MAX_ORDER
    ensures |FreeBelow(s, k + 1)| == |FreeBelow(s, k)| + |s.fl[k]| * Pow2(k)
  {
    ListSize(s, k);
    var c := Covered(|s.ps|, s.fl[k], k);
    forall p: nat | p < |s.ps| ensures p in c <==> InPool(s, NO_HOLE, p) && s.tiling[p] == k {
      OrderPages(s, k, p);
    }
    assert FreeBelow(s, k + 1) == FreeBelow(s, k) + c;
    assert FreeBelow(s, k) !! c;
  }

  lemma {:induction false} FreeBelowSize(s: State, k: nat)
    requires Inv(s, NO_HOLE) && k <= MAX_ORDER
    ensures |FreeBelow(s, k)| == WeightedSum(s.fl, k)
  {
    if k == 0 {
      assert FreeBelow(s, 0) == {};
    } else {
      FreeBelowSize(s, k - 1);
      FreeBelowStep(s, k - 1);
    }
  }

  /** The list lengths, weighted by block size, add up to the number of free pages. */
  lemma CountIsFreePages(s: State)
    requires Inv(s, NO_HOLE)
    ensures WeightedSum(s.fl, MAX_ORDER) == |FreePages(s)|
  {
    FreeBelowSize(s, MAX_ORDER);
    assert FreeBelow(s, MAX_ORDER) == FreePages(s);
  }

  lemma NoListNoRun(s: State, k: nat, h: nat)
    requires Inv(s, NO_HOLE) && k <= HUGE && forall j :: k <= j < MAX_ORDER ==> s.fl[j] == []
    requires Down(h, k) == h
    ensures !AllFree(s, h, k)
  {
    if AllFree(s, h, k) {
      RunInOneBlock(s, h, k);
      assert h in BlockPages(h, k);
      FreeOnList(s, h);
    }
  }

  lemma FreeOnList(s: State, p: nat)
    requires Inv(s, NO_HOLE) && p in FreePages(s)
    ensures s.fl[s.tiling[p]] != []
  {
    HeadFacts(s.tiling, p);
    var g, j := Head(s.tiling, p), s.tiling[p];
    assert PageOk(s, g) && OnList(s, NO_HOLE, j, g);
    assert g in s.fl[j];
  }

  // ---- The allocator ------------------------------------------------------------------

  class Allocator {
    const pages: array<PageInfo>
    var freeList: seq<seq<nat>>
    ghost var tiling: seq<nat>

    ghost function S(): State
      reads this, pages
    {
      State(pages[..], freeList, tiling)
    }

    ghost predicate Valid()
      reads this, pages
    {
      Inv(S(), NO_HOLE)
    }

    ghost function Blocks(): map<nat, Own>
      reads this, pages
    {
      Owned(S(), NO_HOLE)
    }

    ghost function Free(): set<nat>
      reads this, pages
    {
      FreePages(S())
    }

    /** page_init, first loop: every page is an allocated block of order 0, not available. */
    constructor (n: nat)
      requires Down(n, HUGE) == n
      ensures Valid() && fresh(pages) && pages.Length == n && Blocks() == map[] && Free() == {}
    {
      pages := new PageInfo[n](_ => PageInfo(0, false, false, 0));
      freeList := seq(MAX_ORDER, _ => []);
      tiling := seq(n, _ => 0);
      new;
      forall p: nat ensures Down(p, 0) == p { DownStep(p, 0); }
    }

    /** page_init: the memory map says that page p is usable. */
    method MarkAvailable(p: nat)
      requires Valid() && p < pages.Length && !pages[p].avail
      modifies pages
      ensures Valid() && Free() == old(Free())
      ensures Blocks() == old(Blocks())[p := Own(old(pages[p].order), old(pages[p].ref))]
    {
      ghost var s := S();
      assert PageOk(s, p);
      pages[p] := pages[p].(avail := true);
      assert S() == s.(ps := s.ps[p := s.ps[p].(avail := true)]);
      SetMeta(s, p, S().ps[p]);
    }

    method BuddySplit(lhs: nat, req: nat) returns (r: nat)
      requires Inv(S(), lhs) && req <= pages[lhs].order
      modifies pages, `freeList, `tiling
      ensures r == lhs && Valid() && Down(lhs, req) == lhs
      ensures Blocks() == old(Owned(S(), lhs))[lhs := Own(req, 0)]
      ensures Free() == old(Pool(S(), lhs)) - BlockPages(lhs, req)
      ensures BlockPages(lhs, req) <= old(Pool(S(), lhs))
      ensures SplitOff(old(freeList), freeList, lhs, req, old(pages[lhs].order))
    {
      hide Inv;
      hide SplitOff;
      hide Retile;
      HoleFacts(S(), lhs);
      SplitNone(freeList, lhs, pages[lhs].order);
      while pages[lhs].order > req
        invariant SplitOff(old(freeList), freeList, lhs, pages[lhs].order, old(pages[lhs].order))
        invariant 0 <= lhs < pages.Length == |tiling| && |freeList| == MAX_ORDER
        invariant Inv(S(), lhs) && pages[lhs].order == tiling[lhs] >= req
        invariant Pool(S(), lhs) == old(Pool(S(), lhs)) && Owned(S(), lhs) == old(Owned(S(), lhs))
        decreases pages[lhs].order
      {
        ghost var s := S();
        ghost var k := pages[lhs].order - 1;
        SplitStep(s, lhs, k);
        FlipIsMate(lhs, k);
        var buddy := Flip(lhs, pages[lhs].order - 1);
        pages[lhs] := pages[lhs].(order := pages[lhs].order - 1);
        pages[buddy] := pages[buddy].(order := pages[lhs].order, free := true);
        freeList := freeList[pages[buddy].order := freeList[pages[buddy].order] + [buddy]];
        tiling := Retile(tiling, lhs, k + 1, k);
        assert S() == SplitState(s, lhs, k);
        SplitMore(old(freeList), s.fl, lhs, k, old(pages[lhs].order));
        HoleFacts(S(), lhs);
      }
      AllocStep(S(), lhs);
      HoleAligned(S(), lhs);
      ghost var s := S();
      pages[lhs] := pages[lhs].(free := false);
      assert S() == s.(ps := s.ps[lhs := s.ps[lhs].(free := false)]);
      r := lhs;
    }

    method BuddyMerge(pp: nat) returns (page: nat)
      requires Inv(S(), pp)
      modifies pages, `freeList, `tiling
      ensures Inv(S(), page) && pages[page].order == tiling[page]
      ensures Pool(S(), page) == old(Pool(S(), pp)) && Owned(S(), page) == old(Owned(S(), pp))
      ensures var k := pages[page].order; k == HUGE || (Mate(page, k) >= 0 && !OnList(S(), page, k, Mate(page, k)))
    {
      hide Inv;
      hide Pool;
      hide Owned;
      hide Retile;
      hide Without;
      hide Down;
      hide Pow2;
      page := pp;
      HoleFacts(S(), pp);
      while pages[page].order < MAX_ORDER - 1
        invariant 0 <= page < pages.Length == |tiling| && |freeList| == MAX_ORDER
        invariant Inv(S(), page) && pages[page].order == tiling[page] <= HUGE
        invariant Pool(S(), page) == old(Pool(S(), pp)) && Owned(S(), page) == old(Owned(S(), pp))
        decreases MAX_ORDER - pages[page].order
      {
        ghost var s := S();
        ghost var k := pages[page].order;
        FlipIsMate(page, k);
        MateInRange(s, page, k);
        var buddy := Flip(page, pages[page].order);
        if pages[buddy].free { FreeIsUsable(s, page, buddy); }
        if !pages[buddy].avail || pages[buddy].ref > 0 {
          break;
        }
        if !pages[buddy].free || pages[buddy].order != pages[page].order {
          break;
        }
        MergeStep(s, page, k);
        ghost var b := buddy;
        freeList := freeList[pages[buddy].order := Without(freeList[pages[buddy].order], buddy)];
        if page > buddy {
          page, buddy := buddy, page;
        }
        pages[buddy] := pages[buddy].(free := false);
        pages[page] := pages[page].(order := pages[page].order + 1);
        tiling := Retile(tiling, page, k + 1, k + 1);
        assert S() == MergeState(s, page, k, b);
        HoleFacts(S(), page);
      }
    }

    method BuddyFind(req: nat) returns (r: Option<nat>)
      requires Valid() && req <= HUGE
      modifies pages, `freeList, `tiling
      ensures Valid()
      ensures r.None? ==> S() == old(S()) && NoRun(S(), req)
      ensures r.Some? ==> Allocated(old(S()), S(), r.value, req)
      ensures r.Some? ==> exists k :: FromLeast(old(S()), S(), r.value, req, k)
    {
      hide FromLeast;
      hide SplitOff;
      var order := req;
      while order < MAX_ORDER
        invariant req <= order <= MAX_ORDER
        invariant S() == old(S())
        invariant forall j :: req <= j < order ==> freeList[j] == []
      {
        if freeList[order] != [] {
          PopStep(S(), order);
          var page := freeList[order][0];
          ghost var s := S();
          freeList := freeList[order := freeList[order][1..]];
          assert S() == s.(fl := s.fl[order := s.fl[order][1..]]);
          var f := BuddySplit(page, req);
          assert Free() == old(Free()) - BlockPages(f, req);
          FromLeastIs(s, S(), f, req, order);
          return Some(f);
        }
        order := order + 1;
      }
      forall h: nat | Down(h, req) == h ensures !AllFree(S(), h, req) { NoListNoRun(S(), req, h); }
      r := None;
    }

    /** NULL is returned exactly when no aligned run of the requested size is free. */
    method PageAlloc(huge: bool) returns (r: Option<nat>)
      requires Valid()
      modifies pages, `freeList, `tiling
      ensures Valid()
      ensures r.None? ==> S() == old(S())
      ensures r.None? <==> NoRun(old(S()), OrderOf(huge))
      ensures r.Some? ==> Allocated(old(S()), S(), r.value, OrderOf(huge))
      ensures r.Some? ==> exists k :: FromLeast(old(S()), S(), r.value, OrderOf(huge), k)
    {
      var req := 0;
      if huge {
        req := HUGE;
      }
      r := BuddyFind(req);
      assert r.Some? ==> AllFree(old(S()), r.value, OrderOf(huge));
    }

    method PageFree(pp: nat)
      requires Valid() && pp in Blocks() && Blocks()[pp].ref == 0
      modifies pages, `freeList, `tiling
      ensures Valid() && Freed(old(S()), S(), pp)
    {
      LiftStep(S(), pp);
      var page := BuddyMerge(pp);
      ghost var s := S();
      FreeStep(s, page, pages[page].order);
      pages[page] := pages[page].(free := true);
      freeList := freeList[pages[page].order := freeList[pages[page].order] + [page]];
      assert S() == s.(ps := s.ps[page := s.ps[page].(free := true)],
                       fl := s.fl[s.ps[page].order := s.fl[s.ps[page].order] + [page]]);
    }

    /** pp_ref++ */
    method IncRef(pp: nat)
      requires Valid() && pp in Blocks()
      modifies pages
      ensures Valid() && Free() == old(Free())
      ensures Blocks() == old(Blocks())[pp := old(Blocks()[pp]).(ref := old(Blocks()[pp]).ref + 1)]
    {
      ghost var s := S();
      pages[pp] := pages[pp].(ref := pages[pp].ref + 1);
      assert S() == s.(ps := s.ps[pp := s.ps[pp].(ref := s.ps[pp].ref + 1)]);
      SetMeta(s, pp, S().ps[pp]);
      assert PageOk(s, pp);
    }

    /** The block goes back to the free lists exactly when its last reference goes. */
    method PageDecref(pp: nat)
      requires Valid() && pp in Blocks() && Blocks()[pp].ref > 0
      modifies pages, `freeList, `tiling
      ensures Valid()
      ensures var b := old(Blocks()[pp]);
              if b.ref == 1 then Blocks() == old(Blocks()) - {pp} && Free() == old(Free()) + BlockPages(pp, b.order)
              else Blocks() == old(Blocks())[pp := b.(ref := b.ref - 1)] && Free() == old(Free())
    {
      ghost var s := S();
      pages[pp] := pages[pp].(ref := pages[pp].ref - 1);
      assert S() == s.(ps := s.ps[pp := s.ps[pp].(ref := s.ps[pp].ref - 1)]);
      SetMeta(s, pp, S().ps[pp]);
      assert PageOk(s, pp);
      if pages[pp].ref == 0 {
        PageFree(pp);
      }
    }

    method CountFreePages(order: nat) returns (n: nat)
      requires Valid()
      ensures n == if order >= MAX_ORDER then 0 else |freeList[order]|
    {
      n := 0;
      if order >= MAX_ORDER {
        return;
      }
      var rest := freeList[order];
      while rest != []
        invariant n + |rest| == |freeList[order]|
        decreases |rest|
      {
        rest := rest[1..];
        n := n + 1;
      }
    }

    method CountTotalFreePages() returns (nfree: nat)
      requires Valid()
      ensures nfree == |Free()|
    {
      nfree := 0;
      var order := 0;
      while order < MAX_ORDER
        invariant 0 <= order <= MAX_ORDER == |freeList| && nfree == WeightedSum(freeList, order)
      {
        var n := CountFreePages(order);
        nfree := nfree + n * Pow2(order);
        order := order + 1;
      }
      CountIsFreePages(S());
    }
  }

  function OrderOf(huge: bool): nat { if huge then HUGE else 0 }

  /** What page_free of the allocated block f does to the partition. */
  ghost predicate Freed(s: State, s': State, f: nat) {
    && f in Owned(s, NO_HOLE)
    && Owned(s', NO_HOLE) == Owned(s, NO_HOLE) - {f}
    && FreePages(s') == FreePages(s) + BlockPages(f, Owned(s, NO_HOLE)[f].order)
    && FreePages(s) !! BlockPages(f, Owned(s, NO_HOLE)[f].order)
  }

  /** Allocating a block and freeing it again, at any later time at which the same pages are
      otherwise free, gives back the same free blocks. */
  lemma AllocFreeRestores(s: State, s1: State, s2: State, f: nat, k: nat)
    requires Inv(s, NO_HOLE) && Inv(s1, NO_HOLE) && Inv(s2, NO_HOLE)
    requires Allocated(s, s1, f, k) && Freed(s1, s2, f)
    ensures FreeBlocks(s2) == FreeBlocks(s) && Owned(s2, NO_HOLE) == Owned(s, NO_HOLE)
  {
    assert FreePages(s2) == FreePages(s);
    CanonicalForm(s, s2);
  }

  /** The free page count moves by exactly the size of the block. */
  lemma CountMoves(s: State, s': State, f: nat, k: nat)
    requires Inv(s, NO_HOLE) && Inv(s', NO_HOLE)
    requires Allocated(s, s', f, k) || (Freed(s', s, f) && Owned(s', NO_HOLE)[f].order == k && Down(f, k) == f)
    ensures |FreePages(s)| == |FreePages(s')| + Pow2(k)
  {
    BlockSize(f, k);
    assert FreePages(s) == FreePages(s') + BlockPages(f, k);
  }

  ghost predicate IsBlock(s: State, h: nat, k: nat) {
    h < |s.ps| && s.ps[h].order == k && (OnList(s, NO_HOLE, k, h) || h in Owned(s, NO_HOLE))
  }

  /** Free and allocated blocks are aligned and in range. */
  lemma BlockShape(s: State, h: nat, k: nat)
    requires Inv(s, NO_HOLE) && IsBlock(s, h, k)
    ensures k <= HUGE && Down(h, k) == h && h + Pow2(k) <= |s.ps|
    ensures Head(s.tiling, h) == h && s.tiling[h] == k
  {
    assert PageOk(s, h);
    DownAligned(|s.ps|, k, HUGE);
    DownRoom(h, |s.ps|, k);
  }

  /** They cover the available pages. */
  lemma BlocksCover(s: State, p: nat)
    requires Inv(s, NO_HOLE) && p < |s.ps| && s.ps[p].avail
    ensures exists h: nat, k: nat :: IsBlock(s, h, k) && p in BlockPages(h, k)
  {
    var h := Head(s.tiling, p);
    HeadFacts(s.tiling, p);
    assert PageOk(s, p) && PageOk(s, h);
    if h == p { } else if s.tiling[p] == 0 { DownStep(p, 0); }
    assert IsBlock(s, h, s.tiling[p]) && p in BlockPages(h, s.tiling[p]);
  }

  /** They do not overlap. */
  lemma BlocksDisjoint(s: State, g: nat, j: nat, h: nat, k: nat)
    requires Inv(s, NO_HOLE) && IsBlock(s, g, j) && IsBlock(s, h, k) && g != h
    ensures BlockPages(g, j) !! BlockPages(h, k)
  {
    BlockShape(s, g, j);
    BlockShape(s, h, k);
    forall p: nat | p in BlockPages(g, j) && p in BlockPages(h, k) ensures false {
      InBlock(s, NO_HOLE, g, p);
      InBlock(s, NO_HOLE, h, p);
    }
  }

  /** Allocated blocks as disjoint intervals. */
  lemma OwnedIntervals(s: State)
    requires Inv(s, NO_HOLE)
    ensures forall f :: f in Owned(s, NO_HOLE) ==> f + Pow2(Owned(s, NO_HOLE)[f].order) <= |s.ps|
    ensures forall f, g :: f in Owned(s, NO_HOLE) && g in Owned(s, NO_HOLE) && f < g ==>
              f + Pow2(Owned(s, NO_HOLE)[f].order) <= g
  {
    hide Inv;
    forall f | f in Owned(s, NO_HOLE) ensures f + Pow2(Owned(s, NO_HOLE)[f].order) <= |s.ps| { OwnedShape(s, f); }
    forall f, g | f in Owned(s, NO_HOLE) && g in Owned(s, NO_HOLE) && f < g
      ensures f + Pow2(Owned(s, NO_HOLE)[f].order) <= g
    {
      OwnedShape(s, f);
      OwnedShape(s, g);
      BlocksDisjoint(s, f, s.tiling[f], g, s.tiling[g]);
      DownIff(g, f, s.tiling[f]);
      assert g in BlockPages(g, s.tiling[g]);
    }
  }

  lemma OwnedShape(s: State, f: nat)
    requires Inv(s, NO_HOLE) && f in Owned(s, NO_HOLE)
    ensures IsBlock(s, f, s.tiling[f]) && Down(f, s.tiling[f]) == f && f + Pow2(s.tiling[f]) <= |s.ps|
    ensures s.ps[f].order == s.tiling[f] == Owned(s, NO_HOLE)[f].order
  {
    assert PageOk(s, f);
    BlockShape(s, f, s.tiling[f]);
  }

  /** pp_free is set exactly for the heads on the list of their own order. */
  lemma FreeIffListed(s: State, p: nat)
    requires Inv(s, NO_HOLE) && p < |s.ps|
    ensures s.ps[p].free <==> s.ps[p].order < MAX_ORDER && p in s.fl[s.ps[p].order]
    ensures forall k, i: nat :: 0 <= k < MAX_ORDER && i in s.fl[k] ==> i < |s.ps| && s.ps[i].order == k
  {
    assert PageOk(s, p);
    assert forall k, i: nat :: 0 <= k < MAX_ORDER ==> (i in s.fl[k] <==> OnList(s, NO_HOLE, k, i));
  }

  /** The lists after a block of order k at h has been split down to order req: the upper halves are
      at the ends of the lists of their orders. */
  ghost predicate SplitOff(fl: seq<seq<nat>>, fl': seq<seq<nat>>, h: nat, req: nat, k: nat) {
    |fl'| == |fl| && forall j :: 0 <= j < |fl| ==> fl'[j] == fl[j] + if req <= j < k then [h + Pow2(j)] else []
  }

  lemma SplitNone(fl: seq<seq<nat>>, h: nat, k: nat)
    ensures SplitOff(fl, fl, h, k, k)
  {
  }

  lemma SplitMore(fl0: seq<seq<nat>>, fl: seq<seq<nat>>, h: nat, j: nat, k: nat)
    requires SplitOff(fl0, fl, h, j + 1, k) && j < |fl| && j < k
    ensures SplitOff(fl0, fl[j := fl[j] + [h + Pow2(j)]], h, j, k)
  {
  }

  /** Block f is cut from the first free block of the least order k that has one, and what is left of
      that is free. */
  ghost predicate FromLeast(s: State, s': State, f: nat, req: nat, k: nat) {
    && |s.fl| == |s'.fl| == MAX_ORDER && req <= k < MAX_ORDER && s.fl[k] != [] && f == s.fl[k][0]
    && (forall j :: req <= j < k ==> s.fl[j] == [])
    && forall j :: 0 <= j < MAX_ORDER ==>
         s'.fl[j] == if j == k then s.fl[k][1..] else if req <= j < k then [f + Pow2(j)] else s.fl[j]
  }

  lemma FromLeastIs(s: State, s': State, f: nat, req: nat, k: nat)
    requires |s.fl| == MAX_ORDER && req <= k < MAX_ORDER && s.fl[k] != [] && f == s.fl[k][0]
    requires forall j :: req <= j < k ==> s.fl[j] == []
    requires SplitOff(s.fl[k := s.fl[k][1..]], s'.fl, f, req, k)
    ensures FromLeast(s, s', f, req, k)
  {
  }

  /** So no run is broken that is larger than the least free block that would do. */
  lemma LargerRunsKept(s: State, s': State, f: nat, req: nat, k: nat, h: nat, j: nat)
    requires Inv(s, NO_HOLE) && Allocated(s, s', f, req) && FromLeast(s, s', f, req, k)
    requires k < j <= HUGE && Down(h, j) == h
    ensures AllFree(s', h, j) <==> AllFree(s, h, j)
  {
    PopStep(s, k);
    hide Down;
    if AllFree(s, h, j) {
      RunInOneBlock(s, h, j);
      forall p | p in BlockPages(h, j) ensures p !in BlockPages(f, req) {
        if p in BlockPages(f, req) {
          DownDown(p, req, j);
          BlockSpan(s.tiling, h, f, j);
          assert false;
        }
      }
    }
  }

  /** What page_alloc of order k does to the partition. */
  ghost predicate Allocated(s: State, s': State, f: nat, k: nat) {
    && f !in Owned(s, NO_HOLE)
    && Owned(s', NO_HOLE) == Owned(s, NO_HOLE)[f := Own(k, 0)]
    && Down(f, k) == f && BlockPages(f, k) <= FreePages(s)
    && FreePages(s') == FreePages(s) - BlockPages(f, k)
  }

  lemma HoleFacts(s: State, h: nat)
    requires Inv(s, h)
    ensures h < |s.ps| == |s.tiling| && s.ps[h].order == s.tiling[h] <= HUGE && |s.fl| == MAX_ORDER
  {
    assert PageOk(s, h);
  }

  lemma HoleAligned(s: State, h: nat)
    requires Inv(s, h)
    ensures Down(h, s.tiling[h]) == h
  {
  }

  lemma FreeIsUsable(s: State, hole: int, p: nat)
    requires Inv(s, hole) && p < |s.ps| && s.ps[p].free
    ensures s.ps[p].avail && s.ps[p].ref == 0
  {
    assert PageOk(s, p);
  }

  lemma MateInRange(s: State, h: nat, k: nat)
    requires Inv(s, h) && s.tiling[h] == k < HUGE
    ensures 0 <= Mate(h, k) < |s.ps|
  {
    MateFacts(h, k);
    InRange(|s.ps|, h, Mate(h, k), k + 1);
  }

  /** Changing the reference count of a block in use, or making it available, keeps the rest. */
  lemma SetMeta(s: State, p: nat, v: PageInfo)
    requires Inv(s, NO_HOLE) && p < |s.ps| && Head(s.tiling, p) == p && !s.ps[p].free
    requires v == s.ps[p].(avail := true, ref := v.ref)
    ensures var s' := s.(ps := s.ps[p := v]);
            && Inv(s', NO_HOLE) && FreePages(s') == FreePages(s)
            && Owned(s', NO_HOLE) == Owned(s, NO_HOLE)[p := Own(s.ps[p].order, v.ref)]
  {
    var s' := s.(ps := s.ps[p := v]);
    assert PageOk(s, p);
    assert forall j: nat, i: nat :: OnList(s', NO_HOLE, j, i) <==> OnList(s, NO_HOLE, j, i);
    forall j, i: nat | 0 <= j < MAX_ORDER ensures i in s'.fl[j] <==> OnList(s', NO_HOLE, j, i) {
      assert i in s.fl[j] <==> OnList(s, NO_HOLE, j, i);
    }
    assert forall q: nat :: q < |s.ps| && PageOk(s, q) ==> PageOk(s', q);
  }
}
