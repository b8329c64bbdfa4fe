/** ptbl_merge: a full table of 4K pages with equal permissions becomes one 2M page. */
module Merging {
  import opened Common
  import opened Buddy
  import opened Paging
  import opened Effects
  import opened Callbacks
  import opened Tables

  /** Number of present entries that point to frame f. */
  function Count(es: seq<Pte>, f: nat): nat {
    if es == [] then 0 else (if es[0].present && es[0].frame == f then 1 else 0) + Count(es[1..], f)
  }

  lemma {:induction false} CountSnoc(es: seq<Pte>, e: Pte, f: nat)
    ensures Count(es + [e], f) == Count(es, f) + if e.present && e.frame == f then 1 else 0
  {
    if es == [] {
      assert es + [e] == [e];
    } else {
      assert (es + [e])[1..] == es[1..] + [e];
      CountSnoc(es[1..], e, f);
    }
  }

  /** The first j entries of table c cleared one after the other. */
  ghost function ClearFirst(m: Mem, c: nat, j: nat): (r: Mem)
    requires c in m.tb && j <= |m.tb[c]|
    ensures r.tb.Keys == m.tb.Keys && |r.tb[c]| == |m.tb[c]|
    ensures r.home == m.home && r.up == m.up && r.own == m.own && r.data == m.data
  {
    if j == 0 then m else Swap(ClearFirst(m, c, j - 1), c, j - 1, ZERO_ENTRY)
  }

  lemma {:induction false} ClearFirstTables(m: Mem, c: nat, j: nat)
    requires c in m.tb && j <= |m.tb[c]|
    ensures forall x :: x in m.tb && x != c ==> ClearFirst(m, c, j).tb[x] == m.tb[x]
    ensures forall k :: 0 <= k < |m.tb[c]| ==> ClearFirst(m, c, j).tb[c][k] == if k < j then ZERO_ENTRY else m.tb[c][k]
  {
    if j > 0 { ClearFirstTables(m, c, j - 1); }
  }

  lemma {:induction false} ClearFirstInv(m: Mem, c: nat, j: nat)
    requires MInv(m) && c in m.tb && m.home[c].level == 1 && j <= 512
    ensures MInv(ClearFirst(m, c, j))
  {
    hide MInv;
    ShapedOf(m);
    if j > 0 {
      ClearFirstInv(m, c, j - 1);
      ClearFirstTables(m, c, j - 1);
      SwapInv(ClearFirst(m, c, j - 1), c, j - 1, ZERO_ENTRY);
    }
  }

  lemma ClearedHeld(m: Mem, c: nat, j: nat, g: nat)
    requires c in m.tb && j < |m.tb[c]|
    ensures var r := ClearFirst(m, c, j);
            Held(ClearFirst(m, c, j + 1), g) == Held(r, g) + if r.tb[c][j].present && r.tb[c][j].frame == g then 1
              else 0
  {
    var r := ClearFirst(m, c, j);
    assert ClearFirst(m, c, j + 1) == Swap(r, c, j, ZERO_ENTRY);
    hide ClearFirst;
  }

  lemma NoneCleared(m: Mem, c: nat)
    requires c in m.tb
    ensures ClearFirst(m, c, 0) == m
  {
  }

  lemma {:induction false} ClearFirstHeld(m: Mem, c: nat, j: nat, g: nat)
    requires c in m.tb && j <= |m.tb[c]|
    ensures Held(ClearFirst(m, c, j), g) == Held(m, g) + Count(m.tb[c][..j], g)
  {
    hide ClearFirst;
    if j == 0 {
      assert m.tb[c][..0] == [];
      NoneCleared(m, c);
    } else {
      var es := m.tb[c];
      ClearFirstHeld(m, c, j - 1, g);
      ClearFirstTables(m, c, j - 1);
      ClearedHeld(m, c, j - 1, g);
      hide Held;
      assert es[..j] == es[..j - 1] + [es[j - 1]];
      CountSnoc(es[..j - 1], es[j - 1], g);
      hide Count;
    }
  }

  ghost predicate FullTable(m: Mem, t: nat, i: nat) {
    && MInv(m) && t in m.tb && i < 512 && m.home[t].level == 2 && IsTable(2, m.tb[t][i])
    && var c := m.tb[t][i].frame;
       c in m.tb && forall x :: 0 <= x < 512 ==> m.tb[c][x].present && m.tb[c][x].perm == m.tb[c][0].perm
  }

  /** Table c leaves the tree with its entries; their references are held by the kernel. */
  ghost function Detach(m: Mem, t: nat, i: nat): Mem
    requires t in m.tb && i < |m.tb[t]| && m.tb[t][i].frame in m.tb && |m.tb[m.tb[t][i].frame]| == 512
  {
    var m1 := ClearFirst(m, m.tb[t][i].frame, 512);
    if t in m1.tb && i < |m1.tb[t]| then DropTable(m1, t, i) else m1
  }

  /** Only the entry itself is left of the change outside table c. */
  lemma ClearedAll(m: Mem, m1: Mem, t: nat, i: nat, c: nat)
    requires t in m.tb && i < |m.tb[t]| && c != t && m1.tb.Keys == m.tb.Keys
    requires forall x :: x in m.tb && x != c ==> m1.tb[x] == m.tb[x]
    ensures SetEntry(m1.tb, t, i, ZERO_ENTRY) - {c} == SetEntry(m.tb, t, i, ZERO_ENTRY) - {c}
  {
  }

  lemma DetachInv(m: Mem, t: nat, i: nat)
    requires FullTable(m, t, i)
    ensures var c, m' := m.tb[t][i].frame, Detach(m, t, i);
            && c != t && m.home[c].level == 1
            && MInv(m') && m'.tb == SetEntry(m.tb, t, i, ZERO_ENTRY) - {c} && m'.home == m.home
            && m'.own == m.own && m'.data == m.data
            && forall g :: Held(m', g) == Held(m, g) + Count(m.tb[c], g) + if g == c then 1 else 0
  {
    hide OwnOk;
    var c := m.tb[t][i].frame;
    assert SlotOk(m, t, i);
    hide MInv;
    ClearFirstInv(m, c, 512);
    ClearFirstTables(m, c, 512);
    hide ClearFirst;
    var m1 := ClearFirst(m, c, 512);
    DropTableInv(m1, t, i);
    ClearedAll(m, m1, t, i, c);
    assert m.tb[c][..512] == m.tb[c];
    forall g ensures Held(m1, g) == Held(m, g) + Count(m.tb[c], g) { ClearFirstHeld(m, c, 512, g); }
    hide Count;
  }

  lemma DetachView(m: Mem, t: nat, i: nat, q: nat, v: nat)
    requires FullTable(m, t, i) && IsRoot(m, q) && v < Span(5)
    requires !(q == m.home[t].root && SlotCovers(m, t, i, v))
    ensures Shaped(m) && View(Detach(m, t, i), q, v) == View(m, q, v)
  {
    hide MInv;
    hide Find;
    hide Detach;
    DetachInv(m, t, i);
    DetachFind(m, t, i, q, v);
  }

  /** The 2M page is in place; pages j.. of the old table still wait for their page_decref. */
  ghost predicate Merged(m0: Mem, m: Mem, t: nat, i: nat, f: nat, j: nat) {
    && Shaped(m0) && t in m0.tb && i < 512 && m0.tb[t][i].frame in m0.tb && j <= 512
    && var c := m0.tb[t][i].frame;
       && MInv(m) && |m.data| == |m0.data| && m.home == m0.home
       && m.tb == SetEntry(m0.tb, t, i, Pte(true, true, f, m0.tb[c][0].perm)) - {c}
       && SameViews(m0, m) && SameGuards(m0, m)
       && (forall g :: Held(m, g) == Held(m0, g) + Count(m0.tb[c][j..], g) + if g == c then 1 else 0)
       && (forall g :: g in m.own && m.own[g].ref == 0 ==> g in m0.own && m0.own[g].ref == 0)
  }

  ghost function MergeNew(m: Mem, t: nat, i: nat, f: nat, data': seq<Bytes>): Mem
    requires t in m.tb && i < |m.tb[t]| && m.tb[t][i].frame in m.tb && |m.tb[m.tb[t][i].frame]| == 512
    requires t in Detach(m, t, i).tb && i < |Detach(m, t, i).tb[t]|
  {
    MapFresh(Detach(m, t, i), t, i, f, HUGE, Pte(true, true, f, m.tb[m.tb[t][i].frame][0].perm), data')
  }

  ghost predicate CanMergePages(m: Mem, t: nat, i: nat, f: nat, data': seq<Bytes>) {
    && FullTable(m, t, i) && f !in m.own && |data'| == |m.data| && OwnOk(m.(own := m.own[f := Own(HUGE, 0)]))
    && f + 512 <= |m.data|
    && (forall p :: 0 <= p < |m.data| && !(f <= p < f + 512) ==> data'[p] == m.data[p])
    && (forall x ::
          0 <= x < 512 ==> var g := m.tb[m.tb[t][i].frame][x].frame; g < |m.data| && data'[f + x] == m.data[g])
  }

  lemma OwnSame(m: Mem, m1: Mem, f: nat)
    requires m1.own == m.own && m1.data == m.data && OwnOk(m.(own := m.own[f := Own(HUGE, 0)]))
    ensures OwnOk(m1.(own := m1.own[f := Own(HUGE, 0)]))
  {
  }

  lemma MergeFresh(m: Mem, t: nat, i: nat, f: nat, data': seq<Bytes>)
    requires CanMergePages(m, t, i, f, data')
    ensures var c, m1 := m.tb[t][i].frame, Detach(m, t, i);
            && c != t && t in m1.tb && CanMapFresh(m1, t, i, f, HUGE, Pte(true, true, f, m.tb[c][0].perm), data')
  {
    hide MInv;
    hide Detach;
    hide OwnOk;
    ShapedOf(m);
    DetachInv(m, t, i);
    var m1 := Detach(m, t, i);
    Pow2Huge();
    OwnSame(m, m1, f);
  }

  lemma MergePageView(m: Mem, t: nat, i: nat, f: nat, data': seq<Bytes>, q: nat, v: nat)
    requires CanMergePages(m, t, i, f, data') && IsRoot(m, q) && v < Span(5)
    ensures var m1 := Detach(m, t, i);
            t in m1.tb && i < |m1.tb[t]| && View(MergeNew(m, t, i, f, data'), q, v) == View(m, q, v)
  {
    hide MInv;
    hide View;
    hide OwnOk;
    hide Detach;
    ShapedOf(m);
    MergeFresh(m, t, i, f, data');
    var c, m1 := m.tb[t][i].frame, Detach(m, t, i);
    DetachInv(m, t, i);
    ShapedOf(m1);
    MapFreshView(m1, t, i, f, HUGE, Pte(true, true, f, m.tb[c][0].perm), data', q, v);
    if q == m.home[t].root && SlotCovers(m, t, i, v) {
      MergePageInside(m, t, i, v);
    } else {
      DetachView(m, t, i, q, v);
    }
  }

  lemma MergePageInside(m: Mem, t: nat, i: nat, v: nat)
    requires FullTable(m, t, i) && SlotCovers(m, t, i, v)
    ensures var e := m.tb[m.tb[t][i].frame][v % 512];
            e.frame < |m.data| && View(m, m.home[t].root, v) == Some(PageView(m.data[e.frame], e.perm))
  {
    SlotOfChild(m, t, i, v);
    LeafView(m, m.tb[t][i].frame, v % 512, v);
  }

  lemma MergeStart(m: Mem, t: nat, i: nat, f: nat, data': seq<Bytes>)
    requires CanMergePages(m, t, i, f, data')
    ensures var m1 := Detach(m, t, i);
            t in m1.tb && i < |m1.tb[t]| && Merged(m, MergeNew(m, t, i, f, data'), t, i, f, 0)
  {
    hide MInv;
    hide View;
    hide SameGuard;
    hide OwnOk;
    hide Detach;
    ShapedOf(m);
    var c, m1 := m.tb[t][i].frame, Detach(m, t, i);
    MergeFresh(m, t, i, f, data');
    DetachInv(m, t, i);
    ShapedOf(m1);
    var e := Pte(true, true, f, m.tb[c][0].perm);
    MapFreshInv(m1, t, i, f, HUGE, e, data');
    var m' := MergeNew(m, t, i, f, data');
    assert m.tb[c][0..] == m.tb[c];
    assert m1.tb[t][i := e] == m.tb[t][i := e];
    assert m'.tb == SetEntry(m.tb, t, i, e) - {c};
    forall q, v: nat | IsRoot(m, q) && v < Span(5) ensures View(m', q, v) == View(m, q, v) {
      MergePageView(m, t, i, f, data', q, v);
    }
    forall q, v: nat | IsRoot(m, q) && v < Span(5) ensures SameGuard(m, m', q, v) {
      MergePageGuard(m, t, i, f, data', q, v);
    }
  }

  lemma MergePageGuard(m: Mem, t: nat, i: nat, f: nat, data': seq<Bytes>, q: nat, v: nat)
    requires CanMergePages(m, t, i, f, data') && IsRoot(m, q) && v < Span(5)
    ensures var m1 := Detach(m, t, i);
            t in m1.tb && i < |m1.tb[t]| && SameGuard(m, MergeNew(m, t, i, f, data'), q, v)
  {
    hide MInv;
    hide OwnOk;
    hide Detach;
    hide Find;
    hide SameGuard;
    ShapedOf(m);
    MergeFresh(m, t, i, f, data');
    var c, m1 := m.tb[t][i].frame, Detach(m, t, i);
    DetachInv(m, t, i);
    ShapedOf(m1);
    var e := Pte(true, true, f, m.tb[c][0].perm);
    MapFreshInv(m1, t, i, f, HUGE, e, data');
    var m' := MergeNew(m, t, i, f, data');
    ShapedOf(m');
    LeafFind(m1, m', t, i, e, q, v);
    if q == m.home[t].root && SlotCovers(m, t, i, v) {
      SlotOfChild(m, t, i, v);
      LeafSpot(m, c, v % 512, v);
      NewSpot(m, m', q, v, f);
    } else {
      DetachFind(m, t, i, q, v);
      SameSpot(m, m', q, v);
    }
  }

  lemma DetachFind(m: Mem, t: nat, i: nat, q: nat, v: nat)
    requires FullTable(m, t, i) && IsRoot(m, q) && v < Span(5)
    requires !(q == m.home[t].root && SlotCovers(m, t, i, v))
    ensures Shaped(m) && Find(Detach(m, t, i).tb, q, 4, v) == Find(m.tb, q, 4, v)
  {
    DetachInv(m, t, i);
    SlotOfChild(m, t, i, v);
    FindFrame(m, Detach(m, t, i).tb, q, v);
  }

  /** page_decref of page j of the old table. */
  lemma MergeNext(m0: Mem, m: Mem, t: nat, i: nat, f: nat, j: nat)
    requires FullTable(m0, t, i) && Merged(m0, m, t, i, f, j) && j < 512
    ensures var g := m0.tb[m0.tb[t][i].frame][j].frame;
            && g in m.own && m.own[g].ref > 0 && Held(m, g) > 0
            && Merged(m0, Release(m, g), t, i, f, j + 1)
  {
    hide OwnOk;
    var c := m0.tb[t][i].frame;
    assert SlotOk(m0, t, i);
    LeafFacts(m0, c, j);
    hide MInv;
    hide View;
    hide SameGuard;
    var g := m0.tb[c][j].frame;
    assert m0.tb[c][j..][0] == m0.tb[c][j] && m0.tb[c][j..][1..] == m0.tb[c][j + 1..];
    HeldOwned(m, g);
    ReleaseInv(m, g);
    var m' := Release(m, g);
    forall q, v: nat | IsRoot(m0, q) && v < Span(5) ensures View(m', q, v) == View(m0, q, v) {
      SameTbView(m, m', q, v);
    }
    forall q, v: nat | IsRoot(m0, q) && v < Span(5) ensures SameGuard(m0, m', q, v) {
      SpotKept(m0, m, m', q, v);
    }
  }

  /** Dropping a reference changes no entry. */
  lemma SpotKept(m0: Mem, m: Mem, m': Mem, q: nat, v: nat)
    requires MInv(m) && MInv(m') && SameGuards(m0, m) && m'.tb == m.tb && OwnDown(m, m', None)
    requires IsRoot(m0, q) && IsRoot(m, q) && IsRoot(m', q) && v < Span(5)
    ensures SameGuard(m0, m', q, v)
  {
    hide MInv;
    hide Find;
    var p := Private(m, q, v);
    SameSpot(m, m', q, v);
    SameGuardTrans(m0, m, m', q, v);
  }

  lemma HeldOwned(m: Mem, g: nat)
    requires MInv(m) && Held(m, g) > 0
    ensures g in m.own
  {
  }

  lemma MergedSteady(m0: Mem, m: Mem, t: nat, i: nat, f: nat, lo: nat, hi: nat)
    requires FullTable(m0, t, i) && Merged(m0, m, t, i, f, 512) && InSlot(m0, t, i, lo, hi)
    ensures var c := m0.tb[t][i].frame;
            && c in m.own && m.own[c].ref > 0 && Held(m, c) > 0
            && MInv(Release(m, c)) && Steady(m0, Release(m, c)) && OnlyUnder(m0, Release(m, c), t, lo, hi)
            && OwnDown(m, Release(m, c), None)
            && forall q :: IsRoot(m0, q) ==> IsRoot(m, q) && IsRoot(Release(m, c), q)
  {
    hide MInv;
    hide OwnOk;
    hide SameViews;
    hide SameGuards;
    var c := m0.tb[t][i].frame;
    ChildUnder(m0, t, i, lo, hi);
    assert m0.tb[c][512..] == [];
    HeldOwned(m, c);
    ReleaseInv(m, c);
    ShapedOf(Release(m, c));
  }

  /** page_decref of the old table finishes the merge. */
  lemma MergeEnd(m0: Mem, m: Mem, t: nat, i: nat, f: nat, lo: nat, hi: nat)
    requires FullTable(m0, t, i) && Merged(m0, m, t, i, f, 512) && InSlot(m0, t, i, lo, hi)
    ensures var c := m0.tb[t][i].frame;
            && c in m.own && m.own[c].ref > 0 && Held(m, c) > 0
            && Quiet(m0, Release(m, c), t, lo, hi)
  {
    hide MInv;
    hide OwnOk;
    hide View;
    hide SameGuard;
    hide OnlyUnder;
    hide Steady;
    var c := m0.tb[t][i].frame;
    MergedSteady(m0, m, t, i, f, lo, hi);
    var m' := Release(m, c);
    forall q, v: nat | IsRoot(m0, q) && v < Span(5) ensures View(m', q, v) == View(m0, q, v) {
      SameTbView(m, m', q, v);
    }
    forall q, v: nat | IsRoot(m0, q) && v < Span(5) ensures SameGuard(m0, m', q, v) {
      SpotKept(m0, m, m', q, v);
    }
  }
}
