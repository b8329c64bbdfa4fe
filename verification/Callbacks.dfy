/** The page-table callbacks as steps of a walk: each lemma gives the whole effect of one
    callback on the address spaces, the tables and the reference counts. */
module Callbacks {
  import opened Common
  import opened Orders
  import opened Buddy
  import opened Paging
  import opened Effects

  // ---- One table per position ---------------------------------------------------------------

  /** Two tables of one address space and level that cover the same page are the same. */
  lemma {:induction false} UniqueTable(m: Mem, c: nat, d: nat, v: nat)
    requires MInv(m) && c in m.tb && d in m.tb && m.home[c].root == m.home[d].root && m.home[c].level == m.home[d].level
    requires Covers(m.home[c], v) && Covers(m.home[d], v)
    ensures c == d
    decreases 4 - m.home[c].level
  {
    assert TableOk(m, c) && TableOk(m, d);
    if m.home[c].level < 4 {
      var (p, i) := m.up[c];
      var (q, j) := m.up[d];
      SlotOfChild(m, p, i, v);
      SlotOfChild(m, q, j, v);
      UniqueTable(m, p, q, v);
    }
  }

  /** No table lies under an entry that does not point to a table. */
  lemma {:induction false} NoTableUnderLeaf(m: Mem, t: nat, i: nat, c: nat, v: nat)
    requires MInv(m) && t in m.tb && i < 512 && !IsTable(m.home[t].level, m.tb[t][i]) && SlotCovers(m, t, i, v)
    requires c in m.tb && m.home[c].root == m.home[t].root && m.home[c].level < m.home[t].level
    ensures !Covers(m.home[c], v)
    decreases 4 - m.home[c].level
  {
    assert TableOk(m, c);
    if Covers(m.home[c], v) {
      var (p, j) := m.up[c];
      SlotOfChild(m, p, j, v);
      if m.home[p].level == m.home[t].level {
        UniqueTable(m, p, t, v);
        assert false;
      } else {
        NoTableUnderLeaf(m, t, i, p, v);
      }
    }
  }

  /** [lo, hi) lies under entry i of table t. */
  ghost predicate InSlot(m: Mem, t: nat, i: nat, lo: nat, hi: nat) {
    && t in m.tb && t in m.home && i < 512 && 1 <= m.home[t].level <= 4
    && m.home[t].base + i * Span(m.home[t].level) <= lo < hi <= m.home[t].base + (i + 1) * Span(m.home[t].level)
  }

  lemma InSlotCovers(m: Mem, t: nat, i: nat, lo: nat, hi: nat, v: nat)
    requires MInv(m) && InSlot(m, t, i, lo, hi) && lo <= v < hi
    ensures SlotCovers(m, t, i, v) && v < Span(5)
  {
    assert TableOk(m, t);
    ChildCovers(m.home[t].level, m.home[t].base, i, v);
  }

  lemma NothingUnderLeaf(m: Mem, t: nat, i: nat, lo: nat, hi: nat, c: nat)
    requires MInv(m) && InSlot(m, t, i, lo, hi) && !IsTable(m.home[t].level, m.tb[t][i])
    requires c in m.tb && c in m.home
    ensures !Under(m.home, t, lo, hi, c)
  {
    if Under(m.home, t, lo, hi, c) {
      var v := if lo <= m.home[c].base then m.home[c].base else lo;
      InSlotCovers(m, t, i, lo, hi, v);
      NoTableUnderLeaf(m, t, i, c, v);
    }
  }

  /** A step that changes leaf entry (t, i) only changes no table. */
  lemma LeafTables(m: Mem, m': Mem, t: nat, i: nat, e: Pte, lo: nat, hi: nat)
    requires MInv(m) && MInv(m') && InSlot(m, t, i, lo, hi) && !IsTable(m.home[t].level, m.tb[t][i])
             && !IsTable(m.home[t].level, e)
    requires m'.tb == SetEntry(m.tb, t, i, e) && m'.home == m.home
    ensures OnlyUnder(m, m', t, lo, hi) && Pruned(m, m', t, lo, hi, {})
  {
    forall c | c in m'.tb ensures !Under(m'.home, t, lo, hi, c) { NothingUnderLeaf(m', t, i, lo, hi, c); }
  }

  ghost predicate WholeSlot(m: Mem, t: nat, i: nat, lo: nat, hi: nat) {
    && InSlot(m, t, i, lo, hi)
    && lo == m.home[t].base + i * Span(m.home[t].level) && hi == lo + Span(m.home[t].level)
  }

  lemma WholeSlotCovers(m: Mem, t: nat, i: nat, lo: nat, hi: nat, v: nat)
    requires MInv(m) && WholeSlot(m, t, i, lo, hi)
    ensures SlotCovers(m, t, i, v) <==> lo <= v < hi
    ensures v % 512 < 512 && (m.home[t].level == 2 && lo <= v < hi ==> v % 512 == v - lo)
  {
    assert TableOk(m, t);
    hide MInv;
    ChildCovers(m.home[t].level, m.home[t].base, i, v);
    if m.home[t].level == 2 && lo <= v < hi { RunMod(lo, v); }
  }

  lemma RunMod(lo: nat, v: nat)
    requires lo % 512 == 0 && lo <= v < lo + 512
    ensures v % 512 == v - lo
  {
  }

  /** The present leaf entry (t, i) maps a counted block. */
  lemma LeafFacts(m: Mem, t: nat, i: nat)
    requires MInv(m) && t in m.tb && i < 512 && m.tb[t][i].present && !IsTable(m.home[t].level, m.tb[t][i])
    ensures var f := m.tb[t][i].frame;
            && f in m.own && f !in m.tb && m.own[f].ref > 0 && (t, i) in Refs(m.tb, f)
            && m.own[f].order == (if m.home[t].level == 2 then HUGE else 0)
  {
    assert SlotOk(m, t, i);
    var f := m.tb[t][i].frame;
    assert RefOk(m, f) && (t, i) in Refs(m.tb, f);
  }

  /** remove_pte and remove_pde on a whole 2M page: the entry goes, and the block with its last entry. */
  lemma RemoveLeaf(m: Mem, t: nat, i: nat, lo: nat, hi: nat)
    requires MInv(m) && WholeSlot(m, t, i, lo, hi)
    requires m.tb[t][i].present && !IsTable(m.home[t].level, m.tb[t][i])
    ensures var f := m.tb[t][i].frame;
            && f in m.own && m.own[f].ref > 0 && Held(Swap(m, t, i, ZERO_ENTRY), f) > 0
            && Walked(Remove, m, Release(Swap(m, t, i, ZERO_ENTRY), f), t, lo, hi)
  {
    hide MInv;
    hide View;
    hide Find;
    hide OwnOk;
    hide Rel;
    hide Guard;
    hide Steady;
    hide OnlyUnder;
    hide Pruned;
    LeafFacts(m, t, i);
    var f := m.tb[t][i].frame;
    var m1 := Swap(m, t, i, ZERO_ENTRY);
    SwapInv(m, t, i, ZERO_ENTRY);
    ReleaseInv(m1, f);
    var m' := Release(m1, f);
    ReleaseSteady(m, m1, f);
    LeafTables(m, m', t, i, ZERO_ENTRY, lo, hi);
    forall q, v: nat | IsRoot(m, q) && v < Span(5)
      ensures Rel(Remove, Inside(m.home[t].root, lo, hi, q, v), v, View(m, q, v), View(m', q, v))
    {
      RemovedView(m, m', t, i, lo, hi, q, v);
    }
    forall q, v: nat | IsRoot(m, q) && v < Span(5)
      ensures Guard(Remove, Inside(m.home[t].root, lo, hi, q, v), m, m', q, v)
      ensures Renews(Remove, m, m', q, v) ==> Near(m.home[t].root, lo, hi, q, v)
    {
      LeafGuard(Remove, m, m', t, i, ZERO_ENTRY, lo, hi, None, q, v);
    }
  }

  /** Dropping the reference an entry has given up. */
  lemma ReleaseSteady(m: Mem, m1: Mem, f: nat)
    requires m1.home == m.home && m1.tb.Keys == m.tb.Keys && |m1.data| == |m.data| && m1.own == m.own && f in m.own
             && m.own[f].ref > 0
    requires forall g :: Held(m1, g) == Held(m, g) + if g == f then 1 else 0
    ensures Held(m1, f) > 0 && Steady(m, Release(m1, f)) && OwnDown(m, Release(m1, f), None)
  {
  }

  lemma RemovedView(m: Mem, m': Mem, t: nat, i: nat, lo: nat, hi: nat, q: nat, v: nat)
    requires CanSwap(m, t, i, ZERO_ENTRY) && WholeSlot(m, t, i, lo, hi) && IsRoot(m, q) && v < Span(5)
    requires m'.tb == SetEntry(m.tb, t, i, ZERO_ENTRY) && m'.data == m.data
    ensures Rel(Remove, Inside(m.home[t].root, lo, hi, q, v), v, View(m, q, v), View(m', q, v))
  {
    hide MInv;
    hide View;
    SwapView(m, m', t, i, ZERO_ENTRY, q, v);
    WholeSlotCovers(m, t, i, lo, hi, v);
  }

  lemma SwapView(m: Mem, m': Mem, t: nat, i: nat, e: Pte, q: nat, v: nat)
    requires CanSwap(m, t, i, e) && IsRoot(m, q) && v < Span(5)
    requires m'.tb == SetEntry(m.tb, t, i, e) && m'.data == m.data
    ensures if q == m.home[t].root && SlotCovers(m, t, i, v) then
              var p := if m.home[t].level == 2 then e.frame + v % 512 else e.frame;
              View(m', q, v) == if e.present && p < |m.data| then Some(PageView(m.data[p], e.perm)) else None
            else View(m', q, v) == View(m, q, v)
  {
    SwapFind(m, t, i, e, q, v);
  }

  /** What a page under the leaf entry (t, i) looks like. */
  lemma LeafView(m: Mem, t: nat, i: nat, v: nat)
    requires MInv(m) && t in m.tb && i < 512 && !IsTable(m.home[t].level, m.tb[t][i]) && SlotCovers(m, t, i, v)
    ensures var e := m.tb[t][i];
            var p := if m.home[t].level == 2 then e.frame + v % 512 else e.frame;
            && (e.present ==> p < |m.data|)
            && View(m, m.home[t].root, v) == if e.present then Some(PageView(m.data[p], e.perm)) else None
  {
    FindPath(m, t, v);
    if m.tb[t][i].present {
      LeafFacts(m, t, i);
      Pow2Huge();
      assert Pow2(0) == 1;
    }
  }

  // ---- Sharing -------------------------------------------------------------------------------

  /** No reference count grows, except that of x. */
  ghost predicate OwnDown(m: Mem, m': Mem, x: Option<nat>) {
    forall b {:trigger m'.own[b]} :: b in m.own && b in m'.own && x != Some(b) ==> m'.own[b].ref <= m.own[b].ref
  }

  lemma SpotCounted(m: Mem, q: nat, v: nat)
    requires MInv(m) && IsRoot(m, q) && v < Span(5) && Find(m.tb, q, 4, v).Some?
    ensures var b := Find(m.tb, q, 4, v).value.block; b in m.own && m.own[b].ref >= 1
  {
    assert TableOk(m, q);
    var x, i := SpotBlock(m, q, v);
    LeafFacts(m, x, i);
  }

  /** A page whose entry did not change stays private if no reference was added. */
  lemma SameSpotGuard(op: Op, inside: bool, m: Mem, m': Mem, x: Option<nat>, q: nat, v: nat)
    requires MInv(m) && MInv(m') && IsRoot(m, q) && IsRoot(m', q) && v < Span(5) && OwnDown(m, m', x)
    requires Find(m'.tb, q, 4, v) == Find(m.tb, q, 4, v) && !(op.Populate? && inside)
    requires op.Insert? ==> x == Some(op.frame)
    requires !op.Insert? ==> x == None
    ensures Guard(op, inside, m, m', q, v)
  {
    hide MInv;
    hide Find;
    if Find(m.tb, q, 4, v).Some? {
      SpotCounted(m, q, v);
      SpotCounted(m', q, v);
    }
  }

  lemma LeafGuard(op: Op, m: Mem, m': Mem, t: nat, i: nat, e: Pte, lo: nat, hi: nat, x: Option<nat>, q: nat, v: nat)
    requires MInv(m) && MInv(m') && IsRoot(m, q) && IsRoot(m', q) && v < Span(5) && OwnDown(m, m', x)
    requires InSlot(m, t, i, lo, hi) && !IsTable(m.home[t].level, m.tb[t][i]) && m'.home == m.home
    requires m'.tb == SetEntry(m.tb, t, i, e) && !IsTable(m.home[t].level, e)
    requires op.Insert? ==> x == Some(op.frame) && e.present && WholeSlot(m, t, i, lo, hi)
    requires !op.Insert? ==> x == None
    requires op.Remove? ==> !e.present && WholeSlot(m, t, i, lo, hi)
    requires op.Protect? ==> m.tb[t][i].present && e == m.tb[t][i].(perm := op.perm)
    requires op.Populate? ==> e.present && e.frame in m'.own && m'.own[e.frame].ref == 1
    requires op.Populate? ==> m.tb[t][i].present || WholeSlot(m, t, i, lo, hi)
    requires op.Populate? && m.tb[t][i].present ==> m.tb[t][i].frame in m.own && m.own[m.tb[t][i].frame].ref > 1
    ensures Guard(op, Inside(m.home[t].root, lo, hi, q, v), m, m', q, v)
    ensures Renews(op, m, m', q, v) ==> Near(m.home[t].root, lo, hi, q, v)
  {
    hide MInv;
    LeafFind(m, m', t, i, e, q, v);
    if SlotCovers(m, t, i, v) && q == m.home[t].root {
      hide Find;
      if op.Protect? {
        SpotCounted(m', q, v);
      } else {
        ShapedOf(m);
        if WholeSlot(m, t, i, lo, hi) { WholeSlotCovers(m, t, i, lo, hi, v); }
        if op.Populate? && m.tb[t][i].present {
          if !(lo <= v < hi) { PartOfSlot(m, t, i, lo, hi, v); }
          SlotNear(m, t, i, lo, hi, v);
        }
      }
    } else {
      hide Find;
      if Inside(m.home[t].root, lo, hi, q, v) {
        InSlotCovers(m, t, i, lo, hi, v);
        assert false;
      }
      SameSpotGuard(op, false, m, m', x, q, v);
    }
  }

  /** Only a 2M page has pages outside a range under its entry. */
  lemma PartOfSlot(m: Mem, t: nat, i: nat, lo: nat, hi: nat, v: nat)
    requires MInv(m) && InSlot(m, t, i, lo, hi) && m.tb[t][i].present && !IsTable(m.home[t].level, m.tb[t][i])
    requires SlotCovers(m, t, i, v) && !(lo <= v < hi)
    ensures m.home[t].level == 2
  {
    assert TableOk(m, t);
    ChildCovers(m.home[t].level, m.home[t].base, i, v);
  }

  /** A leaf entry covers pages of one 2M only. */
  lemma SlotNear(m: Mem, t: nat, i: nat, lo: nat, hi: nat, v: nat)
    requires MInv(m) && InSlot(m, t, i, lo, hi) && m.tb[t][i].present && !IsTable(m.home[t].level, m.tb[t][i])
    requires SlotCovers(m, t, i, v)
    ensures Near(m.home[t].root, lo, hi, m.home[t].root, v)
  {
    assert TableOk(m, t);
    ChildCovers(m.home[t].level, m.home[t].base, i, v);
    hide MInv;
    if m.home[t].level == 2 { RunMod(m.home[t].base + i * 512, v); }
  }

  /** Translations before and after a change of the leaf entry (t, i). */
  lemma LeafFind(m: Mem, m': Mem, t: nat, i: nat, e: Pte, q: nat, v: nat)
    requires MInv(m) && MInv(m') && IsRoot(m, q) && v < Span(5) && t in m.tb && i < 512
    requires !IsTable(m.home[t].level, m.tb[t][i]) && m'.home == m.home
    requires m'.tb == SetEntry(m.tb, t, i, e) && !IsTable(m.home[t].level, e)
    ensures var a, a' := Find(m.tb, q, 4, v), Find(m'.tb, q, 4, v);
            if SlotCovers(m, t, i, v) && q == m.home[t].root then
              && (a.Some? <==> m.tb[t][i].present) && (a'.Some? <==> e.present)
              && (a.Some? ==> a.value.perm == m.tb[t][i].perm && a.value.block == m.tb[t][i].frame)
              && (a'.Some? ==> a'.value.perm == e.perm && a'.value.block == e.frame)
              && (a.Some? ==> a.value.huge == (m.home[t].level == 2))
              && (a'.Some? ==> a'.value.huge == (m.home[t].level == 2))
            else a' == a
  {
    if SlotCovers(m, t, i, v) && q == m.home[t].root {
      FindPath(m, t, v);
      FindPath(m', t, v);
    } else {
      FindFrame(m, m'.tb, q, v);
    }
  }

  /** An entry that is absent, or that the operation leaves alone, needs no change. */
  lemma AbsentWalked(op: Op, m: Mem, t: nat, i: nat, lo: nat, hi: nat)
    requires MInv(m) && InSlot(m, t, i, lo, hi) && !m.tb[t][i].present && (op.Remove? || op.Protect?)
    ensures Walked(op, m, m, t, lo, hi)
  {
    hide MInv;
    hide View;
    AbsentTables(m, t, i, lo, hi);
    forall q, v: nat | IsRoot(m, q) && v < Span(5)
      ensures Rel(op, Inside(m.home[t].root, lo, hi, q, v), v, View(m, q, v), View(m, q, v))
    {
      if Inside(m.home[t].root, lo, hi, q, v) {
        InSlotCovers(m, t, i, lo, hi, v);
        LeafView(m, t, i, v);
      }
    }
    forall q, v: nat | IsRoot(m, q) && v < Span(5)
      ensures Guard(op, Inside(m.home[t].root, lo, hi, q, v), m, m, q, v)
      ensures Renews(op, m, m, q, v) ==> Near(m.home[t].root, lo, hi, q, v)
    {
    }
  }

  lemma AbsentTables(m: Mem, t: nat, i: nat, lo: nat, hi: nat)
    requires MInv(m) && InSlot(m, t, i, lo, hi) && !IsTable(m.home[t].level, m.tb[t][i])
    ensures Shaped(m) && OnlyUnder(m, m, t, lo, hi) && Pruned(m, m, t, lo, hi, {}) && Steady(m, m)
  {
    assert m.tb[t][i := m.tb[t][i]] == m.tb[t];
    assert SetEntry(m.tb, t, i, m.tb[t][i]) == m.tb;
    LeafTables(m, m, t, i, m.tb[t][i], lo, hi);
  }

  lemma ShapedOf(m: Mem)
    requires MInv(m)
    ensures Shaped(m)
  {
  }

  lemma PopulateAbsentAt(m: Mem, t: nat, i: nat, f: nat, k: nat, e: Pte, data': seq<Bytes>, lo: nat, hi: nat, q: nat,
                         v: nat)
    requires CanMapFresh(m, t, i, f, k, e, data') && WholeSlot(m, t, i, lo, hi) && !m.tb[t][i].present
    requires forall p :: 0 <= p < |m.data| && f <= p < f + Pow2(k) ==> data'[p] == ZeroPage()
    requires IsRoot(m, q) && v < Span(5)
    ensures Rel(Populate(e.perm), Inside(m.home[t].root, lo, hi, q, v), v, View(m, q, v),
                View(MapFresh(m, t, i, f, k, e, data'), q, v))
  {
    hide MInv;
    hide View;
    ShapedOf(m);
    Pow2Huge();
    assert Pow2(0) == 1;
    MapFreshView(m, t, i, f, k, e, data', q, v);
    WholeSlotCovers(m, t, i, lo, hi, v);
    if Inside(m.home[t].root, lo, hi, q, v) { LeafView(m, t, i, v); }
  }

  /** populate_pte and populate_pde on an absent entry: a zeroed block appears. */
  lemma PopulateAbsent(m: Mem, t: nat, i: nat, f: nat, k: nat, e: Pte, data': seq<Bytes>, lo: nat, hi: nat)
    requires CanMapFresh(m, t, i, f, k, e, data') && WholeSlot(m, t, i, lo, hi) && !m.tb[t][i].present
    requires forall p :: 0 <= p < |m.data| && f <= p < f + Pow2(k) ==> data'[p] == ZeroPage()
    ensures Walked(Populate(e.perm), m, MapFresh(m, t, i, f, k, e, data'), t, lo, hi)
  {
    hide MInv;
    hide View;
    hide Rel;
    ShapedOf(m);
    var m' := MapFresh(m, t, i, f, k, e, data');
    MapFreshInv(m, t, i, f, k, e, data');
    LeafTables(m, m', t, i, e, lo, hi);
    forall q, v: nat | IsRoot(m, q) && v < Span(5)
      ensures Rel(Populate(e.perm), Inside(m.home[t].root, lo, hi, q, v), v, View(m, q, v), View(m', q, v))
    {
      PopulateAbsentAt(m, t, i, f, k, e, data', lo, hi, q, v);
    }
    forall q, v: nat | IsRoot(m, q) && v < Span(5)
      ensures Guard(Populate(e.perm), Inside(m.home[t].root, lo, hi, q, v), m, m', q, v)
      ensures Renews(Populate(e.perm), m, m', q, v) ==> Near(m.home[t].root, lo, hi, q, v)
    {
      LeafGuard(Populate(e.perm), m, m', t, i, e, lo, hi, None, q, v);
    }
  }

  ghost predicate CopyOf(data: seq<Bytes>, data': seq<Bytes>, f0: nat, f: nat, n: nat) {
    |data'| == |data| && f0 + n <= |data| && f + n <= |data| &&
    forall p :: f <= p < f + n ==> data'[p] == data[f0 + (p - f)]
  }

  /** A page under the entry. */
  lemma SharedCovered(m: Mem, t: nat, i: nat, f: nat, k: nat, e: Pte, data': seq<Bytes>, v: nat)
    requires CanMapFresh(m, t, i, f, k, e, data') && m.tb[t][i].present && SlotCovers(m, t, i, v) && v < Span(5)
    requires CopyOf(m.data, data', m.tb[t][i].frame, f, Pow2(k)) && IsRoot(m, m.home[t].root)
    ensures var q := m.home[t].root;
            View(m, q, v).Some?
              && View(MapFresh(m, t, i, f, k, e, data'), q, v) == Some(View(m, q, v).value.(perm := e.perm))
  {
    hide MInv;
    hide View;
    hide OwnOk;
    hide MapFresh;
    hide CopyOf;
    ShapedOf(m);
    Pow2Huge();
    assert Pow2(0) == 1;
    hide Pow2;
    MapFreshView(m, t, i, f, k, e, data', m.home[t].root, v);
    LeafView(m, t, i, v);
    CopiedByte(m.data, data', m.tb[t][i].frame, f, Pow2(k), if m.home[t].level == 2 then v % 512 else 0);
  }

  lemma PopulateSharedAt(m: Mem, t: nat, i: nat, f: nat, k: nat, e: Pte, data': seq<Bytes>, lo: nat, hi: nat, q: nat,
                         v: nat)
    requires CanMapFresh(m, t, i, f, k, e, data') && InSlot(m, t, i, lo, hi) && m.tb[t][i].present
    requires CopyOf(m.data, data', m.tb[t][i].frame, f, Pow2(k))
    requires IsRoot(m, q) && v < Span(5)
    ensures Rel(Populate(e.perm), Inside(m.home[t].root, lo, hi, q, v), v, View(m, q, v),
                View(MapFresh(m, t, i, f, k, e, data'), q, v))
    ensures q == m.home[t].root && SlotCovers(m, t, i, v) ==>
              View(m, q, v).Some?
                && View(MapFresh(m, t, i, f, k, e, data'), q, v) == Some(View(m, q, v).value.(perm := e.perm))
  {
    hide MInv;
    hide View;
    hide OwnOk;
    hide MapFresh;
    hide CopyOf;
    hide Pow2;
    if SlotCovers(m, t, i, v) && q == m.home[t].root {
      SharedCovered(m, t, i, f, k, e, data', v);
    } else {
      hide SlotCovers;
      MapFreshView(m, t, i, f, k, e, data', q, v);
      if Inside(m.home[t].root, lo, hi, q, v) {
        InSlotCovers(m, t, i, lo, hi, v);
        assert false;
      }
    }
  }

  lemma CopiedByte(data: seq<Bytes>, data': seq<Bytes>, g: nat, f: nat, n: nat, x: nat)
    requires CopyOf(data, data', g, f, n) && x < n
    ensures g + x < |data| && f + x < |data'| && data'[f + x] == data[g + x]
  {
  }

  lemma PopulateSharedInv(m: Mem, t: nat, i: nat, f: nat, k: nat, e: Pte, data': seq<Bytes>)
    requires CanMapFresh(m, t, i, f, k, e, data') && m.tb[t][i].present
    ensures var f0, m1 := m.tb[t][i].frame, MapFresh(m, t, i, f, k, e, data');
            && f0 in m1.own && m1.own[f0].ref > 0 && Held(m1, f0) > 0
            && MInv(Release(m1, f0)) && Steady(m, Release(m1, f0)) && OwnDown(m, Release(m1, f0), None)
            && f in Release(m1, f0).own && Release(m1, f0).own[f].ref == 1
  {
    hide MInv;
    hide OwnOk;
    ShapedOf(m);
    var f0, m1 := m.tb[t][i].frame, MapFresh(m, t, i, f, k, e, data');
    LeafFacts(m, t, i);
    MapFreshInv(m, t, i, f, k, e, data');
    assert m1.home == m.home && m1.tb.Keys == m.tb.Keys && |m1.data| == |m.data| && f0 != f;
    hide MapFresh;
    hide CanMapFresh;
    ReleaseInv(m1, f0);
    SharedSteady(m, m1, f, k, f0);
  }

  lemma SharedSteady(m: Mem, m1: Mem, f: nat, k: nat, f0: nat)
    requires m1.home == m.home && m1.tb.Keys == m.tb.Keys && |m1.data| == |m.data| && f0 != f
    requires f0 in m.own && m.own[f0].ref > 0 && f !in m.own && m1.own == m.own[f := Own(k, 1)]
    requires forall g :: Held(m1, g) == Held(m, g) + if g == f0 then 1 else 0
    ensures Held(m1, f0) > 0 && f0 in m1.own && m1.own[f0].ref > 0
    ensures Steady(m, Release(m1, f0)) && OwnDown(m, Release(m1, f0), None)
    ensures f in Release(m1, f0).own && Release(m1, f0).own[f].ref == 1
  {
  }

  /** populate_pte and populate_pde on a shared page: a private copy replaces it. All pages under
      the entry keep their bytes and get the new permissions, those outside the range as well. */
  lemma PopulateShared(m: Mem, t: nat, i: nat, f: nat, k: nat, e: Pte, data': seq<Bytes>, lo: nat, hi: nat)
    requires CanMapFresh(m, t, i, f, k, e, data') && InSlot(m, t, i, lo, hi) && m.tb[t][i].present
    requires m.tb[t][i].frame in m.own && m.own[m.tb[t][i].frame].ref > 1
    requires CopyOf(m.data, data', m.tb[t][i].frame, f, Pow2(k))
    ensures var f0, m1 := m.tb[t][i].frame, MapFresh(m, t, i, f, k, e, data');
            && f0 in m1.own && m1.own[f0].ref > 0 && Held(m1, f0) > 0
            && Walked(Populate(e.perm), m, Release(m1, f0), t, lo, hi)
            && forall v: nat {:trigger View(Release(m1, f0), m.home[t].root, v)} ::
                 SlotCovers(m, t, i, v) && v < Span(5) ==>
                 var a := View(m, m.home[t].root, v);
                 a.Some? && View(Release(m1, f0), m.home[t].root, v) == Some(a.value.(perm := e.perm))
  {
    hide MInv;
    hide View;
    hide Rel;
    hide CopyOf;
    hide OwnOk;
    hide Steady;
    ShapedOf(m);
    PopulateSharedInv(m, t, i, f, k, e, data');
    var f0, m1 := m.tb[t][i].frame, MapFresh(m, t, i, f, k, e, data');
    var m' := Release(m1, f0);
    LeafTables(m, m', t, i, e, lo, hi);
    forall q, v: nat | IsRoot(m, q) && v < Span(5)
      ensures Rel(Populate(e.perm), Inside(m.home[t].root, lo, hi, q, v), v, View(m, q, v), View(m', q, v))
    {
      PopulateSharedAt(m, t, i, f, k, e, data', lo, hi, q, v);
      SameTbView(m1, m', q, v);
    }
    forall q, v: nat | IsRoot(m, q) && v < Span(5)
      ensures Guard(Populate(e.perm), Inside(m.home[t].root, lo, hi, q, v), m, m', q, v)
      ensures Renews(Populate(e.perm), m, m', q, v) ==> Near(m.home[t].root, lo, hi, q, v)
    {
      LeafGuard(Populate(e.perm), m, m', t, i, e, lo, hi, None, q, v);
    }
    forall v: nat | SlotCovers(m, t, i, v) && v < Span(5)
      ensures View(m, m.home[t].root, v).Some?
      ensures View(m', m.home[t].root, v) == Some(View(m, m.home[t].root, v).value.(perm := e.perm))
    {
      TableRoot(m, t);
      PopulateSharedAt(m, t, i, f, k, e, data', lo, hi, m.home[t].root, v);
      SameTbView(m1, m', m.home[t].root, v);
    }
  }

  lemma TableRoot(m: Mem, t: nat)
    requires MInv(m) && t in m.tb
    ensures IsRoot(m, m.home[t].root)
  {
    assert TableOk(m, t);
  }

  lemma SameTbView(m: Mem, m': Mem, q: nat, v: nat)
    requires m'.tb == m.tb && m'.data == m.data
    ensures View(m', q, v) == View(m, q, v)
  {
  }

  /** A private page is left as it is. */
  lemma PopulatePrivate(perm: Perm, m: Mem, t: nat, i: nat, lo: nat, hi: nat)
    requires MInv(m) && InSlot(m, t, i, lo, hi) && m.tb[t][i].present && !IsTable(m.home[t].level, m.tb[t][i])
    requires m.tb[t][i].frame in m.own && m.own[m.tb[t][i].frame].ref == 1
    ensures Walked(Populate(perm), m, m, t, lo, hi)
  {
    hide MInv;
    hide View;
    hide Find;
    AbsentTables(m, t, i, lo, hi);
    forall q, v: nat | IsRoot(m, q) && v < Span(5)
      ensures Rel(Populate(perm), Inside(m.home[t].root, lo, hi, q, v), v, View(m, q, v), View(m, q, v))
    {
      if Inside(m.home[t].root, lo, hi, q, v) {
        InSlotCovers(m, t, i, lo, hi, v);
        LeafView(m, t, i, v);
      }
    }
    forall q, v: nat | IsRoot(m, q) && v < Span(5)
      ensures Guard(Populate(perm), Inside(m.home[t].root, lo, hi, q, v), m, m, q, v)
      ensures Renews(Populate(perm), m, m, q, v) ==> Near(m.home[t].root, lo, hi, q, v)
    {
      if Inside(m.home[t].root, lo, hi, q, v) {
        InSlotCovers(m, t, i, lo, hi, v);
        PrivateLeaf(m, t, i, v);
      }
    }
  }

  lemma PrivateLeaf(m: Mem, t: nat, i: nat, v: nat)
    requires MInv(m) && t in m.tb && i < 512 && m.tb[t][i].present && !IsTable(m.home[t].level, m.tb[t][i])
    requires SlotCovers(m, t, i, v) && m.tb[t][i].frame in m.own && m.own[m.tb[t][i].frame].ref == 1
    ensures Private(m, m.home[t].root, v)
  {
    FindPath(m, t, v);
  }

  /** protect_pte, and protect_pde on exactly one 2M page. */
  lemma ProtectLeaf(m: Mem, t: nat, i: nat, perm: Perm, lo: nat, hi: nat)
    requires MInv(m) && WholeSlot(m, t, i, lo, hi) && m.tb[t][i].present && !IsTable(m.home[t].level, m.tb[t][i])
    ensures CanSwap(m, t, i, m.tb[t][i].(perm := perm))
    ensures Walked(Protect(perm), m, Swap(m, t, i, m.tb[t][i].(perm := perm)), t, lo, hi)
  {
    hide MInv;
    hide View;
    hide OnlyUnder;
    hide Pruned;
    hide Guard;
    LeafFacts(m, t, i);
    var e := m.tb[t][i].(perm := perm);
    SwapInv(m, t, i, e);
    var m' := Swap(m, t, i, e);
    LeafTables(m, m', t, i, e, lo, hi);
    forall q, v: nat | IsRoot(m, q) && v < Span(5)
      ensures Rel(Protect(perm), Inside(m.home[t].root, lo, hi, q, v), v, View(m, q, v), View(m', q, v))
    {
      SwapView(m, m', t, i, e, q, v);
      WholeSlotCovers(m, t, i, lo, hi, v);
      if Inside(m.home[t].root, lo, hi, q, v) { LeafView(m, t, i, v); }
    }
    forall q, v: nat | IsRoot(m, q) && v < Span(5)
      ensures Guard(Protect(perm), Inside(m.home[t].root, lo, hi, q, v), m, m', q, v)
      ensures Renews(Protect(perm), m, m', q, v) ==> Near(m.home[t].root, lo, hi, q, v)
    {
      LeafGuard(Protect(perm), m, m', t, i, e, lo, hi, None, q, v);
    }
  }

  /** pp_ref++ on the new page, page_decref of the page mapped before, the new entry. */
  ghost predicate Inserted(m: Mem, m': Mem, t: nat, i: nat, e: Pte)
    requires t in m.tb && i < |m.tb[t]| && e.frame in m.own
  {
    var m2, o := Swap(Take(m, e.frame), t, i, e), m.tb[t][i];
    if o.present then
      o.frame in m2.own && m2.own[o.frame].ref > 0 && Held(m2, o.frame) > 0 && m' == Release(m2, o.frame)
    else m' == m2
  }

  ghost predicate CanInsert(m: Mem, t: nat, i: nat, e: Pte) {
    && MInv(m) && t in m.tb && i < 512 && !IsTable(m.home[t].level, m.tb[t][i])
    && e.present && LeafOk(m, m.home[t].level, e)
  }

  lemma InsertedSteady(m: Mem, m': Mem, t: nat, i: nat, e: Pte)
    requires CanInsert(m, t, i, e) && Inserted(m, m', t, i, e)
    ensures Steady(m, m') && e.frame in m'.own && m'.own[e.frame].ref > 0
  {
    hide MInv;
    hide Inserted;
    ShapedOf(m);
    forall g ensures Held(m', g) == Held(m, g) { InsertedHeld(m, m', t, i, e, g); }
    forall g | g in m'.own && m'.own[g].ref == 0 ensures g in m.own && m.own[g].ref == 0
    { InsertedRef(m, m', t, i, e, g); }
    InsertedRef(m, m', t, i, e, e.frame);
  }

  lemma InsertedHeld(m: Mem, m': Mem, t: nat, i: nat, e: Pte, g: nat)
    requires CanInsert(m, t, i, e) && Inserted(m, m', t, i, e)
    ensures Held(m', g) == Held(m, g)
  {
    hide OwnOk;
    hide MInv;
    ShapedOf(m);
  }

  lemma InsertedRef(m: Mem, m': Mem, t: nat, i: nat, e: Pte, g: nat)
    requires CanInsert(m, t, i, e) && Inserted(m, m', t, i, e)
    ensures m'.tb == SetEntry(m.tb, t, i, e) && m'.home == m.home && |m'.data| == |m.data|
    ensures g in m'.own && m'.own[g].ref == 0 ==> g in m.own && m.own[g].ref == 0
    ensures e.frame in m'.own && m'.own[e.frame].ref > 0
  {
    hide OwnOk;
    if m.tb[t][i].present {
      LeafFacts(m, t, i);
      hide MInv;
    }
  }

  /** A page that is re-inserted at its own address is never freed. */
  lemma InsertedInv(m: Mem, m': Mem, t: nat, i: nat, e: Pte)
    requires CanInsert(m, t, i, e) && Inserted(m, m', t, i, e)
    ensures MInv(m') && Steady(m, m') && e.frame in m'.own && m'.own[e.frame].ref > 0
    ensures m'.tb == SetEntry(m.tb, t, i, e) && m'.home == m.home && m'.data == m.data
  {
    hide MInv;
    hide Steady;
    ShapedOf(m);
    InsertedSteady(m, m', t, i, e);
    TakeInv(m, e.frame);
    SwapInv(Take(m, e.frame), t, i, e);
    var m2 := Swap(Take(m, e.frame), t, i, e);
    if m.tb[t][i].present {
      LeafFacts(m, t, i);
      ReleaseInv(m2, m.tb[t][i].frame);
    }
  }

  /** Re-inserting a page at its own address: pp_ref++ comes before page_decref, so the page
      never goes back to the allocator, and the count ends where it was. */
  lemma Reinserted(m: Mem, m': Mem, t: nat, i: nat, e: Pte)
    requires t in m.tb && i < |m.tb[t]| && e.frame in m.own && Inserted(m, m', t, i, e)
    requires e.present && m.tb[t][i].present && m.tb[t][i].frame == e.frame && m.own[e.frame].ref > 0
    ensures m'.own == m.own && Held(m', e.frame) == Held(m, e.frame) && m'.tb[t][i] == e
  {
    var m1 := Take(m, e.frame);
    var m2 := Swap(m1, t, i, e);
    assert m2.own == m1.own && m2.tb == SetEntry(m.tb, t, i, e);
    assert m'.own == DropRef(m1.own, e.frame);
    assert m'.own == m.own;
  }

  lemma CanInsertFacts(m: Mem, t: nat, i: nat, e: Pte)
    requires CanInsert(m, t, i, e)
    ensures Shaped(m) && CanSwap(Take(m, e.frame), t, i, e) && e.frame !in m.tb && m.own[e.frame].order in {0, HUGE}
    ensures m.tb[t][i].present ==>
              var f0, m2 := m.tb[t][i].frame, Swap(Take(m, e.frame), t, i, e);
              f0 in m2.own && m2.own[f0].ref > 0 && Held(m2, f0) > 0
  {
    TakeInv(m, e.frame);
    if m.tb[t][i].present { LeafFacts(m, t, i); }
  }

  /** insert_pte and insert_pde. */
  lemma InsertLeaf(m: Mem, m': Mem, t: nat, i: nat, e: Pte, lo: nat, hi: nat)
    requires CanInsert(m, t, i, e) && Inserted(m, m', t, i, e) && WholeSlot(m, t, i, lo, hi)
    requires e.frame + Span(m.home[t].level) <= |m.data|
    ensures Walked(Insert(e.frame, e.perm, lo, m.data[e.frame..e.frame + Span(m.home[t].level)]), m, m', t, lo, hi)
  {
    hide MInv;
    hide View;
    hide Inserted;
    var op := Insert(e.frame, e.perm, lo, m.data[e.frame..e.frame + Span(m.home[t].level)]);
    CanInsertFacts(m, t, i, e);
    InsertedInv(m, m', t, i, e);
    LeafTables(m, m', t, i, e, lo, hi);
    var m1 := Take(m, e.frame);
    forall q, v: nat | IsRoot(m, q) && v < Span(5)
      ensures Rel(op, Inside(m.home[t].root, lo, hi, q, v), v, View(m, q, v), View(m', q, v))
    {
      InsertAt(m, m1, m', t, i, e, lo, hi, q, v);
    }
    InsertedDown(m, m', t, i, e);
    forall q, v: nat | IsRoot(m, q) && v < Span(5)
      ensures Guard(op, Inside(m.home[t].root, lo, hi, q, v), m, m', q, v)
      ensures Renews(op, m, m', q, v) ==> Near(m.home[t].root, lo, hi, q, v)
    {
      LeafGuard(op, m, m', t, i, e, lo, hi, Some(e.frame), q, v);
    }
  }

  lemma InsertAt(m: Mem, m1: Mem, m': Mem, t: nat, i: nat, e: Pte, lo: nat, hi: nat, q: nat, v: nat)
    requires MInv(m) && CanSwap(m1, t, i, e) && WholeSlot(m, t, i, lo, hi) && IsRoot(m, q) && v < Span(5)
    requires e.frame + Span(m.home[t].level) <= |m.data| && e.present
    requires m1.tb == m.tb && m1.home == m.home && m1.data == m.data && m'.tb == SetEntry(m.tb, t, i, e)
             && m'.data == m.data
    ensures Rel(Insert(e.frame, e.perm, lo, m.data[e.frame..e.frame + Span(m.home[t].level)]),
                Inside(m.home[t].root, lo, hi, q, v), v, View(m, q, v), View(m', q, v))
  {
    hide MInv;
    hide View;
    SwapView(m1, m', t, i, e, q, v);
    SameTbView(m, m1, q, v);
    WholeSlotCovers(m, t, i, lo, hi, v);
    assert m.home[t].level <= 2;
    hide CanSwap;
    hide SlotCovers;
    var bytes := m.data[e.frame..e.frame + Span(m.home[t].level)];
    if lo <= v < hi { assert bytes[v - lo] == m.data[e.frame + (v - lo)]; }
  }

  lemma InsertedDown(m: Mem, m': Mem, t: nat, i: nat, e: Pte)
    requires CanInsert(m, t, i, e) && Inserted(m, m', t, i, e)
    ensures OwnDown(m, m', Some(e.frame))
  {
    hide MInv;
  }
}
