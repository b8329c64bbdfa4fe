/** Steps that allocate, free, split and merge page tables without changing what any address
    space looks like, and their place in a walk. */
module Tables {
  import opened Common
  import opened Orders
  import opened Buddy
  import opened Paging
  import opened Effects
  import opened Callbacks

  ghost predicate SameViews(m: Mem, m': Mem) {
    forall q, v: nat {:trigger View(m', q, v)} :: IsRoot(m, q) && v < Span(5) ==> View(m', q, v) == View(m, q, v)
  }

  /** A page keeps its permissions and its privacy, and its block unless it moved to a new one. */
  ghost predicate SameGuard(m: Mem, m': Mem, q: nat, v: nat) {
    var a, a' := Find(m.tb, q, 4, v), Find(m'.tb, q, 4, v);
    && (a.Some? <==> a'.Some?)
    && (a.Some? ==> a'.value.perm == a.value.perm && (a'.value.block == a.value.block || a'.value.block !in m.own))
    && (Private(m, q, v) ==> Private(m', q, v))
    && (a.Some? && a'.value.huge && !a.value.huge ==> Private(m', q, v))
  }

  ghost predicate SameGuards(m: Mem, m': Mem) {
    forall q, v: nat {:trigger Private(m', q, v)} :: IsRoot(m, q) && v < Span(5) ==> SameGuard(m, m', q, v)
  }

  /** Tables below t may come and go, but every page looks the same. */
  ghost predicate Quiet(m: Mem, m': Mem, t: nat, lo: nat, hi: nat) {
    MInv(m') && Steady(m, m') && OnlyUnder(m, m', t, lo, hi) && SameViews(m, m') && SameGuards(m, m')
  }

  ghost predicate NoneGone(m: Mem, m': Mem)
    requires Shaped(m) && Shaped(m')
  {
    forall c {:trigger c in m'.tb} :: c in m.tb ==> c in m'.tb && m'.home[c] == m.home[c]
  }

  lemma OnlyUnderTwice(m: Mem, m1: Mem, m2: Mem, t: nat, lo: nat, hi: nat)
    requires OnlyUnder(m, m1, t, lo, hi) && OnlyUnder(m1, m2, t, lo, hi)
    ensures OnlyUnder(m, m2, t, lo, hi)
  {
    hide Touches;
    forall c | c in m.tb && c != t && !Under(m.home, t, lo, hi, c)
      ensures c in m2.tb && m2.tb[c] == m.tb[c] && m2.home[c] == m.home[c]
    {
      assert c in m1.tb && m1.tb[c] == m.tb[c] && m1.home[c] == m.home[c];
      assert !Under(m1.home, t, lo, hi, c);
    }
    forall c | c in m2.tb && c != t && !Under(m2.home, t, lo, hi, c)
      ensures c in m.tb && m2.tb[c] == m.tb[c] && m2.home[c] == m.home[c]
    {
      assert c in m1.tb && m2.tb[c] == m1.tb[c] && m2.home[c] == m1.home[c];
      assert !Under(m1.home, t, lo, hi, c);
    }
  }

  lemma QuietWalked(op: Op, m: Mem, m1: Mem, m2: Mem, t: nat, lo: nat, hi: nat, but: set<nat>)
    requires Shaped(m) && Quiet(m, m1, t, lo, hi) && NoneGone(m, m1) && WalkedBut(op, m1, m2, t, lo, hi, but)
    requires op.Insert? ==> op.frame in m.own
    ensures WalkedBut(op, m, m2, t, lo, hi, but)
  {
    hide MInv;
    hide View;
    hide Rel;
    hide Guarded;
    hide SameGuards;
    OnlyUnderTwice(m, m1, m2, t, lo, hi);
    assert Effect(op, m, m2, m.home[t].root, lo, hi);
    QuietGuarded(op, m, m1, m2, m.home[t].root, lo, hi);
  }

  lemma QuietGuarded(op: Op, m: Mem, m1: Mem, m2: Mem, r: nat, lo: nat, hi: nat)
    requires Steady(m, m1) && SameGuards(m, m1) && Guarded(op, m1, m2, r, lo, hi)
    requires op.Insert? ==> op.frame in m.own
    ensures Guarded(op, m, m2, r, lo, hi)
  {
    hide Find;
    forall q, v: nat | IsRoot(m, q) && v < Span(5)
      ensures Guard(op, Inside(r, lo, hi, q, v), m, m2, q, v) && (Renews(op, m, m2, q, v) ==> Near(r, lo, hi, q, v))
    {
      var p, p' := Private(m1, q, v), Private(m2, q, v);
      assert SameGuard(m, m1, q, v) && Guard(op, Inside(r, lo, hi, q, v), m1, m2, q, v);
    }
  }

  lemma GuardedQuiet(op: Op, m: Mem, m1: Mem, m2: Mem, r: nat, lo: nat, hi: nat)
    requires Steady(m, m1) && Guarded(op, m, m1, r, lo, hi) && SameGuards(m1, m2)
    ensures Guarded(op, m, m2, r, lo, hi)
  {
    hide Find;
    forall q, v: nat | IsRoot(m, q) && v < Span(5)
      ensures Guard(op, Inside(r, lo, hi, q, v), m, m2, q, v) && (Renews(op, m, m2, q, v) ==> Near(r, lo, hi, q, v))
    {
      var p, p' := Private(m1, q, v), Private(m2, q, v);
      assert SameGuard(m1, m2, q, v) && Guard(op, Inside(r, lo, hi, q, v), m, m1, q, v);
    }
  }

  lemma WalkedQuiet(op: Op, m: Mem, m1: Mem, m2: Mem, t: nat, lo: nat, hi: nat, but: set<nat>)
    requires !op.Remove? && WalkedBut(op, m, m1, t, lo, hi, but) && Quiet(m1, m2, t, lo, hi)
    ensures Walked(op, m, m2, t, lo, hi)
  {
    hide MInv;
    hide View;
    hide Rel;
    hide Guarded;
    hide SameGuards;
    OnlyUnderTwice(m, m1, m2, t, lo, hi);
    assert Effect(op, m, m2, m.home[t].root, lo, hi);
    GuardedQuiet(op, m, m1, m2, m.home[t].root, lo, hi);
  }

  /** A page whose entry did not change keeps its privacy when no reference is added. */
  lemma SameSpot(m: Mem, m': Mem, q: nat, v: nat)
    requires MInv(m) && MInv(m') && IsRoot(m, q) && IsRoot(m', q) && v < Span(5) && OwnDown(m, m', None)
    requires Find(m'.tb, q, 4, v) == Find(m.tb, q, 4, v)
    ensures SameGuard(m, m', q, v)
  {
    SameSpotGuard(Remove, false, m, m', None, q, v);
  }

  /** The child table under an entry touches every range under the entry. */
  lemma ChildUnder(m: Mem, t: nat, i: nat, lo: nat, hi: nat)
    requires MInv(m) && InSlot(m, t, i, lo, hi) && IsTable(m.home[t].level, m.tb[t][i])
    ensures var c := m.tb[t][i].frame;
            && c in m.tb && c != t && m.home[c].level == m.home[t].level - 1 && m.home[c].root == m.home[t].root
            && m.home[c].base <= lo && hi <= m.home[c].base + Span(m.home[c].level + 1)
            && Under(m.home, t, lo, hi, c)
  {
    assert SlotOk(m, t, i);
    var s := Span(m.home[t].level);
    assert (i + 1) * s == i * s + s;
  }

  /** A walk below the child of entry (t, i) as part of a walk below t. */
  lemma LiftWalked(op: Op, m: Mem, m': Mem, t: nat, i: nat, lo: nat, hi: nat)
    requires MInv(m) && InSlot(m, t, i, lo, hi) && IsTable(m.home[t].level, m.tb[t][i])
    requires Walked(op, m, m', m.tb[t][i].frame, lo, hi)
    ensures WalkedBut(op, m, m', t, lo, hi, {m.tb[t][i].frame}) && m'.tb[t] == m.tb[t]
  {
    hide MInv;
    hide Effect;
    hide Guarded;
    hide Steady;
    var c := m.tb[t][i].frame;
    ChildUnder(m, t, i, lo, hi);
    LiftOnlyUnder(m, m', t, c, lo, hi);
    if op.Remove? { LiftPruned(m, m', t, c, lo, hi); }
  }

  lemma LiftOnlyUnder(m: Mem, m': Mem, t: nat, c: nat, lo: nat, hi: nat)
    requires t in m.tb && c in m.tb && t in m.home && c in m.home && OnlyUnder(m, m', c, lo, hi)
             && Under(m.home, t, lo, hi, c)
    ensures OnlyUnder(m, m', t, lo, hi) && m'.tb[t] == m.tb[t]
  {
    assert t != c && !Under(m.home, c, lo, hi, t);
    assert t in m'.tb && m'.home[t] == m.home[t];
    forall x | x in m.tb && x != t && !Under(m.home, t, lo, hi, x)
      ensures x in m'.tb && m'.tb[x] == m.tb[x] && m'.home[x] == m.home[x]
    {
      assert x != c && !Under(m.home, c, lo, hi, x);
    }
    forall x | x in m'.tb && x != t && !Under(m'.home, t, lo, hi, x)
      ensures x in m.tb && m'.tb[x] == m.tb[x] && m'.home[x] == m.home[x]
    {
      assert x != c && !Under(m'.home, c, lo, hi, x);
    }
  }

  lemma LiftPruned(m: Mem, m': Mem, t: nat, c: nat, lo: nat, hi: nat)
    requires MInv(m') && lo < hi && OnlyUnder(m, m', t, lo, hi) && OnlyUnder(m, m', c, lo, hi)
    requires m.home[c].level == m.home[t].level - 1 && m.home[c].root == m.home[t].root
    requires m.home[c].base <= lo && hi <= m.home[c].base + Span(m.home[c].level + 1)
    requires Pruned(m, m', c, lo, hi, {})
    ensures Pruned(m, m', t, lo, hi, {c})
  {
    hide MInv;
    forall y | y in m'.tb && y != c && Under(m'.home, t, lo, hi, y) ensures !EmptyTable(m'.tb, y) {
      if m'.home[y].level == m'.home[c].level {
        var v := if lo <= m'.home[y].base then m'.home[y].base else lo;
        UniqueTable(m', y, c, v);
      }
    }
  }

  // ---- ptbl_alloc -----------------------------------------------------------------------------

  ghost function NewTable(m: Mem, t: nat, i: nat, f: nat, data': seq<Bytes>): Mem
    requires t in m.tb && i < |m.tb[t]| && t in m.home && m.home[t].level >= 2
  {
    AddTable(Take(m.(own := m.own[f := Own(0, 0)], data := data'), f), t, i, f)
  }

  ghost predicate CanNewTable(m: Mem, t: nat, i: nat, f: nat, data': seq<Bytes>) {
    && MInv(m) && f !in m.own && |data'| == |m.data| && OwnOk(m.(own := m.own[f := Own(0, 0)]))
    && (forall p :: 0 <= p < |m.data| && !(f <= p < f + Pow2(0)) ==> data'[p] == m.data[p])
    && t in m.tb && i < 512 && m.home[t].level >= 2 && !m.tb[t][i].present
  }

  lemma NewTableInv(m: Mem, t: nat, i: nat, f: nat, data': seq<Bytes>)
    requires CanNewTable(m, t, i, f, data')
    ensures Shaped(m) && CanAddTable(Take(m.(own := m.own[f := Own(0, 0)], data := data'), f), t, i, f)
    ensures MInv(NewTable(m, t, i, f, data')) && Steady(m, NewTable(m, t, i, f, data'))
  {
    hide MInv;
    hide OwnOk;
    ShapedOf(m);
    FreshFacts(m, t, i, f);
    AllocInv(m, f, 0, data');
    var m1 := m.(own := m.own[f := Own(0, 0)], data := data');
    TakeInv(m1, f);
    AddTableInv(Take(m1, f), t, i, f);
  }

  lemma NewTableView(m: Mem, t: nat, i: nat, f: nat, data': seq<Bytes>, q: nat, v: nat)
    requires CanNewTable(m, t, i, f, data') && IsRoot(m, q) && v < Span(5)
    ensures Shaped(m) && View(NewTable(m, t, i, f, data'), q, v) == View(m, q, v)
  {
    hide MInv;
    hide OwnOk;
    hide Find;
    NewTableInv(m, t, i, f, data');
    AddTableFind(Take(m.(own := m.own[f := Own(0, 0)], data := data'), f), t, i, f, q, v);
    FreshUnseen(m, f, 0, data', q, v);
  }

  /** ptbl_alloc of an absent entry. */
  lemma NewTableQuiet(m: Mem, t: nat, i: nat, f: nat, data': seq<Bytes>, lo: nat, hi: nat)
    requires CanNewTable(m, t, i, f, data') && InSlot(m, t, i, lo, hi)
    ensures Shaped(m) && Quiet(m, NewTable(m, t, i, f, data'), t, lo, hi)
    ensures NoneGone(m, NewTable(m, t, i, f, data'))
  {
    hide MInv;
    hide OwnOk;
    hide View;
    hide Steady;
    NewTableInv(m, t, i, f, data');
    var m' := NewTable(m, t, i, f, data');
    ShapedOf(m');
    forall q, v: nat | IsRoot(m, q) && v < Span(5) ensures View(m', q, v) == View(m, q, v) {
      NewTableView(m, t, i, f, data', q, v);
    }
    forall q, v: nat | IsRoot(m, q) && v < Span(5) ensures SameGuard(m, m', q, v) {
      AddTableFind(Take(m.(own := m.own[f := Own(0, 0)], data := data'), f), t, i, f, q, v);
      SameSpot(m, m', q, v);
    }
    FreshFacts(m, t, i, f);
    ChildUnder(m', t, i, lo, hi);
  }

  // ---- ptbl_free ------------------------------------------------------------------------------

  lemma EmptyView(m: Mem, c: nat, v: nat)
    requires MInv(m) && EmptyTable(m.tb, c) && Covers(m.home[c], v)
    ensures View(m, m.home[c].root, v).None?
  {
    FindPath(m, c, v);
  }

  lemma FreeTableInv(m: Mem, t: nat, i: nat)
    requires CanDropTable(m, t, i)
    ensures var c, m1 := m.tb[t][i].frame, DropTable(m, t, i);
            && c in m1.own && m1.own[c].ref > 0 && Held(m1, c) > 0 && c != t
            && MInv(Release(m1, c)) && Steady(m, Release(m1, c)) && OwnDown(m, Release(m1, c), None)
  {
    hide OwnOk;
    var c, m1 := m.tb[t][i].frame, DropTable(m, t, i);
    DropTableInv(m, t, i);
    assert SlotOk(m, t, i) && TableOk(m, c);
    ReleaseInv(m1, c);
    hide MInv;
  }

  lemma FreeTableViews(m: Mem, t: nat, i: nat)
    requires CanDropTable(m, t, i)
    ensures SameViews(m, DropTable(m, t, i))
  {
    hide MInv;
    hide Find;
    ShapedOf(m);
    forall q, v: nat | IsRoot(m, q) && v < Span(5) ensures View(DropTable(m, t, i), q, v) == View(m, q, v) {
      DropTableFind(m, t, i, q, v);
    }
  }

  lemma FreeUnder(m0: Mem, m: Mem, t: nat, i: nat, lo: nat, hi: nat)
    requires InSlot(m, t, i, lo, hi) && CanDropTable(m, t, i) && OnlyUnder(m0, m, t, lo, hi)
    ensures var c, m1 := m.tb[t][i].frame, DropTable(m, t, i);
            && c in m1.own && m1.own[c].ref > 0 && Held(m1, c) > 0 && c != t
            && Shaped(m0) && Shaped(m) && t in m0.tb && OnlyUnder(m0, Release(m1, c), t, lo, hi)
  {
    hide MInv;
    ShapedOf(m);
    hide Steady;
    hide OwnDown;
    FreeTableInv(m, t, i);
    var m' := Release(DropTable(m, t, i), m.tb[t][i].frame);
    ShapedOf(m');
    ChildUnder(m, t, i, lo, hi);
    hide CanDropTable;
    assert OnlyUnder(m, m', t, lo, hi);
    OnlyUnderTwice(m0, m, m', t, lo, hi);
  }

  /** ptbl_free of a table with no present entry, at the end of a piece of an unmapping walk. */
  lemma FreeTable(m0: Mem, m: Mem, t: nat, i: nat, lo: nat, hi: nat)
    requires InSlot(m, t, i, lo, hi) && CanDropTable(m, t, i)
    requires MInv(m0) && WalkedBut(Remove, m0, m, t, lo, hi, {m.tb[t][i].frame})
    ensures var c, m1 := m.tb[t][i].frame, DropTable(m, t, i);
            && c in m1.own && m1.own[c].ref > 0 && Held(m1, c) > 0
            && Walked(Remove, m0, Release(m1, c), t, lo, hi)
  {
    hide MInv;
    hide View;
    hide Steady;
    hide Guarded;
    hide OwnDown;
    hide OnlyUnder;
    hide Pruned;
    hide Effect;
    ShapedOf(m);
    FreeTableInv(m, t, i);
    FreeUnder(m0, m, t, i, lo, hi);
    var c := m.tb[t][i].frame;
    var m' := Release(DropTable(m, t, i), c);
    FreeTableViews(m, t, i);
    forall q, v: nat | IsRoot(m, q) && v < Span(5) ensures View(m', q, v) == View(m, q, v) {
      SameTbView(DropTable(m, t, i), m', q, v);
    }
    SteadyTrans(m0, m, m');
    FreeEffect(m0, m, m', m0.home[t].root, lo, hi);
    FreeGuards(m, m', t, i);
    GuardedQuiet(Remove, m0, m, m', m0.home[t].root, lo, hi);
    FreePruned(m0, m, m', t, c, lo, hi);
  }

  lemma FreeGuards(m: Mem, m': Mem, t: nat, i: nat)
    requires CanDropTable(m, t, i) && MInv(m') && m'.tb == DropTable(m, t, i).tb && m'.home == m.home
    requires OwnDown(m, m', None) && Steady(m, m')
    ensures SameGuards(m, m')
  {
    hide MInv;
    hide Find;
    forall q, v: nat | IsRoot(m, q) && v < Span(5) ensures SameGuard(m, m', q, v) {
      DropTableFind(m, t, i, q, v);
      SameSpot(m, m', q, v);
    }
  }

  lemma SteadyTrans(m: Mem, m1: Mem, m2: Mem)
    requires Steady(m, m1) && Steady(m1, m2)
    ensures Steady(m, m2)
  {
  }

  lemma FreeEffect(m0: Mem, m: Mem, m': Mem, r: nat, lo: nat, hi: nat)
    requires Steady(m0, m) && Effect(Remove, m0, m, r, lo, hi)
    requires forall q, v: nat {:trigger View(m', q, v)} ::
               IsRoot(m, q) && v < Span(5) ==> View(m', q, v) == View(m, q, v)
    ensures Effect(Remove, m0, m', r, lo, hi)
  {
    hide View;
  }

  lemma FreePruned(m0: Mem, m: Mem, m': Mem, t: nat, c: nat, lo: nat, hi: nat)
    requires MInv(m0) && MInv(m) && Steady(m0, m)
    requires OnlyUnder(m0, m, t, lo, hi) && OnlyUnder(m0, m', t, lo, hi) && Pruned(m0, m, t, lo, hi, {c})
    requires c != t && EmptyTable(m.tb, c) && m'.tb.Keys == m.tb.Keys - {c} && m'.home == m.home
    requires forall x :: x in m'.tb && x != t ==> m'.tb[x] == m.tb[x]
    requires forall q, v: nat {:trigger View(m', q, v)} ::
               IsRoot(m, q) && v < Span(5) ==> View(m', q, v) == View(m, q, v)
    ensures Pruned(m0, m', t, lo, hi, {})
  {
    hide MInv;
    hide View;
    ShapedOf(m);
    forall x, v: nat | Gone(m0, m', x) && Covers(m0.home[x], v) ensures View(m', m0.home[x].root, v).None? {
      RootOf(m0, x, v);
      if !Gone(m0, m, x) {
        assert x == c;
        EmptyView(m, c, v);
      }
      assert IsRoot(m, m0.home[x].root);
    }
  }

  lemma RootOf(m: Mem, x: nat, v: nat)
    requires MInv(m) && x in m.tb && Covers(m.home[x], v)
    ensures IsRoot(m, m.home[x].root) && v < Span(5)
  {
    assert TableOk(m, x);
  }

  // ---- ptbl_split -----------------------------------------------------------------------------

  /** The kernel still holds the reference to the 2M page at frame h, whose contents are intact. */
  ghost predicate SplitDebt(m0: Mem, m: Mem, h: nat) {
    && h in m.own && m.own[h].order == HUGE && h + 512 <= |m.data| == |m0.data|
    && (forall x :: h <= x < h + 512 ==> m.data[x] == m0.data[x])
    && (forall g :: Held(m, g) == Held(m0, g) + if g == h then 1 else 0)
    && (forall g :: g in m.own && m.own[g].ref == 0 ==> g in m0.own && m0.own[g].ref == 0)
    && m0.own.Keys <= m.own.Keys && OwnDown(m0, m, None)
  }

  /** The first j of the 512 small pages have been set up in the new table n. The 2M page at
      frame h is no longer mapped here, but its reference is not dropped yet. */
  ghost predicate Splitting(m0: Mem, m: Mem, t: nat, i: nat, n: nat, j: nat) {
    && Shaped(m0) && t in m0.tb && i < 512 && m0.home[t].level == 2 && j <= 512 && |m.data| == |m0.data|
    && MInv(m) && n !in m0.tb && m.tb.Keys == m0.tb.Keys + {n}
    && m.home[n] == Home(m0.home[t].root, 1, m0.home[t].base + i * 512)
    && (forall c :: c in m0.tb ==> m.home[c] == m0.home[c] && (c != t ==> m.tb[c] == m0.tb[c]))
    && m.tb[t] == m0.tb[t][i := TableEntry(n)]
    && SplitDebt(m0, m, m0.tb[t][i].frame)
    && (forall x :: j <= x < 512 ==> !m.tb[n][x].present)
    && (forall x :: 0 <= x < j ==> m.tb[n][x].present && m.tb[n][x].perm == m0.tb[t][i].perm)
    && (forall q, v: nat {:trigger View(m, q, v)} :: IsRoot(m0, q) && v < Span(5) ==>
          NotYet(m0, t, i, j, q, v) || View(m, q, v) == View(m0, q, v))
    && (forall q, v: nat {:trigger Private(m, q, v)} :: IsRoot(m0, q) && v < Span(5) ==>
          NotYet(m0, t, i, j, q, v) || SameGuard(m0, m, q, v))
  }

  /** Page v is one of the pages j.. under entry (t, i) of a page directory. */
  ghost predicate NotYet(m0: Mem, t: nat, i: nat, j: nat, q: nat, v: nat)
    requires t in m0.home
  {
    q == m0.home[t].root && m0.home[t].base + i * 512 + j <= v < m0.home[t].base + i * 512 + 512
  }

  lemma SameGuardTrans(m0: Mem, m: Mem, m': Mem, q: nat, v: nat)
    requires SameGuard(m0, m, q, v) && SameGuard(m, m', q, v)
    requires m0.own.Keys <= m.own.Keys || Find(m'.tb, q, 4, v) == Find(m.tb, q, 4, v)
    ensures SameGuard(m0, m', q, v)
  {
    hide Find;
  }

  ghost predicate CanSplitPage(m: Mem, t: nat, i: nat) {
    MInv(m) && t in m.tb && i < 512 && m.home[t].level == 2 && m.tb[t][i].present && m.tb[t][i].huge
  }

  lemma DropLeaf(m: Mem, t: nat, i: nat)
    requires CanSplitPage(m, t, i)
    ensures CanSwap(m, t, i, ZERO_ENTRY) && MInv(Swap(m, t, i, ZERO_ENTRY))
  {
    SwapInv(m, t, i, ZERO_ENTRY);
  }

  lemma DebtKeys(m0: Mem, m: Mem, h: nat)
    requires SplitDebt(m0, m, h)
    ensures m0.own.Keys <= m.own.Keys && h in m.own && m.own[h].order == HUGE
  {
  }

  lemma SplitStartFacts(m: Mem, t: nat, i: nat, n: nat, data': seq<Bytes>)
    requires CanSplitPage(m, t, i) && CanNewTable(Swap(m, t, i, ZERO_ENTRY), t, i, n, data')
    ensures var m' := NewTable(Swap(m, t, i, ZERO_ENTRY), t, i, n, data'); var h := m.tb[t][i].frame;
            MInv(m') && n !in m.tb && SplitDebt(m, m', h)
  {
    hide MInv;
    hide OwnOk;
    ShapedOf(m);
    LeafFacts(m, t, i);
    var m1 := Swap(m, t, i, ZERO_ENTRY);
    FreshFacts(m1, t, i, n);
    NewTableInv(m1, t, i, n, data');
    Pow2Huge();
    assert Pow2(0) == 1;
    FreshApart(m1, n, 0, m.tb[t][i].frame);
    OwnBound(m, m.tb[t][i].frame);
    SwapHeld(m, t, i);
    var m' := NewTable(m1, t, i, n, data');
    assert m'.own == m.own[n := Own(0, 1)] && m'.data == data';
    hide NewTable;
    hide CanNewTable;
    StartDebt(m, m1, m', m.tb[t][i].frame, n);
  }

  lemma SwapHeld(m: Mem, t: nat, i: nat)
    requires t in m.tb && i < |m.tb[t]| && m.tb[t][i].present
    ensures forall g :: Held(Swap(m, t, i, ZERO_ENTRY), g) == Held(m, g) + if g == m.tb[t][i].frame then 1 else 0
  {
  }

  lemma StartDebt(m: Mem, m1: Mem, m': Mem, h: nat, n: nat)
    requires h in m.own && m.own[h].order == HUGE && h + 512 <= |m.data| == |m'.data| && n !in m.own
             && m'.own == m.own[n := Own(0, 1)]
    requires forall x :: h <= x < h + 512 ==> m'.data[x] == m.data[x]
    requires Steady(m1, m') && m1.own == m.own && forall g :: Held(m1, g) == Held(m, g) + if g == h then 1 else 0
    ensures SplitDebt(m, m', h)
  {
  }

  lemma OwnBound(m: Mem, h: nat)
    requires MInv(m) && h in m.own
    ensures h + Pow2(m.own[h].order) <= |m.data|
  {
  }

  lemma SplitStart(m: Mem, t: nat, i: nat, n: nat, data': seq<Bytes>)
    requires CanSplitPage(m, t, i) && CanNewTable(Swap(m, t, i, ZERO_ENTRY), t, i, n, data')
    ensures Splitting(m, NewTable(Swap(m, t, i, ZERO_ENTRY), t, i, n, data'), t, i, n, 0)
  {
    hide MInv;
    hide OwnOk;
    hide View;
    hide SameGuard;
    hide SplitDebt;
    ShapedOf(m);
    SplitStartFacts(m, t, i, n, data');
    var m1 := Swap(m, t, i, ZERO_ENTRY);
    var m' := NewTable(m1, t, i, n, data');
    forall q, v: nat | IsRoot(m, q) && v < Span(5)
      ensures NotYet(m, t, i, 0, q, v) || View(m', q, v) == View(m, q, v)
    {
      NewTableView(m1, t, i, n, data', q, v);
      DropLeaf(m, t, i);
      SwapView(m, m1, t, i, ZERO_ENTRY, q, v);
      WholeSlotCovers(m, t, i, m.home[t].base + i * 512, m.home[t].base + i * 512 + 512, v);
    }
    forall q, v: nat | IsRoot(m, q) && v < Span(5)
      ensures NotYet(m, t, i, 0, q, v) || SameGuard(m, m', q, v)
    {
      SplitStartGuard(m, t, i, n, data', q, v);
    }
  }

  lemma SplitStartGuard(m: Mem, t: nat, i: nat, n: nat, data': seq<Bytes>, q: nat, v: nat)
    requires CanSplitPage(m, t, i) && CanNewTable(Swap(m, t, i, ZERO_ENTRY), t, i, n, data')
    requires IsRoot(m, q) && v < Span(5)
    ensures NotYet(m, t, i, 0, q, v) || SameGuard(m, NewTable(Swap(m, t, i, ZERO_ENTRY), t, i, n, data'), q, v)
  {
    hide MInv;
    hide OwnOk;
    hide Find;
    ShapedOf(m);
    DropLeaf(m, t, i);
    SplitStartFacts(m, t, i, n, data');
    var m1 := Swap(m, t, i, ZERO_ENTRY);
    NewTableInv(m1, t, i, n, data');
    WholeSlotCovers(m, t, i, m.home[t].base + i * 512, m.home[t].base + i * 512 + 512, v);
    SwapFind(m, t, i, ZERO_ENTRY, q, v);
    AddTableFind(Take(m1.(own := m1.own[n := Own(0, 0)], data := data'), n), t, i, n, q, v);
    if !NotYet(m, t, i, 0, q, v) { SameSpot(m, NewTable(m1, t, i, n, data'), q, v); }
  }

  /** One turn of the loop: page j gets a frame of its own with the same bytes. */
  lemma SplitNext(m0: Mem, m: Mem, t: nat, i: nat, n: nat, j: nat, f: nat, e: Pte, data': seq<Bytes>)
    requires CanSplitPage(m0, t, i) && Splitting(m0, m, t, i, n, j) && j < 512
    requires CanMapFresh(m, n, j, f, 0, e, data') && e.perm == m0.tb[t][i].perm
    requires f < |m.data| && data'[f] == m0.data[m0.tb[t][i].frame + j]
    ensures Splitting(m0, MapFresh(m, n, j, f, 0, e, data'), t, i, n, j + 1)
  {
    hide MInv;
    hide OwnOk;
    hide View;
    hide SplitDebt;
    ShapedOf(m);
    var m' := MapFresh(m, n, j, f, 0, e, data');
    MapFreshInv(m, n, j, f, 0, e, data');
    SplitKeepsPage(m0, m, f, m0.tb[t][i].frame, n, j, e, data');
    forall q, v: nat | IsRoot(m0, q) && v < Span(5)
      ensures NotYet(m0, t, i, j + 1, q, v) || View(m', q, v) == View(m0, q, v)
    {
      SplitNextAt(m0, m, t, i, n, j, f, e, data', q, v);
    }
    forall q, v: nat | IsRoot(m0, q) && v < Span(5)
      ensures NotYet(m0, t, i, j + 1, q, v) || SameGuard(m0, m', q, v)
    {
      SplitNextGuard(m0, m, t, i, n, j, f, e, data', q, v);
    }
  }

  lemma MappedTables(m: Mem, n: nat, j: nat, f: nat, e: Pte, data': seq<Bytes>)
    requires CanMapFresh(m, n, j, f, 0, e, data') && j < |m.tb[n]|
    ensures var m' := MapFresh(m, n, j, f, 0, e, data');
            && m'.tb == SetEntry(m.tb, n, j, e) && m'.home == m.home && f !in m.own && f in m'.own && m'.own[f].ref == 1
            && OwnDown(m, m', None)
  {
    hide MInv;
    MapFreshInv(m, n, j, f, 0, e, data');
  }

  lemma SplitNextGuard(m0: Mem, m: Mem, t: nat, i: nat, n: nat, j: nat, f: nat, e: Pte, data': seq<Bytes>, q: nat,
                       v: nat)
    requires CanSplitPage(m0, t, i) && Splitting(m0, m, t, i, n, j) && j < 512
    requires CanMapFresh(m, n, j, f, 0, e, data') && e.perm == m0.tb[t][i].perm
    requires IsRoot(m0, q) && v < Span(5)
    ensures NotYet(m0, t, i, j + 1, q, v) || SameGuard(m0, MapFresh(m, n, j, f, 0, e, data'), q, v)
  {
    hide MInv;
    hide OwnOk;
    hide View;
    hide Find;
    hide SameGuard;
    DebtKeys(m0, m, m0.tb[t][i].frame);
    hide SplitDebt;
    ShapedOf(m);
    var m' := MapFresh(m, n, j, f, 0, e, data');
    MapFreshInv(m, n, j, f, 0, e, data');
    ShapedOf(m');
    MappedTables(m, n, j, f, e, data');
    hide MapFresh;
    var b := m0.home[t].base + i * 512;
    WholeSlotCovers(m, n, j, b + j, b + j + 1, v);
    LeafFind(m, m', n, j, e, q, v);
    hide CanMapFresh;
    if q == m0.home[t].root && v == b + j {
      WholeSlotCovers(m0, t, i, b, b + 512, v);
      LeafSpot(m0, t, i, v);
      NewSpot(m0, m', q, v, f);
    } else if !NotYet(m0, t, i, j + 1, q, v) {
      var p := Private(m, q, v);
      SameSpot(m, m', q, v);
      SameGuardTrans(m0, m, m', q, v);
    }
  }

  /** A page that has moved to a new block of its own. */
  lemma NewSpot(m0: Mem, m': Mem, q: nat, v: nat, f: nat)
    requires var a, a' := Find(m0.tb, q, 4, v), Find(m'.tb, q, 4, v);
             a.Some? && a'.Some? && a'.value.perm == a.value.perm && a'.value.block == f
    requires f !in m0.own && f in m'.own && m'.own[f].ref == 1
    ensures SameGuard(m0, m', q, v)
  {
    hide Find;
  }

  lemma LeafSpot(m: Mem, t: nat, i: nat, v: nat)
    requires MInv(m) && t in m.tb && i < 512 && m.tb[t][i].present && !IsTable(m.home[t].level, m.tb[t][i])
             && SlotCovers(m, t, i, v)
    ensures Find(m.tb, m.home[t].root, 4, v).Some?
    ensures var s := Find(m.tb, m.home[t].root, 4, v).value; s.perm == m.tb[t][i].perm && s.block == m.tb[t][i].frame
  {
    FindPath(m, t, v);
  }

  lemma SplitNextAt(m0: Mem, m: Mem, t: nat, i: nat, n: nat, j: nat, f: nat, e: Pte, data': seq<Bytes>, q: nat, v: nat)
    requires CanSplitPage(m0, t, i) && Splitting(m0, m, t, i, n, j) && j < 512
    requires CanMapFresh(m, n, j, f, 0, e, data') && e.perm == m0.tb[t][i].perm
    requires f < |m.data| && data'[f] == m0.data[m0.tb[t][i].frame + j]
    requires IsRoot(m0, q) && v < Span(5)
    ensures NotYet(m0, t, i, j + 1, q, v) || View(MapFresh(m, n, j, f, 0, e, data'), q, v) == View(m0, q, v)
  {
    hide MInv;
    hide OwnOk;
    hide View;
    ShapedOf(m);
    var b := m0.home[t].base + i * 512;
    MapFreshView(m, n, j, f, 0, e, data', q, v);
    WholeSlotCovers(m, n, j, b + j, b + j + 1, v);
    if q == m0.home[t].root && v == b + j {
      WholeSlotCovers(m0, t, i, b, b + 512, v);
      LeafView(m0, t, i, v);
    }
  }

  /** The block at h stays apart from any newly allocated frame. */
  lemma SplitKeepsPage(m0: Mem, m: Mem, f: nat, h: nat, n: nat, j: nat, e: Pte, data': seq<Bytes>)
    requires CanMapFresh(m, n, j, f, 0, e, data') && SplitDebt(m0, m, h) && !m.tb[n][j].present
    ensures SplitDebt(m0, MapFresh(m, n, j, f, 0, e, data'), h)
  {
    hide MInv;
    ShapedOf(m);
    MapFreshInv(m, n, j, f, 0, e, data');
    Pow2Huge();
    assert Pow2(0) == 1;
    FreshApart(m, f, 0, h);
  }

  /** All 512 pages have moved: dropping the reference to the 2M page finishes the split. */
  lemma SplitEnd(m0: Mem, m: Mem, t: nat, i: nat, n: nat, lo: nat, hi: nat)
    requires CanSplitPage(m0, t, i) && Splitting(m0, m, t, i, n, 512) && InSlot(m0, t, i, lo, hi)
    ensures var h := m0.tb[t][i].frame;
            && h in m.own && m.own[h].ref > 0 && Held(m, h) > 0
            && Quiet(m0, Release(m, h), t, lo, hi) && NoneGone(m0, Release(m, h))
  {
    hide MInv;
    hide OwnOk;
    hide View;
    hide SameGuard;
    hide SplitDebt;
    DebtKeys(m0, m, m0.tb[t][i].frame);
    var h := m0.tb[t][i].frame;
    LeafFacts(m0, t, i);
    ShapedOf(m);
    TableOrder(m, n);
    SplitEndInv(m0, m, h);
    var m' := Release(m, h);
    ShapedOf(m');
    forall q, v: nat | IsRoot(m0, q) && v < Span(5) ensures View(m', q, v) == View(m0, q, v) {
      SameTbView(m, m', q, v);
    }
    forall q, v: nat | IsRoot(m0, q) && v < Span(5) ensures SameGuard(m0, m', q, v) {
      var p := Private(m, q, v);
      SameSpot(m, m', q, v);
      SameGuardTrans(m0, m, m', q, v);
    }
    assert (i + 1) * 512 == i * 512 + 512;
    assert Under(m'.home, t, lo, hi, n);
  }

  lemma TableOrder(m: Mem, n: nat)
    requires MInv(m) && n in m.tb
    ensures n in m.own && m.own[n].order == 0
  {
    assert TableOk(m, n);
  }

  lemma SplitEndInv(m0: Mem, m: Mem, h: nat)
    requires MInv(m) && SplitDebt(m0, m, h) && h !in m.tb && Shaped(m0) && Shaped(m)
    requires forall q :: IsRoot(m, q) <==> IsRoot(m0, q)
    ensures m.own[h].ref > 0 && Held(m, h) > 0 && MInv(Release(m, h)) && Steady(m0, Release(m, h))
  {
    hide MInv;
    ReleaseInv(m, h);
  }
}
