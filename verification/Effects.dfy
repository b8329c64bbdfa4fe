/** What a walk over a range of pages does to the address spaces, and how the effects of
    consecutive pieces of a walk add up. */
module Effects {
  import opened Common
  import opened Orders
  import opened Buddy
  import opened Paging

  function ZeroPage(): Bytes { seq(4096, _ => 0) }

  /** The walks of remove.c, protect.c, populate.c and insert.c. */
  datatype Op =
    | Remove
    | Protect(perm: Perm)
    | Populate(perm: Perm)
    | Insert(frame: nat, perm: Perm, first: nat, bytes: seq<Bytes>)  // bytes: contents of the page, by frame

  /** How page v looks after the walk, given how it looked before. Populate may renew the
      permissions of a shared 2M page as a whole, also outside the range. */
  ghost predicate Rel(op: Op, inside: bool, v: nat, before: Option<PageView>, after: Option<PageView>) {
    match op
    case Remove => after == if inside then None else before
    case Protect(perm) => after == if inside && before.Some? then Some(before.value.(perm := perm)) else before
    case Populate(perm) =>
      if before.None? then after == if inside then Some(PageView(ZeroPage(), perm)) else None
      else after.Some? && after.value.bytes == before.value.bytes && after.value.perm in {before.value.perm, perm}
    case Insert(_, perm, first, bytes) =>
      if inside then first <= v < first + |bytes| && after == Some(PageView(bytes[v - first], perm))
         else after == before
  }

  ghost predicate Inside(r: nat, lo: nat, hi: nat, q: nat, v: nat) { q == r && lo <= v < hi }

  ghost predicate Effect(op: Op, m: Mem, m': Mem, r: nat, lo: nat, hi: nat) {
    forall q, v: nat {:trigger View(m', q, v)} :: IsRoot(m, q) && v < Span(5) ==>
      Rel(op, Inside(r, lo, hi, q, v), v, View(m, q, v), View(m', q, v))
  }

  /** Page v lies in a 2M page that other entries refer to as well. */
  ghost predicate SharedHuge(m: Mem, q: nat, v: nat) {
    var a := Find(m.tb, q, 4, v);
    a.Some? && a.value.huge && !Private(m, q, v)
  }

  /** How the sharing of page v changes: a private page stays private, unless it is the page being
      inserted, and what Populate maps or re-protects is private. Outside its range Populate
      re-protects the pages of shared 2M pages only. */
  ghost predicate Guard(op: Op, inside: bool, m: Mem, m': Mem, q: nat, v: nat) {
    var a, a' := Find(m.tb, q, 4, v), Find(m'.tb, q, 4, v);
    && (a.None? && a'.Some? ==> inside && (op.Populate? || op.Insert?))
    && (a.Some? && a'.None? ==> inside && op.Remove?)
    && (Private(m, q, v) && a'.Some? && (op.Insert? ==> !inside && a.value.block != op.frame) ==> Private(m', q, v))
    && (op.Populate? && inside ==> Private(m', q, v))
    && (op.Populate? && Private(m, q, v) && a'.Some? ==> a'.value.perm == a.value.perm)
    && (op.Populate? && a.Some? && a'.Some? && a.value.perm != a'.value.perm ==> Private(m', q, v))
    && (op.Populate? && a.Some? && a'.Some? && a'.value.huge && !a.value.huge ==> Private(m', q, v))
    && (op.Populate? && a.Some? && a'.Some? && a.value.perm != a'.value.perm && !inside ==> SharedHuge(m, q, v))
  }

  /** A shared 2M page that Populate meets gets the new permissions as a whole. */
  ghost predicate Renewed(op: Op, m: Mem, m': Mem, r: nat, lo: nat, hi: nat) {
    op.Populate? && hi <= lo - lo % 512 + 512 && SharedHuge(m, r, lo) ==>
      forall v: nat {:trigger Find(m'.tb, r, 4, v)} :: v - v % 512 == lo - lo % 512 ==>
        Find(m'.tb, r, 4, v).Some? && Find(m'.tb, r, 4, v).value.perm == op.perm
  }

  /** Page v lies in one of the 2M that [lo, hi) meets. */
  ghost predicate Near(r: nat, lo: nat, hi: nat, q: nat, v: nat) {
    q == r && lo < hi && v - v % 512 < hi && lo < v - v % 512 + 512
  }

  /** Populate gives page v other permissions. */
  ghost predicate Renews(op: Op, m: Mem, m': Mem, q: nat, v: nat) {
    var a, a' := Find(m.tb, q, 4, v), Find(m'.tb, q, 4, v);
    op.Populate? && a.Some? && a'.Some? && a.value.perm != a'.value.perm
  }

  ghost predicate Guarded(op: Op, m: Mem, m': Mem, r: nat, lo: nat, hi: nat) {
    forall q, v: nat {:trigger Private(m', q, v)} :: IsRoot(m, q) && v < Span(5) ==>
      Guard(op, Inside(r, lo, hi, q, v), m, m', q, v) && (Renews(op, m, m', q, v) ==> Near(r, lo, hi, q, v))
  }

  lemma GuardedTrans(op: Op, m: Mem, m1: Mem, m2: Mem, r: nat, lo: nat, mid: nat, hi: nat)
    requires lo <= mid <= hi && Guarded(op, m, m1, r, lo, mid) && Guarded(op, m1, m2, r, mid, hi) && Steady(m, m1)
    requires op.Insert? ==> m1 == m
    ensures Guarded(op, m, m2, r, lo, hi)
  {
    forall q, v: nat | IsRoot(m, q) && v < Span(5)
      ensures Guard(op, Inside(r, lo, hi, q, v), m, m2, q, v) && (Renews(op, m, m2, q, v) ==> Near(r, lo, hi, q, v))
    {
      assert IsRoot(m1, q);
      assert Guard(op, Inside(r, lo, mid, q, v), m, m1, q, v) by { var p := Private(m1, q, v); }
      assert Guard(op, Inside(r, mid, hi, q, v), m1, m2, q, v) by { var p := Private(m2, q, v); }
    }
  }

  /** The kernel holds what it held before, no block is left without a reference that had one,
      and the address spaces are the same. */
  ghost predicate Steady(m: Mem, m': Mem) {
    && |m'.data| == |m.data|
    && (forall f :: Held(m', f) == Held(m, f))
    && (forall f :: f in m'.own && m'.own[f].ref == 0 ==> f in m.own && m.own[f].ref == 0)
    && (forall q :: IsRoot(m', q) <==> IsRoot(m, q))
  }

  ghost predicate Touches(h: Home, lo: nat, hi: nat) {
    lo < hi && h.base < hi && lo < h.base + Span(h.level + 1)
  }

  /** Tables a walk over [lo, hi) below table t may change. */
  ghost predicate Under(home: map<nat, Home>, t: nat, lo: nat, hi: nat, c: nat)
    requires t in home && c in home
  {
    home[c].root == home[t].root && home[c].level < home[t].level && Touches(home[c], lo, hi)
  }

  ghost predicate OnlyUnder(m: Mem, m': Mem, t: nat, lo: nat, hi: nat) {
    && Shaped(m) && Shaped(m') && t in m.tb && t in m'.tb && m'.home[t] == m.home[t]
    && (forall c {:trigger c in m'.tb} {:trigger m'.tb[c]} :: c in m.tb && c != t && !Under(m.home, t, lo, hi, c) ==>
          c in m'.tb && m'.tb[c] == m.tb[c] && m'.home[c] == m.home[c])
    && (forall c {:trigger c in m.tb} :: c in m'.tb && c != t && !Under(m'.home, t, lo, hi, c) ==>
          c in m.tb && m'.tb[c] == m.tb[c] && m'.home[c] == m.home[c])
  }

  /** The table of m in frame c is no longer in place; the frame may hold another table. */
  ghost predicate Gone(m: Mem, m': Mem, c: nat)
    requires Shaped(m) && Shaped(m')
  {
    c in m.tb && !(c in m'.tb && m'.home[c] == m.home[c])
  }

  /** Unmapping leaves no empty table where it passed, and frees a table only when nothing
      below it is mapped any more. */
  ghost predicate Pruned(m: Mem, m': Mem, t: nat, lo: nat, hi: nat, but: set<nat>)
    requires OnlyUnder(m, m', t, lo, hi)
  {
    && (forall c :: c in m'.tb && c !in but && Under(m'.home, t, lo, hi, c) ==> !EmptyTable(m'.tb, c))
    && (forall c, v: nat {:trigger Covers(m.home[c], v)} :: Gone(m, m', c) && Covers(m.home[c], v) ==>
          View(m', m.home[c].root, v).None?)
  }

  ghost predicate WalkedBut(op: Op, m: Mem, m': Mem, t: nat, lo: nat, hi: nat, but: set<nat>) {
    && MInv(m') && Steady(m, m') && OnlyUnder(m, m', t, lo, hi)
    && Effect(op, m, m', m.home[t].root, lo, hi) && Guarded(op, m, m', m.home[t].root, lo, hi)
    && (op.Remove? ==> Pruned(m, m', t, lo, hi, but))
  }

  /** The whole effect of a walk over [lo, hi) below table t. */
  ghost predicate Walked(op: Op, m: Mem, m': Mem, t: nat, lo: nat, hi: nat) {
    WalkedBut(op, m, m', t, lo, hi, {})
  }

  lemma RelTrans(op: Op, a: bool, b: bool, v: nat, x: Option<PageView>, y: Option<PageView>, z: Option<PageView>)
    requires Rel(op, a, v, x, y) && Rel(op, b, v, y, z) && !(a && b)
    ensures Rel(op, a || b, v, x, z)
  {
  }

  lemma EffectTrans(op: Op, m: Mem, m1: Mem, m2: Mem, r: nat, lo: nat, mid: nat, hi: nat)
    requires lo <= mid <= hi && Effect(op, m, m1, r, lo, mid) && Effect(op, m1, m2, r, mid, hi) && Steady(m, m1)
    ensures Effect(op, m, m2, r, lo, hi)
  {
    forall q, v: nat | IsRoot(m, q) && v < Span(5)
      ensures Rel(op, Inside(r, lo, hi, q, v), v, View(m, q, v), View(m2, q, v))
    {
      assert IsRoot(m1, q);
      RelTrans(op, Inside(r, lo, mid, q, v), Inside(r, mid, hi, q, v), v, View(m, q, v), View(m1, q, v),
               View(m2, q, v));
    }
  }

  lemma OnlyUnderTrans(m: Mem, m1: Mem, m2: Mem, t: nat, lo: nat, mid: nat, hi: nat)
    requires lo <= mid <= hi && OnlyUnder(m, m1, t, lo, mid) && OnlyUnder(m1, m2, t, mid, hi)
    ensures OnlyUnder(m, m2, t, lo, hi)
  {
    hide Touches;
    forall c | c in m.tb && c != t && !Under(m.home, t, lo, hi, c)
      ensures c in m2.tb && m2.tb[c] == m.tb[c] && m2.home[c] == m.home[c]
    {
      TouchesMore(m.home[c], lo, mid, hi);
      assert c in m1.tb && m1.tb[c] == m.tb[c] && m1.home[c] == m.home[c];
      assert !Under(m1.home, t, mid, hi, c);
    }
    forall c | c in m2.tb && c != t && !Under(m2.home, t, lo, hi, c)
      ensures c in m.tb && m2.tb[c] == m.tb[c] && m2.home[c] == m.home[c]
    {
      TouchesMore(m2.home[c], lo, mid, hi);
      assert c in m1.tb && m2.tb[c] == m1.tb[c] && m2.home[c] == m1.home[c];
      assert !Under(m1.home, t, lo, mid, c);
    }
  }

  lemma TouchesMore(h: Home, lo: nat, mid: nat, hi: nat)
    requires lo <= mid <= hi
    ensures Touches(h, lo, mid) || Touches(h, mid, hi) ==> Touches(h, lo, hi)
  {
  }

  lemma PrunedTrans(m: Mem, m1: Mem, m2: Mem, t: nat, lo: nat, mid: nat, hi: nat)
    requires lo <= mid <= hi && OnlyUnder(m, m1, t, lo, mid) && OnlyUnder(m1, m2, t, mid, hi)
             && OnlyUnder(m, m2, t, lo, hi)
    requires Pruned(m, m1, t, lo, mid, {}) && Pruned(m1, m2, t, mid, hi, {})
    requires MInv(m) && MInv(m1) && Steady(m, m1) && Effect(Remove, m1, m2, m.home[t].root, mid, hi)
    ensures Pruned(m, m2, t, lo, hi, {})
  {
    forall c, v: nat | Gone(m, m2, c) && Covers(m.home[c], v)
      ensures View(m2, m.home[c].root, v).None?
    {
      assert TableOk(m, c);
      assert IsRoot(m1, m.home[c].root);
      if Gone(m, m1, c) { assert View(m1, m.home[c].root, v).None?; }
    }
  }

  /** Consecutive pieces of a walk make one walk. */
  lemma WalkedTrans(op: Op, m: Mem, m1: Mem, m2: Mem, t: nat, lo: nat, mid: nat, hi: nat)
    requires MInv(m) && lo <= mid <= hi && Walked(op, m, m1, t, lo, mid) && Walked(op, m1, m2, t, mid, hi)
    requires op.Insert? ==> m1 == m
    ensures Walked(op, m, m2, t, lo, hi)
  {
    hide MInv;
    hide Effect;
    hide Guarded;
    hide Pruned;
    GuardedTrans(op, m, m1, m2, m.home[t].root, lo, mid, hi);
    EffectTrans(op, m, m1, m2, m.home[t].root, lo, mid, hi);
    OnlyUnderTrans(m, m1, m2, t, lo, mid, hi);
    if op.Remove? { PrunedTrans(m, m1, m2, t, lo, mid, hi); }
  }

  // ---- Mapping a fresh block ----------------------------------------------------------------

  /** page_alloc, filling the new block, pp_ref++ and storing the entry. */
  function MapFresh(m: Mem, t: nat, i: nat, f: nat, k: nat, e: Pte, data': seq<Bytes>): Mem
    requires t in m.tb && i < |m.tb[t]|
  {
    Swap(Take(m.(own := m.own[f := Own(k, 0)], data := data'), f), t, i, e)
  }

  ghost predicate CanMapFresh(m: Mem, t: nat, i: nat, f: nat, k: nat, e: Pte, data': seq<Bytes>) {
    && MInv(m) && f !in m.own && |data'| == |m.data| && OwnOk(m.(own := m.own[f := Own(k, 0)]))
    && (forall p :: 0 <= p < |m.data| && !(f <= p < f + Pow2(k)) ==> data'[p] == m.data[p])
    && t in m.tb && i < 512 && !IsTable(m.home[t].level, m.tb[t][i])
    && e.present && e.frame == f && !IsTable(m.home[t].level, e)
    && k == if m.home[t].level == 2 then HUGE else 0
  }

  lemma MapFreshInv(m: Mem, t: nat, i: nat, f: nat, k: nat, e: Pte, data': seq<Bytes>)
    requires CanMapFresh(m, t, i, f, k, e, data')
    ensures var m' := MapFresh(m, t, i, f, k, e, data');
            && MInv(m') && m'.own == m.own[f := Own(k, 1)] && Held(m', f) == 0
            && forall g :: Held(m', g) == Held(m, g) + if m.tb[t][i].present && m.tb[t][i].frame == g then 1 else 0
  {
    hide MInv;
    var m1 := m.(own := m.own[f := Own(k, 0)], data := data');
    FreshFacts(m, t, i, f);
    AllocInv(m, f, k, data');
    TakeInv(m1, f);
    SwapInv(Take(m1, f), t, i, e);
  }

  lemma FreshFacts(m: Mem, t: nat, i: nat, f: nat)
    requires MInv(m) && f !in m.own && t in m.tb && i < 512
    ensures f !in m.tb && Held(m, f) == 0 && Refs(m.tb, f) == {}
    ensures m.tb[t][i].present ==> m.tb[t][i].frame != f
  {
    RefsOwned(m, f);
    assert m.tb[t][i].present && m.tb[t][i].frame == f ==> (t, i) in Refs(m.tb, f);
  }

  lemma MapFreshView(m: Mem, t: nat, i: nat, f: nat, k: nat, e: Pte, data': seq<Bytes>, q: nat, v: nat)
    requires CanMapFresh(m, t, i, f, k, e, data') && IsRoot(m, q) && v < Span(5)
    ensures var m' := MapFresh(m, t, i, f, k, e, data');
            if q == m.home[t].root && SlotCovers(m, t, i, v) then
              var p := if m.home[t].level == 2 then f + v % 512 else f;
              p < |m.data| && View(m', q, v) == Some(PageView(data'[p], e.perm))
            else View(m', q, v) == View(m, q, v)
  {
    hide MInv;
    hide Find;
    var m1 := m.(own := m.own[f := Own(k, 0)], data := data');
    var m2 := Take(m1, f);
    FreshFacts(m, t, i, f);
    AllocInv(m, f, k, data');
    TakeInv(m1, f);
    SwapFind(m2, t, i, e, q, v);
    Pow2Huge();
    assert f in m2.own && f + Pow2(k) <= |m.data|;
    if !(SlotCovers(m, t, i, v) && q == m.home[t].root) {
      FreshUnseen(m, f, k, data', q, v);
    }
  }

  lemma FreshApart(m: Mem, f: nat, k: nat, h: nat)
    requires h in m.own && OwnOk(m.(own := m.own[f := Own(k, 0)])) && f !in m.own
    ensures h + Pow2(m.own[h].order) <= f || f + Pow2(k) <= h
  {
    var o := m.own[f := Own(k, 0)];
    assert Apart(o, h, f) && Apart(o, f, h);
    hide OwnOk;
    hide Pow2;
    assert o[h] == m.own[h] && o[f] == Own(k, 0);
  }

  lemma FreshUnseen(m: Mem, f: nat, k: nat, data': seq<Bytes>, q: nat, v: nat)
    requires MInv(m) && f !in m.own && |data'| == |m.data| && OwnOk(m.(own := m.own[f := Own(k, 0)]))
    requires forall p :: 0 <= p < |m.data| && !(f <= p < f + Pow2(k)) ==> data'[p] == m.data[p]
    requires IsRoot(m, q) && v < Span(5)
    ensures View(m.(data := data'), q, v) == View(m, q, v)
  {
    hide MInv;
    hide OwnOk;
    hide View;
    forall g | g in m.own ensures g + Pow2(m.own[g].order) <= f || f + Pow2(k) <= g { FreshApart(m, f, k, g); }
    UnseenData(m, data', f, Pow2(k), q, v);
  }
}
