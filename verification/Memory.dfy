/** Page tables in physical memory, over the frame allocator: kernel/mem/ptbl.c and the walks
    of remove.c, protect.c, populate.c and insert.c. */
module Memory {
  import opened Common
  import opened Orders
  import opened Buddy
  import opened Paging
  import opened Effects
  import opened Callbacks
  import opened Tables
  import opened Merging
  import opened Compaction

  /** memset of n frames from frame f on. */
  function Zeroed(data: seq<Bytes>, f: nat, n: nat): (r: seq<Bytes>)
    requires f + n <= |data|
    ensures |r| == |data|
    ensures forall p :: 0 <= p < |data| ==> r[p] == if f <= p < f + n then ZeroPage() else data[p]
  {
    data[..f] + seq(n, _ => ZeroPage()) + data[f + n..]
  }

  /** memcpy of n frames from frame g on to frame f on. */
  function Copied(data: seq<Bytes>, g: nat, f: nat, n: nat): (r: seq<Bytes>)
    requires f + n <= |data| && g + n <= |data|
    ensures |r| == |data| && CopyOf(data, r, g, f, n)
    ensures forall p :: 0 <= p < |data| && !(f <= p < f + n) ==> r[p] == data[p]
  {
    data[..f] + data[g..g + n] + data[f + n..]
  }

  class PageTables {
    const buddy: Allocator
    var tables: map<nat, seq<Pte>>
    var data: seq<Bytes>
    ghost var home: map<nat, Home>
    ghost var up: map<nat, (nat, nat)>
    ghost var held: map<nat, nat>

    ghost function M(): Mem
      reads this, buddy, buddy.pages
    {
      Mem(tables, home, up, buddy.Blocks(), held, data)
    }

    ghost predicate Valid()
      reads this, buddy, buddy.pages
    {
      buddy.Valid() && |data| == buddy.pages.Length && MInv(M())
    }

    /** No page tables yet; references already counted are held by the kernel itself. */
    constructor (b: Allocator)
      requires b.Valid()
      ensures Valid() && buddy == b && tables == map[]
    {
      buddy := b;
      tables, home, up := map[], map[], map[];
      data := seq(b.pages.Length, _ => ZeroPage());
      held := map f | f in b.Blocks() :: b.Blocks()[f].ref;
      new;
      OwnedIntervals(b.S());
      forall f | f in M().own ensures RefOk(M(), f) { assert Refs(tables, f) == {}; }
    }

    /** page_alloc(ALLOC_ZERO) or page_alloc(ALLOC_ZERO | ALLOC_HUGE). */
    method AllocFrame(huge: bool) returns (r: Option<nat>)
      requires Valid()
      modifies this`data, buddy, buddy.pages
      ensures Valid()
      ensures r.None? ==> M() == old(M()) && NoRun(buddy.S(), OrderOf(huge))
      ensures r.Some? ==> AllocatedZero(old(M()), M(), r.value, OrderOf(huge))
    {
      hide MInv;
      hide Inv;
      hide NoRun;
      ghost var m := M();
      ghost var s := buddy.S();
      OwnedIntervals(s);
      r := buddy.PageAlloc(huge);
      if r.Some? {
        OwnedIntervals(buddy.S());
        assert r.value in Owned(buddy.S(), NO_HOLE);
        data := Zeroed(data, r.value, Pow2(OrderOf(huge)));
        AllocInv(m, r.value, OrderOf(huge), data);
      }
    }

    /** page_decref of a frame that the kernel holds a reference to. */
    method DecRef(f: nat)
      requires Valid() && f !in tables && Held(M(), f) > 0
      modifies this`held, buddy, buddy.pages
      ensures f in old(M()).own && old(M()).own[f].ref > 0
      ensures Valid() && M() == Release(old(M()), f)
    {
      hide MInv;
      hide Inv;
      hide Owned;
      ghost var m := M();
      HeldOwned(m, f);
      ReleaseInv(m, f);
      buddy.PageDecref(f);
      held := held[f := Held(m, f) - 1];
      assert M() == Release(m, f);
    }

    /** pp_ref++ */
    method IncRef(f: nat)
      requires Valid() && f in buddy.Blocks() && f !in tables
      modifies this`held, buddy.pages
      ensures Valid() && M() == Take(old(M()), f)
    {
      hide MInv;
      hide Inv;
      hide Owned;
      ghost var m := M();
      TakeInv(m, f);
      buddy.IncRef(f);
      held := held[f := Held(m, f) + 1];
      assert M() == Take(m, f);
    }

    /** Stores e in a leaf entry; the reference counts follow with the caller's next step. */
    method Store(t: nat, i: nat, e: Pte)
      requires Valid() && CanSwap(M(), t, i, e)
      modifies this`tables, this`held
      ensures Valid() && M() == Swap(old(M()), t, i, e)
    {
      hide MInv;
      hide Inv;
      hide Owned;
      ghost var m := M();
      ShapedOf(m);
      SwapInv(m, t, i, e);
      tables := SetEntry(tables, t, i, e);
      held := Swap(m, t, i, e).held;
      assert M() == Swap(m, t, i, e);
    }

    /** Stores an entry that points to the zeroed frame f as a table. */
    method StoreTable(t: nat, i: nat, f: nat)
      requires Valid() && t in tables && i < |tables[t]| && t in home && home[t].level >= 2
      requires CanAddTable(Swap(M(), t, i, ZERO_ENTRY), t, i, f)
      modifies this
      ensures Valid() && M() == AddTable(Swap(old(M()), t, i, ZERO_ENTRY), t, i, f)
    {
      hide MInv;
      hide Inv;
      hide Owned;
      hide OwnOk;
      ghost var m := M();
      ghost var m1 := Swap(m, t, i, ZERO_ENTRY);
      AddTableInv(m1, t, i, f);
      ghost var m' := AddTable(m1, t, i, f);
      tables := SetEntry(tables, t, i, TableEntry(f))[f := ZeroTable()];
      home, up, held := m'.home, m'.up, m'.held;
      assert m.tb[t][i := ZERO_ENTRY][i := TableEntry(f)] == m.tb[t][i := TableEntry(f)];
      assert M() == m';
    }

    // ---- ptbl.c -----------------------------------------------------------------------------

    /** ptbl_alloc */
    method PtblAlloc(t: nat, i: nat, ghost lo: nat, ghost hi: nat) returns (ok: bool)
      requires Valid() && t in tables && i < 512 && home[t].level >= 2 && InSlot(M(), t, i, lo, hi)
      modifies this, buddy, buddy.pages
      ensures Valid()
      ensures !ok ==> M() == old(M()) && NoRun(buddy.S(), 0) && !tables[t][i].present
      ensures ok ==> t in tables && i < |tables[t]| && tables[t][i].present
      ensures ok && old(tables[t][i].present) ==> M() == old(M())
      ensures ok && !old(tables[t][i].present) ==> AddedTable(old(M()), M(), t, i, lo, hi)
    {
      hide MInv;
      hide Inv;
      hide Owned;
      hide OwnOk;
      ghost var m := M();
      ShapedOf(m);
      ok := true;
      if tables[t][i].present {
        return;
      }
      var page := AllocFrame(false);
      if page.None? {
        ok := false;
        return;
      }
      var f := page.value;
      ghost var data' := M().data;
      assert CanNewTable(m, t, i, f, data');
      NewTableInv(m, t, i, f, data');
      NewTableQuiet(m, t, i, f, data', lo, hi);
      IncRef(f);
      AbsentSwap(m, M(), t, i, f);
      StoreTable(t, i, f);
      NewTableGrows(m, t, i, f, data');
    }

    /** ptbl_split */
    method PtblSplit(t: nat, i: nat, ghost lo: nat, ghost hi: nat) returns (ok: bool)
      requires Valid() && t in tables && i < 512 && home[t].level == 2 && InSlot(M(), t, i, lo, hi)
      modifies this, buddy, buddy.pages
      ensures Valid()
      ensures !ok ==> NoRun(buddy.S(), 0)
      ensures ok ==> Shaped(old(M())) && Quiet(old(M()), M(), t, lo, hi) && NoneGone(old(M()), M())
      ensures ok ==> t in tables && i < |tables[t]| && IsTable(2, tables[t][i])
      ensures ok && old(tables[t][i].present && tables[t][i].huge) ==>
                FullTable(M(), t, i) && TablePerm(M(), t, i) == old(tables[t][i].perm)
    {
      hide MInv;
      hide Inv;
      hide Owned;
      hide OwnOk;
      hide Splitting;
      ghost var m := M();
      ShapedOf(m);
      if !tables[t][i].present || !tables[t][i].huge {
        QuietSelf(m, t, lo, hi);
        ok := PtblAlloc(t, i, lo, hi);
        return;
      }
      var huge, perm := tables[t][i].frame, tables[t][i].perm;
      var page := SplitTable(t, i);
      if page.None? {
        ok := false;
        return;
      }
      var n := page.value;
      var j := 0;
      while j < 512
        invariant 0 <= j <= 512 && Valid() && Splitting(m, M(), t, i, n, j)
      {
        ok := SplitCopy(m, t, i, n, huge, perm, j);
        if !ok {
          return;
        }
        j := j + 1;
      }
      SplitEnd(m, M(), t, i, n, lo, hi);
      SplitEndFacts(m, M(), t, i, n);
      DecRef(huge);
      SplitFull(m, M(), t, i, n);
      ok := true;
    }

    /** ptbl_split, first part: a new table replaces the 2M page in the entry. */
    method SplitTable(t: nat, i: nat) returns (page: Option<nat>)
      requires Valid() && CanSplitPage(M(), t, i)
      modifies this, buddy, buddy.pages
      ensures Valid()
      ensures page.None? ==> M() == old(M()) && NoRun(buddy.S(), 0)
      ensures page.Some? ==> Splitting(old(M()), M(), t, i, page.value, 0)
    {
      hide MInv;
      hide Inv;
      hide Owned;
      hide OwnOk;
      hide Splitting;
      ghost var m := M();
      ShapedOf(m);
      page := AllocFrame(false);
      if page.None? {
        return;
      }
      var n := page.value;
      ghost var data' := M().data;
      FreshFacts(m, t, i, n);
      IncRef(n);
      ghost var m1 := Swap(m, t, i, ZERO_ENTRY);
      DropLeaf(m, t, i);
      SplitOwn(m, m1, n);
      assert CanNewTable(m1, t, i, n, data');
      NewTableInv(m1, t, i, n, data');
      SplitStart(m, t, i, n, data');
      SwapTake(m, t, i, n, data');
      StoreTable(t, i, n);
    }

    /** ptbl_split, loop body: page j of the 2M page gets a frame and an entry of its own. */
    method SplitCopy(ghost m: Mem, t: nat, i: nat, n: nat, huge: nat, perm: Perm, j: nat) returns (ok: bool)
      requires Valid() && CanSplitPage(m, t, i) && Splitting(m, M(), t, i, n, j) && j < 512
      requires huge == m.tb[t][i].frame && perm == m.tb[t][i].perm
      modifies this, buddy, buddy.pages
      ensures Valid()
      ensures !ok ==> NoRun(buddy.S(), 0)
      ensures ok ==> Splitting(m, M(), t, i, n, j + 1)
    {
      hide MInv;
      hide Inv;
      hide Owned;
      hide OwnOk;
      hide View;
      ghost var m1 := M();
      ShapedOf(m1);
      var page := MapBlock(n, j, false, perm, Some(huge + j), huge);
      ok := page.Some?;
      if ok {
        assert Pow2(0) == 1;
        SplitNext(m, m1, t, i, n, j, page.value, Pte(true, false, page.value, perm), M().data);
      }
    }

    /** Allocates a zeroed block and fills it from frame `src` on if given. */
    method FillBlock(huge: bool, src: Option<nat>, ghost block: nat) returns (r: Option<nat>)
      requires Valid()
      requires src.Some? ==> Within(M(), block, src.value, OrderOf(huge))
      modifies this`data, buddy, buddy.pages
      ensures Valid()
      ensures r.None? ==> M() == old(M()) && NoRun(buddy.S(), OrderOf(huge))
      ensures r.Some? ==> Filled(old(M()), M(), r.value, OrderOf(huge), src)
    {
      hide MInv;
      hide Inv;
      hide Owned;
      hide OwnOk;
      hide Zeroed;
      hide Copied;
      hide Filled;
      ghost var m := M();
      r := AllocFrame(huge);
      if r.Some? {
        FilledZero(m, M(), r.value, OrderOf(huge));
        if src.Some? {
          FilledCopy(m, M(), r.value, OrderOf(huge), src.value, block);
          data := Copied(data, src.value, r.value, Pow2(OrderOf(huge)));
        }
      }
    }

    /** Maps a new block at the leaf entry (t, i) and counts the reference. */
    method MapBlock(t: nat, i: nat, huge: bool, perm: Perm, src: Option<nat>, ghost block: nat) returns (r: Option<nat>)
      requires Valid() && t in tables && i < 512 && home[t].level <= 2 && (huge <==> home[t].level == 2)
      requires !IsTable(home[t].level, tables[t][i])
      requires src.Some? ==> Within(M(), block, src.value, OrderOf(huge))
      modifies this, buddy, buddy.pages
      ensures Valid()
      ensures r.None? ==> M() == old(M()) && NoRun(buddy.S(), OrderOf(huge))
      ensures r.Some? ==>
        var f, k, e := r.value, OrderOf(huge), Pte(true, huge, r.value, perm);
        && CanMapFresh(old(M()), t, i, f, k, e, data) && M() == MapFresh(old(M()), t, i, f, k, e, data)
        && FilledFrom(old(data), data, f, Pow2(k), src)
    {
      hide MInv;
      hide Inv;
      hide Owned;
      hide OwnOk;
      hide Filled;
      hide FilledFrom;
      hide CanMapFresh;
      hide LeafOk;
      hide NoRun;
      ghost var m := M();
      ShapedOf(m);
      r := FillBlock(huge, src, block);
      if r.None? {
        return;
      }
      var f := r.value;
      FilledMaps(m, M(), t, i, f, Pte(true, huge, f, perm), src);
      IncRef(f);
      Store(t, i, Pte(true, huge, f, perm));
    }

    /** ptbl_merge */
    method PtblMerge(t: nat, i: nat, ghost lo: nat, ghost hi: nat) returns (ok: bool)
      requires Valid() && t in tables && i < 512 && home[t].level == 2 && InSlot(M(), t, i, lo, hi)
      modifies this, buddy, buddy.pages
      ensures Valid()
      ensures !ok ==> M() == old(M()) && NoRun(buddy.S(), HUGE) && FullTable(M(), t, i)
      ensures ok ==> Quiet(old(M()), M(), t, lo, hi)
      ensures !FullTable(old(M()), t, i) ==> ok && M() == old(M())
      ensures ok && FullTable(old(M()), t, i) ==>
        var e := M().tb[t][i]; e.present && e.huge && e.perm == TablePerm(old(M()), t, i)
    {
      hide MInv;
      hide Inv;
      hide Owned;
      hide OwnOk;
      hide Merged;
      ghost var m := M();
      ShapedOf(m);
      QuietSelf(m, t, lo, hi);
      ok := true;
      if !tables[t][i].present || tables[t][i].huge {
        return;
      }
      var pt := tables[t][i].frame;
      ChildUnder(m, t, i, lo, hi);
      var es := tables[pt];
      var x := 0;
      while x < 512
        invariant 0 <= x <= 512
        invariant forall y :: 0 <= y < x ==> es[y].present && es[y].perm == es[0].perm
      {
        if !es[x].present || es[x].perm != es[0].perm {
          return;
        }
        x := x + 1;
      }
      var page := MergePages(t, i, es);
      if page.None? {
        ok := false;
        return;
      }
      x := 0;
      while x < 512
        invariant 0 <= x <= 512 && Valid() && Merged(m, M(), t, i, page.value, x)
      {
        MergeNext(m, M(), t, i, page.value, x);
        MergedTables(m, M(), t, i, page.value, x);
        DecRef(es[x].frame);
        x := x + 1;
      }
      MergeEnd(m, M(), t, i, page.value, lo, hi);
      MergedTables(m, M(), t, i, page.value, 512);
      DecRef(pt);
      ShapedOf(M());
    }

    /** ptbl_merge, middle part: the pages are copied into a 2M page, which takes over the entry. */
    method MergePages(t: nat, i: nat, es: seq<Pte>) returns (page: Option<nat>)
      requires Valid() && FullTable(M(), t, i) && es == tables[tables[t][i].frame]
      modifies this, buddy, buddy.pages
      ensures Valid()
      ensures page.None? ==> M() == old(M()) && NoRun(buddy.S(), HUGE)
      ensures page.Some? ==> Merged(old(M()), M(), t, i, page.value, 0)
    {
      hide MInv;
      hide Inv;
      hide Owned;
      hide OwnOk;
      hide Merged;
      hide CanMergePages;
      hide NoRun;
      ghost var m := M();
      ShapedOf(m);
      page := MergeCopy(t, i, es);
      if page.None? {
        return;
      }
      var f := page.value;
      var e := Pte(true, true, f, es[0].perm);
      ghost var m' := MergePlan(m, t, i, f, data);
      IncRef(f);
      tables := SetEntry(tables, t, i, e) - {tables[t][i].frame};
      home, up, held := m'.home, m'.up, m'.held;
      MergedInv(m, m', t, i, f);
      assert M() == m';
    }

    /** ptbl_merge, first loop: the contents of the new 2M page. */
    method MergeCopy(t: nat, i: nat, es: seq<Pte>) returns (page: Option<nat>)
      requires Valid() && FullTable(M(), t, i) && es == tables[tables[t][i].frame]
      modifies this`data, buddy, buddy.pages
      ensures Valid()
      ensures page.None? ==> M() == old(M()) && NoRun(buddy.S(), HUGE)
      ensures page.Some? ==> CanMergePages(old(M()), t, i, page.value, data)
      ensures page.Some? ==> M() == old(M()).(own := old(M()).own[page.value := Own(HUGE, 0)], data := data)
    {
      hide MInv;
      hide Inv;
      hide Owned;
      hide OwnOk;
      hide NoRun;
      hide Zeroed;
      ghost var m := M();
      ShapedOf(m);
      page := AllocFrame(true);
      if page.None? {
        return;
      }
      var f := page.value;
      Pow2Huge();
      forall y | 0 <= y < 512 ensures es[y].frame < |m.data| && !(f <= es[y].frame < f + 512) {
        EntryApart(m, t, i, f, y);
      }
      CopyPages(es, f);
      AllocInv(m, f, HUGE, data);
    }

    /** memcpy of the pages of a table into the 512 frames from f on. */
    method CopyPages(es: seq<Pte>, f: nat)
      requires |es| == 512 && f + 512 <= |data|
      requires forall y :: 0 <= y < 512 ==> es[y].frame < |data| && !(f <= es[y].frame < f + 512)
      modifies this`data
      ensures |data| == |old(data)|
      ensures forall p :: 0 <= p < |data| && !(f <= p < f + 512) ==> data[p] == old(data)[p]
      ensures forall y :: 0 <= y < 512 ==> data[f + y] == old(data)[es[y].frame]
    {
      var x := 0;
      while x < 512
        invariant 0 <= x <= 512 && |data| == |old(data)|
        invariant forall p :: 0 <= p < |data| && !(f <= p < f + 512) ==> data[p] == old(data)[p]
        invariant forall y :: 0 <= y < x ==> data[f + y] == old(data)[es[y].frame]
      {
        data := data[f + x := data[es[x].frame]];
        x := x + 1;
      }
    }

    /** ptbl_free, at the end of a piece of an unmapping walk that began in state m0. */
    method PtblFree(t: nat, i: nat, ghost m0: Mem, ghost lo: nat, ghost hi: nat)
      requires Valid() && t in tables && i < 512 && InSlot(M(), t, i, lo, hi) && IsTable(home[t].level, tables[t][i])
      requires MInv(m0) && WalkedBut(Remove, m0, M(), t, lo, hi, {tables[t][i].frame})
      modifies this, buddy, buddy.pages
      ensures Valid() && Walked(Remove, m0, M(), t, lo, hi)
    {
      hide MInv;
      hide Inv;
      hide Owned;
      hide OwnOk;
      hide WalkedBut;
      ghost var m := M();
      ShapedOf(m);
      ChildUnder(m, t, i, lo, hi);
      var c := tables[t][i].frame;
      var x := 0;
      while x < 512
        invariant 0 <= x <= 512
        invariant forall y :: 0 <= y < x ==> !tables[c][y].present
      {
        if tables[c][x].present {
          NonEmptyWalked(m0, m, t, lo, hi, c);
          return;
        }
        x := x + 1;
      }
      FreeTable(m0, m, t, i, lo, hi);
      FreeTableInv(m, t, i);
      ghost var m' := Release(DropTable(m, t, i), c);
      buddy.PageDecref(c);
      tables := SetEntry(tables, t, i, ZERO_ENTRY) - {c};
      held := m'.held;
      assert M() == m';
    }

    // ---- The callbacks of remove.c, protect.c, populate.c and insert.c ------------------------

    /** remove_pte, protect_pte, populate_pte, insert_pte */
    method PteCallback(op: Op, t: nat, i: nat, v: nat) returns (ok: bool)
      requires Valid() && t in tables && i < 512 && home[t].level == 1 && v == home[t].base + i
      requires op.Insert? ==> InsertReady(op, M(), v, v + 1)
      modifies this, buddy, buddy.pages
      ensures Valid()
      ensures !ok ==> op.Populate? && NoRun(buddy.S(), 0)
      ensures ok ==> Walked(op, old(M()), M(), t, v, v + 1)
      ensures ok && op.Insert? ==> Lands(op, M(), old(home[t].root), v, v + 1)
    {
      hide Lands;
      hide MInv;
      hide Inv;
      hide OwnOk;
      hide WalkedBut;
      hide NoRun;
      ghost var m := M();
      ShapedOf(m);
      ok := true;
      match op {
        case Remove =>
          RemovePte(t, i, v);
        case Protect(perm) =>
          if tables[t][i].present {
            ProtectLeaf(m, t, i, perm, v, v + 1);
            if tables[t][i].perm == perm {
              ProtectSame(m, t, i, v, v + 1);
              return;
            }
            Store(t, i, tables[t][i].(perm := perm));
            WalkedInv(op, m, M(), t, v, v + 1);
          } else {
            AbsentWalked(op, m, t, i, v, v + 1);
          }
        case Populate(perm) =>
          ok := PopulateEntry(t, i, perm, false, v, v + 1);
        case Insert(frame, perm, _, _) =>
          PageOrder(buddy.S(), frame);
          if buddy.pages[frame].order != 0 {
            ok := false;
            return;
          }
          InsertEntry(op, t, i, Pte(true, false, frame, perm), v, v + 1);
      }
    }

    method RemovePte(t: nat, i: nat, ghost v: nat)
      requires Valid() && t in tables && i < 512 && home[t].level == 1 && v == home[t].base + i
      modifies this, buddy, buddy.pages
      ensures Valid() && Walked(Remove, old(M()), M(), t, v, v + 1)
    {
      hide MInv;
      hide Inv;
      hide Owned;
      hide OwnOk;
      hide WalkedBut;
      ghost var m := M();
      ShapedOf(m);
      if tables[t][i].present {
        var f := tables[t][i].frame;
        RemoveLeaf(m, t, i, v, v + 1);
        ghost var m' := Release(Swap(m, t, i, ZERO_ENTRY), f);
        buddy.PageDecref(f);
        tables := SetEntry(tables, t, i, ZERO_ENTRY);
        held := m'.held;
        assert M() == m';
        WalkedInv(Remove, m, m', t, v, v + 1);
      } else {
        AbsentWalked(Remove, m, t, i, v, v + 1);
      }
    }

    /** The common part of populate_pte and populate_pde for entries that are not tables. */
    method PopulateEntry(t: nat, i: nat, perm: Perm, huge: bool, ghost lo: nat, ghost hi: nat) returns (ok: bool)
      requires Valid() && t in tables && i < 512 && home[t].level <= 2 && (huge <==> home[t].level == 2)
      requires !IsTable(home[t].level, tables[t][i]) && InSlot(M(), t, i, lo, hi)
      requires !tables[t][i].present ==> WholeSlot(M(), t, i, lo, hi)
      modifies this, buddy, buddy.pages
      ensures Valid()
      ensures !ok ==> NoRun(buddy.S(), OrderOf(huge))
      ensures ok ==> Walked(Populate(perm), old(M()), M(), t, lo, hi)
      ensures ok ==> Shaped(M()) && t in tables && !IsTable(old(home[t].level), tables[t][i])
      ensures ok && SharedEntry(old(M()), t, i) ==> tables[t][i].present && tables[t][i].perm == perm
    {
      hide MInv;
      hide Inv;
      hide OwnOk;
      hide WalkedBut;
      hide MapFresh;
      ghost var m := M();
      ShapedOf(m);
      ok := true;
      if tables[t][i].present {
        LeafFacts(m, t, i);
        var f := tables[t][i].frame;
        if buddy.pages[f].ref > 1 {
          hide Owned;
          var page := MapBlock(t, i, huge, perm, Some(f), f);
          if page.None? {
            ok := false;
            return;
          }
          PopulateShared(m, t, i, page.value, OrderOf(huge), Pte(true, huge, page.value, perm), data, lo, hi);
          SharedFacts(m, M(), t, i, page.value, OrderOf(huge), Pte(true, huge, page.value, perm), data);
          DecRef(f);
        } else {
          PopulatePrivate(perm, m, t, i, lo, hi);
        }
      } else {
        hide Owned;
        var page := MapBlock(t, i, huge, perm, None, 0);
        if page.None? {
          ok := false;
          return;
        }
        PopulateAbsent(m, t, i, page.value, OrderOf(huge), Pte(true, huge, page.value, perm), data, lo, hi);
        SharedFacts(m, M(), t, i, page.value, OrderOf(huge), Pte(true, huge, page.value, perm), data);
      }
      ShapedOf(M());
    }

    /** insert_pte, and insert_pde for a 2M page: pp_ref++, page_decref of the old page, new entry. */
    method InsertEntry(ghost op: Op, t: nat, i: nat, e: Pte, ghost lo: nat, ghost hi: nat)
      requires Valid() && CanInsert(M(), t, i, e) && WholeSlot(M(), t, i, lo, hi)
      requires InsertReady(op, M(), lo, hi) && op.frame == e.frame && op.perm == e.perm
      modifies this, buddy, buddy.pages
      ensures Valid() && Walked(op, old(M()), M(), t, lo, hi)
      ensures Shaped(M()) && t in tables && !IsTable(old(home[t].level), tables[t][i])
      ensures Lands(op, M(), old(home[t].root), lo, hi)
    {
      hide MInv;
      hide Inv;
      hide Owned;
      hide OwnOk;
      hide WalkedBut;
      hide Lands;
      ghost var m := M();
      CanInsertFacts(m, t, i, e);
      IncRef(e.frame);
      ghost var m2 := Swap(Take(m, e.frame), t, i, e);
      if tables[t][i].present {
        var f := tables[t][i].frame;
        buddy.PageDecref(f);
        held := Release(m2, f).held;
      } else {
        held := m2.held;
      }
      tables := SetEntry(tables, t, i, e);
      assert Inserted(m, M(), t, i, e);
      InsertEnds(op, m, M(), t, i, e, lo, hi);
    }

    /** remove_pde, protect_pde, populate_pde, insert_pde. Afterwards either the entry points to
        a table and every page still looks the same, or the 2M under the entry are done. */
    method PdeCallback(op: Op, first: nat, last: nat, t: nat, i: nat, lo: nat, hi: nat) returns (ok: bool)
      requires Valid() && t in tables && i < 512 && home[t].level == 2 && InSlot(M(), t, i, lo, hi)
      requires Clipped(first, last, home[t].base + i * 512, 512, lo, hi)
      requires op.Insert? ==> InsertReady(op, M(), lo, hi) && Clear(tables, t, 2, lo, |op.bytes| == 512)
      modifies this, buddy, buddy.pages
      ensures Valid()
      ensures !ok ==> Starved(op, first, last, SharedIn(old(M()), old(home[t].root), lo, hi), buddy.S())
      ensures ok ==>
                EntryReady(op, old(M()), M(), t, i, lo, hi) && Renewed(op, old(M()), M(), old(home[t].root), lo, hi)
      ensures ok && op.Populate? && SharedHuge(old(M()), old(home[t].root), lo) ==> !IsTable(2, tables[t][i])
      ensures ok && op.Insert? && !IsTable(2, tables[t][i]) ==> Lands(op, M(), old(home[t].root), lo, hi)
    {
      hide Lands;
      hide MInv;
      hide Inv;
      hide OwnOk;
      hide WalkedBut;
      hide Quiet;
      hide NoRun;
      ghost var m := M();
      ShapedOf(m);
      QuietSelf(m, t, lo, hi);
      ok := true;
      var e := tables[t][i];
      var start := (lo / 512) * 512;
      StartOf(m, t, i, lo, hi);
      match op {
        case Remove =>
          ok := RemovePde(first, last, t, i, start, lo, hi);
        case Protect(perm) =>
          ok := ProtectPde(first, last, t, i, perm, start, lo, hi);
        case Populate(perm) =>
          ok := PopulatePde(first, last, t, i, perm, start, lo, hi);
        case Insert(frame, perm, _, bytes) =>
          if |bytes| == 512 {
            InsertEntry(op, t, i, Pte(true, true, frame, perm), lo, hi);
          } else {
            ok := PtblAlloc(t, i, lo, hi);
            if ok && !e.present { AddedReady(op, m, M(), t, i, lo, hi, 1); }
          }
      }
      ShapedOf(M());
    }

    method RemovePde(first: nat, last: nat, t: nat, i: nat, start: nat, ghost lo: nat, ghost hi: nat) returns (ok: bool)
      requires Valid() && t in tables && i < 512 && home[t].level == 2 && InSlot(M(), t, i, lo, hi)
      requires start == home[t].base + i * 512 && start % 512 == 0 && Clipped(first, last, start, 512, lo, hi)
      modifies this, buddy, buddy.pages
      ensures Valid()
      ensures !ok ==> Starved(Remove, first, last, false, buddy.S())
      ensures ok ==> EntryReady(Remove, old(M()), M(), t, i, lo, hi)
    {
      hide MInv;
      hide Inv;
      hide Owned;
      hide OwnOk;
      hide WalkedBut;
      hide Quiet;
      hide NoRun;
      ghost var m := M();
      ShapedOf(m);
      QuietSelf(m, t, lo, hi);
      CutsSlot(first, last, start, lo, hi);
      ok := true;
      var e := tables[t][i];
      if e.present && e.huge {
        if first > start || last < start + 512 {
          ok := PtblSplit(t, i, lo, hi);
        } else {
          RemoveHuge(t, i, lo, hi);
        }
      } else if !e.present {
        AbsentWalked(Remove, m, t, i, lo, hi);
      }
      ShapedOf(M());
    }

    method ProtectPde(first: nat, last: nat, t: nat, i: nat, perm: Perm, start: nat, ghost lo: nat, ghost hi: nat)
      returns (ok: bool)
      requires Valid() && t in tables && i < 512 && home[t].level == 2 && InSlot(M(), t, i, lo, hi)
      requires start == home[t].base + i * 512 && start % 512 == 0 && Clipped(first, last, start, 512, lo, hi)
      modifies this, buddy, buddy.pages
      ensures Valid()
      ensures !ok ==> Starved(Protect(perm), first, last, false, buddy.S())
      ensures ok ==> EntryReady(Protect(perm), old(M()), M(), t, i, lo, hi)
    {
      hide MInv;
      hide Inv;
      hide Owned;
      hide OwnOk;
      hide WalkedBut;
      hide Quiet;
      hide NoRun;
      ghost var m := M();
      ShapedOf(m);
      QuietSelf(m, t, lo, hi);
      CutsSlot(first, last, start, lo, hi);
      ok := true;
      var e := tables[t][i];
      if e.present && e.huge {
        if start == first && start + 512 == last {
          if e.perm == perm {
            ProtectSame(m, t, i, lo, hi);
            return;
          }
          ProtectLeaf(m, t, i, perm, lo, hi);
          Store(t, i, e.(perm := perm));
          WalkedInv(Protect(perm), m, M(), t, lo, hi);
        } else {
          ok := PtblSplit(t, i, lo, hi);
        }
      } else if !e.present {
        AbsentWalked(Protect(perm), m, t, i, lo, hi);
      }
      ShapedOf(M());
    }

    method RemoveHuge(t: nat, i: nat, ghost lo: nat, ghost hi: nat)
      requires Valid() && t in tables && i < 512 && home[t].level == 2 && WholeSlot(M(), t, i, lo, hi)
      requires tables[t][i].present && tables[t][i].huge
      modifies this, buddy, buddy.pages
      ensures Valid() && Walked(Remove, old(M()), M(), t, lo, hi)
      ensures Shaped(M()) && t in tables && !tables[t][i].present
    {
      hide MInv;
      hide Inv;
      hide Owned;
      hide OwnOk;
      hide WalkedBut;
      ghost var m := M();
      ShapedOf(m);
      var page := tables[t][i].frame;
      LeafFacts(m, t, i);
      RemoveLeaf(m, t, i, lo, hi);
      Store(t, i, ZERO_ENTRY);
      DecRef(page);
      ShapedOf(M());
    }

    method PopulatePde(first: nat, last: nat, t: nat, i: nat, perm: Perm, start: nat, ghost lo: nat,
                       ghost hi: nat) returns (ok: bool)
      requires Valid() && t in tables && i < 512 && home[t].level == 2 && InSlot(M(), t, i, lo, hi)
      requires start == home[t].base + i * 512 && start % 512 == 0 && Clipped(first, last, start, 512, lo, hi)
      modifies this, buddy, buddy.pages
      ensures Valid()
      ensures !ok ==> Starved(Populate(perm), first, last, SharedIn(old(M()), old(home[t].root), lo, hi), buddy.S())
      ensures ok ==> EntryReady(Populate(perm), old(M()), M(), t, i, lo, hi)
      ensures ok ==> Renewed(Populate(perm), old(M()), M(), old(home[t].root), lo, hi)
      ensures ok && SharedHuge(old(M()), old(home[t].root), lo) ==> !IsTable(2, tables[t][i])
    {
      hide MInv;
      hide Inv;
      hide OwnOk;
      hide WalkedBut;
      hide Quiet;
      hide NoRun;
      hide SharedHuge;
      ghost var m := M();
      ShapedOf(m);
      QuietSelf(m, t, lo, hi);
      ok := true;
      var e := tables[t][i];
      InSlotCovers(m, t, i, lo, hi, lo);
      HugeEntry(m, t, i, lo);
      if e.present { EntryRef(m, t, i); }
      HoldsWhole(first, last, start);
      if e.present && e.huge && buddy.pages[e.frame].ref > 1 {
        ok := PopulateEntry(t, i, perm, true, lo, hi);
        if ok {
          WalkedHome(Populate(perm), m, M(), t, lo, hi);
          RenewedEntry(Populate(perm), m, M(), t, i, lo, hi);
        }
      } else if e.present && buddy.pages[e.frame].ref == 1 {
        if e.huge { PopulatePrivate(perm, m, t, i, lo, hi); }
      } else if first <= start && last >= start + 512 {
        ok := PopulateEntry(t, i, perm, true, lo, hi);
      } else {
        ok := PtblSplit(t, i, lo, hi);
      }
      ShapedOf(M());
    }

    // ---- The walkers of walk.c ---------------------------------------------------------------

    /** One turn of a walker's loop: the callback for the entry, the walk of the table under it,
        and ptbl_free or ptbl_merge afterwards. */
    method WalkEntry(op: Op, first: nat, last: nat, t: nat, level: nat, i: nat, lo: nat, hi: nat)
      returns (ok: bool, unmerged: bool)
      requires Valid() && t in tables && i < 512 && home[t].level == level && InSlot(M(), t, i, lo, hi)
               && i == Index(level, lo)
      requires Clipped(first, last, home[t].base + i * Span(level), Span(level), lo, hi)
      requires op.Insert? ==> InsertReady(op, M(), lo, hi) && Clear(tables, t, level, lo, |op.bytes| == 512)
      requires op.Insert? && level == 1 ==> |op.bytes| == 1
      modifies this, buddy, buddy.pages
      ensures Valid()
      ensures WalkFailed(op, level, first, last, SharedIn(old(M()), old(home[t].root), lo, hi), ok, unmerged, buddy.S())
      ensures ok || (unmerged && OneSlot(2, lo, hi)) ==>
                Walked(op, old(M()), M(), t, lo, hi) && Renewed(op, old(M()), M(), old(home[t].root), lo, hi)
      ensures level >= 2 ==> Merges(op, ok, unmerged, M(), old(home[t].root), lo, hi)
      ensures op.Insert? && (ok || unmerged) ==> Lands(op, M(), old(home[t].root), lo, hi)
      decreases level, 1
    {
      hide MInv;
      hide Inv;
      hide Owned;
      hide OwnOk;
      hide WalkedBut;
      hide Quiet;
      hide NoRun;
      hide Renewed;
      hide SharedHuge;
      hide SharedIn;
      hide Lands;
      ghost var m := M();
      ShapedOf(m);
      InSlotCovers(m, t, i, lo, hi, lo);
      unmerged := false;
      if level == 1 {
        ok := PteCallback(op, t, i, lo);
        SmallRenewed(op, m, M(), t, lo, hi);
        return;
      }
      if level == 2 {
        ok := PdeCallback(op, first, last, t, i, lo, hi);
      } else {
        ok := UpperCallback(op, t, level, i, lo, hi);
      }
      SharedPath(m, t, i, lo);
      if ok && IsTable(level, tables[t][i]) { QuietHome(m, M(), t, lo, hi); }
      if ok && IsTable(level, tables[t][i]) {
        ghost var m1 := M();
        ok, unmerged := WalkUnder(op, first, last, t, level, i, lo, hi, m);
        if ok || (unmerged && OneSlot(2, lo, hi)) { RenewedFrom(op, m, m1, M(), m.home[t].root, lo, hi); }
      } else if ok && level > 2 {
        RenewedFrom(op, m, m, M(), m.home[t].root, lo, hi);
      } else if ok {
        WalkedHome(op, m, M(), t, lo, hi);
        CompactLeaf(M(), t, i, lo, hi);
      }
    }

    /** The walk of the table under an entry, after a callback that left all pages as in state m. */
    method WalkUnder(op: Op, first: nat, last: nat, t: nat, level: nat, i: nat, lo: nat, hi: nat, ghost m: Mem)
      returns (ok: bool, unmerged: bool)
      requires Valid() && t in tables && i < 512 && home[t].level == level >= 2 && InSlot(M(), t, i, lo, hi)
               && IsTable(level, tables[t][i])
      requires MInv(m) && Shaped(m) && t in m.tb && Quiet(m, M(), t, lo, hi) && NoneGone(m, M())
      requires Clipped(first, last, home[t].base + i * Span(level), Span(level), lo, hi)
      requires op.Insert? ==>
                 InsertReady(op, M(), lo, hi) && Clear(tables, tables[t][i].frame, level - 1, lo, |op.bytes| == 512)
      requires op.Insert? ==> op.frame in m.own && (|op.bytes| == 512 ==> level > 2)
      modifies this, buddy, buddy.pages
      ensures Valid()
      ensures WalkFailed(op, level, first, last, SharedIn(m, old(home[t].root), lo, hi), ok, unmerged, buddy.S())
      ensures ok || (unmerged && OneSlot(2, lo, hi)) ==> Walked(op, m, M(), t, lo, hi)
      ensures ok || (unmerged && OneSlot(2, lo, hi)) ==> Renewed(op, old(M()), M(), old(home[t].root), lo, hi)
      ensures Merges(op, ok, unmerged, M(), old(home[t].root), lo, hi)
      ensures op.Insert? && (ok || unmerged) ==> Lands(op, M(), old(home[t].root), lo, hi)
      decreases level, 0
    {
      hide MInv;
      hide Inv;
      hide Owned;
      hide OwnOk;
      hide WalkedBut;
      hide Quiet;
      hide Clear;
      ghost var m1 := M();
      hide SharedIn;
      hide SharedHuge;
      hide Lands;
      hide NoneGone;
      QuietHome(m, m1, t, lo, hi);
      QuietShared(m, m1, t, lo, hi);
      hide FullTable;
      hide Compact;
      hide Unmerged;
      hide NoRun;
      hide Renewed;
      var c := tables[t][i].frame;
      ChildUnder(m1, t, i, lo, hi);
      ChildClip(m1, t, i, level, first, last, lo, hi);
      if op.Insert? { InsertOneSlot(op, m1, level - 1, lo, hi); }
      ok, unmerged := Walk(op, first, last, c, level - 1, lo, hi);
      if !ok && !(unmerged && OneSlot(2, lo, hi)) {
        return;
      }
      WalkedBelow(op, m, m1, M(), t, i, lo, hi);
      if op.Remove? {
        PtblFree(t, i, m, lo, hi);
      } else if level == 2 && !op.Protect? {
        ok := MergeUnder(op, t, i, lo, hi, m);
        unmerged := !ok;
      }
      if level == 2 || !op.Populate? { SmallRenewed(op, m1, M(), c, lo, hi); }
    }

    /** ptbl_merge after the walk of the table under an entry, which began in state m. */
    method MergeUnder(ghost op: Op, t: nat, i: nat, ghost lo: nat, ghost hi: nat, ghost m: Mem) returns (ok: bool)
      requires Valid() && t in tables && i < 512 && home[t].level == 2 && InSlot(M(), t, i, lo, hi)
      requires MInv(m) && t in m.tb && Walked(op, m, M(), t, lo, hi) && (op.Insert? || op.Populate?)
      requires op.Insert? ==> |op.bytes| == 1 && Lands(op, M(), home[t].root, lo, hi)
      modifies this, buddy, buddy.pages
      ensures Valid() && Walked(op, m, M(), t, lo, hi)
      ensures !ok ==> NoRun(buddy.S(), HUGE)
      ensures Merges(op, ok, !ok, M(), old(home[t].root), lo, hi)
      ensures op.Insert? ==> Lands(op, M(), old(home[t].root), lo, hi)
    {
      hide Lands;
      hide MInv;
      hide Inv;
      hide Owned;
      hide OwnOk;
      hide WalkedBut;
      hide Quiet;
      hide NoRun;
      hide FullTable;
      hide Merges;
      ghost var m2 := M();
      ok := PtblMerge(t, i, lo, hi);
      MergesPiece(m2, M(), op, t, i, lo, hi, ok);
      if ok && FullTable(m2, t, i) {
        QuietHome(m2, M(), t, lo, hi);
        if op.Insert? { LandsLeaf(op, M(), t, i, lo, hi); }
      }
      if ok { WalkedQuiet(op, m, m2, M(), t, lo, hi, {}); }
    }

    /** The pdpte and pml4e callbacks: ptbl_alloc for insertions, nothing for removals. */
    method UpperCallback(op: Op, t: nat, level: nat, i: nat, ghost lo: nat, ghost hi: nat) returns (ok: bool)
      requires Valid() && t in tables && i < 512 && home[t].level == level >= 3 && InSlot(M(), t, i, lo, hi)
               && i == Index(level, lo)
      requires op.Insert? ==> InsertReady(op, M(), lo, hi) && Clear(tables, t, level, lo, |op.bytes| == 512)
      modifies this, buddy, buddy.pages
      ensures Valid()
      ensures !ok ==> (op.Insert? || op.Populate?) && NoRun(buddy.S(), 0)
      ensures ok ==> EntryReady(op, old(M()), M(), t, i, lo, hi)
      ensures ok && (op.Insert? || op.Populate?) ==> IsTable(level, tables[t][i])
      ensures old(tables[t][i].present) ==> M() == old(M())
    {
      hide MInv;
      hide Inv;
      hide Owned;
      hide OwnOk;
      hide WalkedBut;
      hide Quiet;
      hide NoRun;
      ghost var m := M();
      ShapedOf(m);
      QuietSelf(m, t, lo, hi);
      ok := true;
      if op.Insert? || op.Populate? {
        ok := PtblAlloc(t, i, lo, hi);
        ShapedOf(M());
        if ok && op.Insert? && !m.tb[t][i].present { AddedReady(op, m, M(), t, i, lo, hi, level - 1); }
      } else if !tables[t][i].present {
        AbsentWalked(op, m, t, i, lo, hi);
      }
    }

    /** ptbl_walk_range, pdir_walk_range, pdpt_walk_range and pml4_walk_range, by level. */
    method Walk(op: Op, first: nat, last: nat, t: nat, level: nat, lo: nat, hi: nat)
      returns (ok: bool, unmerged: bool)
      requires Valid() && t in tables && home[t].level == level && lo < hi
      requires Clipped(first, last, home[t].base, Span(level + 1), lo, hi) && home[t].base <= lo
               && hi <= home[t].base + Span(level + 1)
      requires op.Insert? ==> InsertReady(op, M(), lo, hi) && Clear(tables, t, level, lo, |op.bytes| == 512)
      requires op.Insert? ==> level >= (if |op.bytes| == 512 then 2 else 1) && OneSlot(level, lo, hi)
      modifies this, buddy, buddy.pages
      ensures Valid()
      ensures WalkFailed(op, level, first, last, SharedIn(old(M()), old(home[t].root), lo, hi), ok, unmerged, buddy.S())
      ensures ok || (unmerged && OneSlot(2, lo, hi)) ==>
                Walked(op, old(M()), M(), t, lo, hi) && Renewed(op, old(M()), M(), old(home[t].root), lo, hi)
      ensures level >= 2 ==> Merges(op, ok, unmerged, M(), old(home[t].root), lo, hi)
      ensures op.Insert? && (ok || unmerged) ==> Lands(op, M(), old(home[t].root), lo, hi)
      decreases level, 2
    {
      hide MInv;
      hide Inv;
      hide Owned;
      hide OwnOk;
      hide WalkedBut;
      hide NoRun;
      hide Renewed;
      hide SharedIn;
      hide Lands;
      ghost var m := M();
      ShapedOf(m);
      ghost var h := home[t];
      WalkedNothing(op, m, t, lo);
      var base := lo;
      ok, unmerged := true, false;
      while base < hi
        invariant ok && !unmerged && lo <= base <= hi && Valid() && Shaped(M()) && t in tables && home[t] == h
        invariant Walked(op, m, M(), t, lo, base)
        invariant level >= 2 ==> Merges(op, true, false, M(), h.root, lo, base)
        invariant base == lo || base == hi || SlotEnd(level, base - 1) == base
        invariant op.Insert? && base < hi ==> base == lo && M() == m
        invariant op.Insert? && base == hi ==> Lands(op, M(), h.root, lo, hi)
        invariant base == lo ==> M() == m
        invariant OneSlot(2, lo, hi) && level >= 2 && base > lo ==> base == hi && Renewed(op, m, M(), h.root, lo, hi)
      {
        var next := SlotEnd(level, base);
        if hi < next {
          next := hi;
        }
        ghost var m1 := M();
        PieceOf(m1, t, level, first, last, lo, hi, base, next);
        if level >= 2 { OneSlotUp(level, lo, hi); }
        PieceShared(op, m, m1, t, lo, base, next, hi);
        ok, unmerged := WalkEntry(op, first, last, t, level, Index(level, base), base, next);
        if !ok {
          if unmerged && level >= 2 { UnmergedMore(M(), h.root, base, next, lo, hi); }
          return;
        }
        WalkedTrans(op, m, m1, M(), t, lo, base, next);
        WalkedHome(op, m1, M(), t, base, next);
        if level >= 2 { MergesOn(op, m1, M(), t, level, lo, base, next); }
        base := next;
      }
      WideRenewed(op, m, M(), t, level, lo, hi);
    }

    // ---- Whole operations ---------------------------------------------------------------------

    /** task_setup_vas: an address space with nothing mapped in its user half. */
    method NewSpace() returns (r: Option<nat>)
      requires Valid()
      modifies this, buddy, buddy.pages
      ensures Valid()
      ensures r.None? ==> M() == old(M()) && NoRun(buddy.S(), 0)
      ensures r.Some? ==> r.value !in old(tables) && IsRoot(M(), r.value) && Opened(old(M()), M(), r.value)
    {
      hide MInv;
      hide Inv;
      hide Owned;
      hide OwnOk;
      hide View;
      ghost var m := M();
      r := AllocFrame(false);
      if r.None? {
        return;
      }
      var f := r.value;
      ghost var data' := data;
      RefsOwned(m, f);
      IncRef(f);
      AddRootInv(m, M(), f, data');
      tables := tables[f := ZeroTable()];
      home := home[f := Home(f, 4, 0)];
      assert M() == AddRoot(m, f, data');
    }

    /** unmap_page_range of the n pages from va on. */
    method UnmapPageRange(r: nat, va: nat, n: nat) returns (ok: bool)
      requires Valid() && IsRoot(M(), r) && va + n <= USER_PAGES && (va > 0 || n > 0)
      modifies this, buddy, buddy.pages
      ensures Valid()
      ensures !ok ==> NoRun(buddy.S(), 0) && (va % 512 != 0 || (va + n) % 512 != 0)
      ensures n == 0 ==> ok && M() == old(M())
      ensures ok ==> Walked(Remove, old(M()), M(), r, va, va + n)
    {
      hide NoRun;
      var unmerged;
      ok, unmerged := WalkPageRange(Remove, r, va, n);
    }

    /** protect_region of the n pages from va on. */
    method ProtectRegion(r: nat, va: nat, n: nat, perm: Perm) returns (ok: bool)
      requires Valid() && IsRoot(M(), r) && va + n <= USER_PAGES && (va > 0 || n > 0)
      modifies this, buddy, buddy.pages
      ensures Valid()
      ensures !ok ==> NoRun(buddy.S(), 0) && !(va % 512 == 0 && n == 512)
      ensures ok ==> Walked(Protect(perm), old(M()), M(), r, va, va + n)
    {
      hide NoRun;
      var unmerged;
      ok, unmerged := WalkPageRange(Protect(perm), r, va, n);
    }

    /** populate_region of the n pages from va on; with PAGE_HUGE set, va must be 2M-aligned. */
    method PopulateRegion(r: nat, va: nat, n: nat, perm: Perm, huge: bool) returns (ok: bool, unmerged: bool)
      requires Valid() && IsRoot(M(), r) && va + n <= USER_PAGES && (va > 0 || n > 0)
      modifies this, buddy, buddy.pages
      ensures Valid()
      ensures huge && va % 512 != 0 ==> !ok && !unmerged && M() == old(M())
      ensures !ok && !unmerged && !(huge && va % 512 != 0) ==>
                Starved(Populate(perm), va, va + n, SharedIn(old(M()), r, va, va + n), buddy.S())
      ensures unmerged ==> !ok && NoRun(buddy.S(), HUGE)
      ensures ok || (unmerged && OneSlot(2, va, va + n)) ==> Walked(Populate(perm), old(M()), M(), r, va, va + n)
      ensures n > 0 && (ok || (unmerged && OneSlot(2, va, va + n))) ==>
                Renewed(Populate(perm), old(M()), M(), r, va, va + n)
      ensures Merges(Populate(perm), ok, unmerged, M(), r, va, va + n)
    {
      hide NoRun;
      hide Renewed;
      hide WalkedBut;
      hide SharedIn;
      if huge && va % 512 != 0 {
        return false, false;
      }
      ok, unmerged := WalkPageRange(Populate(perm), r, va, n);
    }

    /** page_insert. A misaligned 2M page is refused. */
    method PageInsert(r: nat, page: nat, va: nat, perm: Perm) returns (ok: bool, unmerged: bool)
      requires Valid() && IsRoot(M(), r) && page in M().own && page !in tables && M().own[page].order in {0, HUGE}
      requires M().own[page].order == 0 || va % 512 == 0 ==>
        va + Pow2(M().own[page].order) <= USER_PAGES && Clear(tables, r, 4, va, M().own[page].order == HUGE)
      modifies this, buddy, buddy.pages
      ensures Valid()
      ensures old(M()).own[page].order == HUGE && va % 512 != 0 ==> !ok && !unmerged && M() == old(M())
      ensures !ok && !unmerged ==> NoRun(buddy.S(), 0) || (old(M()).own[page].order == HUGE && va % 512 != 0)
      ensures unmerged ==> !ok && NoRun(buddy.S(), HUGE)
      ensures ok || unmerged ==> var n := Pow2(old(M()).own[page].order);
        page + n <= |old(data)|
          && Walked(Insert(page, perm, va, old(data)[page..page + n]), old(M()), M(), r, va, va + n)
      ensures ok || unmerged ==>
                Behind(tables, r, va, va + Pow2(old(M()).own[page].order), page, old(M()).own[page].order == 0)
      ensures ok ==> Compact(M(), r, va, va + Pow2(old(M()).own[page].order))
      ensures unmerged ==> Unmerged(M(), r, va, va + Pow2(old(M()).own[page].order))
    {
      hide MInv;
      hide Inv;
      hide OwnOk;
      hide WalkedBut;
      hide NoRun;
      ghost var m := M();
      InsertSize(m, page);
      var huge := buddy.pages[page].order == HUGE;
      PageOrder(buddy.S(), page);
      if huge && va % 512 != 0 {
        return false, false;
      }
      hide Owned;
      var size := if huge then 512 else 1;
      var op := Insert(page, perm, va, data[page..page + size]);
      InsertOneSlot(op, m, 2, va, va + size);
      ok, unmerged := WalkPageRange(op, r, va, size);
    }

    /** walk_page_range over page-aligned bounds. */
    method WalkPageRange(op: Op, r: nat, va: nat, n: nat) returns (ok: bool, unmerged: bool)
      requires Valid() && IsRoot(M(), r) && va + n <= USER_PAGES
      requires op.Insert? ==> n > 0 && InsertReady(op, M(), va, va + n) && Clear(tables, r, 4, va, |op.bytes| == 512)
      modifies this, buddy, buddy.pages
      ensures Valid()
      ensures WalkFailed(op, 4, va, va + n, SharedIn(old(M()), r, va, va + n), ok, unmerged, buddy.S())
      ensures n == 0 ==> ok && M() == old(M())
      ensures ok || (unmerged && OneSlot(2, va, va + n)) ==> Walked(op, old(M()), M(), r, va, va + n)
      ensures n > 0 && (ok || (unmerged && OneSlot(2, va, va + n))) ==> Renewed(op, old(M()), M(), r, va, va + n)
      ensures Merges(op, ok, unmerged, M(), r, va, va + n)
      ensures op.Insert? && (ok || unmerged) ==> Lands(op, M(), r, va, va + n)
    {
      hide Lands;
      hide MInv;
      hide Inv;
      hide Owned;
      hide OwnOk;
      hide WalkedBut;
      hide NoRun;
      hide Renewed;
      RootHome(M(), r);
      if n == 0 {
        WalkedNothing(op, M(), r, va);
        return true, false;
      }
      if op.Insert? { InsertOneSlot(op, M(), 4, va, va + n); }
      ok, unmerged := Walk(op, va, va + n, r, 4, va, va + n);
    }

    /** page_lookup: the entry that maps page v, if any. */
    method PageLookup(r: nat, v: nat) returns (entry: Option<(nat, nat)>)
      requires Valid() && IsRoot(M(), r) && v < USER_PAGES
      ensures entry.None? <==> View(M(), r, v).None?
      ensures entry.Some? ==> var (t, i) := entry.value;
        && t in tables && t in home && i < |tables[t]| && home[t].root == r && SlotCovers(M(), t, i, v)
        && tables[t][i].present && !IsTable(home[t].level, tables[t][i])
        && View(M(), r, v).value.perm == tables[t][i].perm
    {
      hide MInv;
      hide View;
      ghost var m := M();
      RootHome(m, r);
      var t, level := r, 4;
      while level > 0
        invariant 0 <= level <= 4 && t in tables && t in home && |tables[t]| == 512
        invariant level > 0 ==> home[t].level == level && home[t].root == r && Covers(home[t], v)
        invariant level > 0
        decreases level
      {
        ShapedOf(m);
        var i := Index(level, v);
        if !IsTable(level, tables[t][i]) {
          LeafView(m, t, i, v);
          return if tables[t][i].present then Some((t, i)) else None;
        }
        SlotOfChild(m, t, i, v);
        t, level := tables[t][i].frame, level - 1;
      }
      entry := None;
    }

    /** A store by the processor to a byte of frame f. */
    method Poke(f: nat, off: nat, byte: bv8)
      requires Valid() && f < |data| && off < |data[f]|
      modifies this`data
      ensures Valid() && M() == old(M()).(data := old(data)[f := old(data)[f][off := byte]])
    {
      hide MInv;
      ghost var m := M();
      data := data[f := data[f][off := byte]];
      DataInv(m, data);
    }

    /** Not a kernel function: states that ptbl_merge undoes ptbl_split. */
    method SplitThenMerge(t: nat, i: nat, ghost lo: nat, ghost hi: nat) returns (ok: bool)
      requires Valid() && CanSplitPage(M(), t, i) && InSlot(M(), t, i, lo, hi)
      modifies this, buddy, buddy.pages
      ensures Valid()
      ensures !ok ==> NoRun(buddy.S(), HUGE)
      ensures ok ==> SameViews(old(M()), M()) && t in tables && i < |tables[t]|
      ensures ok ==> tables[t][i].present && tables[t][i].huge && tables[t][i].perm == old(tables[t][i].perm)
    {
      hide MInv;
      hide Inv;
      hide Owned;
      hide OwnOk;
      hide View;
      ghost var m := M();
      ShapedOf(m);
      ok := PtblSplit(t, i, lo, hi);
      if ok {
        ghost var m1 := M();
        ok := PtblMerge(t, i, lo, hi);
        ShapedOf(M());
      } else {
        NoPageNoRun(buddy.S(), HUGE);
      }
    }
  }

  lemma DataInv(m: Mem, data': seq<Bytes>)
    requires MInv(m) && |data'| == |m.data|
    ensures MInv(m.(data := data'))
  {
    var m' := m.(data := data');
    forall t | t in m.tb ensures TableOk(m', t) { assert TableOk(m, t); }
    forall t, i: nat | t in m.tb && i < 512 ensures SlotOk(m', t, i) { assert SlotOk(m, t, i); }
    forall f | f in m.own ensures RefOk(m', f) { assert RefOk(m, f); }
  }

  function AddRoot(m: Mem, f: nat, data': seq<Bytes>): Mem {
    m.(tb := m.tb[f := ZeroTable()], home := m.home[f := Home(f, 4, 0)], own := m.own[f := Own(0, 1)],
       held := m.held[f := Held(m, f) + 1], data := data')
  }

  /** A new address space r with nothing in it; the others look the same. */
  ghost predicate Opened(m: Mem, m': Mem, r: nat) {
    && (forall v: nat :: View(m', r, v).None?)
    && (forall c :: c in m'.tb && c != r ==> c in m'.home && m'.home[c].root != r)
    && (forall q :: IsRoot(m, q) ==> IsRoot(m', q)) && SameGuards(m, m')
    && (forall q, v: nat {:trigger View(m', q, v)} :: IsRoot(m, q) && v < Span(5) ==> View(m', q, v) == View(m, q, v))
  }

  /** A page of another address space. */
  lemma AddRootPage(m: Mem, f: nat, data': seq<Bytes>, q: nat, v: nat)
    requires MInv(m) && f !in m.own && f !in m.tb && |data'| == |m.data| && IsRoot(m, q) && v < Span(5)
             && MInv(AddRoot(m, f, data'))
    requires OwnOk(m.(own := m.own[f := Own(0, 0)]))
    requires forall p :: 0 <= p < |m.data| && !(f <= p < f + Pow2(0)) ==> data'[p] == m.data[p]
    ensures var m' := AddRoot(m, f, data'); View(m', q, v) == View(m, q, v) && SameGuard(m, m', q, v)
  {
    hide MInv;
    hide OwnOk;
    hide SameFor;
    hide Find;
    var m' := AddRoot(m, f, data');
    FreshUnseen(m, f, 0, data', q, v);
    AddRootSame(m, f, q, v);
    FindFrame(m, m'.tb, q, v);
    SameSpot(m, m', q, v);
  }

  lemma AddRootInv(m: Mem, m1: Mem, f: nat, data': seq<Bytes>)
    requires MInv(m) && f !in m.own && f !in m.tb && Refs(m.tb, f) == {} && |data'| == |m.data|
    requires m1 == Take(m.(own := m.own[f := Own(0, 0)], data := data'), f) && MInv(m1)
    requires OwnOk(m.(own := m.own[f := Own(0, 0)]))
    requires forall p :: 0 <= p < |m.data| && !(f <= p < f + Pow2(0)) ==> data'[p] == m.data[p]
    ensures MInv(AddRoot(m, f, data')) && Opened(m, AddRoot(m, f, data'), f)
  {
    hide MInv;
    hide OwnOk;
    var m' := AddRoot(m, f, data');
    AddRootTables(m1, m', f);
    forall q, v: nat | IsRoot(m, q) && v < Span(5) ensures View(m', q, v) == View(m, q, v) && SameGuard(m, m', q, v) {
      AddRootPage(m, f, data', q, v);
    }
    hide View;
    hide SameGuard;
    AddRootAlone(m, m', f);
  }

  lemma AddRootAlone(m: Mem, m': Mem, f: nat)
    requires MInv(m) && f !in m.tb && m'.tb.Keys == m.tb.Keys + {f} && m'.home == m.home[f := Home(f, 4, 0)]
    ensures forall c :: c in m'.tb && c != f ==> c in m'.home && m'.home[c].root != f
  {
    forall c | c in m'.tb && c != f ensures c in m'.home && m'.home[c].root != f { assert TableOk(m, c); }
  }

  lemma AddRootSame(m: Mem, f: nat, q: nat, v: nat)
    requires MInv(m) && f !in m.tb
    ensures SameFor(m, m.tb[f := ZeroTable()], q, v)
  {
  }

  ghost predicate RootAdded(m1: Mem, m': Mem, f: nat) {
    && MInv(m1) && f !in m1.tb && f in m1.own && m1.own[f] == Own(0, 1) && Refs(m1.tb, f) == {}
    && m' == m1.(tb := m1.tb[f := ZeroTable()], home := m1.home[f := Home(f, 4, 0)])
  }

  lemma AddRootTable(m1: Mem, m': Mem, f: nat, x: nat)
    requires RootAdded(m1, m', f) && x in m'.tb
    ensures Shaped(m') && TableOk(m', x)
  {
    if x != f { assert TableOk(m1, x); }
  }

  lemma AddRootSlot(m1: Mem, m': Mem, f: nat, x: nat, j: nat)
    requires RootAdded(m1, m', f) && x in m'.tb && j < 512
    ensures Shaped(m') && SlotOk(m', x, j)
  {
    if x != f {
      assert SlotOk(m1, x, j);
      assert m1.tb[x][j].present && m1.tb[x][j].frame == f ==> (x, j) in Refs(m1.tb, f);
    }
  }

  lemma AddRootTables(m1: Mem, m': Mem, f: nat)
    requires RootAdded(m1, m', f)
    ensures MInv(m')
  {
    assert OwnOk(m');
    hide OwnOk;
    forall x | x in m'.tb ensures Shaped(m') && TableOk(m', x) { AddRootTable(m1, m', f, x); }
    forall x, j: nat | x in m'.tb && j < 512 ensures SlotOk(m', x, j) { AddRootSlot(m1, m', f, x, j); }
    forall g | g in m'.own ensures RefOk(m', g) {
      assert RefOk(m1, g);
      assert Refs(m'.tb, g) == Refs(m1.tb, g);
    }
  }

  lemma RootHome(m: Mem, r: nat)
    requires MInv(m) && IsRoot(m, r)
    ensures m.home[r] == Home(r, 4, 0) && Shaped(m)
  {
    assert TableOk(m, r);
  }

  lemma InsertSize(m: Mem, page: nat)
    requires MInv(m) && page in m.own && m.own[page].order in {0, HUGE}
    ensures page + Pow2(m.own[page].order) <= |m.data|
    ensures Pow2(m.own[page].order) == if m.own[page].order == HUGE then 512 else 1
  {
    Pow2Huge();
    assert Pow2(0) == 1;
  }

  lemma PageOrder(s: State, page: nat)
    requires Inv(s, NO_HOLE) && page in Owned(s, NO_HOLE)
    ensures page < |s.ps| && s.ps[page].order == Owned(s, NO_HOLE)[page].order
  {
    assert PageOk(s, page);
  }

  /** No leak and no dangling entry: over a walk, a block that entries point to is allocated, and
      one whose last entry goes while nobody else holds it is given back. */
  lemma FreedWithLastEntry(op: Op, m: Mem, m': Mem, t: nat, lo: nat, hi: nat, f: nat)
    requires MInv(m) && Walked(op, m, m', t, lo, hi)
    ensures Refs(m'.tb, f) != {} ==> f in m'.own && m'.own[f].ref == |Refs(m'.tb, f)| + Held(m', f)
    ensures f in m.own && Refs(m.tb, f) != {} && Refs(m'.tb, f) == {} && Held(m, f) == 0 ==> f !in m'.own
  {
    if f in m'.own {
      assert RefOk(m', f);
      if f in m.own { assert RefOk(m, f); }
    } else {
      RefsOwned(m', f);
    }
  }

  /** First page after the pages under the entry for v: pdir_end(v) + 1 and its like. */
  function SlotEnd(level: nat, v: nat): nat {
    if level <= 1 then v + 1
    else if level == 2 then (v / 512) * 512 + 512
    else if level == 3 then (v / 262144) * 262144 + 262144
    else (v / 134217728) * 134217728 + 134217728
  }

  predicate OneSlot(level: nat, lo: nat, hi: nat) { hi <= SlotEnd(level, lo) }

  /** The entry for base covers [start, SlotEnd), and the piece up to next is its part of the range. */
  lemma PieceOf(m: Mem, t: nat, level: nat, first: nat, last: nat, lo: nat, hi: nat, base: nat, next: nat)
    requires MInv(m) && t in m.tb && m.home[t].level == level
             && m.home[t].base <= lo <= base < hi <= m.home[t].base + Span(level + 1)
    requires Clipped(first, last, m.home[t].base, Span(level + 1), lo, hi)
    requires base == lo || SlotEnd(level, base - 1) == base
    requires next == if hi < SlotEnd(level, base) then hi else SlotEnd(level, base)
    ensures base < next && InSlot(m, t, Index(level, base), base, next)
    ensures Clipped(first, last, m.home[t].base + Index(level, base) * Span(level), Span(level), base, next)
    ensures next == hi || SlotEnd(level, next - 1) == next
  {
    PieceSlot(m, t, level, base);
    hide MInv;
    hide SlotEnd;
    hide Index;
    hide Span;
    var i, n := Index(level, base), Span(level);
    var start := m.home[t].base + i * n;
    SlotEndIs(level, start, base);
    if base > lo && base > start {
      SlotEndIs(level, start, base - 1);
      assert false;
    }
    PieceClip(first, last, m.home[t].base, Span(level + 1), lo, hi, base, next, start, n);
    SlotEndIs(level, start, next - 1);
  }

  lemma PieceSlot(m: Mem, t: nat, level: nat, v: nat)
    requires MInv(m) && t in m.tb && m.home[t].level == level && m.home[t].base <= v < m.home[t].base + Span(level + 1)
    ensures var i, n := Index(level, v), Span(level);
            && (m.home[t].base + i * n) % n == 0 && m.home[t].base + i * n <= v < m.home[t].base + i * n + n
            && i * n + n <= Span(level + 1) && (i + 1) * n == i * n + n && 1 <= level <= 4
  {
    assert TableOk(m, t);
    ChildCovers(level, m.home[t].base, Index(level, v), v);
    hide Span;
  }

  lemma PieceClip(first: nat, last: nat, tb: nat, big: nat, lo: nat, hi: nat, base: nat, next: nat, start: nat, n: nat)
    requires Clipped(first, last, tb, big, lo, hi) && tb <= start && start + n <= tb + big
    requires lo <= base < hi && start <= base < start + n && (base == lo || base == start)
    requires next == if hi < start + n then hi else start + n
    ensures Clipped(first, last, start, n, base, next)
  {
  }

  lemma SlotEndAfter(level: nat, v: nat)
    ensures v < SlotEnd(level, v)
  {
  }

  lemma InsertOneSlot(op: Op, m: Mem, level: nat, lo: nat, hi: nat)
    requires InsertReady(op, m, lo, hi) && (|op.bytes| == 512 ==> level >= 2)
    ensures lo < hi && OneSlot(level, lo, hi)
  {
    if |op.bytes| == 1 { SlotEndAfter(level, lo); } else if level > 2
    { if level <= 4 { OneSlotUp(level, lo, hi); } else { OneSlotUp(4, lo, hi); } }
  }

  lemma SlotEndIs(level: nat, start: nat, v: nat)
    requires 1 <= level <= 4 && start % Span(level) == 0 && start <= v < start + Span(level)
    ensures SlotEnd(level, v) == start + Span(level)
  {
  }

  lemma ChildClip(m: Mem, t: nat, i: nat, level: nat, first: nat, last: nat, lo: nat, hi: nat)
    requires MInv(m) && InSlot(m, t, i, lo, hi) && m.home[t].level == level >= 2 && IsTable(level, m.tb[t][i])
    requires Clipped(first, last, m.home[t].base + i * Span(level), Span(level), lo, hi)
    ensures var c := m.tb[t][i].frame;
            c in m.tb && Clipped(first, last, m.home[c].base, Span(level), lo, hi) && m.home[c].level == level - 1
  {
    assert SlotOk(m, t, i);
  }

  lemma WalkedNothing(op: Op, m: Mem, t: nat, lo: nat)
    requires MInv(m) && t in m.tb
    ensures Walked(op, m, m, t, lo, lo)
  {
    hide MInv;
    hide View;
    ShapedOf(m);
    forall q, v: nat
      ensures Guard(op, Inside(m.home[t].root, lo, lo, q, v), m, m, q, v)
      ensures Renews(op, m, m, q, v) ==> Near(m.home[t].root, lo, lo, q, v)
    {
    }
  }

  lemma WalkedHome(op: Op, m: Mem, m': Mem, t: nat, lo: nat, hi: nat)
    requires Walked(op, m, m', t, lo, hi)
    ensures Shaped(m') && t in m'.tb && m'.home[t] == m.home[t]
  {
  }

  /** A walk of the table under an entry, after a callback that left all pages as they were. */
  lemma WalkedBelow(op: Op, m: Mem, m1: Mem, m2: Mem, t: nat, i: nat, lo: nat, hi: nat)
    requires MInv(m1) && InSlot(m1, t, i, lo, hi) && IsTable(m1.home[t].level, m1.tb[t][i])
    requires Shaped(m) && Quiet(m, m1, t, lo, hi) && NoneGone(m, m1) && (op.Insert? ==> op.frame in m.own)
    requires Walked(op, m1, m2, m1.tb[t][i].frame, lo, hi)
    ensures WalkedBut(op, m, m2, t, lo, hi, {m1.tb[t][i].frame}) && Shaped(m2) && t in m2.tb && m2.tb[t] == m1.tb[t]
    ensures m2.home[t] == m.home[t] && (!op.Remove? ==> Walked(op, m, m2, t, lo, hi))
  {
    hide MInv;
    hide WalkedBut;
    hide Quiet;
    ShapedOf(m1);
    var c := m1.tb[t][i].frame;
    LiftWalked(op, m1, m2, t, i, lo, hi);
    QuietWalked(op, m, m1, m2, t, lo, hi, {c});
    LiftedHome(op, m, m2, t, lo, hi, {c});
    if !op.Remove? { NotRemoveWalked(op, m, m2, t, lo, hi, {c}); }
  }

  lemma LiftedHome(op: Op, m: Mem, m': Mem, t: nat, lo: nat, hi: nat, but: set<nat>)
    requires WalkedBut(op, m, m', t, lo, hi, but)
    ensures Shaped(m') && t in m'.tb && m'.home[t] == m.home[t]
  {
  }

  lemma QuietHome(m: Mem, m': Mem, t: nat, lo: nat, hi: nat)
    requires Quiet(m, m', t, lo, hi)
    ensures Shaped(m') && t in m'.tb && m'.home[t] == m.home[t]
  {
  }

  lemma NotRemoveWalked(op: Op, m: Mem, m': Mem, t: nat, lo: nat, hi: nat, but: set<nat>)
    requires WalkedBut(op, m, m', t, lo, hi, but) && !op.Remove?
    ensures Walked(op, m, m', t, lo, hi)
  {
    hide MInv;
    hide Effect;
  }

  /** [lo, hi) is the part of [first, last) in the n pages from start on. */
  ghost predicate Clipped(first: nat, last: nat, start: nat, n: nat, lo: nat, hi: nat) {
    && lo == (if first <= start then start else first)
    && hi == (if last <= start + n then last else start + n)
  }

  /** No 2M page is in the way of a 4K page on the walk to v, and no table in the way of a 2M page. */
  predicate Clear(tb: map<nat, seq<Pte>>, t: nat, level: nat, v: nat, huge: bool)
    decreases level
  {
    if level <= 1 || t !in tb || |tb[t]| != 512 then true
    else
      var e := tb[t][Index(level, v)];
      if level == 2 then if huge then !IsTable(2, e) else !(e.present && e.huge)
      else IsTable(level, e) ==> Clear(tb, e.frame, level - 1, v, huge)
  }

  ghost predicate EntryReady(op: Op, m: Mem, m': Mem, t: nat, i: nat, lo: nat, hi: nat) {
    && Shaped(m) && Shaped(m') && t in m.tb && t in m'.tb && i < 512
    && if IsTable(m.home[t].level, m'.tb[t][i]) then
         && Quiet(m, m', t, lo, hi) && NoneGone(m, m')
         && (op.Insert? ==> InsertReady(op, m', lo, hi) && (|op.bytes| == 512 ==> m.home[t].level > 2)
                            && Clear(m'.tb, m'.tb[t][i].frame, m.home[t].level - 1, lo, |op.bytes| == 512))
       else Walked(op, m, m', t, lo, hi)
  }

  // ---- When a walk fails ----------------------------------------------------------------------

  /** A whole 2M lies between first and last. */
  predicate Holds2M(first: nat, last: nat) { (first + 511) / 512 * 512 + 512 <= last }

  lemma HoldsWhole(first: nat, last: nat, start: nat)
    requires start % 512 == 0
    ensures first <= start && start + 512 <= last ==> Holds2M(first, last)
  {
    if first <= start {
      assert (first + 511) / 512 <= start / 512;
    }
  }

  /** Some page of the range is in a 2M page that is shared. */
  ghost predicate SharedIn(m: Mem, r: nat, lo: nat, hi: nat) {
    exists v: nat {:trigger SharedHuge(m, r, v)} :: lo <= v < hi && v < Span(5) && SharedHuge(m, r, v)
  }

  /** Every page of the range is in block f, or for a small page in a 2M page that it was merged into. */
  ghost predicate Behind(tb: map<nat, seq<Pte>>, r: nat, lo: nat, hi: nat, f: nat, small: bool) {
    forall v {:trigger Find(tb, r, 4, v)} :: lo <= v < hi ==>
      var s := Find(tb, r, 4, v); s.Some? && (s.value.block == f || (s.value.huge && small))
  }

  /** What an insertion amounts to. */
  lemma InsertEnds(op: Op, m: Mem, m': Mem, t: nat, i: nat, e: Pte, lo: nat, hi: nat)
    requires CanInsert(m, t, i, e) && Inserted(m, m', t, i, e) && WholeSlot(m, t, i, lo, hi)
             && m'.tb == SetEntry(m.tb, t, i, e)
    requires InsertReady(op, m, lo, hi) && op.frame == e.frame && op.perm == e.perm
    ensures MInv(m') && |m'.data| == |m.data| && Shaped(m') && t in m'.tb && m'.home[t] == m.home[t]
    ensures Walked(op, m, m', t, lo, hi) && Lands(op, m', m.home[t].root, lo, hi)
  {
    hide MInv;
    hide WalkedBut;
    hide Lands;
    hide Inserted;
    CanInsertFacts(m, t, i, e);
    InsertLeaf(m, m', t, i, e, lo, hi);
    WalkedInv(op, m, m', t, lo, hi);
    WalkedHome(op, m, m', t, lo, hi);
    LandsLeaf(op, m', t, i, lo, hi);
  }

  /** The pages of the range are behind the frame that was inserted, or in a 2M page that it was merged
      into. */
  ghost predicate Lands(op: Op, m: Mem, r: nat, lo: nat, hi: nat)
    requires op.Insert?
  {
    Behind(m.tb, r, lo, hi, op.frame, |op.bytes| == 1)
  }

  lemma LandsLeaf(op: Op, m: Mem, t: nat, i: nat, lo: nat, hi: nat)
    requires op.Insert? && MInv(m) && InSlot(m, t, i, lo, hi) && i < |m.tb[t]| && m.home[t].level <= 2
    requires var e := m.tb[t][i];
             && e.present && !IsTable(m.home[t].level, e)
             && (e.frame == op.frame || (m.home[t].level == 2 && |op.bytes| == 1))
    ensures Lands(op, m, m.home[t].root, lo, hi)
  {
    ShapedOf(m);
    hide MInv;
    forall v | lo <= v < hi
      ensures var s := Find(m.tb, m.home[t].root, 4, v);
              s.Some? && (s.value.block == op.frame || (s.value.huge && |op.bytes| == 1))
    {
      InSlotCovers(m, t, i, lo, hi, v);
      FindPath(m, t, v);
    }
  }

  /** Mapping pages leaves no page table of the range that could be a 2M page, except one that
      ptbl_merge found no block for. */
  ghost predicate Merges(op: Op, ok: bool, unmerged: bool, m: Mem, r: nat, lo: nat, hi: nat) {
    op.Insert? || op.Populate? ==> (ok ==> Compact(m, r, lo, hi)) && (unmerged ==> Unmerged(m, r, lo, hi))
  }

  /** After ptbl_merge of the table under an entry. */
  lemma MergesPiece(m: Mem, m': Mem, op: Op, t: nat, i: nat, lo: nat, hi: nat, ok: bool)
    requires MInv(m) && MInv(m') && InSlot(m, t, i, lo, hi) && m.home[t].level == 2
    requires !ok ==> m' == m && FullTable(m, t, i)
    requires ok ==> Quiet(m, m', t, lo, hi)
    requires !FullTable(m, t, i) ==> m' == m
    requires ok && FullTable(m, t, i) && t in m'.tb && i < |m'.tb[t]| ==> !IsTable(2, m'.tb[t][i])
    ensures Merges(op, ok, !ok, m', m.home[t].root, lo, hi)
  {
    hide MInv;
    hide Compact;
    hide Unmerged;
    hide FullTable;
    if !ok {
      FullUnmerged(m, t, i, lo, hi);
    } else if FullTable(m, t, i) {
      QuietHome(m, m', t, lo, hi);
      CompactLeaf(m', t, i, lo, hi);
    } else {
      CompactTable(m, t, i, lo, hi);
    }
  }

  lemma WalkedUnder(op: Op, m: Mem, m': Mem, t: nat, lo: nat, hi: nat)
    requires Walked(op, m, m', t, lo, hi)
    ensures OnlyUnder(m, m', t, lo, hi)
  {
    hide MInv;
    hide Effect;
    hide Guarded;
    hide OnlyUnder;
  }

  lemma AlignedEnd(level: nat, base: nat)
    requires level >= 2
    ensures base > 0 && SlotEnd(level, base - 1) == base ==> base % 512 == 0
  {
    if base > 0 && SlotEnd(level, base - 1) == base {
      if level == 2 {
        Multiple((base - 1) / 512 + 1);
      } else if level == 3 {
        Multiple(((base - 1) / 262144 + 1) * 512);
      } else {
        Multiple(((base - 1) / 134217728 + 1) * 262144);
      }
    }
  }

  lemma Multiple(x: nat)
    ensures x * 512 % 512 == 0
  {
  }

  lemma MergesOn(op: Op, m: Mem, m': Mem, t: nat, level: nat, lo: nat, base: nat, next: nat)
    requires MInv(m') && Walked(op, m, m', t, base, next) && t in m.home && m.home[t].level == level >= 2
    requires lo <= base <= next && (base == lo || SlotEnd(level, base - 1) == base)
    requires Merges(op, true, false, m, m.home[t].root, lo, base)
             && Merges(op, true, false, m', m.home[t].root, base, next)
    ensures Merges(op, true, false, m', m.home[t].root, lo, next)
  {
    hide MInv;
    hide Compact;
    hide Unmerged;
    hide WalkedBut;
    hide OnlyUnder;
    WalkedUnder(op, m, m', t, base, next);
    AlignedEnd(level, base);
    hide SlotEnd;
    if op.Insert? || op.Populate? { CompactNext(m, m', t, lo, base, next); }
  }

  /** Why a walk over the pages from first to last has to stop: the allocator has no page, or no
      2M block where one is needed, to copy a shared one or to fill 2M of the range. Unmapping and
      protecting allocate only to cut a 2M page at an end of the range. */
  ghost predicate Starved(op: Op, first: nat, last: nat, shared: bool, s: State) {
    match op
    case Remove => NoRun(s, 0) && (first % 512 != 0 || last % 512 != 0)
    case Protect(_) => NoRun(s, 0) && !(first % 512 == 0 && last == first + 512)
    case Populate(_) => NoRun(s, 0) || (NoRun(s, HUGE) && (shared || Holds2M(first, last)))
    case Insert(_, _, _, _) => NoRun(s, 0)
  }

  /** unmerged: the pages are in place, and only ptbl_merge found no 2M block. */
  ghost predicate WalkFailed(op: Op, level: nat, first: nat, last: nat, shared: bool, ok: bool, unmerged: bool,
                             s: State)
  {
    && (!ok && !unmerged ==> Starved(op, first, last, shared, s))
    && (unmerged ==> !ok && level >= 2 && (op.Populate? || op.Insert?) && NoRun(s, HUGE))
  }

  /** Calls that leave all pages as they were share no 2M page. */
  lemma QuietShared(m: Mem, m': Mem, t: nat, lo: nat, hi: nat)
    requires MInv(m) && t in m.tb && Quiet(m, m', t, lo, hi)
    ensures SharedIn(m', m.home[t].root, lo, hi) ==> SharedIn(m, m.home[t].root, lo, hi)
  {
    TableRoot(m, t);
    hide MInv;
    hide Find;
    hide Private;
    var r := m.home[t].root;
    if SharedIn(m', r, lo, hi) {
      var v: nat :| lo <= v < hi && v < Span(5) && SharedHuge(m', r, v);
      assert SameGuard(m, m', r, v);
      assert SharedHuge(m, r, v);
    }
  }

  /** Nor does the part of a walk that populates the pages before. */
  lemma PieceShared(op: Op, m: Mem, m1: Mem, t: nat, lo: nat, base: nat, next: nat, hi: nat)
    requires MInv(m) && t in m.tb && Walked(op, m, m1, t, lo, base) && lo <= base <= next <= hi
    ensures op.Populate? && SharedIn(m1, m.home[t].root, base, next) ==> SharedIn(m, m.home[t].root, lo, hi)
  {
    TableRoot(m, t);
    hide MInv;
    hide Find;
    hide Private;
    var r := m.home[t].root;
    if op.Populate? && SharedIn(m1, r, base, next) {
      var v: nat :| base <= v < next && v < Span(5) && SharedHuge(m1, r, v);
      assert Guard(op, Inside(r, lo, base, r, v), m, m1, r, v);
      assert SharedHuge(m, r, v);
    }
  }

  /** A range that covers only part of the 2M at start ends inside it. */
  lemma CutsSlot(first: nat, last: nat, start: nat, lo: nat, hi: nat)
    requires start % 512 == 0 && Clipped(first, last, start, 512, lo, hi) && lo < hi
    ensures first > start || last < start + 512 ==> first % 512 != 0 || last % 512 != 0
    ensures first % 512 == 0 && last == first + 512 ==> start == first
  {
  }

  /** The 2M around lo end where the next larger slot ends, or before. */
  lemma SlotEndUp(lo: nat, n: nat)
    requires n in {512, 262144}
    ensures (lo / 512) * 512 + 512 <= (lo / (512 * n)) * (512 * n) + 512 * n
  {
    var a, q := lo / 512, lo / (512 * n);
    assert 512 * a <= lo < (512 * n) * (q + 1);
    assert (512 * n) * (q + 1) == 512 * (n * (q + 1));
    assert a < n * (q + 1);
  }

  lemma OneSlotUp(level: nat, lo: nat, hi: nat)
    requires 2 <= level <= 4
    ensures OneSlot(2, lo, hi) ==> OneSlot(level, lo, hi)
  {
    if level == 3 { SlotEndUp(lo, 512); } else if level == 4 { SlotEndUp(lo, 262144); }
  }

  /** The present entry (t, i) shares its block with other entries. */
  ghost predicate SharedEntry(m: Mem, t: nat, i: nat) {
    && t in m.tb && i < |m.tb[t]| && m.tb[t][i].present
    && m.tb[t][i].frame in m.own && m.own[m.tb[t][i].frame].ref > 1
  }

  lemma HugeEntry(m: Mem, t: nat, i: nat, v: nat)
    requires MInv(m) && t in m.tb && i < 512 && m.home[t].level == 2 && SlotCovers(m, t, i, v)
    ensures SharedHuge(m, m.home[t].root, v) <==> SharedEntry(m, t, i) && m.tb[t][i].huge
  {
    FindPath(m, t, v);
    if m.tb[t][i].present { EntryRef(m, t, i); }
  }

  lemma SharedPath(m: Mem, t: nat, i: nat, v: nat)
    requires MInv(m) && t in m.tb && i < 512 && SlotCovers(m, t, i, v)
    ensures SharedHuge(m, m.home[t].root, v) ==> m.tb[t][i].present
  {
    FindPath(m, t, v);
  }

  lemma RenewedFrom(op: Op, m: Mem, m1: Mem, m2: Mem, r: nat, lo: nat, hi: nat)
    requires op.Populate? && SharedHuge(m, r, lo) ==> m1 == m && Renewed(op, m1, m2, r, lo, hi)
    ensures Renewed(op, m, m2, r, lo, hi)
  {
  }

  /** Under a table of lowest level there is no 2M page. */
  lemma SmallRenewed(op: Op, m: Mem, m': Mem, t: nat, lo: nat, hi: nat)
    requires MInv(m) && t in m.tb && Covers(m.home[t], lo) && (m.home[t].level == 1 || !op.Populate?)
    ensures Renewed(op, m, m', m.home[t].root, lo, hi)
  {
    FindPath(m, t, lo);
  }

  lemma WideRenewed(op: Op, m: Mem, m': Mem, t: nat, level: nat, lo: nat, hi: nat)
    requires MInv(m) && t in m.tb && m.home[t].level == level && Covers(m.home[t], lo)
    requires OneSlot(2, lo, hi) && level >= 2 ==> Renewed(op, m, m', m.home[t].root, lo, hi)
    ensures Renewed(op, m, m', m.home[t].root, lo, hi)
  {
    if level == 1 { SmallRenewed(op, m, m', t, lo, hi); }
  }

  lemma RenewedEntry(op: Op, m: Mem, m': Mem, t: nat, i: nat, lo: nat, hi: nat)
    requires MInv(m') && InSlot(m', t, i, lo, hi) && m'.home[t].level == 2 && op.Populate?
    requires m'.tb[t][i].present && !IsTable(2, m'.tb[t][i]) && m'.tb[t][i].perm == op.perm
    ensures Renewed(op, m, m', m'.home[t].root, lo, hi)
  {
    forall v: nat | v - v % 512 == lo - lo % 512
      ensures Find(m'.tb, m'.home[t].root, 4, v).Some? && Find(m'.tb, m'.home[t].root, 4, v).value.perm == op.perm
    {
      StartOf(m', t, i, lo, hi);
      assert TableOk(m', t);
      ChildCovers(2, m'.home[t].base, i, v);
      FindPath(m', t, v);
    }
  }

  lemma StartOf(m: Mem, t: nat, i: nat, lo: nat, hi: nat)
    requires MInv(m) && InSlot(m, t, i, lo, hi) && m.home[t].level == 2
    ensures (lo / 512) * 512 == m.home[t].base + i * 512 && Index(2, lo) == i
  {
    assert TableOk(m, t);
    hide MInv;
    var b := m.home[t].base + i * 512;
    ChildCovers(2, m.home[t].base, i, lo);
    RunMod(b, lo);
    assert lo == 512 * (lo / 512) + lo % 512;
  }

  /** An entry's frame is counted; a table's frame exactly once. */
  lemma EntryRef(m: Mem, t: nat, i: nat)
    requires MInv(m) && t in m.tb && i < 512 && m.tb[t][i].present
    ensures m.tb[t][i].frame in m.own && m.own[m.tb[t][i].frame].ref >= 1
    ensures IsTable(m.home[t].level, m.tb[t][i]) ==> m.own[m.tb[t][i].frame].ref == 1
  {
    var c := m.tb[t][i].frame;
    assert SlotOk(m, t, i);
    if IsTable(m.home[t].level, m.tb[t][i]) {
      assert TableOk(m, c);
      forall x, j | (x, j) in Refs(m.tb, c) ensures (x, j) == (t, i) { assert SlotOk(m, x, j); }
      assert Refs(m.tb, c) == {(t, i)};
      assert RefOk(m, c);
    } else {
      LeafFacts(m, t, i);
    }
  }

  lemma AddedReady(op: Op, m: Mem, m': Mem, t: nat, i: nat, lo: nat, hi: nat, level: nat)
    requires InsertReady(op, m, lo, hi) && AddedTable(m, m', t, i, lo, hi)
    ensures InsertReady(op, m', lo, hi) && Clear(m'.tb, m'.tb[t][i].frame, level, lo, |op.bytes| == 512)
  {
    hide Quiet;
    Pow2Huge();
    assert Pow2(0) == 1;
    assert m'.data[op.frame..op.frame + |op.bytes|] == m.data[op.frame..op.frame + |op.bytes|];
  }

  /** The page to insert is an allocated block with the given contents and does not hold a table. */
  ghost predicate InsertReady(op: Op, m: Mem, lo: nat, hi: nat) {
    && op.Insert? && op.frame in m.own && op.frame !in m.tb && op.first == lo && hi == lo + |op.bytes|
    && m.own[op.frame].order == (if |op.bytes| == 512 then HUGE else 0) && |op.bytes| in {1, 512}
    && (|op.bytes| == 512 ==> lo % 512 == 0)
    && op.frame + |op.bytes| <= |m.data| && m.data[op.frame..op.frame + |op.bytes|] == op.bytes
  }

  lemma WalkedInv(op: Op, m: Mem, m': Mem, t: nat, lo: nat, hi: nat)
    requires Walked(op, m, m', t, lo, hi)
    ensures MInv(m') && |m'.data| == |m.data|
  {
  }

  lemma ProtectSame(m: Mem, t: nat, i: nat, lo: nat, hi: nat)
    requires MInv(m) && WholeSlot(m, t, i, lo, hi) && m.tb[t][i].present && !IsTable(m.home[t].level, m.tb[t][i])
    ensures Walked(Protect(m.tb[t][i].perm), m, m, t, lo, hi)
  {
    hide MInv;
    hide View;
    AbsentTables(m, t, i, lo, hi);
    var op := Protect(m.tb[t][i].perm);
    forall q, v: nat | IsRoot(m, q) && v < Span(5)
      ensures Rel(op, Inside(m.home[t].root, lo, hi, q, v), v, View(m, q, v), View(m, q, v))
    {
      if Inside(m.home[t].root, lo, hi, q, v) {
        InSlotCovers(m, t, i, lo, hi, v);
        LeafView(m, t, i, v);
      }
    }
    forall q, v: nat
      ensures Guard(op, Inside(m.home[t].root, lo, hi, q, v), m, m, q, v)
      ensures Renews(op, m, m, q, v) ==> Near(m.home[t].root, lo, hi, q, v)
    {
    }
  }

  lemma SharedFacts(m: Mem, m1: Mem, t: nat, i: nat, f: nat, k: nat, e: Pte, data': seq<Bytes>)
    requires CanMapFresh(m, t, i, f, k, e, data') && m1 == MapFresh(m, t, i, f, k, e, data')
    ensures m.tb[t][i].present ==> m.tb[t][i].frame !in m1.tb
    ensures t in m1.tb && i < |m1.tb[t]| && m1.tb[t][i] == e
  {
    if m.tb[t][i].present { LeafFacts(m, t, i); }
  }

  lemma NonEmptyWalked(m0: Mem, m: Mem, t: nat, lo: nat, hi: nat, c: nat)
    requires WalkedBut(Remove, m0, m, t, lo, hi, {c}) && c in m.tb && !EmptyTable(m.tb, c)
    ensures Walked(Remove, m0, m, t, lo, hi)
  {
    hide MInv;
    hide Effect;
  }

  lemma EntryApart(m: Mem, t: nat, i: nat, f: nat, y: nat)
    requires FullTable(m, t, i) && y < 512 && f !in m.own && OwnOk(m.(own := m.own[f := Own(HUGE, 0)]))
    ensures Shaped(m) && var g := m.tb[m.tb[t][i].frame][y].frame; g < |m.data| && !(f <= g < f + 512)
  {
    var c := m.tb[t][i].frame;
    assert SlotOk(m, t, i);
    LeafFacts(m, c, y);
    hide MInv;
    FreshApart(m, f, HUGE, m.tb[c][y].frame);
    Pow2Huge();
    assert Pow2(0) == 1;
  }

  lemma MergedTables(m0: Mem, m: Mem, t: nat, i: nat, f: nat, j: nat)
    requires FullTable(m0, t, i) && Merged(m0, m, t, i, f, j)
    ensures Shaped(m0) && var c := m0.tb[t][i].frame; c !in m.tb && (j < 512 ==> m0.tb[c][j].frame !in m.tb)
    ensures t in m.tb && i < |m.tb[t]| && m.tb[t][i] == Pte(true, true, f, TablePerm(m0, t, i))
  {
    assert SlotOk(m0, t, i);
    if j < 512 { LeafFacts(m0, m0.tb[t][i].frame, j); }
  }

  lemma MergedInv(m0: Mem, m: Mem, t: nat, i: nat, f: nat)
    requires Merged(m0, m, t, i, f, 0)
    ensures MInv(m) && |m.data| == |m0.data|
  {
  }

  /** The state in which the 2M page has taken over the entry. */
  lemma MergePlan(m: Mem, t: nat, i: nat, f: nat, data': seq<Bytes>) returns (m': Mem)
    requires CanMergePages(m, t, i, f, data')
    ensures f !in m.tb && Merged(m, m', t, i, f, 0)
    ensures Shaped(m)
            && m'.tb == SetEntry(m.tb, t, i, Pte(true, true, f, m.tb[m.tb[t][i].frame][0].perm)) - {m.tb[t][i].frame}
    ensures m'.own == m.own[f := Own(HUGE, 1)] && m'.data == data'
  {
    hide MInv;
    hide OwnOk;
    hide Merged;
    hide Detach;
    ShapedOf(m);
    MergeStart(m, t, i, f, data');
    MergeFresh(m, t, i, f, data');
    DetachInv(m, t, i);
    FreshFacts(m, t, i, f);
    m' := MergeNew(m, t, i, f, data');
    MapFreshInv(Detach(m, t, i), t, i, f, HUGE, Pte(true, true, f, m.tb[m.tb[t][i].frame][0].perm), data');
    MergeNewTables(m, t, i, f, data');
  }

  lemma MergeNewTables(m: Mem, t: nat, i: nat, f: nat, data': seq<Bytes>)
    requires FullTable(m, t, i) && t in Detach(m, t, i).tb && i < |Detach(m, t, i).tb[t]|
    ensures var c, m' := m.tb[t][i].frame, MergeNew(m, t, i, f, data');
            m'.tb == SetEntry(m.tb, t, i, Pte(true, true, f, m.tb[c][0].perm)) - {c} && m'.data == data'
  {
    hide MInv;
    hide Detach;
    ShapedOf(m);
    DetachInv(m, t, i);
    var c, m1 := m.tb[t][i].frame, Detach(m, t, i);
    var e := Pte(true, true, f, m.tb[c][0].perm);
    assert m1.tb[t][i := e] == m.tb[t][i := e];
  }

  /** The order-k run of frames from p on lies in the allocated block h. */
  ghost predicate Within(m: Mem, h: nat, p: nat, k: nat) {
    h in m.own && h <= p && p + Pow2(k) <= h + Pow2(m.own[h].order)
  }

  ghost predicate FilledFrom(data: seq<Bytes>, data': seq<Bytes>, f: nat, n: nat, src: Option<nat>) {
    && (src.Some? ==> CopyOf(data, data', src.value, f, n))
    && (src.None? ==> forall p :: 0 <= p < |data'| && f <= p < f + n ==> data'[p] == ZeroPage())
  }

  ghost predicate Filled(m: Mem, m': Mem, f: nat, k: nat, src: Option<nat>) {
    && f !in m.own && f + Pow2(k) <= |m.data| == |m'.data| && OwnOk(m.(own := m.own[f := Own(k, 0)]))
    && m' == m.(own := m.own[f := Own(k, 0)], data := m'.data)
    && (forall p :: 0 <= p < |m.data| && !(f <= p < f + Pow2(k)) ==> m'.data[p] == m.data[p])
    && FilledFrom(m.data, m'.data, f, Pow2(k), src)
  }

  /** Blocks in use keep their place, order, references and contents; none becomes a table. */
  ghost predicate Grown(m: Mem, m': Mem) {
    && |m'.data| == |m.data|
    && (forall g :: g in m.own ==> g in m'.own && m'.own[g] == m.own[g] && (g !in m.tb ==> g !in m'.tb))
    && (forall g, x :: g in m.own && g <= x < g + Pow2(m.own[g].order) && x < |m.data| ==> m'.data[x] == m.data[x])
  }

  ghost predicate AddedTable(m: Mem, m': Mem, t: nat, i: nat, lo: nat, hi: nat) {
    && Shaped(m) && Quiet(m, m', t, lo, hi) && NoneGone(m, m') && Grown(m, m')
    && i < |m'.tb[t]| && m'.tb[t][i].present && !m'.tb[t][i].huge
    && m'.tb[t][i].frame in m'.tb && EmptyTable(m'.tb, m'.tb[t][i].frame)
  }

  lemma AbsentSwap(m: Mem, m1: Mem, t: nat, i: nat, f: nat)
    requires CanAddTable(m1, t, i, f) && i < |m1.tb[t]| && m1.tb == m.tb
    ensures CanAddTable(Swap(m1, t, i, ZERO_ENTRY), t, i, f)
    ensures AddTable(Swap(m1, t, i, ZERO_ENTRY), t, i, f) == AddTable(m1, t, i, f)
  {
    SwapInv(m1, t, i, ZERO_ENTRY);
    assert m1.tb[t][i := ZERO_ENTRY][i := TableEntry(f)] == m1.tb[t][i := TableEntry(f)];
  }

  lemma SwapTake(m: Mem, t: nat, i: nat, n: nat, data': seq<Bytes>)
    requires t in m.tb && i < |m.tb[t]| && n !in m.own && m.tb[t][i].present ==> m.tb[t][i].frame != n
    requires t in m.tb && i < |m.tb[t]|
    ensures Swap(Take(m.(own := m.own[n := Own(0, 0)], data := data'), n), t, i, ZERO_ENTRY)
         == Take(Swap(m, t, i, ZERO_ENTRY).(own := m.own[n := Own(0, 0)], data := data'), n)
  {
  }

  lemma QuietSelf(m: Mem, t: nat, lo: nat, hi: nat)
    requires MInv(m) && t in m.tb
    ensures Shaped(m) && Quiet(m, m, t, lo, hi) && NoneGone(m, m)
  {
    hide MInv;
    hide View;
    ShapedOf(m);
    forall q, v: nat ensures SameGuard(m, m, q, v) {}
  }

  lemma SplitOwn(m: Mem, m1: Mem, n: nat)
    requires m1.own == m.own && m1.data == m.data && OwnOk(m.(own := m.own[n := Own(0, 0)]))
    ensures OwnOk(m1.(own := m1.own[n := Own(0, 0)]))
  {
  }

  lemma SplitEndFacts(m0: Mem, m: Mem, t: nat, i: nat, n: nat)
    requires CanSplitPage(m0, t, i) && Splitting(m0, m, t, i, n, 512)
    ensures m0.tb[t][i].frame !in m.tb && t in m.tb && i < |m.tb[t]| && IsTable(2, m.tb[t][i])
    ensures m.tb[t][i].frame == n && n in m.tb && |m.tb[n]| == 512 && t in m.home && m.home[t].level == 2
    ensures forall x :: 0 <= x < 512 ==> m.tb[n][x].present && m.tb[n][x].perm == m0.tb[t][i].perm
  {
    hide MInv;
    ShapedOf(m);
    LeafFacts(m0, t, i);
    TableOrder(m, n);
  }

  lemma SplitFull(m0: Mem, m: Mem, t: nat, i: nat, n: nat)
    requires MInv(m) && t in m0.tb && i < |m0.tb[t]| && t in m.tb && i < |m.tb[t]| && n in m.tb && |m.tb[n]| == 512
    requires t in m.home && m.home[t].level == 2 && IsTable(2, m.tb[t][i]) && m.tb[t][i].frame == n && i < 512
    requires forall x :: 0 <= x < 512 ==> m.tb[n][x].present && m.tb[n][x].perm == m0.tb[t][i].perm
    ensures FullTable(m, t, i) && TablePerm(m, t, i) == m0.tb[t][i].perm
  {
    hide MInv;
  }

  /** The permissions of the first page under the table at entry (t, i). */
  ghost function TablePerm(m: Mem, t: nat, i: nat): Perm
    requires t in m.tb && i < |m.tb[t]| && m.tb[t][i].frame in m.tb && |m.tb[m.tb[t][i].frame]| == 512
  {
    m.tb[m.tb[t][i].frame][0].perm
  }

  /** A new block is ready to be mapped at the leaf entry (t, i). */
  lemma FilledMaps(m: Mem, m1: Mem, t: nat, i: nat, f: nat, e: Pte, src: Option<nat>)
    requires MInv(m) && MInv(m1) && t in m.tb && i < 512 && m.home[t].level <= 2
             && !IsTable(m.home[t].level, m.tb[t][i])
    requires e.present && e.frame == f && (e.huge <==> m.home[t].level == 2) && Filled(m, m1, f, OrderOf(e.huge), src)
    ensures CanMapFresh(m, t, i, f, OrderOf(e.huge), e, m1.data)
            && FilledFrom(m.data, m1.data, f, Pow2(OrderOf(e.huge)), src)
    ensures m1 == m.(own := m.own[f := Own(OrderOf(e.huge), 0)], data := m1.data) && f !in m1.tb && f in m1.own
    ensures LeafOk(Take(m1, f), m.home[t].level, e) && CanSwap(Take(m1, f), t, i, e)
  {
    hide MInv;
    hide OwnOk;
    hide FilledFrom;
    ShapedOf(m);
    FreshFacts(m, t, i, f);
    TakeInv(m1, f);
  }

  lemma FilledZero(m: Mem, m': Mem, f: nat, k: nat)
    requires AllocatedZero(m, m', f, k)
    ensures Filled(m, m', f, k, None)
  {
    hide Zeroed;
    hide OwnOk;
  }

  lemma FilledCopy(m: Mem, m1: Mem, f: nat, k: nat, g: nat, block: nat)
    requires MInv(m) && AllocatedZero(m, m1, f, k) && Within(m, block, g, k)
    ensures |m1.data| == |m.data| && f + Pow2(k) <= |m.data| && g + Pow2(k) <= |m.data|
    ensures var m' := m1.(data := Copied(m1.data, g, f, Pow2(k))); Filled(m, m', f, k, Some(g)) && MInv(m')
  {
    hide Zeroed;
    hide Copied;
    hide MInv;
    BlockApart(m, f, k, block);
    hide OwnOk;
    AllocInv(m, f, k, Copied(m1.data, g, f, Pow2(k)));
  }

  lemma BlockApart(m: Mem, f: nat, k: nat, h: nat)
    requires MInv(m) && h in m.own && OwnOk(m.(own := m.own[f := Own(k, 0)])) && f !in m.own
    ensures h + Pow2(m.own[h].order) <= f || f + Pow2(k) <= h
    ensures h + Pow2(m.own[h].order) <= |m.data|
  {
    hide OwnOk;
    hide MInv;
    FreshApart(m, f, k, h);
    OwnBound(m, h);
  }

  lemma NewTableGrows(m: Mem, t: nat, i: nat, f: nat, data': seq<Bytes>)
    requires CanNewTable(m, t, i, f, data') && t in m.home && t in m.tb && i < |m.tb[t]|
    ensures Grown(m, NewTable(m, t, i, f, data'))
  {
    hide MInv;
    hide OwnOk;
    assert Pow2(0) == 1;
    forall g, x | g in m.own && g <= x < g + Pow2(m.own[g].order) && x < |m.data| ensures data'[x] == m.data[x] {
      FreshApart(m, f, 0, g);
    }
  }

  ghost predicate AllocatedZero(m: Mem, m': Mem, f: nat, k: nat) {
    && f !in m.own && f + Pow2(k) <= |m.data| && OwnOk(m.(own := m.own[f := Own(k, 0)]))
    && m' == m.(own := m.own[f := Own(k, 0)], data := Zeroed(m.data, f, Pow2(k)))
  }
}
