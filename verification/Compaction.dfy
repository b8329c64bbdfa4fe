/** What ptbl_merge is for: after pages have been mapped, no page table is left that one 2M entry
    could stand for. */
module Compaction {
  import opened Common
  import opened Paging
  import opened Effects
  import opened Callbacks
  import opened Merging

  /** All entries present, with the same permissions. */
  predicate Uniform(es: seq<Pte>) {
    |es| == 512 && forall y :: 0 <= y < 512 ==> es[y].present && es[y].perm == es[0].perm
  }

  /** Table c maps single pages of address space r, some of them in the range. */
  ghost predicate Lowest(m: Mem, r: nat, lo: nat, hi: nat, c: nat) {
    && c in m.tb && c in m.home && m.home[c].root == r && m.home[c].level == 1
    && Touches(m.home[c], lo, hi)
  }

  /** No page table of the range could be a 2M page. */
  ghost predicate Compact(m: Mem, r: nat, lo: nat, hi: nat) {
    forall c {:trigger Lowest(m, r, lo, hi, c)} :: Lowest(m, r, lo, hi, c) ==> !Uniform(m.tb[c])
  }

  ghost predicate Unmerged(m: Mem, r: nat, lo: nat, hi: nat) {
    exists c :: Lowest(m, r, lo, hi, c) && Uniform(m.tb[c])
  }

  /** The only page table for pages of a level-2 entry is the one the entry points to. */
  lemma SlotTable(m: Mem, t: nat, i: nat, lo: nat, hi: nat, c: nat)
    requires MInv(m) && InSlot(m, t, i, lo, hi) && m.home[t].level == 2 && Lowest(m, m.home[t].root, lo, hi, c)
    ensures IsTable(2, m.tb[t][i]) && m.tb[t][i].frame == c
  {
    var v := if lo < m.home[c].base then m.home[c].base else lo;
    assert TableOk(m, c);
    var (p, j) := m.up[c];
    assert SlotOk(m, p, j);
    SlotOfChild(m, p, j, v);
    InSlotCovers(m, t, i, lo, hi, v);
    UniqueTable(m, p, t, v);
  }

  lemma CompactLeaf(m: Mem, t: nat, i: nat, lo: nat, hi: nat)
    requires MInv(m) && InSlot(m, t, i, lo, hi) && m.home[t].level == 2 && i < |m.tb[t]| && !IsTable(2, m.tb[t][i])
    ensures Compact(m, m.home[t].root, lo, hi)
  {
    hide MInv;
    hide Uniform;
    forall c ensures !Lowest(m, m.home[t].root, lo, hi, c) {
      if Lowest(m, m.home[t].root, lo, hi, c) { SlotTable(m, t, i, lo, hi, c); }
    }
  }

  lemma CompactTable(m: Mem, t: nat, i: nat, lo: nat, hi: nat)
    requires MInv(m) && InSlot(m, t, i, lo, hi) && m.home[t].level == 2 && !FullTable(m, t, i)
    ensures Compact(m, m.home[t].root, lo, hi)
  {
    forall c | Lowest(m, m.home[t].root, lo, hi, c) ensures !Uniform(m.tb[c]) {
      SlotTable(m, t, i, lo, hi, c);
    }
  }

  lemma FullUnmerged(m: Mem, t: nat, i: nat, lo: nat, hi: nat)
    requires FullTable(m, t, i) && InSlot(m, t, i, lo, hi)
    ensures Unmerged(m, m.home[t].root, lo, hi)
  {
    var c := m.tb[t][i].frame;
    assert SlotOk(m, t, i) && TableOk(m, c);
    assert (i + 1) * 512 == i * 512 + 512;
    assert Lowest(m, m.home[t].root, lo, hi, c);
    ShapedOf(m);
  }

  /** There is at most one such table for pages of the same 2M. */
  lemma OneUnmerged(m: Mem, r: nat, lo: nat, hi: nat, c: nat, d: nat)
    requires MInv(m) && hi <= lo - lo % 512 + 512 && Lowest(m, r, lo, hi, c) && Lowest(m, r, lo, hi, d)
    ensures c == d
  {
    assert TableOk(m, c) && TableOk(m, d);
    UniqueTable(m, c, d, lo);
  }

  /** The walk goes on to the next pieces of the range, at a 2M boundary. */
  lemma CompactNext(m: Mem, m': Mem, t: nat, lo: nat, mid: nat, hi: nat)
    requires MInv(m') && OnlyUnder(m, m', t, mid, hi) && m.home[t].level >= 2 && lo <= mid <= hi
    requires mid == lo || mid % 512 == 0
    requires Compact(m, m.home[t].root, lo, mid) && Compact(m', m.home[t].root, mid, hi)
    ensures Compact(m', m.home[t].root, lo, hi)
  {
    var r := m.home[t].root;
    forall c | Lowest(m', r, lo, hi, c) ensures !Uniform(m'.tb[c]) {
      if Touches(m'.home[c], mid, hi) {
        assert Lowest(m', r, mid, hi, c);
      } else {
        assert c in m.tb && m'.tb[c] == m.tb[c] && m'.home[c] == m.home[c];
        assert Lowest(m, r, lo, mid, c);
      }
    }
  }

  lemma UnmergedMore(m: Mem, r: nat, lo: nat, hi: nat, lo': nat, hi': nat)
    requires Unmerged(m, r, lo, hi) && lo' <= lo && hi <= hi'
    ensures Unmerged(m, r, lo', hi')
  {
    hide Uniform;
    var c :| Lowest(m, r, lo, hi, c) && Uniform(m.tb[c]);
    assert Lowest(m, r, lo', hi', c);
  }

  /** What that means for addresses: 512 pages of an aligned 2M that are all mapped with the same
      permissions are mapped by one entry. */
  lemma CompactHuge(m: Mem, r: nat, b: nat, lo: nat, hi: nat, perm: Perm)
    requires MInv(m) && IsRoot(m, r) && b % 512 == 0 && b + 512 <= Span(5) && Compact(m, r, lo, hi)
    requires lo < hi && b < hi && lo < b + 512
    requires forall v :: b <= v < b + 512 ==>
               Find(m.tb, r, 4, v).Some? && Find(m.tb, r, 4, v).value.perm == perm
    ensures forall v :: b <= v < b + 512 ==> Find(m.tb, r, 4, v).value.huge
  {
    forall v | b <= v < b + 512 ensures Find(m.tb, r, 4, v).value.huge {
      if !Find(m.tb, r, 4, v).value.huge {
        var c := LowTable(m, r, b, v);
        UniformFrom(m, r, b, c, perm);
        assert Lowest(m, r, lo, hi, c);
        assert false;
      }
    }
  }

  lemma SameBase(a: nat, b: nat, v: nat)
    requires a % 512 == 0 && b % 512 == 0 && a <= v < a + 512 && b <= v < b + 512
    ensures a == b
  {
  }

  lemma LowTable(m: Mem, r: nat, b: nat, v: nat) returns (c: nat)
    requires MInv(m) && IsRoot(m, r) && b % 512 == 0 && b <= v < b + 512 <= Span(5)
    requires Find(m.tb, r, 4, v).Some? && !Find(m.tb, r, 4, v).value.huge
    ensures c in m.tb && m.home[c] == Home(r, 1, b)
  {
    hide Find;
    assert TableOk(m, r);
    var x, i := SpotBlock(m, r, v);
    c := x;
    assert TableOk(m, x);
    hide MInv;
    SameBase(m.home[x].base, b, v);
  }

  lemma LowIndex(b: nat, y: nat)
    requires b % 512 == 0 && y < 512
    ensures Index(1, b + y) == y
  {
  }

  lemma FindLow(tb: map<nat, seq<Pte>>, c: nat, v: nat)
    requires c in tb && |tb[c]| == 512
    ensures var e := tb[c][Index(1, v)];
            Find(tb, c, 1, v) == if e.present then Some(Spot(e.frame, e.perm, e.frame, false)) else None
  {
  }

  lemma LowEntry(m: Mem, r: nat, b: nat, c: nat, y: nat)
    requires MInv(m) && c in m.tb && m.home[c] == Home(r, 1, b) && y < 512 && Find(m.tb, r, 4, b + y).Some?
    ensures |m.tb[c]| == 512 && m.tb[c][y].present && m.tb[c][y].perm == Find(m.tb, r, 4, b + y).value.perm
  {
    hide Find;
    assert TableOk(m, c);
    ShapedOf(m);
    hide MInv;
    var v := b + y;
    assert b % 512 == 0;
    LowIndex(b, y);
    FindPath(m, c, v);
    FindLow(m.tb, c, v);
  }

  lemma UniformFrom(m: Mem, r: nat, b: nat, c: nat, perm: Perm)
    requires MInv(m) && c in m.tb && m.home[c] == Home(r, 1, b)
    requires forall v :: b <= v < b + 512 ==>
               Find(m.tb, r, 4, v).Some? && Find(m.tb, r, 4, v).value.perm == perm
    ensures Uniform(m.tb[c])
  {
    hide MInv;
    hide Find;
    ShapedOf(m);
    forall y | 0 <= y < 512 ensures m.tb[c][y].present && m.tb[c][y].perm == perm {
      LowEntry(m, r, b, c, y);
      assert Find(m.tb, r, 4, b + y).value.perm == perm;
    }
  }
}
