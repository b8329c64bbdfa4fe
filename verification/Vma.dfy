/** kernel/vma: the VMAs of a task, found through a search tree and listed in order. */
module VmaLayer {
  import opened Common
  import opened RbTree
  import opened VmaLists

  class Space {
    var vmas: map<nat, Vma>
    var tree: Tree       // task_rb; rebalancing is any reshaping that keeps the order
    var list: seq<nat>   // task_mmap
    var heap: set<nat>   // what kmalloc can still hand out

    ghost predicate Valid()
      reads this
    {
      && list == Inorder(tree)
      && Known(list, vmas) && Distinct(list)
      && Sorted(Linked(list, vmas))
      && NULL !in heap && heap !! vmas.Keys
    }

    /** The VMAs that are in use or can be allocated. */
    ghost function Objects(): set<nat>
      reads this
    {
      heap + vmas.Keys
    }

    ghost function Vmas(): seq<Vma>
      requires Valid()
      reads this
    {
      Linked(list, vmas)
    }

    constructor (objects: set<nat>)
      requires NULL !in objects
      ensures Valid() && Vmas() == [] && heap == objects
    {
      vmas, tree, list, heap := map[], Leaf, [], objects;
    }

    /** find_vma */
    method FindVma(addr: nat) returns (r: Option<nat>, ghost i: nat)
      requires Valid()
      ensures FirstAbove(Vmas(), addr) <= |list|
      ensures r == if FirstAbove(Vmas(), addr) < |list| then Some(list[FirstAbove(Vmas(), addr)]) else None
      ensures i == FirstAbove(Vmas(), addr)
    {
      hide Inorder;
      hide Sorted;
      hide FirstAbove;
      hide Linked;
      hide Distinct;
      ghost var s := Vmas();
      r := None;
      var node := tree;
      ghost var lo, hi := 0, |list|;
      assert list[lo..hi] == list;
      while node.Node?
        invariant 0 <= lo <= hi <= |list| && list[lo..hi] == Inorder(node)
        invariant forall j :: 0 <= j < lo ==> s[j].end <= addr
        invariant hi < |list| ==> addr < s[hi].end
        invariant r == if hi < |list| then Some(list[hi]) else None
        decreases node
      {
        ghost var k := RootPlace(node, list, lo, hi);
        Ends(s, k, addr);
        var v := vmas[node.x];
        if addr < v.end {
          r := Some(node.x);
          if v.base <= addr {
            i := k;
            FirstAboveIs(s, addr, k);
            return;
          }
          hi := k;
          node := node.left;
        } else {
          lo := k + 1;
          node := node.right;
        }
      }
      EmptyOrder();
      i := hi;
      FirstAboveIs(s, addr, hi);
    }

    /** rb_balance, and the recolouring of rb_remove, as far as the order is concerned. */
    method Rebalance()
      modifies this`tree
      ensures Inorder(tree) == old(Inorder(tree))
    {
      var t: Tree := *;
      if Inorder(t) == Inorder(tree) {
        tree := t;
      }
    }

    /** insert_vma's way down to the empty place for v. */
    method FindPlace(v: Vma) returns (p: Path, ok: bool, ghost lo: nat)
      requires Valid() && v.base <= v.end
      ensures ok <==> forall x :: x in Vmas() ==> x.end <= v.base || v.end <= x.base
      ensures ok ==> lo <= |list| && list[..lo] == Before(p) && list[lo..] == After(p)
      ensures ok ==>
                (forall j :: 0 <= j < lo ==> Vmas()[j].end <= v.base)
                && (forall j :: lo <= j < |list| ==> v.end <= Vmas()[j].base)
      ensures ok && p.Step? ==>
                p.x in list && if p.d then lo > 0 && list[lo - 1] == p.x else lo < |list| && list[lo] == p.x
      ensures ok && p.Top? ==> list == []
    {
      hide Inorder;
      hide Sorted;
      hide Linked;
      hide Distinct;
      hide Before;
      hide After;
      hide Descending;
      ghost var s := Vmas();
      p, lo := Top, 0;
      var node := tree;
      ghost var hi: nat := |list|;
      DescendStart(list, s, v, tree);
      while node.Node?
        invariant Descending(list, s, v, p, node, lo, hi)
        decreases node
      {
        ghost var k := DescendRoot(list, s, v, p, node, lo, hi);
        var dir := v.base >= vmas[node.x].end;
        if !dir && v.end > vmas[node.x].base {
          ok := false;
          assert s[k] in s;
          return;
        }
        DescendStep(list, s, v, p, node, lo, hi, k, dir);
        p := Step(node.x, node.red, dir, Kid(node, !dir), p);
        if dir { lo := k + 1; } else { hi := k; }
        node := Kid(node, dir);
      }
      ok := true;
      DescendEnd(list, s, v, p, lo, hi);
      assert Descending(list, s, v, p, Leaf, lo, lo);
      DescendFacts(list, s, v, p, lo);
    }

    /** insert_vma */
    method InsertVma(id: nat, v: Vma) returns (ok: bool, ghost i: nat)
      requires Valid() && id != NULL && id !in list && id !in heap && v.base <= v.end <= USER_LIM
      modifies this
      ensures Valid() && heap == old(heap)
      ensures ok <==> forall x :: x in old(Vmas()) ==> x.end <= v.base || v.end <= x.base
      ensures !ok ==> list == old(list) && vmas == old(vmas)
      ensures ok ==> i <= |old(list)| && list == old(list[..i] + [id] + list[i..]) && vmas == old(vmas)[id := v]
      ensures ok ==> Vmas() == old(Vmas()[..i] + [v] + Vmas()[i..])
      ensures Objects() == if ok then old(Objects()) + {id} else old(Objects())
    {
      hide Inorder;
      hide Sorted;
      hide Linked;
      hide Distinct;
      hide Before;
      hide After;
      hide Plug;
      hide NextTo;
      hide Known;
      var p;
      p, ok, i := FindPlace(v);
      if !ok {
        return;
      }
      ghost var list' := list[..i] + [id] + list[i..];
      InsertSorted(Vmas(), i, v);
      InsertLinked(list, vmas, i, id, v);
      InsertDistinct(list, i, id);
      PlugLeaf(p, id);
      tree := Plug(p, Node(id, true, Leaf, Leaf));
      Rebalance();
      if p.Top? {
        list := [id];
      } else {
        NextToIs(list, p.x, p.d, id, i);
        list := NextTo(list, p.x, p.d, id);
      }
      assert list == list';
      vmas := vmas[id := v];
    }

    /** remove_vma and kfree */
    method RemoveVma(id: nat)
      requires Valid() && id in list
      modifies this
      ensures Valid() && Objects() == old(Objects())
      ensures var k := Pos(old(list), id);
              && list == old(list)[..k] + old(list)[k + 1..] && vmas == old(vmas) - {id} && heap == old(heap) + {id}
              && Vmas() == old(Vmas())[..k] + old(Vmas())[k + 1..]
    {
      hide Inorder;
      hide Sorted;
      hide Linked;
      hide Distinct;
      hide Known;
      hide Pos;
      var k := Pos(list, id);
      DropSorted(Vmas(), k);
      DropLinked(list, vmas, k);
      TreeRemoveOrder(tree, id);
      WithoutAt(list, k);
      tree := TreeRemove(tree, id);
      Rebalance();
      list := list[..k] + list[k + 1..];
      ListKnown(old(list), vmas, id);
      vmas := vmas - {id};
      heap := heap + {id};
    }

    /** kmalloc for a struct vma. */
    method Kmalloc() returns (r: Option<nat>)
      requires Valid()
      modifies this`heap
      ensures Valid() && (r.None? <==> old(heap) == {})
      ensures heap == if r.None? then old(heap) else old(heap) - {r.value}
      ensures r.Some? ==> r.value in old(heap) && Objects() == old(Objects()) - {r.value} && r.value in old(Objects())
    {
      hide Inorder;
      hide Sorted;
      hide Linked;
      hide Distinct;
      hide Known;
      r := None;
      if heap != {} {
        var x :| x in heap;
        heap := heap - {x};
        r := Some(x);
      }
    }

    /** split_vma */
    method SplitVma(lhs: nat, addr: nat) returns (r: Option<nat>)
      requires Valid() && lhs in list
      modifies this
      ensures Valid()
      ensures r.None? ==> list == old(list) && vmas == old(vmas) && lhs in vmas && Straddles(vmas[lhs], addr)
      ensures r.Some? ==> SplitResult(old(list), list, old(Vmas()), Vmas(), Pos(old(list), lhs), addr, r.value)
      ensures lhs in old(vmas) && (r.None? <==> Straddles(old(vmas)[lhs], addr) && old(heap) == {})
      ensures Objects() == old(Objects()) && (r.None? ==> heap == old(heap))
      ensures r.Some? && !Straddles(old(vmas)[lhs], addr) ==> r.value == lhs && vmas == old(vmas) && heap == old(heap)
      ensures r.Some? && Straddles(old(vmas)[lhs], addr) ==>
                && r.value in old(heap) && heap == old(heap) - {r.value} && var v := old(vmas)[lhs];
                   vmas == old(vmas)[lhs := Vma(v.name, v.base, addr, v.src, addr - v.base, v.flags)]
                                    [r.value := Vma(v.name, addr, v.end, v.src, v.end - addr, v.flags)]
      ensures forall a :: Meaning(Vmas(), a) == Meaning(old(Vmas()), a)
    {
      hide Inorder;
      hide Sorted;
      hide Linked;
      hide Distinct;
      hide Known;
      hide Pos;
      hide SplitResult;
      hide Meaning;
      ListKnown(list, vmas, lhs);
      ghost var s, k, l0 := Vmas(), Pos(list, lhs), list;
      var v := vmas[lhs];
      if addr <= v.base || addr >= v.end {
        NoSplit(list, s, k, addr);
        return Some(lhs);
      }
      r := Kmalloc();
      if r.None? {
        return;
      }
      SplitSorted(s, k, addr);
      PartsAre(v, addr);
      UpdateLinked(list, vmas, k, LeftPart(v, addr));
      FreshId(list, vmas, r.value);
      NoneMeets(s, k, addr);
      vmas := vmas[lhs := LeftPart(v, addr)];
      ghost var j;
      var ok;
      ok, j := InsertVma(r.value, RightPart(v, addr));
      SplitPlace(s, k, addr, j);
      SplitIs(l0, s, k, addr, r.value);
      forall a ensures Meaning(Vmas(), a) == Meaning(s, a) { SplitSame(l0, list, s, Vmas(), k, addr, r.value, a); }
    }

    /** split_vmas */
    method SplitVmas(id: nat, b: nat, e: nat) returns (r: Option<nat>)
      requires Valid() && id in list
      modifies this
      ensures Valid()
      ensures id in old(vmas) && (r.None? ==> Straddles(old(vmas)[id], b) || Straddles(old(vmas)[id], e))
      ensures r.None? <==> |old(heap)| < Cuts(old(vmas)[id], b, e)
      ensures Objects() == old(Objects()) && (r.None? ==> heap == {})
      ensures r.Some? ==> forall x :: x in Vmas() && x !in old(Vmas()) ==> PartOf(x, old(vmas)[id])
      ensures r.Some? ==> SplitTwice(old(list), list, old(Vmas()), Vmas(), Pos(old(list), id), b, e, r.value)
      ensures forall a :: Meaning(Vmas(), a) == Meaning(old(Vmas()), a)
    {
      hide Inorder;
      hide Sorted;
      hide Linked;
      hide Distinct;
      hide Known;
      hide Pos;
      hide SplitResult;
      hide SplitTwice;
      hide Meaning;
      hide PartOf;
      hide Rest;
      hide Cuts;
      ListKnown(list, vmas, id);
      ghost var k, s0, l0, v0, h0 := Pos(list, id), Vmas(), list, vmas[id], heap;
      SortedAt(s0, k);
      CutsTwo(v0, b, e);
      r := Some(id);
      if vmas[id].base < b {
        r := SplitVma(id, b);
        if r.None? {
          return;
        }
        if Straddles(v0, b) { SizeLess(h0, r.value); }
      } else {
        NoSplit(list, s0, k, b);
      }
      ghost var s1, l1 := Vmas(), list;
      ghost var j := SplitFacts(l0, l1, s0, s1, k, b, r.value);
      PosIs(list, j);
      ListKnown(list, vmas, r.value);
      if vmas[r.value].end > e {
        var rhs := SplitVma(r.value, e);
        if rhs.None? {
          return None;
        }
        SplitAgain(l0, l1, list, s0, s1, Vmas(), k, j, b, e, r.value, rhs.value);
      } else {
        NoSplit(list, s1, j, e);
        SplitAgain(l0, l1, list, s0, s1, Vmas(), k, j, b, e, r.value, r.value);
      }
      TwiceParts(l0, list, s0, Vmas(), k, b, e, r.value);
    }

    /** do_remove_vma */
    method DoRemoveVma(id: nat, b: nat, e: nat) returns (ok: bool)
      requires Valid() && id in list && b < vmas[id].end && vmas[id].base < e
      modifies this
      ensures Valid()
      ensures !ok ==> Straddles(old(vmas)[id], b) || Straddles(old(vmas)[id], e)
      ensures !ok <==> |old(heap)| < Cuts(old(vmas)[id], b, e)
      ensures Objects() == old(Objects()) && (!ok ==> heap == {})
      ensures !ok ==> forall a :: Meaning(Vmas(), a) == Meaning(old(Vmas()), a)
      ensures ok ==> CutResult(old(list), list, old(Vmas()), Vmas(), Pos(old(list), id), b, e)
    {
      hide Inorder;
      hide Sorted;
      hide Linked;
      hide Distinct;
      hide Known;
      hide Pos;
      hide SplitTwice;
      hide CutResult;
      hide Meaning;
      hide PartOf;
      hide Cuts;
      hide Objects;
      ListKnown(list, vmas, id);
      ghost var k, s0, l0 := Pos(list, id), Vmas(), list;
      var middle := SplitVmas(id, b, e);
      if middle.None? {
        return false;
      }
      ghost var s1, l1 := Vmas(), list;
      ghost var j := TwiceFacts(l0, l1, s0, s1, k, b, e, middle.value);
      PosIs(list, j);
      RemoveVma(middle.value);
      CutIs(l0, l1, list, s0, s1, Vmas(), k, j, b, e, middle.value);
      ok := true;
    }

    /** list_next */
    method Next(id: nat) returns (r: Option<nat>)
      requires Valid() && id in list
      ensures r == var k := Pos(list, id) + 1; if k < |list| then Some(list[k]) else None
    {
      var k := Pos(list, id) + 1;
      r := if k < |list| then Some(list[k]) else None;
    }

    /** remove_vma_range: walk_vma_range with do_remove_vma. met says whether any VMA meets the
        range; ok is false when VMA `at` had to be split and there was no memory for it. */
    method RemoveVmaRange(base: nat, size: nat) returns (met: bool, ok: bool, ghost at: nat)
      requires Valid() && base < LIMIT && size < LIMIT
      modifies this
      ensures Valid()
      ensures met <==> Meets(old(Vmas()), base, (base + size) % LIMIT)
      ensures !met ==> ok && list == old(list) && vmas == old(vmas)
      ensures met && ok ==> Vmas() == CutOutAll(old(Vmas()), base, (base + size) % LIMIT)
      ensures Objects() == old(Objects()) && (!ok ==> heap == {})
      ensures !ok ==> met && StoppedAt(old(Vmas()), Vmas(), at, base, (base + size) % LIMIT)
    {
      hide Inorder;
      hide Sorted;
      hide Linked;
      hide Distinct;
      hide Known;
      hide Pos;
      hide CutOutAll;
      hide CutResult;
      hide FirstAbove;
      hide Meets;
      hide Removing;
      hide StoppedAt;
      hide Objects;
      hide Cuts;
      ghost var s0, l0 := Vmas(), list;
      var end := (base + size) % LIMIT;
      var v;
      ghost var k;
      v, k := FindVma(base);
      MeetsIff(s0, k, base, end);
      at := k;
      if v.None? {
        return false, true, at;
      }
      ListAt(list, vmas, k);
      if end <= vmas[v.value].base {
        return false, true, at;
      }
      met, ok := true, true;
      RemovingStart(s0, l0, k, base, end);
      while v.Some? && vmas[v.value].base < end
        invariant Objects() == old(Objects())
        invariant Valid() && k <= |l0| && Removing(s0, l0, Vmas(), list, k, base, end)
        invariant v == if k < |l0| then Some(l0[k]) else None
        invariant v.Some? ==> v.value in list && v.value in vmas && vmas[v.value] == s0[k]
        decreases |l0| - k
      {
        ghost var n := RemovingFacts(s0, l0, Vmas(), list, k, base, end);
        PosIs(list, n);
        var next := Next(v.value);
        ghost var s1, l1 := Vmas(), list;
        ok := DoRemoveVma(v.value, base, end);
        if !ok {
          at := k;
          RemovingStopped(s0, l0, s1, l1, Vmas(), k, base, end);
          return;
        }
        RemovingNext(s0, l0, s1, l1, Vmas(), list, k, n, base, end);
        k := k + 1;
        v := next;
        if v.Some? { NextKnown(s0, l0, Vmas(), list, vmas, k, base, end); }
      }
      RemovingEnd(s0, l0, Vmas(), list, k, base, end);
    }

    /** merge_vma of two neighbours */
    method MergeVma(lhs: nat, rhs: nat) returns (merged: bool)
      requires Valid() && lhs in list && rhs in list && Pos(list, rhs) == Pos(list, lhs) + 1
      modifies this
      ensures Valid() && lhs in list
      ensures merged == Mergeable(old(vmas)[lhs], old(vmas)[rhs])
      ensures !merged ==> list == old(list) && vmas == old(vmas) && heap == old(heap)
      ensures merged ==> heap == old(heap) + {rhs} && Objects() == old(Objects())
      ensures merged ==> list == old(list)[..Pos(old(list), rhs)] + old(list)[Pos(old(list), rhs) + 1..]
      ensures merged ==> Vmas() == MergeAt(old(Vmas()), Pos(old(list), lhs))
    {
      hide Inorder;
      hide Sorted;
      hide Linked;
      hide Distinct;
      hide Known;
      hide Pos;
      hide Without;
      hide TreeRemove;
      ListKnown(list, vmas, lhs);
      ListKnown(list, vmas, rhs);
      var l, r := vmas[lhs], vmas[rhs];
      merged := false;
      if l.base % PAGE_SIZE != 0 || l.end % PAGE_SIZE != 0 || r.base % PAGE_SIZE != 0 || r.end % PAGE_SIZE != 0 {
        return;
      }
      if l.end != r.base || l.flags != r.flags || l.name != r.name || l.src != r.src || l.len != r.len {
        return;
      }
      merged := true;
      ghost var s, k := Vmas(), Pos(list, lhs);
      MergeSorted(s, k);
      MergedLink(list, vmas, k, r.end);
      TreeRemoveOrder(tree, rhs);
      WithoutAt(list, k + 1);
      vmas := vmas[lhs := l.(end := r.end)];
      tree := TreeRemove(tree, rhs);
      Rebalance();
      list := list[..Pos(list, rhs)] + list[Pos(list, rhs) + 1..];
      vmas := vmas - {rhs};
      heap := heap + {rhs};
    }

    /** merge_vma of VMA k and the one after it, if there is one. */
    method MergeAfter(k: nat) returns (merged: bool)
      requires Valid() && k < |list|
      modifies this
      ensures Valid() && merged == MergesAt(old(Vmas()), k) && Vmas() == MergedWith(old(Vmas()), k)
      ensures k < |list| && list[k] == old(list[k]) && Pos(list, list[k]) == k && Objects() == old(Objects())
      ensures forall a :: Meaning(Vmas(), a) == Meaning(old(Vmas()), a)
    {
      hide Inorder;
      hide Sorted;
      hide Linked;
      hide Known;
      hide Meaning;
      hide Mergeable;
      hide MergeAt;
      hide Pos;
      PosIs(list, k);
      hide Distinct;
      merged := false;
      if k + 1 == |list| {
        return;
      }
      ghost var s := Vmas();
      Neighbour(list, vmas, k);
      merged := MergeVma(list[k], list[k + 1]);
      PosIs(list, k);
      if merged {
        forall a ensures Meaning(Vmas(), a) == Meaning(s, a) { MergeSame(s, k, a); }
      }
    }

    /** merge_vmas: tries the neighbour before and the neighbour after. */
    method MergeVmas(id: nat) returns (r: nat)
      requires Valid() && id in list
      modifies this
      ensures Valid() && r in list && Objects() == old(Objects())
      ensures Vmas() == MergedAround(old(Vmas()), Pos(old(list), id))
      ensures Pos(list, r) == MergedSpot(old(Vmas()), Pos(old(list), id))
      ensures forall a :: Meaning(Vmas(), a) == Meaning(old(Vmas()), a)
    {
      hide Inorder;
      hide Sorted;
      hide Linked;
      hide Distinct;
      hide Known;
      hide Meaning;
      hide MergesAt;
      hide MergedWith;
      hide Pos;
      var k := Pos(list, id);
      ghost var s := Vmas();
      MergedFirst(s);
      if k > 0 {
        var merged := MergeAfter(k - 1);
        if merged {
          k := k - 1;
        }
      }
      SpotBound(s, Vmas(), Pos(old(list), id), k);
      r := list[k];
      var merged := MergeAfter(k);
    }

    /** add_executable_vma at a given address. Where the place is taken, the new VMA is not given back. */
    method AddVma(v: Vma) returns (r: Option<nat>, ghost i: nat)
      requires Valid() && v.base <= v.end <= USER_LIM
      modifies this
      ensures Valid()
      ensures r.Some? <==> old(heap) != {} && forall x :: x in old(Vmas()) ==> x.end <= v.base || v.end <= x.base
      ensures r.None? ==> list == old(list) && vmas == old(vmas) && Vmas() == old(Vmas())
      ensures r.Some? ==> Objects() == old(Objects())
      ensures r.None? && old(heap) != {} ==>
                Objects() < old(Objects()) && |Objects()| == |old(Objects())| - 1 && |heap| == |old(heap)| - 1
      ensures r.Some? ==> i <= |old(list)| && Vmas() == MergedAround(old(Vmas()[..i] + [v] + Vmas()[i..]), i)
      ensures r.Some? ==> var s := old(Vmas()[..i] + [v] + Vmas()[i..]);
                          r.value in vmas && vmas[r.value].base == s[MergedSpot(s, i)].base
      ensures r.Some? ==> r.value in list && forall a ::
        Meaning(Vmas(), a) == if Holds(v, a) then Some((v.name, v.flags)) else Meaning(old(Vmas()), a)
    {
      hide Inorder;
      hide Sorted;
      hide Linked;
      hide Distinct;
      hide Known;
      hide Meaning;
      hide Pos;
      hide MergedAround;
      hide MergedSpot;
      hide Objects;
      i := 0;
      r := Kmalloc();
      if r.None? {
        return;
      }
      FreshId(list, vmas, r.value);
      ghost var s := Vmas();
      var ok;
      ok, i := InsertVma(r.value, v);
      if !ok {
        SizeLess(old(heap), r.value);
        SizeLess(old(Objects()), r.value);
        return None, i;
      }
      PosIs(list, i);
      ghost var s1 := Vmas();
      forall a ensures Meaning(s1, a) == if Holds(v, a) then Some((v.name, v.flags)) else Meaning(s, a)
      { InsertMeaning(s, i, v, a); }
      var m := MergeVmas(r.value);
      MergedStart(s1, i);
      ListKnown(list, vmas, m);
      r := Some(m);
    }

    /** check_user_vma_range: walk_vma_range with do_check_user_vma. */
    method CheckUserVmaRange(base: nat, size: nat, flags: bv32) returns (ok: bool, fault: nat)
      requires Valid() && 0 < size && base + size < LIMIT
      ensures ok <==> Accessible(Vmas(), base, base + size, flags) && EmptyPermit(Vmas(), base, base + size, flags)
      ensures !ok ==> FirstBad(Vmas(), base, base + size, flags, fault)
    {
      hide Inorder;
      hide Sorted;
      hide Linked;
      hide Distinct;
      hide Known;
      hide Accessible;
      hide EmptyPermit;
      hide Checked;
      hide FirstAbove;
      hide Permits;
      hide FirstBad;
      hide Pos;
      ghost var s := Vmas();
      var end: nat, last: nat := base + size, base;
      var v;
      ghost var k;
      v, k := FindVma(base);
      CheckedStart(s, k, base, flags);
      ghost var first := k;
      ok, fault := false, last;
      if v.None? {
        CheckedGap(s, first, k, base, end, flags, last);
        return;
      }
      ListAt(list, vmas, k);
      if end <= vmas[v.value].base {
        CheckedGap(s, first, k, base, end, flags, last);
        return;
      }
      while v.Some? && vmas[v.value].base < end
        invariant k <= |list| && Checked(s, first, k, base, flags, last)
        invariant v == if k < |list| then Some(list[k]) else None
        invariant v.Some? ==> v.value in list && v.value in vmas && vmas[v.value] == s[k]
        decreases |list| - k
      {
        PosIs(list, k);
        CheckedLast(s, first, k, base, flags, last);
        if vmas[v.value].base > last {
          CheckedGap(s, first, k, base, end, flags, last);
          return false, last;
        }
        if !Permits(vmas[v.value], flags) {
          CheckedBad(s, first, k, base, end, flags, last);
          FirstBadOnly(s, base, end, flags, last, last);
          return false, last;
        }
        CheckedNext(s, first, k, base, flags, last);
        last := vmas[v.value].end;
        v := Next(v.value);
        k := k + 1;
        if v.Some? { ListAt(list, vmas, k); }
      }
      CheckedLast(s, first, k, base, flags, last);
      if last < end {
        CheckedGap(s, first, k, base, end, flags, last);
        return false, last;
      }
      CheckedAll(s, first, k, base, end, flags, last);
      ok := true;
    }

    /** sys_mquery, apart from the check of the user's buffer and the page size it reports. */
    method Mquery(addr: nat) returns (r: Option<Info>)
      requires Valid()
      ensures r.None? <==> addr >= USER_LIM
      ensures r.Some? ==> r.value == QueryAt(Vmas(), addr) && r.value.base <= addr < r.value.end
    {
      hide Inorder;
      hide Sorted;
      hide Linked;
      hide Distinct;
      hide Known;
      hide FirstAbove;
      hide Pos;
      if addr >= USER_LIM {
        return None;
      }
      ghost var s := Vmas();
      QueryFacts(s, addr);
      var v;
      ghost var i;
      v, i := FindVma(addr);
      if v.None? {
        if list == [] {
          return Some(Info(0, USER_LIM, None));
        }
        ListAt(list, vmas, |list| - 1);
        return Some(Info(vmas[list[|list| - 1]].end, USER_LIM, None));
      }
      ListAt(list, vmas, i);
      var vma := vmas[v.value];
      if addr < vma.base {
        PosIs(list, i);
        var k := Pos(list, v.value);
        if k == 0 {
          return Some(Info(0, vma.base, None));
        }
        ListAt(list, vmas, k - 1);
        return Some(Info(vmas[list[k - 1]].end, vma.base, None));
      }
      r := Some(Info(vma.base, vma.end, Some(vma)));
    }

    /** print_vmas: the lines it prints tile the user half, and show each VMA that is not empty once. */
    method PrintVmas() returns (lines: seq<Info>)
      requires Valid()
      ensures Tiles(lines, 0, USER_LIM)
      ensures Reported(lines) == NonEmpty(Vmas())
    {
      hide Inorder;
      hide Sorted;
      hide Linked;
      hide Distinct;
      hide Known;
      hide Boundary;
      hide FirstAbove;
      hide QueryAt;
      hide NonEmpty;
      ghost var s := Vmas();
      var addr: nat := 0;
      lines := [];
      BoundaryStart(s);
      AboveBound(s, 0);
      while addr < USER_LIM
        invariant addr <= USER_LIM && (addr < USER_LIM ==> Boundary(s, addr)) && FirstAbove(s, addr) <= |s|
                  && Tiles(lines, 0, addr)
        invariant Reported(lines) == NonEmpty(s[..FirstAbove(s, addr)])
        decreases USER_LIM - addr
      {
        var info := Mquery(addr);
        BoundaryNext(s, addr);
        LineNext(lines, info.value);
        lines := lines + [info.value];
        addr := info.value.end;
      }
      BoundaryEnd(s);
    }
  }
}
