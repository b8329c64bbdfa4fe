/** The VMAs of a task as a sorted list of page ranges, as far as page faults and munmap see them. */
module Areas {
  import opened Common
  import opened Paging

  /** A VMA without a backing file, in pages. */
  datatype Area = Area(base: nat, end: nat, flags: Flags)
  datatype Flags = Flags(read: bool, write: bool, exec: bool)

  /** What mmap grants: nothing without reading, and never both writing and executing. */
  predicate FlagsOk(flags: Flags) { (flags.write || flags.exec ==> flags.read) && !(flags.write && flags.exec) }

  /** Address 0 stands for "anywhere" in add_vma, so no VMA begins there. */
  ghost predicate AreaOk(a: Area) { 1 <= a.base <= a.end <= USER_PAGES && FlagsOk(a.flags) }

  /** Sorted and disjoint. */
  ghost predicate AreasOk(areas: seq<Area>) {
    && (forall i :: 0 <= i < |areas| ==> AreaOk(areas[i]))
    && (forall i, j :: 0 <= i < j < |areas| ==> areas[i].end <= areas[j].base)
  }

  /** No VMA is empty. */
  ghost predicate Solid(areas: seq<Area>) { forall i :: 0 <= i < |areas| ==> areas[i].base < areas[i].end }

  /** task_find_vma, and the test that the address is not below the VMA it finds. */
  function AreaAt(areas: seq<Area>, v: nat): (r: Option<Area>)
    ensures r.Some? ==> r.value.base <= v < r.value.end
  {
    if areas == [] then None
    else if v < areas[0].end then if areas[0].base <= v then Some(areas[0]) else None
    else AreaAt(areas[1..], v)
  }

  function Lookup(areas: seq<Area>, v: nat): Option<Flags> {
    match AreaAt(areas, v)
    case None => None
    case Some(a) => Some(a.flags)
  }

  /** The VMA found for v is the one for every page in it. */
  lemma {:induction false} AreaFound(areas: seq<Area>, v: nat, w: nat)
    requires AreasOk(areas) && AreaAt(areas, v).Some?
    ensures var a := AreaAt(areas, v).value;
            && a in areas && a.base <= v < a.end <= USER_PAGES && FlagsOk(a.flags)
            && (a.base <= w < a.end ==> AreaAt(areas, w) == Some(a))
    decreases |areas|
  {
    if areas[0].end <= v {
      assert AreasOk(areas[1..]);
      AreaFound(areas[1..], v, w);
    }
  }

  lemma {:induction false} AreaIs(areas: seq<Area>, i: nat, v: nat)
    requires AreasOk(areas) && i < |areas| && areas[i].base <= v < areas[i].end
    ensures AreaAt(areas, v) == Some(areas[i])
    decreases i
  {
    if i > 0 {
      assert AreasOk(areas[1..]);
      AreaIs(areas[1..], i - 1, v);
    }
  }

  lemma LookupOk(areas: seq<Area>, v: nat)
    requires AreasOk(areas) && Lookup(areas, v).Some?
    ensures FlagsOk(Lookup(areas, v).value) && v < USER_PAGES
  {
    AreaFound(areas, v, v);
  }

  /** split_vmas, and the removal of the middle part: what is left of a VMA. With an empty range
      nothing is cut off at its end, so the rest of the VMA goes too. */
  function Cut(a: Area, lo: nat, hi: nat): seq<Area> {
    if a.end <= lo || hi <= a.base then [a]
    else (if a.base < lo then [a.(end := lo)] else []) + (if lo < hi < a.end then [a.(base := hi)] else [])
  }

  function CutAll(areas: seq<Area>, lo: nat, hi: nat): seq<Area> {
    if areas == [] then [] else Cut(areas[0], lo, hi) + CutAll(areas[1..], lo, hi)
  }

  lemma CutAllOf(areas: seq<Area>, lo: nat, hi: nat)
    ensures areas == [] ==> CutAll(areas, lo, hi) == []
    ensures areas != [] ==> CutAll(areas, lo, hi) == Cut(areas[0], lo, hi) + CutAll(areas[1..], lo, hi)
    ensures areas != [] && (areas[0].end <= lo || hi <= areas[0].base) ==>
              CutAll(areas, lo, hi) == [areas[0]] + CutAll(areas[1..], lo, hi)
  {
  }

  lemma {:induction false} CutBelow(areas: seq<Area>, k: nat, lo: nat, hi: nat)
    requires k <= |areas| && forall i :: 0 <= i < k ==> areas[i].end <= lo
    ensures areas[..k] + CutAll(areas[k..], lo, hi) == CutAll(areas, lo, hi)
    decreases k
  {
    hide CutAll;
    hide Cut;
    if k == 0 {
      assert areas[0..] == areas && areas[..0] == [];
    } else {
      var rest := areas[1..];
      CutBelow(rest, k - 1, lo, hi);
      assert rest[k - 1..] == areas[k..];
      assert areas[..k] == [areas[0]] + rest[..k - 1];
      CutAllOf(areas, lo, hi);
    }
  }

  lemma CutNext(areas: seq<Area>, k: nat, lo: nat, hi: nat, done: seq<Area>)
    requires k < |areas| && done + CutAll(areas[k..], lo, hi) == CutAll(areas, lo, hi)
    ensures done + Cut(areas[k], lo, hi) + CutAll(areas[k + 1..], lo, hi) == CutAll(areas, lo, hi)
  {
    assert areas[k..][1..] == areas[k + 1..];
  }

  lemma {:induction false} CutAbove(areas: seq<Area>, lo: nat, hi: nat)
    requires AreasOk(areas) && (areas != [] ==> hi <= areas[0].base)
    ensures CutAll(areas, lo, hi) == areas
    decreases |areas|
  {
    hide CutAll;
    hide Cut;
    CutAllOf(areas, lo, hi);
    if areas != [] {
      assert AreasOk(areas[1..]);
      CutAbove(areas[1..], lo, hi);
      assert areas == [areas[0]] + areas[1..];
    }
  }

  ghost predicate Above(areas: seq<Area>, x: nat) { forall i :: 0 <= i < |areas| ==> x <= areas[i].base }

  lemma AboveLess(s: seq<Area>, x: nat, y: nat)
    requires Above(s, x) && y <= x
    ensures Above(s, y)
  {
  }

  lemma Prepend(a: Area, s: seq<Area>, v: nat)
    requires AreasOk(s) && AreaOk(a) && Above(s, a.end)
    ensures AreasOk([a] + s) && Above([a] + s, a.base)
    ensures a.end <= v ==> Lookup([a] + s, v) == Lookup(s, v)
    ensures v < a.end ==> Lookup([a] + s, v) == if a.base <= v then Some(a.flags) else None
  {
    assert ([a] + s)[1..] == s;
  }

  lemma {:induction false} AboveNone(s: seq<Area>, x: nat, v: nat)
    requires AreasOk(s) && Above(s, x) && v < x
    ensures Lookup(s, v).None?
    decreases |s|
  {
    if s != [] { AboveNone(s[1..], x, v); }
  }

  lemma Tail(s: seq<Area>, x: nat)
    requires AreasOk(s) && s != [] && Above(s, x)
    ensures AreasOk(s[1..]) && Above(s[1..], s[0].end) && s == [s[0]] + s[1..]
    ensures AreaOk(s[0]) && x <= s[0].base
  {
  }

  /** Cutting takes exactly the range out of the VMAs. */
  lemma {:induction false} CutLookup(areas: seq<Area>, lo: nat, hi: nat, x: nat, v: nat)
    requires AreasOk(areas) && Above(areas, x) && lo < hi
    ensures AreasOk(CutAll(areas, lo, hi)) && Above(CutAll(areas, lo, hi), x)
    ensures Lookup(CutAll(areas, lo, hi), v) == if lo <= v < hi then None else Lookup(areas, v)
    decreases |areas|
  {
    hide AreasOk;
    hide Above;
    hide Cut;
    if areas != [] {
      hide Lookup;
      Tail(areas, x);
      CutLookup(areas[1..], lo, hi, areas[0].end, v);
      CutOne(areas[0], areas[1..], CutAll(areas[1..], lo, hi), lo, hi, v);
      AboveLess(CutAll(areas, lo, hi), areas[0].base, x);
    }
  }

  lemma {:induction false} CutSolid(areas: seq<Area>, lo: nat, hi: nat)
    requires Solid(areas)
    ensures Solid(CutAll(areas, lo, hi))
    decreases |areas|
  {
    if areas != [] {
      CutSolid(areas[1..], lo, hi);
      assert areas[0].base < areas[0].end;
    }
  }

  lemma CutOne(a: Area, rest: seq<Area>, s: seq<Area>, lo: nat, hi: nat, v: nat)
    requires AreasOk(rest) && AreasOk(s) && Above(s, a.end) && Above(rest, a.end)
             && AreaOk(a) && lo < hi
    requires Lookup(s, v) == if lo <= v < hi then None else Lookup(rest, v)
    ensures AreasOk(Cut(a, lo, hi) + s) && Above(Cut(a, lo, hi) + s, a.base)
    ensures Lookup(Cut(a, lo, hi) + s, v) == if lo <= v < hi then None else Lookup([a] + rest, v)
  {
    hide Lookup;
    hide AreasOk;
    hide Above;
    Prepend(a, rest, v);
    if v < a.end { AboveNone(s, a.end, v); }
    if a.end <= lo || hi <= a.base {
      Prepend(a, s, v);
    } else {
      var right := if hi < a.end then [a.(base := hi)] + s else s;
      CutRight(a, s, hi, v);
      AboveLess(right, if hi < a.end then hi else a.end, if lo < a.base then a.base else lo);
      if a.base < lo {
        Prepend(a.(end := lo), right, v);
        assert Cut(a, lo, hi) + s == [a.(end := lo)] + right;
      } else {
        AboveLess(right, if lo < a.base then a.base else lo, a.base);
        assert Cut(a, lo, hi) + s == right;
      }
    }
  }

  lemma CutRight(a: Area, s: seq<Area>, hi: nat, v: nat)
    requires AreasOk(s) && Above(s, a.end) && a.base < hi && AreaOk(a)
    requires v < a.end ==> Lookup(s, v).None?
    ensures var right := if hi < a.end then [a.(base := hi)] + s else s;
            && AreasOk(right) && Above(right, if hi < a.end then hi else a.end)
            && Lookup(right, v) == if hi <= v < a.end then Some(a.flags) else Lookup(s, v)
  {
    hide Lookup;
    hide AreasOk;
    hide Above;
    if hi < a.end { Prepend(a.(base := hi), s, v); }
  }

  /** A VMA reaches over the start of page v. */
  predicate Straddled(areas: seq<Area>, v: nat) { exists a :: a in areas && a.base < v < a.end }

  /** How far the removal of the empty range at v goes. */
  function Reach(areas: seq<Area>, v: nat): (r: nat)
    ensures v <= r
  {
    match AreaAt(areas, v)
    case None => v
    case Some(a) => if a.base < v then a.end else v
  }

  lemma {:induction false} StraddledReach(areas: seq<Area>, v: nat, w: nat)
    requires AreasOk(areas)
    ensures Straddled(areas, v) <==> v < Reach(areas, v)
    ensures v <= w < Reach(areas, v) ==> Lookup(areas, w).Some? && w < USER_PAGES
    decreases |areas|
  {
    if AreaAt(areas, v).Some? {
      AreaFound(areas, v, w);
    }
    if areas != [] && areas[0].end <= v {
      assert AreasOk(areas[1..]);
      StraddledReach(areas[1..], v, w);
      assert forall a :: a in areas[1..] ==> a in areas;
      assert forall a :: a in areas ==> a == areas[0] || a in areas[1..];
    }
  }

  /** An empty range takes everything from v to the end of the VMA that v is inside of, if any. */
  lemma {:induction false} CutEmpty(areas: seq<Area>, v: nat)
    requires AreasOk(areas)
    ensures CutAll(areas, v, v) == if v < Reach(areas, v) then CutAll(areas, v, Reach(areas, v)) else areas
    decreases |areas|
  {
    hide CutAll;
    if areas == [] || v <= areas[0].base {
      CutAbove(areas, v, v);
      StraddledReach(areas, v, v);
    } else {
      var a, rest := areas[0], areas[1..];
      assert AreasOk(rest) && areas == [a] + rest;
      CutAllOf(areas, v, v);
      CutAllOf(areas, v, Reach(areas, v));
      if a.end <= v {
        CutEmpty(rest, v);
      } else {
        CutAbove(rest, v, v);
        CutAbove(rest, v, a.end);
      }
    }
  }

  function WithArea(areas: seq<Area>, k: nat, a: Area): seq<Area>
    requires k <= |areas|
  {
    areas[..k] + [a] + areas[k..]
  }

  lemma InsertTail(areas: seq<Area>, k: nat, a: Area)
    requires k <= |areas|
    ensures k == 0 ==> WithArea(areas, k, a) == [a] + areas
    ensures k > 0 ==> WithArea(areas, k, a) == [areas[0]] + WithArea(areas[1..], k - 1, a)
  {
    if k > 0 {
      assert areas[..k] == [areas[0]] + areas[1..][..k - 1] && areas[k..] == areas[1..][k - 1..];
    }
  }

  /** Where insert_vma puts a new VMA. */
  lemma {:induction false} InsertLookup(areas: seq<Area>, k: nat, a: Area, x: nat, v: nat)
    requires AreasOk(areas) && Above(areas, x) && k <= |areas| && AreaOk(a) && x <= a.base
    requires forall i :: 0 <= i < k ==> areas[i].end <= a.base
    requires k < |areas| ==> a.end <= areas[k].base
    ensures AreasOk(WithArea(areas, k, a)) && Above(WithArea(areas, k, a), x)
    ensures Lookup(WithArea(areas, k, a), v) == if a.base <= v < a.end then Some(a.flags) else Lookup(areas, v)
    decreases k
  {
    hide Lookup;
    InsertTail(areas, k, a);
    hide WithArea;
    if k == 0 {
      assert Above(areas, a.end);
      hide AreasOk;
      hide Above;
      Prepend(a, areas, v);
      if v < a.end { AboveNone(areas, a.end, v); }
      AboveLess(WithArea(areas, k, a), a.base, x);
    } else {
      hide AreasOk;
      hide Above;
      Tail(areas, x);
      InsertLookup(areas[1..], k - 1, a, areas[0].end, v);
      Prepend(areas[0], areas[1..], v);
      Prepend(areas[0], WithArea(areas[1..], k - 1, a), v);
      AboveLess(WithArea(areas, k, a), areas[0].base, x);
    }
  }

  /** merge_vma of VMA k and the next one. Whether names, sources and lengths agree too is not
      part of an Area. */
  function MergeNext(areas: seq<Area>, k: nat, alike: bool): seq<Area> {
    if k + 1 < |areas| && areas[k].end == areas[k + 1].base && areas[k].flags == areas[k + 1].flags && alike then
      areas[..k] + [areas[k].(end := areas[k + 1].end)] + areas[k + 2..]
    else areas
  }

  /** No page gets another VMA's flags. */
  ghost predicate SameLookup(areas: seq<Area>, areas': seq<Area>) {
    forall v: nat {:trigger Lookup(areas', v)} :: Lookup(areas', v) == Lookup(areas, v)
  }

  ghost predicate Below(areas: seq<Area>, x: nat) { forall i :: 0 <= i < |areas| ==> areas[i].end <= x }

  lemma {:induction false} MergeLookup(areas: seq<Area>, k: nat, alike: bool, x: nat, v: nat)
    requires AreasOk(areas) && Above(areas, x)
    ensures AreasOk(MergeNext(areas, k, alike)) && Above(MergeNext(areas, k, alike), x)
    ensures Lookup(MergeNext(areas, k, alike), v) == Lookup(areas, v)
    decreases k
  {
    hide Lookup;
    hide AreasOk;
    hide Above;
    var s := MergeNext(areas, k, alike);
    if s != areas {
      Tail(areas, x);
      var a, rest := areas[0], areas[1..];
      Prepend(a, rest, v);
      if k == 0 {
        MergeFirst(a, rest, v);
        assert s == [a.(end := rest[0].end)] + rest[1..];
      } else {
        MergeLookup(rest, k - 1, alike, a.end, v);
        MergeTail(areas, k, alike);
        Prepend(a, MergeNext(rest, k - 1, alike), v);
      }
      AboveLess(s, a.base, x);
    }
  }

  lemma MergeTail(areas: seq<Area>, k: nat, alike: bool)
    requires 0 < k && k + 1 < |areas|
    ensures MergeNext(areas, k, alike) == [areas[0]] + MergeNext(areas[1..], k - 1, alike)
  {
    var rest := areas[1..];
    assert rest[k - 1] == areas[k] && rest[k] == areas[k + 1];
    assert areas[..k] == [areas[0]] + rest[..k - 1] && areas[k + 2..] == rest[k + 1..];
    assert areas == [areas[0]] + rest;
  }

  lemma MergeFirst(a: Area, rest: seq<Area>, v: nat)
    requires AreaOk(a) && AreasOk(rest) && Above(rest, a.end)
    requires rest != [] && rest[0].base == a.end && rest[0].flags == a.flags
    ensures var s := [a.(end := rest[0].end)] + rest[1..];
            AreasOk(s) && Above(s, a.base) && Lookup(s, v) == Lookup([a] + rest, v)
  {
    hide Lookup;
    hide AreasOk;
    hide Above;
    Prepend(a, rest, v);
    Tail(rest, a.end);
    Prepend(rest[0], rest[1..], v);
    Prepend(a.(end := rest[0].end), rest[1..], v);
  }

  /** The same flags everywhere, no VMA reaches further up than before, and none becomes empty. */
  ghost predicate Regrouped(areas: seq<Area>, areas': seq<Area>) {
    && AreasOk(areas') && SameLookup(areas, areas') && (Solid(areas) ==> Solid(areas'))
    && forall x :: Below(areas, x) ==> Below(areas', x)
  }

  lemma RegroupedTrans(areas: seq<Area>, areas1: seq<Area>, areas2: seq<Area>)
    requires Regrouped(areas, areas1) && Regrouped(areas1, areas2)
    ensures Regrouped(areas, areas2)
  {
    hide Lookup;
    hide Below;
    hide Solid;
    forall v: nat ensures Lookup(areas2, v) == Lookup(areas, v) { var f := Lookup(areas1, v); }
  }

  lemma MergeRegroups(areas: seq<Area>, k: nat, alike: bool)
    requires AreasOk(areas)
    ensures Regrouped(areas, MergeNext(areas, k, alike))
  {
    hide Lookup;
    var r := MergeNext(areas, k, alike);
    MergeLookup(areas, k, alike, 0, 0);
    if Solid(areas) { MergeSolid(areas, k, alike); }
    hide Solid;
    forall x | Below(areas, x) ensures Below(r, x) { MergeBelow(areas, k, alike, x); }
    forall v: nat ensures Lookup(r, v) == Lookup(areas, v) { MergeLookup(areas, k, alike, 0, v); }
  }

  lemma MergeBelow(areas: seq<Area>, k: nat, alike: bool, x: nat)
    requires Below(areas, x)
    ensures Below(MergeNext(areas, k, alike), x)
  {
    var r := MergeNext(areas, k, alike);
    forall i | 0 <= i < |r| ensures r[i].end <= x {
      if r != areas && i > k { assert r[i] == areas[i + 1]; }
    }
  }

  lemma MergeSolid(areas: seq<Area>, k: nat, alike: bool)
    requires Solid(areas)
    ensures Solid(MergeNext(areas, k, alike))
  {
    var r := MergeNext(areas, k, alike);
    forall i | 0 <= i < |r| ensures r[i].base < r[i].end {
      if r != areas && i > k { assert r[i] == areas[i + 1]; }
    }
  }

  /** merge_vmas: tries the VMA before VMA k and the one after. base is where the VMA that it
      returns begins. */
  method MergeAround(areas: seq<Area>, k: nat) returns (r: seq<Area>, base: nat)
    requires AreasOk(areas) && k < |areas|
    ensures Regrouped(areas, r) && MergedBase(areas, k, base)
  {
    hide Regrouped;
    hide AreasOk;
    RegroupedSelf(areas);
    var alike: bool := *;
    var j := k;
    r, base := areas, areas[k].base;
    if k > 0 {
      MergeRegroups(areas, k - 1, alike);
      r := MergeNext(areas, k - 1, alike);
      if |r| < |areas| {
        j, base := k - 1, areas[k - 1].base;
      }
    }
    ghost var before := r;
    alike := *;
    RegroupedOk(areas, before);
    MergeRegroups(before, j, alike);
    r := MergeNext(r, j, alike);
    RegroupedTrans(areas, before, r);
  }

  /** VMA k begins at base, or the one before does and reaches up to VMA k with the same flags. */
  predicate MergedBase(areas: seq<Area>, k: nat, base: nat)
    requires k < |areas|
  {
    || base == areas[k].base
    || (k > 0 && base == areas[k - 1].base && areas[k - 1].end == areas[k].base && areas[k - 1].flags == areas[k].flags)
  }

  lemma RegroupedSelf(areas: seq<Area>)
    requires AreasOk(areas)
    ensures Regrouped(areas, areas)
  {
  }

  lemma RegroupedOk(areas: seq<Area>, areas': seq<Area>)
    requires Regrouped(areas, areas')
    ensures AreasOk(areas')
  {
  }

  /** Where the last VMA ends. */
  function EndOf(areas: seq<Area>): nat { if areas == [] then 0 else areas[|areas| - 1].end }

  lemma NoneCopied(all: seq<Area>)
    ensures Copied(all, 0, [])
  {
  }

  /** task_clone's loop: VMA k follows in the list of the child. */
  lemma CopyNext(all: seq<Area>, k: nat, areas: seq<Area>)
    requires AreasOk(all) && k < |all| && Copied(all, k, areas)
    ensures AreasOk(areas + [all[k]])
    ensures forall r :: Regrouped(areas + [all[k]], r) ==> Copied(all, k + 1, r)
  {
    hide Lookup;
    var a := all[k];
    var s := areas + [a];
    assert k > 0 ==> all[k - 1].end <= a.base && EndOf(all[..k]) == all[k - 1].end;
    assert Below(areas, a.base);
    assert WithArea(areas, |areas|, a) == s && WithArea(all[..k], k, a) == all[..k + 1];
    InsertLookup(areas, |areas|, a, 0, 0);
    forall v: nat ensures Lookup(s, v) == Lookup(all[..k + 1], v) {
      InsertLookup(areas, |areas|, a, 0, v);
      InsertLookup(all[..k], k, a, 0, v);
      var f := Lookup(areas, v);
    }
    assert Below(s, a.end) && EndOf(all[..k + 1]) == a.end;
    assert Solid(all) ==> Solid(s);
    hide Solid;
    hide AreasOk;
    hide Below;
    forall r | Regrouped(s, r) ensures Copied(all, k + 1, r) {
      forall v: nat ensures Lookup(r, v) == Lookup(all[..k + 1], v) { var f := Lookup(s, v); }
    }
  }

  /** The first k VMAs of a list, perhaps grouped otherwise. */
  ghost predicate Copied(all: seq<Area>, k: nat, areas: seq<Area>)
    requires k <= |all|
  {
    && AreasOk(areas) && SameLookup(all[..k], areas) && Below(areas, EndOf(all[..k]))
    && (Solid(all) ==> Solid(areas))
  }
}
