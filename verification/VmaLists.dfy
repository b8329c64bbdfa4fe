/** Sorted sequences of VMAs: what an address means, and what splitting, merging and removing do to it. */
module VmaLists {
  import opened Common
  import opened RbTree

  /** struct vma without its links. */
  datatype Vma = Vma(name: string, base: nat, end: nat, src: nat, len: nat, flags: bv32)

  const LIMIT: nat := 0x1_0000_0000_0000_0000   // addresses are 64 bits wide
  const USER_LIM: nat := 0x8000_0000_0000
  const PAGE_SIZE: nat := 4096

  // ---- Sequences of VMAs ------------------------------------------------------------------------

  ghost predicate Sorted(s: seq<Vma>) {
    && (forall i :: 0 <= i < |s| ==> s[i].base <= s[i].end <= USER_LIM)
    && (forall i, j :: 0 <= i < j < |s| ==> s[i].end <= s[j].base)
  }

  predicate Holds(v: Vma, a: nat) { v.base <= a < v.end }

  /** What an address means to the task: the name and the flags of its VMA. */
  function Meaning(s: seq<Vma>, a: nat): Option<(string, bv32)> {
    if s == [] then None
    else if Holds(s[0], a) then Some((s[0].name, s[0].flags))
    else Meaning(s[1..], a)
  }

  /** A linear scan for the first VMA that ends above a. */
  function FirstAbove(s: seq<Vma>, a: nat): nat {
    if s == [] then 0 else if a < s[0].end then 0 else 1 + FirstAbove(s[1..], a)
  }

  lemma {:induction false} FirstAboveIs(s: seq<Vma>, a: nat, i: nat)
    requires i <= |s| && (forall j :: 0 <= j < i ==> s[j].end <= a) && (i < |s| ==> a < s[i].end)
    ensures FirstAbove(s, a) == i
    decreases i
  {
    if i > 0 { FirstAboveIs(s[1..], a, i - 1); }
  }

  lemma {:induction false} MeaningConcat(s: seq<Vma>, t: seq<Vma>, a: nat)
    ensures Meaning(s + t, a) == if Meaning(s, a).Some? then Meaning(s, a) else Meaning(t, a)
    decreases |s|
  {
    if s == [] {
      assert s + t == t;
    } else {
      assert (s + t)[1..] == s[1..] + t;
      MeaningConcat(s[1..], t, a);
    }
  }

  lemma {:induction false} MeaningNone(s: seq<Vma>, a: nat)
    ensures Meaning(s, a).None? <==> forall i :: 0 <= i < |s| ==> !Holds(s[i], a)
    decreases |s|
  {
    if s != [] {
      MeaningNone(s[1..], a);
      if Meaning(s, a).None? {
        forall i | 0 <= i < |s| ensures !Holds(s[i], a) { if i > 0 { assert s[i] == s[1..][i - 1]; } }
      }
    }
  }

  // ---- Tree and list ----------------------------------------------------------------------------

  predicate Known(list: seq<nat>, vmas: map<nat, Vma>) { forall x :: x in list ==> x in vmas && x != NULL }

  lemma KnownTail(list: seq<nat>, vmas: map<nat, Vma>)
    requires Known(list, vmas) && list != []
    ensures Known(list[1..], vmas) && list[0] in vmas
  {
    assert list[0] in list;
    forall x | x in list[1..] ensures x in vmas && x != NULL { assert x in list; }
  }

  /** The VMAs behind the links, in order. */
  function Linked(list: seq<nat>, vmas: map<nat, Vma>): (s: seq<Vma>)
    requires Known(list, vmas)
    ensures |s| == |list| && forall i :: 0 <= i < |list| ==> s[i] == vmas[list[i]]
  {
    if list == [] then [] else KnownTail(list, vmas); [vmas[list[0]]] + Linked(list[1..], vmas)
  }

  /** Where the root of a subtree stands in the order. */
  lemma RootPlace(node: Tree, list: seq<nat>, lo: nat, hi: nat) returns (k: nat)
    requires node.Node? && lo <= hi <= |list| && list[lo..hi] == Inorder(node)
    ensures lo <= k < hi && list[lo..k] == Inorder(node.left) && list[k] == node.x
            && list[k + 1..hi] == Inorder(node.right)
  {
    var l, r := Inorder(node.left), Inorder(node.right);
    k := lo + |l|;
    assert list[lo..hi][..|l|] == l && list[lo..hi][|l|] == node.x && list[lo..hi][|l| + 1..] == r;
  }

  lemma Ends(s: seq<Vma>, k: nat, a: nat)
    requires Sorted(s) && k < |s|
    ensures s[k].end <= a || s[k].base <= a ==> forall j :: 0 <= j < k ==> s[j].end <= a
  {
  }

  lemma EmptyOrder()
    ensures Inorder(Leaf) == []
  {
  }

  lemma InsertSorted(s: seq<Vma>, i: nat, v: Vma)
    requires Sorted(s) && i <= |s| && v.base <= v.end <= USER_LIM
    requires (forall j :: 0 <= j < i ==> s[j].end <= v.base) && (forall j :: i <= j < |s| ==> v.end <= s[j].base)
    ensures Sorted(s[..i] + [v] + s[i..])
  {
  }

  lemma InsertLinked(list: seq<nat>, vmas: map<nat, Vma>, i: nat, id: nat, v: Vma)
    requires i <= |list| && id !in list && id != NULL && Known(list, vmas)
    ensures var list' := list[..i] + [id] + list[i..];
            && Known(list', vmas[id := v])
            && Linked(list', vmas[id := v]) == Linked(list, vmas)[..i] + [v] + Linked(list, vmas)[i..]
  {
    hide Linked;
    var list' := list[..i] + [id] + list[i..];
    forall x | x in list' ensures x in vmas[id := v] && x != NULL { assert x == id || x in list; }
    var s, s' := Linked(list, vmas), Linked(list', vmas[id := v]);
    forall j | 0 <= j < |s'| ensures s'[j] == (s[..i] + [v] + s[i..])[j] {
      if j < i { assert list'[j] == list[j]; } else if j > i { assert list'[j] == list[j - 1]; }
    }
  }

  lemma InsertDistinct(list: seq<nat>, i: nat, id: nat)
    requires i <= |list| && id !in list && Distinct(list)
    ensures Distinct(list[..i] + [id] + list[i..])
  {
    var list' := list[..i] + [id] + list[i..];
    forall j, k | 0 <= j < k < |list'| ensures list'[j] != list'[k] {
      assert list'[j] == if j < i then list[j] else if j == i then id else list[j - 1];
      assert list'[k] == if k < i then list[k] else if k == i then id else list[k - 1];
    }
  }

  lemma PathStart(list: seq<nat>)
    ensures list[..0] == Before(Top) && list[0..|list|] == list && list[|list|..] == After(Top)
  {
  }

  /** insert_vma on its way down: the subtree node holds the VMAs from lo to hi - 1, and those
      outside lie below and above v. */
  ghost predicate Descending(list: seq<nat>, s: seq<Vma>, v: Vma, p: Path, node: Tree, lo: nat, hi: nat) {
    && lo <= hi <= |list| == |s| && list[..lo] == Before(p) && list[lo..hi] == Inorder(node) && list[hi..] == After(p)
    && (forall j :: 0 <= j < lo ==> s[j].end <= v.base) && (forall j :: hi <= j < |s| ==> v.end <= s[j].base)
    && (p.Step? ==> p.x in list && if p.d then lo > 0 && list[lo - 1] == p.x else hi < |list| && list[hi] == p.x)
    && (p.Top? ==> lo == 0 && hi == |list|)
  }

  lemma DescendStart(list: seq<nat>, s: seq<Vma>, v: Vma, tree: Tree)
    requires |s| == |list| && list == Inorder(tree)
    ensures Descending(list, s, v, Top, tree, 0, |list|)
  {
    PathStart(list);
  }

  lemma DescendRoot(list: seq<nat>, s: seq<Vma>, v: Vma, p: Path, node: Tree, lo: nat, hi: nat) returns (k: nat)
    requires Descending(list, s, v, p, node, lo, hi) && node.Node?
    ensures lo <= k < hi <= |s| == |list| && list[k] == node.x && node.x in list
    ensures list[lo..k] == Inorder(node.left) && list[k + 1..hi] == Inorder(node.right)
  {
    k := RootPlace(node, list, lo, hi);
  }

  lemma DescendStep(list: seq<nat>, s: seq<Vma>, v: Vma, p: Path, node: Tree, lo: nat, hi: nat, k: nat, d: bool)
    requires Descending(list, s, v, p, node, lo, hi) && node.Node? && Sorted(s) && lo <= k < hi && list[k] == node.x
    requires list[lo..k] == Inorder(node.left) && list[k + 1..hi] == Inorder(node.right)
    requires if d then s[k].end <= v.base else v.end <= s[k].base
    ensures Descending(list, s, v, Step(node.x, node.red, d, Kid(node, !d), p), Kid(node, d), if d then k + 1
                       else lo, if d then hi else k)
  {
    hide Inorder;
    hide Before;
    hide After;
    Neighbours(s, k, v);
    hide Sorted;
    PathDown(list, node, p, lo, hi, k);
  }

  lemma DescendEnd(list: seq<nat>, s: seq<Vma>, v: Vma, p: Path, lo: nat, hi: nat)
    requires Descending(list, s, v, p, Leaf, lo, hi)
    ensures lo == hi && forall x :: x in s ==> x.end <= v.base || v.end <= x.base
  {
    EmptyOrder();
    NoOverlap(s, lo, v);
  }

  lemma DescendFacts(list: seq<nat>, s: seq<Vma>, v: Vma, p: Path, lo: nat)
    requires Descending(list, s, v, p, Leaf, lo, lo)
    ensures lo <= |list| == |s| && list[..lo] == Before(p) && list[lo..] == After(p)
    ensures (forall j :: 0 <= j < lo ==> s[j].end <= v.base) && (forall j :: lo <= j < |s| ==> v.end <= s[j].base)
    ensures p.Step? ==> p.x in list && if p.d then lo > 0 && list[lo - 1] == p.x else lo < |list| && list[lo] == p.x
    ensures p.Top? ==> list == []
  {
  }

  lemma PathDown(list: seq<nat>, node: Tree, p: Path, lo: nat, hi: nat, k: nat)
    requires node.Node? && lo <= k < hi <= |list| && list[..lo] == Before(p) && list[hi..] == After(p)
    requires list[lo..k] == Inorder(node.left) && list[k] == node.x && list[k + 1..hi] == Inorder(node.right)
    ensures list[..k + 1] == Before(Step(node.x, node.red, true, node.left, p))
            && After(p) == After(Step(node.x, node.red, true, node.left, p))
    ensures list[k..] == After(Step(node.x, node.red, false, node.right, p))
            && Before(p) == Before(Step(node.x, node.red, false, node.right, p))
  {
    hide Inorder;
    assert list[..k + 1] == list[..lo] + (list[lo..k] + [list[k]]);
    assert list[k..] == ([list[k]] + list[k + 1..hi]) + list[hi..];
  }

  lemma PlugLeaf(p: Path, id: nat)
    ensures Inorder(Plug(p, Node(id, true, Leaf, Leaf))) == Before(p) + [id] + After(p)
  {
    PlugInorder(p, Node(id, true, Leaf, Leaf));
  }

  lemma Neighbours(s: seq<Vma>, k: nat, v: Vma)
    requires Sorted(s) && k < |s|
    ensures s[k].end <= v.base ==> forall j :: 0 <= j <= k ==> s[j].end <= v.base
    ensures v.end <= s[k].base ==> forall j :: k <= j < |s| ==> v.end <= s[j].base
  {
  }

  lemma NoOverlap(s: seq<Vma>, lo: nat, v: Vma)
    requires lo <= |s| && (forall j :: 0 <= j < lo ==> s[j].end <= v.base)
             && (forall j :: lo <= j < |s| ==> v.end <= s[j].base)
    ensures forall x :: x in s ==> x.end <= v.base || v.end <= x.base
  {
  }

  // ---- Splitting and merging ----------------------------------------------------------------------

  function LeftPart(v: Vma, addr: nat): Vma
    requires v.base <= addr
  {
    v.(end := addr, len := addr - v.base)
  }

  function RightPart(v: Vma, addr: nat): Vma
    requires addr <= v.end
  {
    v.(base := addr, len := v.end - addr)
  }

  /** The two parts keep name, flags and source, and get lengths of their own. */
  lemma PartsAre(v: Vma, addr: nat)
    requires v.base < addr < v.end
    ensures LeftPart(v, addr) == Vma(v.name, v.base, addr, v.src, addr - v.base, v.flags)
    ensures RightPart(v, addr) == Vma(v.name, addr, v.end, v.src, v.end - addr, v.flags)
  {
  }

  /** So merge_vma undoes a split exactly if it was in the middle of a page-aligned VMA, and then up
      to the length. */
  lemma SplitMerges(v: Vma, addr: nat)
    requires v.base < addr < v.end
    ensures Mergeable(LeftPart(v, addr), RightPart(v, addr)) <==>
              && v.base % PAGE_SIZE == 0 && addr % PAGE_SIZE == 0 && v.end % PAGE_SIZE == 0
              && addr - v.base == v.end - addr
    ensures MergeAt([LeftPart(v, addr), RightPart(v, addr)], 0) == [v.(len := addr - v.base)]
  {
  }

  lemma SplitSorted(s: seq<Vma>, k: nat, addr: nat)
    requires Sorted(s) && k < |s| && s[k].base < addr < s[k].end
    ensures Sorted(s[k := LeftPart(s[k], addr)])
  {
  }

  /** The new right part can only come right after the left part. */
  lemma SplitPlace(s: seq<Vma>, k: nat, addr: nat, j: nat)
    requires k < |s| && s[k].base < addr < s[k].end && j <= |s| && Sorted(s)
    requires var s1 := s[k := LeftPart(s[k], addr)]; Sorted(s1[..j] + [RightPart(s[k], addr)] + s1[j..])
    ensures j == k + 1
  {
    var s1 := s[k := LeftPart(s[k], addr)];
    PlaceFacts(s1, j, RightPart(s[k], addr), k);
    if k + 1 < |s| { PlaceFacts(s1, j, RightPart(s[k], addr), k + 1); }
  }

  lemma PlaceFacts(s: seq<Vma>, j: nat, v: Vma, i: nat)
    requires j <= |s| && i < |s| && Sorted(s[..j] + [v] + s[j..])
    ensures if i < j then s[i].end <= v.base else v.end <= s[i].base
  {
    var t := s[..j] + [v] + s[j..];
    assert t[j] == v && t[if i < j then i else i + 1] == s[i];
  }

  ghost predicate Mergeable(l: Vma, r: Vma) {
    && l.base % PAGE_SIZE == 0 && l.end % PAGE_SIZE == 0 && r.base % PAGE_SIZE == 0 && r.end % PAGE_SIZE == 0
    && l.end == r.base && l.flags == r.flags && l.name == r.name && l.src == r.src && l.len == r.len
  }

  function MergeAt(s: seq<Vma>, k: nat): seq<Vma>
    requires k + 1 < |s|
  {
    s[..k] + [s[k].(end := s[k + 1].end)] + s[k + 2..]
  }

  /** VMA k and the one after it may be merged. */
  ghost predicate MergesAt(s: seq<Vma>, k: int) {
    0 <= k && k + 1 < |s| && Mergeable(s[k], s[k + 1])
  }

  ghost function MergedWith(s: seq<Vma>, k: int): seq<Vma> {
    if MergesAt(s, k) then MergeAt(s, k) else s
  }

  /** Where VMA k is after an attempt to merge it with the one before. */
  ghost function MergedSpot(s: seq<Vma>, k: nat): int {
    if MergesAt(s, k - 1) then k - 1 else k
  }

  /** VMA k merged with the one before, and the outcome with the one after, each exactly if they agree. */
  ghost function MergedAround(s: seq<Vma>, k: nat): seq<Vma> {
    MergedWith(MergedWith(s, k - 1), MergedSpot(s, k))
  }

  /** The byte that do_populate_vma copies to address a of a VMA with a source, if any. */
  function Backing(v: Vma, a: nat): Option<nat>
    requires v.base <= a
  {
    if v.src != NULL && a - v.base < v.len then Some(v.src + (a - v.base)) else None
  }

  function PartAt(v: Vma, addr: nat, a: nat): Vma
    requires v.base < addr < v.end
  {
    if a < addr then LeftPart(v, addr) else RightPart(v, addr)
  }

  /** A split keeps what is behind every address if and only if nothing is: the right part starts over
      at the beginning of the source. */
  lemma SplitBacking(v: Vma, addr: nat)
    requires v.base < addr < v.end
    ensures (forall a: nat :: Holds(v, a) ==> Backing(PartAt(v, addr, a), a) == Backing(v, a)) <==> v.src == NULL
  {
    if v.src != NULL {
      assert Holds(v, addr) && Backing(PartAt(v, addr, addr), addr) != Backing(v, addr);
    }
  }

  /** merge_vma keeps what is behind the left VMA, and what is behind the right one if and only if one of
      them is empty, or nothing is. */
  lemma MergeBacking(l: Vma, r: Vma)
    requires Mergeable(l, r) && l.base <= l.end && r.base <= r.end
    ensures var v := l.(end := r.end);
            && (forall a: nat :: Holds(l, a) ==> Backing(v, a) == Backing(l, a))
            && ((forall a: nat :: Holds(r, a) ==> Backing(v, a) == Backing(r, a)) <==>
                  l.src == NULL || l.len == 0 || l.base == l.end || r.base == r.end)
  {
    var v := l.(end := r.end);
    if l.src != NULL && l.len != 0 && l.base != l.end && r.base != r.end {
      assert Holds(r, r.base) && Backing(v, r.base) != Backing(r, r.base);
    }
  }

  /** munmap of the first page of a program's two: the second shows the bytes of the first. */
  lemma SourceShifts()
    ensures var v := Vma("text", 4096, 12288, 65536, 8192, 5);
            var s := CutOutAll([v], 4096, 8192);
            |s| == 1 && Holds(s[0], 8192) && Backing(v, 8192) == Some(69632) && Backing(s[0], 8192) == Some(65536)
  {
    var v := Vma("text", 4096, 12288, 65536, 8192, 5);
    assert [v][..0] == [];
    assert CutOutAll([], 4096, 8192) == [];
    assert CutOutAll([v], 4096, 8192) == CutOut(v, 4096, 8192);
  }

  /** Merging two VMAs changes the meaning of no address. */
  lemma MergeMeaning(s: seq<Vma>, k: nat, a: nat)
    requires k + 1 < |s| && Mergeable(s[k], s[k + 1]) && s[k].base <= s[k].end && s[k + 1].base <= s[k + 1].end
    ensures Meaning(MergeAt(s, k), a) == Meaning(s, a)
  {
    var v := s[k].(end := s[k + 1].end);
    assert MergeAt(s, k) == s[..k] + ([v] + s[k + 2..]) && s == s[..k] + ([s[k], s[k + 1]] + s[k + 2..]);
    MeaningConcat(s[..k], [v] + s[k + 2..], a);
    MeaningConcat(s[..k], [s[k], s[k + 1]] + s[k + 2..], a);
    MeaningConcat([v], s[k + 2..], a);
    MeaningConcat([s[k], s[k + 1]], s[k + 2..], a);
    assert [s[k], s[k + 1]][1..] == [s[k + 1]];
  }

  lemma MergeSorted(s: seq<Vma>, k: nat)
    requires Sorted(s) && k + 1 < |s|
    ensures Sorted(MergeAt(s, k))
  {
    var t := MergeAt(s, k);
    forall i | 0 <= i < |t|
           ensures t[i] == if i < k then s[i] else if i == k then s[k].(end := s[k + 1].end) else s[i + 1] {}
  }

  // ---- Removal ------------------------------------------------------------------------------------

  /** do_remove somewhere in the tree. */
  function TreeRemove(t: Tree, x: nat): Tree {
    match t
    case Leaf => Leaf
    case Node(y, red, l, r) => if y == x then Removed(t) else Node(y, red, TreeRemove(l, x), TreeRemove(r, x))
  }

  lemma WithoutNode(l: seq<nat>, y: nat, r: seq<nat>, x: nat)
    requires x != y && (x in l ==> x !in r)
    ensures Without(l + [y] + r, x) == Without(l, x) + [y] + Without(r, x)
  {
    assert Without([y], x) == [y];
    hide Without;
    WithoutConcat(l + [y], r, x);
    WithoutConcat(l, [y], x);
    if x in l { WithoutAbsent(r, x); } else { WithoutAbsent(l, x); }
  }

  lemma {:induction false} TreeRemoveOrder(t: Tree, x: nat)
    requires Distinct(Inorder(t))
    ensures Inorder(TreeRemove(t, x)) == Without(Inorder(t), x)
    decreases t
  {
    if t.Node? {
      var l, r := Inorder(t.left), Inorder(t.right);
      DistinctParts(l, t.x, r);
      if t.x == x {
        WithoutMiddle(l, x, r);
        RemovedInorder(t);
      } else {
        hide Removed;
        TreeRemoveOrder(t.left, x);
        TreeRemoveOrder(t.right, x);
        WithoutNode(l, t.x, r, x);
        hide Inorder;
      }
    }
  }

  lemma DistinctParts(l: seq<nat>, x: nat, r: seq<nat>)
    requires Distinct(l + [x] + r)
    ensures Distinct(l) && Distinct(r) && x !in l && x !in r && forall y :: y in l ==> y !in r
  {
    var s := l + [x] + r;
    assert s[|l|] == x;
    forall i | 0 <= i < |l| ensures l[i] != x { assert s[i] == l[i]; }
    forall i | 0 <= i < |r| ensures r[i] != x { assert s[|l| + 1 + i] == r[i]; }
    forall i, j | 0 <= i < |l| && 0 <= j < |r| ensures l[i] != r[j] {
      assert s[i] == l[i] && s[|l| + 1 + j] == r[j];
    }
    forall i, j | 0 <= i < j < |l| ensures l[i] != l[j] { assert s[i] == l[i] && s[j] == l[j]; }
    forall i, j | 0 <= i < j < |r| ensures r[i] != r[j] { assert s[|l| + 1 + i] == r[i] && s[|l| + 1 + j] == r[j]; }
  }

  lemma DropSorted(s: seq<Vma>, k: nat)
    requires Sorted(s) && k < |s|
    ensures Sorted(s[..k] + s[k + 1..])
  {
  }

  lemma DropLinked(list: seq<nat>, vmas: map<nat, Vma>, k: nat)
    requires Known(list, vmas) && Distinct(list) && k < |list|
    ensures var list', vmas' := list[..k] + list[k + 1..], vmas - {list[k]};
            && Known(list', vmas') && Distinct(list') && list[k] !in list'
            && Linked(list', vmas') == Linked(list, vmas)[..k] + Linked(list, vmas)[k + 1..]
  {
    hide Linked;
    var list', vmas' := list[..k] + list[k + 1..], vmas - {list[k]};
    forall i | 0 <= i < |list'| ensures list'[i] == (if i < k then list[i] else list[i + 1]) && list'[i] != list[k] {}
    forall x | x in list' ensures x in vmas' && x != NULL && x != list[k] { assert x in list; }
    var s, s' := Linked(list, vmas), Linked(list', vmas');
    forall i | 0 <= i < |s'| ensures s'[i] == (s[..k] + s[k + 1..])[i] {}
  }

  // ---- Ranges ---------------------------------------------------------------------------------------

  /** split_vmas leaves up to three parts of a VMA; the middle one is the one to work on. */
  function Left(v: Vma, b: nat): seq<Vma> { if v.base < b < v.end then [LeftPart(v, b)] else [] }

  function Rest(v: Vma, b: nat): Vma { if v.base < b < v.end then RightPart(v, b) else v }

  function Middle(v: Vma, b: nat, e: nat): Vma { var m := Rest(v, b); if m.base < e < m.end then LeftPart(m, e) else m }

  function Right(v: Vma, b: nat, e: nat): seq<Vma>
  { var m := Rest(v, b); if m.base < e < m.end then [RightPart(m, e)] else [] }

  /** A part of v that has come out of a split. */
  ghost predicate PartOf(x: Vma, v: Vma) {
    && x.name == v.name && x.flags == v.flags && x.src == v.src
    && v.base <= x.base < x.end <= v.end && x.len == x.end - x.base
  }

  /** How many new VMAs split_vmas takes. */
  function Cuts(v: Vma, b: nat, e: nat): nat { |Left(v, b)| + |Right(v, b, e)| }

  lemma CutsAre(v: Vma, b: nat, e: nat)
    requires b <= e
    ensures Cuts(v, b, e) ==
              (if Straddles(v, b) then 1 else 0) + (if Straddles(v, e) && (Straddles(v, b) ==> b < e) then 1 else 0)
  {
  }

  lemma SplitParts(v: Vma, b: nat, e: nat)
    requires v.base <= v.end
    ensures forall x :: x in Left(v, b) || x == Middle(v, b, e) || x in Right(v, b, e) ==> x == v || PartOf(x, v)
  {
  }

  /** The parts of a VMA follow one another from its base to its end. */
  lemma SplitTiles(v: Vma, b: nat, e: nat)
    requires v.base <= v.end && b <= e
    ensures var m, parts := Middle(v, b, e), Left(v, b) + [Middle(v, b, e)] + Right(v, b, e);
            && parts[0].base == v.base && parts[|parts| - 1].end == v.end
            && (forall i :: 0 <= i < |parts| - 1 ==> parts[i].end == parts[i + 1].base)
            && m.base == (if v.base < b < v.end then b else v.base)
            && m.end == (if m.base < e < v.end then e else v.end)
  {
    var parts := Left(v, b) + [Middle(v, b, e)] + Right(v, b, e);
    var m := Rest(v, b);
    if v.base < b < v.end {
      assert m == Vma(v.name, b, v.end, v.src, v.end - b, v.flags);
    } else {
      assert m == v;
    }
    if m.base < e < m.end {
      assert parts == Left(v, b) + [LeftPart(m, e), RightPart(m, e)];
    } else {
      assert parts == Left(v, b) + [m];
    }
  }

  /** Splitting a VMA changes the meaning of no address. */
  lemma SplitMeaning(s: seq<Vma>, k: nat, addr: nat, a: nat)
    requires k < |s|
    ensures Meaning(s[..k] + Left(s[k], addr) + [Rest(s[k], addr)] + s[k + 1..], a) == Meaning(s, a)
  {
    var m := Left(s[k], addr) + [Rest(s[k], addr)];
    assert s[..k] + Left(s[k], addr) + [Rest(s[k], addr)] + s[k + 1..] == s[..k] + (m + s[k + 1..]);
    assert s == s[..k] + ([s[k]] + s[k + 1..]);
    MeaningConcat(s[..k], m + s[k + 1..], a);
    MeaningConcat(s[..k], [s[k]] + s[k + 1..], a);
    MeaningConcat(m, s[k + 1..], a);
    MeaningConcat([s[k]], s[k + 1..], a);
    MeaningFew(m, a);
    MeaningFew([s[k]], a);
  }

  lemma SplitSame(l0: seq<nat>, l1: seq<nat>, s0: seq<Vma>, s1: seq<Vma>, k: nat, addr: nat, r: nat, a: nat)
    requires SplitResult(l0, l1, s0, s1, k, addr, r)
    ensures Meaning(s1, a) == Meaning(s0, a)
  {
    SplitMeaning(s0, k, addr, a);
  }

  /** do_remove_vma takes the middle part away. */
  function CutOut(v: Vma, b: nat, e: nat): seq<Vma> {
    if b < v.end && v.base < e then Left(v, b) + Right(v, b, e) else [v]
  }

  function CutOutAll(s: seq<Vma>, b: nat, e: nat): seq<Vma> {
    if s == [] then [] else CutOutAll(s[..|s| - 1], b, e) + CutOut(s[|s| - 1], b, e)
  }

  lemma CutOutNext(s: seq<Vma>, k: nat, b: nat, e: nat)
    requires k < |s|
    ensures CutOutAll(s[..k + 1], b, e) == CutOutAll(s[..k], b, e) + CutOut(s[k], b, e)
  {
    assert s[..k + 1][..k] == s[..k];
  }

  lemma {:induction false} CutOutSame(s: seq<Vma>, k: nat, b: nat, e: nat)
    requires k <= |s| && forall i :: 0 <= i < k ==> s[i].end <= b || e <= s[i].base
    ensures CutOutAll(s[..k], b, e) == s[..k]
  {
    CutOutRest(s, 0, k, b, e);
    assert s[..0] == [] && s[0..k] == s[..k];
  }

  lemma SliceSnoc(s: seq<Vma>, k: nat, n: nat)
    requires k < n <= |s|
    ensures s[k..n] == s[k..n - 1] + [s[n - 1]]
  {
  }

  lemma Associate(a: seq<Vma>, b: seq<Vma>, c: seq<Vma>)
    ensures (a + b) + c == a + (b + c)
  {
  }

  lemma {:induction false} CutOutRest(s: seq<Vma>, k: nat, n: nat, b: nat, e: nat)
    requires k <= n <= |s| && forall i :: k <= i < n ==> s[i].end <= b || e <= s[i].base
    ensures CutOutAll(s[..n], b, e) == CutOutAll(s[..k], b, e) + s[k..n]
    decreases n
  {
    hide CutOutAll;
    if k < n {
      assert CutOut(s[n - 1], b, e) == [s[n - 1]];
      hide CutOut;
      CutOutRest(s, k, n - 1, b, e);
      CutOutNext(s, n - 1, b, e);
      SliceSnoc(s, k, n);
      Associate(CutOutAll(s[..k], b, e), s[k..n - 1], [s[n - 1]]);
    } else {
      assert s[k..n] == [];
    }
  }

  lemma ListKnown(list: seq<nat>, vmas: map<nat, Vma>, x: nat)
    requires Known(list, vmas) && x in list
    ensures x in vmas && x != NULL && vmas[x] == Linked(list, vmas)[Pos(list, x)]
  {
  }

  lemma SortedAt(s: seq<Vma>, k: nat)
    requires Sorted(s) && k < |s|
    ensures s[k].base <= s[k].end <= USER_LIM
  {
  }

  lemma FreshId(list: seq<nat>, vmas: map<nat, Vma>, x: nat)
    requires Known(list, vmas) && x !in vmas
    ensures x !in list
  {
  }

  lemma UpdateLinked(list: seq<nat>, vmas: map<nat, Vma>, k: nat, v: Vma)
    requires Known(list, vmas) && Distinct(list) && k < |list|
    ensures Known(list, vmas[list[k] := v]) && Linked(list, vmas[list[k] := v]) == Linked(list, vmas)[k := v]
  {
    hide Linked;
    var s, s' := Linked(list, vmas), Linked(list, vmas[list[k] := v]);
    forall i | 0 <= i < |list| ensures s'[i] == s[k := v][i] { if i != k { assert list[i] != list[k]; } }
  }

  /** With VMA k shortened there is room for its right part. */
  lemma NoneMeets(s: seq<Vma>, k: nat, addr: nat)
    requires Sorted(s) && k < |s| && s[k].base < addr < s[k].end
    ensures var v := RightPart(s[k], addr);
            v.end <= USER_LIM && forall x :: x in s[k := LeftPart(s[k], addr)] ==> x.end <= v.base || v.end <= x.base
  {
    var s1 := s[k := LeftPart(s[k], addr)];
    forall x | x in s1 ensures x.end <= addr || s[k].end <= x.base {
      var i :| 0 <= i < |s1| && s1[i] == x;
      if i != k { assert x == s[i]; }
    }
  }

  /** What split_vma does: VMA k becomes its left part, if any, and the rest, which r points to. */
  ghost predicate SplitResult(l0: seq<nat>, l1: seq<nat>, s0: seq<Vma>, s1: seq<Vma>, k: nat, addr: nat, r: nat) {
    && k < |l0| == |s0|
    && var n := |Left(s0[k], addr)|;
       && |l1| == |l0| + n && l1[..k + 1] == l0[..k + 1] && l1[k + n + 1..] == l0[k + 1..] && l1[k + n] == r
       && s1 == s0[..k] + Left(s0[k], addr) + [Rest(s0[k], addr)] + s0[k + 1..]
  }

  lemma NoSplit(l: seq<nat>, s: seq<Vma>, k: nat, addr: nat)
    requires k < |l| == |s| && !(s[k].base < addr < s[k].end)
    ensures SplitResult(l, l, s, s, k, addr, l[k])
  {
  }

  lemma SplitIs(l: seq<nat>, s: seq<Vma>, k: nat, addr: nat, r: nat)
    requires k < |l| == |s| && s[k].base < addr < s[k].end
    ensures var s1 := s[k := LeftPart(s[k], addr)];
            SplitResult(l, l[..k + 1] + [r] + l[k + 1..], s, s1[..k + 1] + [RightPart(s[k], addr)] + s1[k + 1..], k,
                        addr, r)
  {
  }

  lemma SplitFacts(l0: seq<nat>, l1: seq<nat>, s0: seq<Vma>, s1: seq<Vma>, k: nat, addr: nat, r: nat) returns (j: nat)
    requires SplitResult(l0, l1, s0, s1, k, addr, r)
    ensures k < |s0| && j == k + |Left(s0[k], addr)| < |l1| == |s1| && l1[j] == r && r in l1
            && s1[j] == Rest(s0[k], addr)
  {
    j := k + |Left(s0[k], addr)|;
  }

  /** What split_vmas does: up to three parts, of which r points to the middle one. */
  ghost predicate SplitTwice(l0: seq<nat>, l2: seq<nat>, s0: seq<Vma>, s2: seq<Vma>, k: nat, b: nat, e: nat, r: nat) {
    && k < |l0| == |s0|
    && var n, m := |Left(s0[k], b)|, |Right(s0[k], b, e)|;
       && |l2| == |l0| + n + m && l2[..k] == l0[..k] && l2[k + n + m + 1..] == l0[k + 1..] && l2[k + n] == r
       && s2 == s0[..k] + Left(s0[k], b) + [Middle(s0[k], b, e)] + Right(s0[k], b, e) + s0[k + 1..]
  }

  lemma SplitAgain(l0: seq<nat>, l1: seq<nat>, l2: seq<nat>, s0: seq<Vma>, s1: seq<Vma>, s2: seq<Vma>,
                   k: nat, j: nat, b: nat, e: nat, r: nat, r2: nat)
    requires SplitResult(l0, l1, s0, s1, k, b, r) && j == k + |Left(s0[k], b)| && SplitResult(l1, l2, s1, s2, j, e, r2)
    ensures SplitTwice(l0, l2, s0, s2, k, b, e, r)
  {
    var n, m := |Left(s0[k], b)|, |Right(s0[k], b, e)|;
    assert s1[j] == Rest(s0[k], b);
    assert Left(s1[j], e) + [Rest(s1[j], e)] == [Middle(s0[k], b, e)] + Right(s0[k], b, e);
    assert s1[..j] == s0[..k] + Left(s0[k], b) && s1[j + 1..] == s0[k + 1..];
    assert l2[..k] == l2[..j + 1][..k] && l1[..k] == l1[..k + 1][..k] && l0[..k] == l0[..k + 1][..k];
    assert l1[..j + 1][..k] == l1[..k];
    assert l2[j] == l2[..j + 1][j] && l1[j] == l1[..j + 1][j];
  }

  /** What is new after split_vmas is a part of VMA k. */
  lemma TwiceParts(l0: seq<nat>, l2: seq<nat>, s0: seq<Vma>, s2: seq<Vma>, k: nat, b: nat, e: nat, r: nat)
    requires SplitTwice(l0, l2, s0, s2, k, b, e, r) && s0[k].base <= s0[k].end
    ensures forall x :: x in s2 && x !in s0 ==> PartOf(x, s0[k])
  {
    SplitParts(s0[k], b, e);
    hide PartOf;
    hide Left;
    hide Middle;
    hide Right;
    var parts := Left(s0[k], b) + [Middle(s0[k], b, e)] + Right(s0[k], b, e);
    assert s2 == s0[..k] + parts + s0[k + 1..];
    assert s0[k] in s0;
  }

  /** The second of the two splits is of the right part of the first. */
  lemma CutsTwo(v: Vma, b: nat, e: nat)
    ensures Cuts(v, b, e) == (if Straddles(v, b) then 1 else 0) + (if Straddles(Rest(v, b), e) then 1 else 0)
    ensures Straddles(Rest(v, b), e) ==> Straddles(v, e)
  {
  }

  lemma SizeLess(h: set<nat>, x: nat)
    requires x in h
    ensures |h - {x}| == |h| - 1
  {
  }

  lemma TwiceFacts(l0: seq<nat>, l2: seq<nat>, s0: seq<Vma>, s2: seq<Vma>, k: nat, b: nat, e: nat,
                   r: nat) returns (j: nat)
    requires SplitTwice(l0, l2, s0, s2, k, b, e, r)
    ensures k < |s0| && j == k + |Left(s0[k], b)| < |l2| == |s2| && l2[j] == r && r in l2
  {
    j := k + |Left(s0[k], b)|;
  }

  /** What do_remove_vma does. */
  ghost predicate CutResult(l0: seq<nat>, l3: seq<nat>, s0: seq<Vma>, s3: seq<Vma>, k: nat, b: nat, e: nat) {
    && k < |l0| == |s0| && |l3| == |s3|
    && var n := |CutOut(s0[k], b, e)|;
       && |l3| == |l0| - 1 + n && l3[k + n..] == l0[k + 1..]
       && s3 == s0[..k] + CutOut(s0[k], b, e) + s0[k + 1..]
  }

  /** Taking element j out of a sequence made of five parts, of which it is the third. */
  lemma DropThird<T>(a: seq<T>, b: seq<T>, x: T, c: seq<T>, d: seq<T>, j: nat)
    requires j == |a| + |b|
    ensures var s := a + b + [x] + c + d; s[..j] + s[j + 1..] == a + (b + c) + d
  {
    var s := a + b + [x] + c + d;
    assert s[..j] == a + b;
    assert s[j + 1..] == c + d;
  }

  lemma CutIs(l0: seq<nat>, l2: seq<nat>, l3: seq<nat>, s0: seq<Vma>, s2: seq<Vma>, s3: seq<Vma>, k: nat, j: nat,
              b: nat, e: nat, r: nat)
    requires SplitTwice(l0, l2, s0, s2, k, b, e, r) && j == k + |Left(s0[k], b)| && b < s0[k].end && s0[k].base < e
    requires |s2| == |l2| && j < |l2| && l3 == l2[..j] + l2[j + 1..] && s3 == s2[..j] + s2[j + 1..]
    ensures CutResult(l0, l3, s0, s3, k, b, e)
  {
    var n, m := |Left(s0[k], b)|, |Right(s0[k], b, e)|;
    assert CutOut(s0[k], b, e) == Left(s0[k], b) + Right(s0[k], b, e);
    hide CutOut;
    hide Left;
    hide Right;
    hide Middle;
    DropThird(s0[..k], Left(s0[k], b), Middle(s0[k], b, e), Right(s0[k], b, e), s0[k + 1..], j);
    assert l3[k + n + m..] == l2[k + n + m + 1..];
  }

  /** Some VMA begins below e and ends above b. */
  ghost predicate Meets(s: seq<Vma>, b: nat, e: nat) { exists i :: 0 <= i < |s| && b < s[i].end && s[i].base < e }

  lemma MeetsIff(s: seq<Vma>, k: nat, b: nat, e: nat)
    requires Sorted(s) && k == FirstAbove(s, b)
    ensures k <= |s| && (forall j :: 0 <= j < k ==> s[j].end <= b) && (forall j :: k <= j < |s| ==> b < s[j].end)
    ensures Meets(s, b, e) <==> k < |s| && s[k].base < e
  {
    FirstAboveFacts(s, b);
  }

  lemma {:induction false} FirstAboveFacts(s: seq<Vma>, a: nat)
    ensures var k := FirstAbove(s, a);
            k <= |s| && (forall j :: 0 <= j < k ==> s[j].end <= a) && (k < |s| ==> a < s[k].end)
    decreases |s|
  {
    if s != [] && s[0].end <= a {
      FirstAboveFacts(s[1..], a);
      var k := FirstAbove(s[1..], a);
      forall j | 0 <= j < k + 1 ensures s[j].end <= a { if j > 0 { assert s[j] == s[1..][j - 1]; } }
    }
  }

  lemma ListAt(list: seq<nat>, vmas: map<nat, Vma>, k: nat)
    requires Known(list, vmas) && k < |list|
    ensures list[k] in list && list[k] in vmas && vmas[list[k]] == Linked(list, vmas)[k]
  {
  }

  /** remove_vma_range has dealt with the first k of the VMAs s0. */
  ghost predicate Removing(s0: seq<Vma>, l0: seq<nat>, s: seq<Vma>, l: seq<nat>, k: nat, b: nat, e: nat) {
    && k <= |s0| == |l0| && Sorted(s0) && (forall j :: k <= j < |s0| ==> b < s0[j].end)
    && var c := CutOutAll(s0[..k], b, e);
       && s == c + s0[k..] && |l| == |s| && l[|c|..] == l0[k..]
  }

  lemma RemovingStart(s0: seq<Vma>, l0: seq<nat>, k: nat, b: nat, e: nat)
    requires Sorted(s0) && k <= |s0| == |l0|
    requires (forall j :: 0 <= j < k ==> s0[j].end <= b) && (forall j :: k <= j < |s0| ==> b < s0[j].end)
    ensures Removing(s0, l0, s0, l0, k, b, e)
  {
    hide CutOutAll;
    CutOutSame(s0, k, b, e);
  }

  lemma RemovingFacts(s0: seq<Vma>, l0: seq<nat>, s: seq<Vma>, l: seq<nat>, k: nat, b: nat, e: nat) returns (n: nat)
    requires Removing(s0, l0, s, l, k, b, e) && k < |l0|
    ensures n < |l| == |s| && l[n] == l0[k] && s[n] == s0[k] && b < s0[k].end
    ensures n + 1 < |l| <==> k + 1 < |l0|
    ensures n + 1 < |l| ==> l[n + 1] == l0[k + 1]
    ensures n == |CutOutAll(s0[..k], b, e)|
  {
    n := |CutOutAll(s0[..k], b, e)|;
    assert l[n..][0] == l[n] && l0[k..][0] == l0[k];
    if n + 1 < |l| { assert l[n..][1] == l[n + 1] && l0[k..][1] == l0[k + 1]; }
  }

  lemma RemovingNext(s0: seq<Vma>, l0: seq<nat>, s1: seq<Vma>, l1: seq<nat>, s: seq<Vma>, l: seq<nat>, k: nat, n: nat,
                     b: nat, e: nat)
    requires Removing(s0, l0, s1, l1, k, b, e) && k < |l0| && n == |CutOutAll(s0[..k], b, e)|
    requires CutResult(l1, l, s1, s, n, b, e)
    ensures Removing(s0, l0, s, l, k + 1, b, e)
  {
    hide CutOutAll;
    hide CutOut;
    CutOutNext(s0, k, b, e);
    var c := CutOutAll(s0[..k], b, e);
    assert s1[n] == s0[k] && s1[..n] == c && s1[n + 1..] == s0[k + 1..];
    assert l1[n + 1..] == l1[n..][1..] && l0[k + 1..] == l0[k..][1..];
  }

  predicate Straddles(v: Vma, a: nat) { v.base < a < v.end }

  /** VMA k reaches over an end of the range and is still there; those before it are cut. */
  ghost predicate StoppedAt(s0: seq<Vma>, s: seq<Vma>, k: nat, b: nat, e: nat) {
    && k < |s0| && (Straddles(s0[k], b) || Straddles(s0[k], e))
    && forall a: nat {:trigger Meaning(s, a)} :: Meaning(s, a) == Meaning(CutOutAll(s0[..k], b, e) + s0[k..], a)
  }

  lemma RemovingStopped(s0: seq<Vma>, l0: seq<nat>, s1: seq<Vma>, l1: seq<nat>, s: seq<Vma>, k: nat, b: nat, e: nat)
    requires Removing(s0, l0, s1, l1, k, b, e) && k < |l0| && (Straddles(s0[k], b) || Straddles(s0[k], e))
    requires forall a :: Meaning(s, a) == Meaning(s1, a)
    ensures StoppedAt(s0, s, k, b, e)
  {
    hide Meaning;
    hide CutOutAll;
  }

  lemma NextKnown(s0: seq<Vma>, l0: seq<nat>, s: seq<Vma>, l: seq<nat>, vmas: map<nat, Vma>, k: nat, b: nat, e: nat)
    requires Removing(s0, l0, s, l, k, b, e) && k < |l0| && Known(l, vmas) && s == Linked(l, vmas)
    ensures l0[k] in l && l0[k] in vmas && vmas[l0[k]] == s0[k]
  {
    var n := RemovingFacts(s0, l0, s, l, k, b, e);
  }

  lemma RemovingEnd(s0: seq<Vma>, l0: seq<nat>, s: seq<Vma>, l: seq<nat>, k: nat, b: nat, e: nat)
    requires Removing(s0, l0, s, l, k, b, e) && (k < |s0| ==> e <= s0[k].base)
    ensures s == CutOutAll(s0, b, e)
  {
    hide CutOutAll;
    CutOutRest(s0, k, |s0|, b, e);
    assert s0[..|s0|] == s0 && s0[k..|s0|] == s0[k..];
  }

  // ---- What remove_vma_range removes ------------------------------------------------------------

  /** Address a of VMA v goes when [b, e) is removed; with e <= b everything from b on goes. */
  predicate Taken(v: Vma, b: nat, e: nat, a: nat) {
    b < v.end && v.base < e && Holds(v, a) && b <= a && (b < e ==> a < e)
  }

  lemma CutOutOne(v: Vma, b: nat, e: nat, a: nat)
    ensures Meaning(CutOut(v, b, e), a) == if Taken(v, b, e, a) then None else Meaning([v], a)
  {
    var c := CutOut(v, b, e);
    if |c| == 2 { assert c == [c[0]] + [c[1]]; }
    MeaningFew(c, a);
    MeaningFew([v], a);
  }

  lemma MeaningFew(c: seq<Vma>, a: nat)
    requires |c| <= 2
    ensures Meaning(c, a) == if |c| > 0 && Holds(c[0], a) then Some((c[0].name, c[0].flags))
                             else if |c| == 2 && Holds(c[1], a) then Some((c[1].name, c[1].flags)) else None
  {
    if |c| == 2 { assert c[1..] == [c[1]]; }
  }

  predicate TakenBy(s: seq<Vma>, b: nat, e: nat, a: nat) { exists i :: 0 <= i < |s| && Taken(s[i], b, e, a) }

  lemma TakenSnoc(r: seq<Vma>, v: Vma, b: nat, e: nat, a: nat)
    ensures TakenBy(r + [v], b, e, a) <==> TakenBy(r, b, e, a) || Taken(v, b, e, a)
  {
    var s := r + [v];
    if TakenBy(r, b, e, a) {
      var i :| 0 <= i < |r| && Taken(r[i], b, e, a);
      assert Taken(s[i], b, e, a);
    }
    assert s[|r|] == v;
  }

  lemma TakenHolds(s: seq<Vma>, b: nat, e: nat, a: nat)
    requires TakenBy(s, b, e, a)
    ensures Meaning(s, a).Some?
  {
    MeaningNone(s, a);
  }

  lemma {:induction false} CutOutMeaning(s: seq<Vma>, b: nat, e: nat, a: nat)
    requires Sorted(s)
    ensures Meaning(CutOutAll(s, b, e), a) == if TakenBy(s, b, e, a) then None else Meaning(s, a)
    decreases |s|
  {
    hide Taken;
    hide TakenBy;
    hide CutOut;
    hide Sorted;
    hide Meaning;
    if s != [] {
      var n := |s| - 1;
      var r, v := s[..n], s[n];
      SortedPrefix(s);
      CutOutMeaning(r, b, e, a);
      hide CutOutAll;
      CutOutSnoc(s, b, e);
      CutOutOne(v, b, e, a);
      MeaningConcat(CutOutAll(r, b, e), CutOut(v, b, e), a);
      MeaningConcat(r, [v], a);
      TakenSnoc(r, v, b, e, a);
      if TakenBy(r, b, e, a) {
        TakenHolds(r, b, e, a);
        Exclusive(r, v, a);
      } else if Taken(v, b, e, a) {
        assert TakenBy([v], b, e, a) by { TakenSnoc([], v, b, e, a); assert [] + [v] == [v]; }
        TakenHolds([v], b, e, a);
        Exclusive(r, v, a);
      }
    } else {
      NotTaken(b, e, a);
    }
  }

  lemma SortedPrefix(s: seq<Vma>)
    requires Sorted(s) && s != []
    ensures Sorted(s[..|s| - 1]) && s == s[..|s| - 1] + [s[|s| - 1]]
  {
  }

  lemma CutOutSnoc(s: seq<Vma>, b: nat, e: nat)
    requires s != []
    ensures CutOutAll(s, b, e) == CutOutAll(s[..|s| - 1], b, e) + CutOut(s[|s| - 1], b, e)
  {
  }

  lemma NotTaken(b: nat, e: nat, a: nat)
    ensures !TakenBy([], b, e, a)
  {
  }

  lemma Exclusive(r: seq<Vma>, v: Vma, a: nat)
    requires Sorted(r + [v])
    ensures Meaning(r, a).None? || Meaning([v], a).None?
  {
    MeaningNone(r, a);
    MeaningNone([v], a);
    OneHolder(r + [v], a);
    if Meaning(r, a).Some? {
      var i :| 0 <= i < |r| && Holds(r[i], a);
      assert Holds((r + [v])[i], a) && (r + [v])[|r|] == v;
    }
  }

  /** At most one VMA holds an address. */
  lemma OneHolder(s: seq<Vma>, a: nat)
    requires Sorted(s)
    ensures forall i, j :: 0 <= i < |s| && 0 <= j < |s| && Holds(s[i], a) && Holds(s[j], a) ==> i == j
  {
  }

  /** remove_vma_range(base, size) is asked to take [base, base + size) out of the map. */
  ghost predicate RemovesExactly(s: seq<Vma>, s': seq<Vma>, base: nat, size: nat) {
    forall a: nat :: a < LIMIT ==> Meaning(s', a) == if base <= a < base + size then None else Meaning(s, a)
  }

  /** When it does: always for a range that is not empty and does not wrap around; for an empty
      one unless it lies strictly inside a VMA; for one that wraps only if every VMA that ends
      above base begins below the wrapped end. */
  predicate RangeOk(s: seq<Vma>, base: nat, size: nat) {
    if size == 0 then forall i :: 0 <= i < |s| ==> !(s[i].base < base < s[i].end)
    else base + size < LIMIT ||
         forall i :: 0 <= i < |s| && s[i].base < s[i].end && base < s[i].end ==> s[i].base < base + size - LIMIT
  }

  lemma TakenWhen(s: seq<Vma>, base: nat, size: nat, a: nat)
    requires Sorted(s) && base < LIMIT && size < LIMIT && a < LIMIT && RangeOk(s, base, size)
    ensures var e := (base + size) % LIMIT;
            Meaning(CutOutAll(s, base, e), a) == if base <= a < base + size then None else Meaning(s, a)
  {
    var e := (base + size) % LIMIT;
    assert e == if base + size < LIMIT then base + size else base + size - LIMIT;
    CutOutMeaning(s, base, e, a);
    MeaningNone(s, a);
    if base <= a < base + size && Meaning(s, a).Some? {
      var i :| 0 <= i < |s| && Holds(s[i], a);
      assert Taken(s[i], base, e, a) && TakenBy(s, base, e, a);
    }
  }

  /** An address that shows the removal is not exact. */
  lemma NotExact(s: seq<Vma>, base: nat, size: nat) returns (a: nat)
    requires Sorted(s) && base < LIMIT && size < LIMIT && !RangeOk(s, base, size)
    ensures var e := (base + size) % LIMIT;
            a < LIMIT && Meaning(CutOutAll(s, base, e), a) != if base <= a < base + size then None else Meaning(s, a)
  {
    var e := (base + size) % LIMIT;
    assert e == if base + size < LIMIT then base + size else base + size - LIMIT;
    if size == 0 {
      var i :| 0 <= i < |s| && s[i].base < base < s[i].end;
      a := base;
      assert Taken(s[i], base, e, a);
      MeaningNone(s, a);
    } else {
      var i :| 0 <= i < |s| && s[i].base < s[i].end && base < s[i].end && !(s[i].base < e);
      a := if s[i].base < base then base else s[i].base;
      assert Holds(s[i], a);
      OneHolder(s, a);
      MeaningNone(s, a);
    }
    CutOutMeaning(s, base, e, a);
  }

  /** remove_vma_range takes exactly its range out of the map if and only if RangeOk. */
  lemma RemoveExactly(s: seq<Vma>, base: nat, size: nat)
    requires Sorted(s) && base < LIMIT && size < LIMIT
    ensures RemovesExactly(s, CutOutAll(s, base, (base + size) % LIMIT), base, size) <==> RangeOk(s, base, size)
  {
    var s' := CutOutAll(s, base, (base + size) % LIMIT);
    if RangeOk(s, base, size) {
      forall a: nat | a < LIMIT ensures Meaning(s', a) == if base <= a < base + size then None else Meaning(s, a) {
        TakenWhen(s, base, size, a);
      }
    } else {
      var a := NotExact(s, base, size);
      assert Meaning(s', a) != if base <= a < base + size then None else Meaning(s, a);
    }
  }

  /** munmap of less than a page in the middle of a VMA takes the rest of the VMA away. */
  lemma EmptyRangeRemoves()
    ensures var v := Vma("user", 0, 8192, 0, 8192, 3);
            Sorted([v]) && Meaning([v], 4096).Some? && Meaning(CutOutAll([v], 4096, 4096), 4096).None?
  {
    var v := Vma("user", 0, 8192, 0, 8192, 3);
    CutOutMeaning([v], 4096, 4096, 4096);
    assert Taken([v][0], 4096, 4096, 4096);
  }

  lemma MergedLink(list: seq<nat>, vmas: map<nat, Vma>, k: nat, end: nat)
    requires Known(list, vmas) && Distinct(list) && k + 1 < |list| && end == Linked(list, vmas)[k + 1].end
    ensures var list', vmas' := list[..k + 1] + list[k + 2..],
            vmas[list[k] := Linked(list, vmas)[k].(end := end)] - {list[k + 1]};
            && Known(list', vmas') && Distinct(list') && list[k] in list'
            && Linked(list', vmas') == MergeAt(Linked(list, vmas), k)
  {
    hide Linked;
    var s, v := Linked(list, vmas), Linked(list, vmas)[k].(end := end);
    UpdateLinked(list, vmas, k, v);
    DropLinked(list, vmas[list[k] := v], k + 1);
    assert s[k := v][..k + 1] + s[k := v][k + 2..] == MergeAt(s, k);
    assert (list[..k + 1] + list[k + 2..])[k] == list[k];
  }

  /** list_insert_after and list_insert_before, next to x. */
  function NextTo(list: seq<nat>, x: nat, after: bool, id: nat): seq<nat>
    requires x in list
  {
    var at := if after then Pos(list, x) + 1 else Pos(list, x);
    list[..at] + [id] + list[at..]
  }

  lemma NextToIs(list: seq<nat>, x: nat, after: bool, id: nat, i: nat)
    requires Distinct(list) && if after then 0 < i <= |list| && list[i - 1] == x else i < |list| && list[i] == x
    ensures x in list && NextTo(list, x, after, id) == list[..i] + [id] + list[i..]
  {
    hide Pos;
    PosIs(list, if after then i - 1 else i);
  }

  /** The places of two elements that follow each other. */
  lemma Neighbour(list: seq<nat>, vmas: map<nat, Vma>, k: nat)
    requires Known(list, vmas) && Distinct(list) && k + 1 < |list|
    ensures Pos(list, list[k]) == k && Pos(list, list[k + 1]) == k + 1
    ensures list[k] in vmas && list[k + 1] in vmas && vmas[list[k]] == Linked(list, vmas)[k]
            && vmas[list[k + 1]] == Linked(list, vmas)[k + 1]
  {
    PosIs(list, k);
    PosIs(list, k + 1);
  }

  /** merge_vmas returns a VMA that begins where VMA k does, unless it merged the one before. */
  lemma MergedStart(s: seq<Vma>, k: nat)
    requires k < |s| && Sorted(s)
    ensures 0 <= MergedSpot(s, k) < |MergedAround(s, k)|
    ensures MergedAround(s, k)[MergedSpot(s, k)].base == s[MergedSpot(s, k)].base
    ensures s[MergedSpot(s, k)].base == s[k].base <==> !(MergesAt(s, k - 1) && s[k - 1].base < s[k - 1].end)
  {
    hide Mergeable;
    var s1, j := MergedWith(s, k - 1), MergedSpot(s, k);
    assert s1[j].base == s[j].base;
    if k > 0 { MergedEnds(s, k - 1); }
  }

  lemma MergedEnds(s: seq<Vma>, k: nat)
    requires k + 1 < |s| && Sorted(s)
    ensures MergesAt(s, k) ==> s[k].base <= s[k].end == s[k + 1].base
  {
  }

  /** mmap of the page after an anonymous VMA of the same kind: what is returned is the VMA's base. */
  lemma ReturnedBelow()
    ensures var s := [Vma("user", 4096, 8192, 0, 0, 3), Vma("user", 8192, 12288, 0, 0, 3)];
            Sorted(s) && MergedAround(s, 1)[MergedSpot(s, 1)].base == 4096 && s[1].base == 8192
  {
    var s := [Vma("user", 4096, 8192, 0, 0, 3), Vma("user", 8192, 12288, 0, 0, 3)];
    assert MergesAt(s, 0);
    MergedStart(s, 1);
  }

  lemma MergedFirst(s: seq<Vma>)
    ensures !MergesAt(s, -1) && MergedWith(s, -1) == s
  {
  }

  lemma SpotBound(s: seq<Vma>, s1: seq<Vma>, k: nat, j: nat)
    requires k < |s| && s1 == MergedWith(s, k - 1) && j == MergedSpot(s, k)
    ensures j < |s1|
  {
  }

  lemma MergeSame(s: seq<Vma>, k: nat, a: nat)
    requires Sorted(s) && k + 1 < |s| && Mergeable(s[k], s[k + 1])
    ensures Meaning(MergeAt(s, k), a) == Meaning(s, a)
  {
    MergeMeaning(s, k, a);
  }

  lemma InsertMeaning(s: seq<Vma>, i: nat, v: Vma, a: nat)
    requires i <= |s| && Sorted(s[..i] + [v] + s[i..])
    ensures Meaning(s[..i] + [v] + s[i..], a) == if Holds(v, a) then Some((v.name, v.flags)) else Meaning(s, a)
  {
    var l, r := s[..i], s[i..];
    assert s == l + r && l + [v] + r == l + ([v] + r);
    MeaningConcat(l, r, a);
    MeaningConcat(l, [v] + r, a);
    MeaningConcat([v], r, a);
    MeaningFew([v], a);
    if Holds(v, a) {
      MeaningNone(l, a);
      OneHolder(l + [v] + r, a);
      forall j | 0 <= j < i ensures !Holds(l[j], a) { assert (l + [v] + r)[j] == l[j] && (l + [v] + r)[i] == v; }
    }
  }

  // ---- check_user_vma_range -------------------------------------------------------------------------

  predicate Permits(v: Vma, flags: bv32) { v.flags & flags == flags }

  predicate AccessAt(s: seq<Vma>, a: nat, flags: bv32) {
    exists i :: 0 <= i < |s| && Holds(s[i], a) && Permits(s[i], flags)
  }

  /** Every address of [b, e) lies in a VMA with the given flags. */
  ghost predicate Accessible(s: seq<Vma>, b: nat, e: nat, flags: bv32) {
    forall a: nat :: b <= a < e ==> AccessAt(s, a, flags)
  }

  /** Every empty VMA strictly inside (b, e) has the given flags. */
  ghost predicate EmptyPermit(s: seq<Vma>, b: nat, e: nat, flags: bv32) {
    forall i :: 0 <= i < |s| && s[i].base == s[i].end && b < s[i].base < e ==> Permits(s[i], flags)
  }

  /** check_user_vma_range has accepted the VMAs from first to k - 1. */
  ghost predicate Checked(s: seq<Vma>, first: nat, k: nat, b: nat, flags: bv32, last: nat) {
    && first <= k <= |s| && Sorted(s) && b <= last
    && (forall i :: 0 <= i < first ==> s[i].end <= b) && (forall i :: first <= i < |s| ==> b < s[i].end)
    && (forall i :: first <= i < k ==> Permits(s[i], flags) && s[i].end <= last)
    && (if k == first then last == b else last == s[k - 1].end)
    && Accessible(s, b, last, flags)
  }

  lemma CheckedStart(s: seq<Vma>, k: nat, b: nat, flags: bv32)
    requires Sorted(s) && k == FirstAbove(s, b)
    ensures k <= |s| && Checked(s, k, k, b, flags, b)
  {
    MeetsIff(s, k, b, b);
  }

  lemma CheckedLast(s: seq<Vma>, first: nat, k: nat, b: nat, flags: bv32, last: nat)
    requires Checked(s, first, k, b, flags, last)
    ensures Accessible(s, b, last, flags)
  {
  }

  lemma CheckedNext(s: seq<Vma>, first: nat, k: nat, b: nat, flags: bv32, last: nat)
    requires Checked(s, first, k, b, flags, last) && k < |s| && s[k].base <= last && Permits(s[k], flags)
    ensures Checked(s, first, k + 1, b, flags, s[k].end)
  {
    forall a: nat | b <= a < s[k].end ensures AccessAt(s, a, flags) {
      if a >= last { assert Holds(s[k], a); }
    }
  }

  /** fault is the first address of [b, e) that is not accessible, or that is held up by an empty VMA
      without the flags. */
  ghost predicate FirstBad(s: seq<Vma>, b: nat, e: nat, flags: bv32, fault: nat) {
    && b <= fault < e && Accessible(s, b, fault, flags) && EmptyPermit(s, b, fault, flags)
    && (AccessAt(s, fault, flags) ==>
          b < fault && exists i :: 0 <= i < |s| && s[i].base == s[i].end == fault && !Permits(s[i], flags))
  }

  /** There is one such address exactly if the range is refused. */
  lemma FirstBadOnly(s: seq<Vma>, b: nat, e: nat, flags: bv32, f: nat, g: nat)
    requires FirstBad(s, b, e, flags, f)
    ensures !(Accessible(s, b, e, flags) && EmptyPermit(s, b, e, flags))
    ensures FirstBad(s, b, e, flags, g) ==> g == f
  {
    hide Permits;
    hide AccessAt;
    if FirstBad(s, b, e, flags, g) {
      if f < g { BadBefore(s, b, flags, f, g); }
      if g < f { BadBefore(s, b, flags, g, f); }
    }
  }

  lemma BadBefore(s: seq<Vma>, b: nat, flags: bv32, f: nat, g: nat)
    requires b <= f < g && Accessible(s, b, g, flags) && EmptyPermit(s, b, g, flags)
    ensures AccessAt(s, f, flags)
    ensures forall i :: 0 <= i < |s| && s[i].base == s[i].end == f && b < f ==> Permits(s[i], flags)
  {
  }

  lemma CheckedEmpty(s: seq<Vma>, first: nat, k: nat, b: nat, flags: bv32, last: nat)
    requires Checked(s, first, k, b, flags, last)
    ensures EmptyPermit(s, b, last, flags)
  {
    forall i | 0 <= i < |s| && s[i].base == s[i].end && b < s[i].base < last ensures Permits(s[i], flags) {
      assert first <= i < k;
    }
  }

  /** A gap before VMA k, or a VMA without the flags: some address is not accessible, or the VMA is empty. */
  lemma CheckedGap(s: seq<Vma>, first: nat, k: nat, b: nat, e: nat, flags: bv32, last: nat)
    requires Checked(s, first, k, b, flags, last) && last < e && b < e && (k < |s| ==> last < s[k].base)
    ensures !Accessible(s, b, e, flags) && FirstBad(s, b, e, flags, last)
  {
    CheckedEmpty(s, first, k, b, flags, last);
    forall i | 0 <= i < |s| ensures !Holds(s[i], last) {}
    assert !AccessAt(s, last, flags);
  }

  lemma CheckedBad(s: seq<Vma>, first: nat, k: nat, b: nat, e: nat, flags: bv32, last: nat)
    requires Checked(s, first, k, b, flags, last) && k < |s| && s[k].base < e && b < e && s[k].base <= last
    requires !Permits(s[k], flags)
    ensures FirstBad(s, b, e, flags, last)
  {
    CheckedEmpty(s, first, k, b, flags, last);
    assert k > first ==> s[k].base == last;
    if Holds(s[k], last) && AccessAt(s, last, flags) {
      var i :| 0 <= i < |s| && Holds(s[i], last) && Permits(s[i], flags);
      OneHolder(s, last);
      assert false;
    }
  }

  lemma CheckedAll(s: seq<Vma>, first: nat, k: nat, b: nat, e: nat, flags: bv32, last: nat)
    requires Checked(s, first, k, b, flags, last) && e <= last && (k < |s| ==> e <= s[k].base)
    ensures Accessible(s, b, e, flags) && EmptyPermit(s, b, e, flags)
  {
    forall i | 0 <= i < |s| && s[i].base == s[i].end && b < s[i].base < e ensures Permits(s[i], flags) {
      assert first <= i < k;
    }
  }

  /** Two readable pages with an empty VMA of mmap without permissions between them: accessible,
      and yet refused. */
  lemma EmptyVmaRefused()
    ensures var s := [Vma("user", 4096, 8192, 0, 0, 1), Vma("user", 8192, 8192, 0, 0, 0),
                      Vma("user", 8192, 12288, 0, 0, 1)];
            Sorted(s) && Accessible(s, 4096, 12288, 1) && !EmptyPermit(s, 4096, 12288, 1)
  {
    var s := [Vma("user", 4096, 8192, 0, 0, 1), Vma("user", 8192, 8192, 0, 0, 0), Vma("user", 8192, 12288, 0, 0, 1)];
    forall a: nat | 4096 <= a < 12288 ensures AccessAt(s, a, 1) {
      assert Permits(s[0], 1) && Permits(s[2], 1);
      assert Holds(s[if a < 8192 then 0 else 2], a);
    }
    assert s[1].base == s[1].end && !Permits(s[1], 1);
  }

  // ---- mquery and print_vmas ------------------------------------------------------------------------

  /** struct vma_info: a range, and the VMA it belongs to, if any. */
  datatype Info = Info(base: nat, end: nat, vma: Option<Vma>)

  function QueryAt(s: seq<Vma>, addr: nat): Info {
    var i := FirstAbove(s, addr);
    var low := if 0 < i <= |s| then s[i - 1].end else 0;
    if i >= |s| then Info(low, USER_LIM, None)
    else if addr < s[i].base then Info(low, s[i].base, None)
    else Info(s[i].base, s[i].end, Some(s[i]))
  }

  /** A VMA is reported exactly if one has the address, and a gap reaches from one VMA to the next. */
  lemma QueryExact(s: seq<Vma>, addr: nat)
    requires Sorted(s) && addr < USER_LIM
    ensures var q := QueryAt(s, addr);
            && (q.vma.Some? <==> exists j :: 0 <= j < |s| && Holds(s[j], addr))
            && (q.vma.None? ==>
                  && (q.base == 0 || exists j :: 0 <= j < |s| && s[j].end == q.base)
                  && (q.end == USER_LIM || exists j :: 0 <= j < |s| && s[j].base == q.end))
  {
    var q, i := QueryAt(s, addr), FirstAbove(s, addr);
    FirstAboveFacts(s, addr);
    hide FirstAbove;
    if q.vma.Some? {
      assert Holds(s[i], addr);
    } else {
      if i > 0 { assert s[i - 1].end == q.base; }
      if i < |s| { assert s[i].base == q.end; }
    }
  }

  /** The answer contains the address and is a VMA, or a gap with nothing in it. */
  lemma QueryFacts(s: seq<Vma>, addr: nat)
    requires Sorted(s) && addr < USER_LIM
    ensures var q := QueryAt(s, addr);
            && q.base <= addr < q.end <= USER_LIM
            && (q.vma.Some? ==> q.vma.value in s && q.base == q.vma.value.base && q.end == q.vma.value.end)
            && (q.vma.None? ==> forall a: nat :: q.base <= a < q.end ==> Meaning(s, a).None?)
  {
    var q, i := QueryAt(s, addr), FirstAbove(s, addr);
    FirstAboveFacts(s, addr);
    if q.vma.None? {
      forall a: nat | q.base <= a < q.end ensures Meaning(s, a).None? {
        forall j | 0 <= j < |s| ensures !Holds(s[j], a) {}
        MeaningNone(s, a);
      }
    }
  }

  /** The ranges follow each other without gap or overlap from lo to hi. */
  predicate Tiles(lines: seq<Info>, lo: nat, hi: nat)
    decreases |lines|
  {
    if lines == [] then lo == hi
    else var last := lines[|lines| - 1]; last.base < last.end == hi && Tiles(lines[..|lines| - 1], lo, last.base)
  }

  function Reported(lines: seq<Info>): seq<Vma> {
    if lines == [] then []
    else var last := lines[|lines| - 1];
      Reported(lines[..|lines| - 1]) + if last.vma.Some? then [last.vma.value] else []
  }

  function NonEmpty(s: seq<Vma>): seq<Vma> {
    if s == [] then []
    else var last := s[|s| - 1]; NonEmpty(s[..|s| - 1]) + if last.base < last.end then [last] else []
  }

  lemma {:induction false} FewerShown(s: seq<Vma>, i: nat)
    requires i <= |s|
    ensures |NonEmpty(s)| <= |s|
    ensures i < |s| && s[i].base >= s[i].end ==> |NonEmpty(s)| < |s|
    decreases |s|
  {
    if s != [] {
      var r, v := s[..|s| - 1], s[|s| - 1];
      FewerShown(r, if i < |r| then i else |r|);
    }
  }

  lemma {:induction false} NoneHidden(s: seq<Vma>)
    requires forall i :: 0 <= i < |s| ==> s[i].base < s[i].end
    ensures NonEmpty(s) == s
    decreases |s|
  {
    if s != [] {
      var r, v := s[..|s| - 1], s[|s| - 1];
      NoneHidden(r);
      assert s == r + [v];
    }
  }

  /** print_vmas shows all VMAs if and only if none of them is empty. */
  lemma AllShown(s: seq<Vma>)
    ensures NonEmpty(s) == s <==> forall i :: 0 <= i < |s| ==> s[i].base < s[i].end
  {
    hide NonEmpty;
    if i: nat :| i < |s| && s[i].base >= s[i].end {
      FewerShown(s, i);
    } else {
      NoneHidden(s);
    }
  }

  /** mmap of length 0 makes a VMA that print_vmas does not show. */
  lemma EmptyVmaHidden()
    ensures var s := [Vma("user", 4096, 4096, 0, 0, 3)]; Sorted(s) && NonEmpty(s) == []
  {
    var s := [Vma("user", 4096, 4096, 0, 0, 3)];
    assert s[..0] == [];
  }

  lemma {:induction false} SkipEmpty(s: seq<Vma>, i: nat, j: nat)
    requires i <= j <= |s| && forall k :: i <= k < j ==> s[k].base >= s[k].end
    ensures NonEmpty(s[..j]) == NonEmpty(s[..i])
    decreases j
  {
    if i < j {
      SkipEmpty(s, i, j - 1);
      assert s[..j][..j - 1] == s[..j - 1];
    }
  }

  /** addr does not lie inside a VMA, nor strictly inside a gap. */
  ghost predicate Boundary(s: seq<Vma>, addr: nat) {
    var i := FirstAbove(s, addr);
    i <= |s| && if i < |s| && s[i].base <= addr then addr == s[i].base else addr == if i > 0 then s[i - 1].end else 0
  }

  lemma BoundaryStart(s: seq<Vma>)
    requires Sorted(s)
    ensures Boundary(s, 0) && NonEmpty(s[..FirstAbove(s, 0)]) == []
  {
    FirstAboveFacts(s, 0);
    SkipEmpty(s, 0, FirstAbove(s, 0));
    assert s[..0] == [];
  }

  lemma EmptyBetween(s: seq<Vma>, i: nat, j: nat)
    requires Sorted(s) && i < j <= |s| && forall k :: 0 <= k < j ==> s[k].end <= s[i].end
    ensures forall k :: i < k < j ==> s[k].base >= s[k].end
    ensures s[j - 1].end == s[i].end
  {
    forall k | i < k < j ensures s[k].base == s[k].end == s[i].end { assert s[i].end <= s[k].base; }
  }

  lemma NextAbove(s: seq<Vma>, i: nat, j: nat)
    requires i < |s| && j <= |s| && (j < |s| ==> s[i].end < s[j].end) && forall k :: 0 <= k < j ==> s[k].end <= s[i].end
    requires Sorted(s)
    ensures i < j
  {

  }

  lemma VmaNext(s: seq<Vma>, i: nat, j: nat)
    requires Sorted(s) && i < |s| && s[i].base < s[i].end && j == FirstAbove(s, s[i].end)
    ensures j <= |s| && Boundary(s, s[i].end) && NonEmpty(s[..j]) == NonEmpty(s[..i]) + [s[i]]
  {
    hide NonEmpty;
    hide FirstAbove;
    FirstAboveFacts(s, s[i].end);
    NextAbove(s, i, j);
    EmptyBetween(s, i, j);
    hide Sorted;
    SkipEmpty(s, i + 1, j);
    NonEmptyNext(s, i);
  }

  lemma NonEmptyNext(s: seq<Vma>, i: nat)
    requires i < |s| && s[i].base < s[i].end
    ensures NonEmpty(s[..i + 1]) == NonEmpty(s[..i]) + [s[i]]
  {
    assert s[..i + 1][..i] == s[..i];
  }

  lemma GapNext(s: seq<Vma>, i: nat, j: nat)
    requires Sorted(s) && i < |s| && j == FirstAbove(s, s[i].base) && forall k :: 0 <= k < i ==> s[k].end < s[i].base
    ensures j <= |s| && Boundary(s, s[i].base) && NonEmpty(s[..j]) == NonEmpty(s[..i])
  {
    hide NonEmpty;
    hide FirstAbove;
    FirstAboveFacts(s, s[i].base);
    assert j >= i;
    SkipEmpty(s, i, j);
  }

  /** The next answer starts where the last one ended, and VMAs come up one after the other. */
  lemma BoundaryNext(s: seq<Vma>, addr: nat)
    requires Sorted(s) && addr < USER_LIM && Boundary(s, addr)
    ensures var q := QueryAt(s, addr);
            && q.base == addr < q.end <= USER_LIM && (q.end < USER_LIM ==> Boundary(s, q.end))
            && FirstAbove(s, addr) <= |s| && FirstAbove(s, q.end) <= |s|
            && NonEmpty(s[..FirstAbove(s, q.end)]) == NonEmpty(s[..FirstAbove(s, addr)]) + if q.vma.Some?
               then [q.vma.value] else []
  {
    hide NonEmpty;
    var q, i := QueryAt(s, addr), FirstAbove(s, addr);
    FirstAboveFacts(s, addr);
    QueryFacts(s, addr);
    var j := FirstAbove(s, q.end);
    if i == |s| {
      FirstAboveIs(s, USER_LIM, |s|);
    } else if q.vma.Some? {
      VmaNext(s, i, j);
    } else {
      GapNext(s, i, j);
    }
  }

  lemma BoundaryEnd(s: seq<Vma>)
    requires Sorted(s)
    ensures FirstAbove(s, USER_LIM) == |s| && s[..|s|] == s
  {
    FirstAboveIs(s, USER_LIM, |s|);
  }

  lemma AboveBound(s: seq<Vma>, a: nat)
    ensures FirstAbove(s, a) <= |s|
  {
    FirstAboveFacts(s, a);
  }

  lemma LineNext(lines: seq<Info>, q: Info)
    requires q.base < q.end && Tiles(lines, 0, q.base)
    ensures Tiles(lines + [q], 0, q.end)
    ensures Reported(lines + [q]) == Reported(lines) + if q.vma.Some? then [q.vma.value] else []
  {
    assert (lines + [q])[..|lines|] == lines;
  }
}
