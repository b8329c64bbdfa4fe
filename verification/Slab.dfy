/** kernel/mem/slab.c and kmem.c: objects of fixed sizes inside pages of the frame allocator. */
module Slab {
  import opened Common
  import opened Orders
  import opened Buddy

  const PAGE: nat := 4096
  const ALIGN: nat := 32        // SLAB_ALIGN
  const HEADER: nat := 24       // sizeof(struct slab_obj)
  const FOOTER: nat := 48       // sizeof(struct slab_info)
  const NSLABS: nat := 32
  const WORD: nat := 0x1_0000_0000_0000_0000

  /** struct slab without its lists. */
  datatype Layout = Layout(objSize: nat, count: nat, infoOff: nat)

  /** struct slab_info of the slab in a frame; free lists the numbers of its free objects. */
  datatype SlabInfo = SlabInfo(slab: nat, free: seq<nat>, freeCount: nat)

  function RoundUp(x: nat): nat { (x + ALIGN - 1) / ALIGN * ALIGN }

  // ---- Layout of a page -----------------------------------------------------------------------------

  /** Objects of objSize bytes, each with its header, and the footer fit in a page; objects are no
      larger than aligning makes them, and one more would not fit. */
  ghost predicate LayoutOk(l: Layout, size: nat) {
    && l.objSize % ALIGN == 0 && size + HEADER <= l.objSize < size + HEADER + ALIGN && l.infoOff == l.objSize * l.count
    && l.infoOff + FOOTER <= PAGE
    && 0 < l.count < 64 && PAGE - FOOTER < l.infoOff + l.objSize
  }

  function Address(l: Layout, f: nat, i: nat): nat { f * PAGE + i * l.objSize + HEADER }

  ghost predicate InObject(l: Layout, f: nat, i: nat, b: nat)
  { Address(l, f, i) <= b < Address(l, f, i) + l.objSize - HEADER }

  ghost predicate InHeader(l: Layout, f: nat, i: nat, b: nat) { Address(l, f, i) - HEADER <= b < Address(l, f, i) }

  ghost predicate InFooter(l: Layout, f: nat, b: nat) { f * PAGE + l.infoOff <= b < f * PAGE + l.infoOff + FOOTER }

  lemma Multiples(i: nat, n: nat, z: nat)
    requires i < n
    ensures (i + 1) * z == i * z + z && (i + 1) * z <= z * n
  {
    assert (i + 1) * z == z * (i + 1);
    MulMono(i + 1, n, z);
  }

  lemma SlotBounds(l: Layout, size: nat, i: nat)
    requires LayoutOk(l, size) && i < l.count
    ensures l.objSize >= HEADER && i * l.objSize + l.objSize == (i + 1) * l.objSize <= l.infoOff < PAGE
  {
    Multiples(i, l.count, l.objSize);
  }

  lemma SlotBytes(l: Layout, f: nat, i: nat, b: nat)
    requires l.objSize >= HEADER && (InObject(l, f, i, b) || InHeader(l, f, i, b))
    ensures f * PAGE + i * l.objSize <= b < f * PAGE + i * l.objSize + l.objSize
  {
  }

  lemma InBounds(page: nat, x: nat, z: nat, y: nat, off: nat, b: nat)
    requires x + z == y <= off < PAGE && page + x <= b < page + x + z
    ensures x <= b - page < y <= off && 0 <= b - page < PAGE
  {
  }

  /** Where in the page a byte of object i lies. */
  lemma InPage(l: Layout, size: nat, f: nat, i: nat, b: nat)
    requires LayoutOk(l, size) && i < l.count && (InObject(l, f, i, b) || InHeader(l, f, i, b))
    ensures i * l.objSize <= b - f * PAGE < (i + 1) * l.objSize <= l.infoOff
    ensures 0 <= b - f * PAGE < PAGE
  {
    SlotBounds(l, size, i);
    SlotBytes(l, f, i, b);
    hide LayoutOk;
    hide InObject;
    hide InHeader;
    InBounds(f * PAGE, i * l.objSize, l.objSize, (i + 1) * l.objSize, l.infoOff, b);
  }

  lemma SameSlot(z: nat, i: nat, j: nat, x: int)
    requires i * z <= x < (i + 1) * z && j * z <= x < (j + 1) * z
    ensures i == j
  {
    if i < j { MulMono(i + 1, j, z); }
    if j < i { MulMono(j + 1, i, z); }
  }

  lemma SamePage(f: nat, g: nat, x: nat, y: nat)
    requires f * PAGE + x == g * PAGE + y && x < PAGE && y < PAGE
    ensures f == g && x == y
  {
  }

  lemma SameObject(l: Layout, ls: nat, f: nat, i: nat, m: Layout, ms: nat, g: nat, j: nat, b: nat)
    requires LayoutOk(l, ls) && LayoutOk(m, ms) && i < l.count && j < m.count && (f == g ==> l == m)
    requires InObject(l, f, i, b) || InHeader(l, f, i, b)
    requires InObject(m, g, j, b) || InHeader(m, g, j, b)
    ensures (f, i) == (g, j)
  {
    hide InObject;
    hide InHeader;
    InPage(l, ls, f, i, b);
    InPage(m, ms, g, j, b);
    hide LayoutOk;
    var x, y := b - f * PAGE, b - g * PAGE;
    SamePage(f, g, x, y);
    SameSlot(l.objSize, i, j, x);
  }

  lemma NotFooter(l: Layout, ls: nat, f: nat, i: nat, m: Layout, ms: nat, g: nat, b: nat)
    requires LayoutOk(l, ls) && LayoutOk(m, ms) && i < l.count && (f == g ==> l == m) && InObject(l, f, i, b)
    ensures !InFooter(m, g, b)
  {
    InPage(l, ls, f, i, b);
    hide InObject;
    if InFooter(m, g, b) { SamePage(f, g, b - f * PAGE, b - g * PAGE); }
  }

  /** A byte of an object belongs to no other object, to no header and to no footer, of whatever
      slabs in whatever frames. */
  lemma Separate(l: Layout, ls: nat, f: nat, i: nat, m: Layout, ms: nat, g: nat, j: nat, b: nat)
    requires LayoutOk(l, ls) && LayoutOk(m, ms) && i < l.count && j < m.count && (f == g ==> l == m)
             && InObject(l, f, i, b)
    ensures (f, i) != (g, j) ==> !InObject(m, g, j, b)
    ensures !InHeader(m, g, j, b) && !InFooter(m, g, b)
  {
    NotFooter(l, ls, f, i, m, ms, g, b);
    hide LayoutOk;
    hide InFooter;
    if InObject(m, g, j, b) || InHeader(m, g, j, b) { SameObject(l, ls, f, i, m, ms, g, j, b); }
  }

  // ---- The slabs of one size ---------------------------------------------------------------------------

  /** A slab is on the list of full slabs exactly if it has no free object, and on the list of
      partial slabs otherwise. Only a new slab has nothing but free objects. */
  ghost predicate FrameOk(partial: seq<nat>, full: seq<nat>, info: SlabInfo, count: nat, f: nat, isNew: bool) {
    && info.freeCount == |info.free| && Distinct(info.free) && (forall i :: i in info.free ==> i < count)
    && (f in partial <==> info.free != []) && (f in full <==> info.free == [])
    && (if isNew then |info.free| == count else |info.free| < count)
  }

  ghost predicate ListsOk(partial: seq<nat>, full: seq<nat>, info: map<nat, SlabInfo>, k: nat) {
    && Distinct(partial) && Distinct(full)
    && forall f :: f in partial || f in full ==> f in info && info[f].slab == k
  }

  ghost predicate SlabsOk(layouts: seq<Layout>, partial: seq<seq<nat>>, full: seq<seq<nat>>, info: map<nat, SlabInfo>,
                          newest: Option<nat>) {
    && |layouts| == |partial| == |full| == NSLABS
    && (forall k {:trigger layouts[k]} :: 0 <= k < NSLABS ==> LayoutOk(layouts[k], (k + 1) * ALIGN))
    && (forall k {:trigger partial[k]} {:trigger full[k]} :: 0 <= k < NSLABS ==> ListsOk(partial[k], full[k], info, k))
    && (forall f {:trigger info[f]} :: f in info ==>
          info[f].slab < NSLABS
            && FrameOk(partial[info[f].slab], full[info[f].slab], info[f], layouts[info[f].slab].count, f,
                       newest == Some(f)))
  }

  lemma FrameSame(p: seq<nat>, q: seq<nat>, p': seq<nat>, q': seq<nat>, s: SlabInfo, count: nat, g: nat, isNew: bool)
    requires FrameOk(p, q, s, count, g, isNew) && (g in p' <==> g in p) && (g in q' <==> g in q)
    ensures FrameOk(p', q', s, count, g, isNew)
  {
  }

  /** Changing slab f, and its place on the lists of slab allocator k, changes nothing for the others. */
  lemma ReplaceSlab(layouts: seq<Layout>, partial: seq<seq<nat>>, full: seq<seq<nat>>, info: map<nat, SlabInfo>,
                    newest: Option<nat>,
                    k: nat, f: nat, p: seq<nat>, q: seq<nat>, info': map<nat, SlabInfo>, newest': Option<nat>)
    requires SlabsOk(layouts, partial, full, info, newest) && k < NSLABS && (f in info ==> info[f].slab == k)
    requires newest in {None, Some(f)} && newest' in {None, Some(f)}
    requires Distinct(p) && Distinct(q)
    requires forall g ::
               g != f ==>
                 && (g in p <==> g in partial[k]) && (g in q <==> g in full[k])
                 && (g in info' <==> g in info) && (g in info ==> info'[g] == info[g])
    requires f in p || f in q ==> f in info'
    requires f in info' ==> info'[f].slab == k && FrameOk(p, q, info'[f], layouts[k].count, f, newest' == Some(f))
    ensures SlabsOk(layouts, partial[k := p], full[k := q], info', newest')
  {
    hide LayoutOk;
    hide FrameOk;
    hide Distinct;
    var partial', full' := partial[k := p], full[k := q];
    forall j | 0 <= j < NSLABS ensures ListsOk(partial'[j], full'[j], info', j)
    { assert ListsOk(partial[j], full[j], info, j); }
    forall g | g in info'
      ensures info'[g].slab < NSLABS
              && FrameOk(partial'[info'[g].slab], full'[info'[g].slab], info'[g], layouts[info'[g].slab].count, g,
                         newest' == Some(g))
    {
      if g != f {
        var j := info[g].slab;
        assert FrameOk(partial[j], full[j], info[g], layouts[j].count, g, false);
        FrameSame(partial[j], full[j], partial'[j], full'[j], info[g], layouts[j].count, g, false);
      }
    }
  }

  lemma SlabFacts(layouts: seq<Layout>, partial: seq<seq<nat>>, full: seq<seq<nat>>, info: map<nat, SlabInfo>,
                  newest: Option<nat>, k: nat)
    requires SlabsOk(layouts, partial, full, info, newest) && k < NSLABS
    ensures 0 < layouts[k].count < 64 && ListsOk(partial[k], full[k], info, k)
    ensures forall f ::
              f in info && info[f].slab == k ==>
                  FrameOk(partial[k], full[k], info[f], layouts[k].count, f, newest == Some(f))
  {
    assert LayoutOk(layouts[k], (k + 1) * ALIGN);
    assert ListsOk(partial[k], full[k], info, k);
  }

  /** slab_alloc_chunk puts a new slab, with all objects free, at the head of the partial list. */
  lemma AddSlab(layouts: seq<Layout>, partial: seq<seq<nat>>, full: seq<seq<nat>>, info: map<nat, SlabInfo>, k: nat,
                f: nat, free: seq<nat>)
    requires SlabsOk(layouts, partial, full, info, None) && k < NSLABS && f !in info
    requires Distinct(free) && |free| == layouts[k].count && forall i :: i in free ==> i < layouts[k].count
    ensures SlabsOk(layouts, partial[k := [f] + partial[k]], full, info[f := SlabInfo(k, free, |free|)], Some(f))
  {
    SlabFacts(layouts, partial, full, info, None, k);
    hide SlabsOk;
    PrependDistinct(f, partial[k]);
    FullSame(layouts, partial, full, info, None, k);
    ReplaceSlab(layouts, partial, full, info, None, k, f, [f] + partial[k], full[k],
                info[f := SlabInfo(k, free, |free|)], Some(f));
  }

  lemma FullSame(layouts: seq<Layout>, partial: seq<seq<nat>>, full: seq<seq<nat>>, info: map<nat, SlabInfo>,
                 newest: Option<nat>, k: nat)
    requires SlabsOk(layouts, partial, full, info, newest) && k < NSLABS
    ensures |full| == |partial| == NSLABS && full[k := full[k]] == full && partial[k := partial[k]] == partial
  {
  }

  /** slab_alloc takes the first free object of the first partial slab. */
  lemma TakeObject(layouts: seq<Layout>, partial: seq<seq<nat>>, full: seq<seq<nat>>, info: map<nat, SlabInfo>,
                   newest: Option<nat>, k: nat)
    requires SlabsOk(layouts, partial, full, info, newest) && k < NSLABS && partial[k] != []
             && (newest.Some? ==> newest == Some(partial[k][0]))
    ensures var f := partial[k][0];
            && f in info && info[f].slab == k && info[f].free != [] && info[f].freeCount == |info[f].free|
            && var info' := info[f := SlabInfo(k, info[f].free[1..], info[f].freeCount - 1)];
               if |info[f].free| == 1
                  then SlabsOk(layouts, partial[k := partial[k][1..]], full[k := [f] + full[k]], info', None)
               else SlabsOk(layouts, partial, full, info', None)
  {
    SlabFacts(layouts, partial, full, info, newest, k);
    FullSame(layouts, partial, full, info, newest, k);
    hide SlabsOk;
    var f := partial[k][0];
    assert f in partial[k];
    TailDistinct(info[f].free);
    TailDistinct(partial[k]);
    var info' := info[f := SlabInfo(k, info[f].free[1..], info[f].freeCount - 1)];
    if |info[f].free| == 1 {
      PrependDistinct(f, full[k]);
      ReplaceSlab(layouts, partial, full, info, newest, k, f, partial[k][1..], [f] + full[k], info', None);
    } else {
      ReplaceSlab(layouts, partial, full, info, newest, k, f, partial[k], full[k], info', None);
    }
  }

  /** slab_free puts the object at the head of the free list; a full slab becomes partial. */
  lemma ReturnObject(layouts: seq<Layout>, partial: seq<seq<nat>>, full: seq<seq<nat>>, info: map<nat, SlabInfo>,
                     f: nat, i: nat)
    requires SlabsOk(layouts, partial, full, info, None) && f in info && i < layouts[info[f].slab].count
             && i !in info[f].free
    ensures var k, s := info[f].slab, info[f];
            var info', newest := info[f := SlabInfo(k, [i] + s.free, s.freeCount + 1)],
                if |s.free| + 1 == layouts[k].count then Some(f) else None;
            && s.freeCount == |s.free|
            && if s.free == []
               then SlabsOk(layouts, partial[k := [f] + partial[k]], full[k := Without(full[k], f)], info', newest)
               else SlabsOk(layouts, partial, full, info', newest)
  {
    var k, s := info[f].slab, info[f];
    SlabFacts(layouts, partial, full, info, None, k);
    FullSame(layouts, partial, full, info, None, k);
    hide SlabsOk;
    hide Without;
    PrependDistinct(i, s.free);
    var info', newest := info[f := SlabInfo(k, [i] + s.free, s.freeCount + 1)], if |s.free| + 1 == layouts[k].count
        then Some(f) else None;
    if s.free == [] {
      WithoutFacts(full[k], f);
      PrependDistinct(f, partial[k]);
      ReplaceSlab(layouts, partial, full, info, None, k, f, [f] + partial[k], Without(full[k], f), info', newest);
    } else {
      ReplaceSlab(layouts, partial, full, info, None, k, f, partial[k], full[k], info', newest);
    }
  }

  /** slab_free_chunk takes a slab without live objects away. */
  lemma DropSlab(layouts: seq<Layout>, partial: seq<seq<nat>>, full: seq<seq<nat>>, info: map<nat, SlabInfo>, f: nat)
    requires SlabsOk(layouts, partial, full, info, Some(f)) && f in info
    ensures var k := info[f].slab; SlabsOk(layouts, partial[k := Without(partial[k], f)], full, info - {f}, None)
  {
    var k := info[f].slab;
    SlabFacts(layouts, partial, full, info, Some(f), k);
    FullSame(layouts, partial, full, info, Some(f), k);
    hide SlabsOk;
    hide Without;
    WithoutFacts(partial[k], f);
    ReplaceSlab(layouts, partial, full, info, Some(f), k, f, Without(partial[k], f), full[k], info - {f}, None);
  }

  // ---- Live objects -----------------------------------------------------------------------------------

  predicate IsLive(layouts: seq<Layout>, info: map<nat, SlabInfo>, f: nat, i: nat) {
    f in info && info[f].slab < |layouts| && i < layouts[info[f].slab].count && i !in info[f].free
  }

  /** The objects that are allocated, by frame and number. */
  ghost function Live(layouts: seq<Layout>, info: map<nat, SlabInfo>): set<(nat, nat)> {
    set f, i | f in info && 0 <= i < 64 && IsLive(layouts, info, f, i) :: (f, i)
  }

  function Numbers(n: nat): (r: set<nat>)
    ensures |r| == n && forall x: nat :: x in r <==> x < n
  {
    if n == 0 then {} else Numbers(n - 1) + {n - 1}
  }

  function Elements(s: seq<nat>): set<nat> { set x | x in s }

  /** All objects of a slab are on the list, so none is live. */
  lemma AllOnList(free: seq<nat>, n: nat)
    requires Distinct(free) && |free| == n && forall i :: i in free ==> i < n
    ensures forall i: nat :: i < n ==> i in free
  {
    DistinctCount(free);
    SubsetEqual(Elements(free), Numbers(n));
    forall i: nat | i < n ensures i in free { assert i in Numbers(n) && i in Elements(free); }
  }

  lemma {:induction false} DistinctCount(s: seq<nat>)
    requires Distinct(s)
    ensures |Elements(s)| == |s|
    decreases |s|
  {
    if s != [] {
      TailDistinct(s);
      DistinctCount(s[1..]);
      assert Elements(s) == Elements(s[1..]) + {s[0]};
    }
  }

  lemma SubsetEqual(a: set<nat>, b: set<nat>)
    requires a <= b && |a| == |b|
    ensures a == b
  {
    if a != b {
      var x :| x in b && x !in a;
      assert |b - {x}| == |b| - 1;
      SubsetSize(a, b - {x});
    }
  }

  lemma LiveAdd(layouts: seq<Layout>, info: map<nat, SlabInfo>, k: nat, f: nat, free: seq<nat>)
    requires k < |layouts| && f !in info && Distinct(free) && |free| == layouts[k].count
             && forall i :: i in free ==> i < layouts[k].count
    ensures Live(layouts, info[f := SlabInfo(k, free, |free|)]) == Live(layouts, info)
  {
    AllOnList(free, layouts[k].count);
    var info' := info[f := SlabInfo(k, free, |free|)];
    forall g: nat, i: nat ensures (g, i) in Live(layouts, info') <==> (g, i) in Live(layouts, info) {
      assert IsLive(layouts, info', g, i) == IsLive(layouts, info, g, i);
    }
  }

  lemma LiveTake(layouts: seq<Layout>, info: map<nat, SlabInfo>, f: nat, s: SlabInfo, i: nat)
    requires f in info && info[f].slab < |layouts| && i in info[f].free && i < layouts[info[f].slab].count < 64
    requires s.slab == info[f].slab && forall x :: x in s.free <==> x in info[f].free && x != i
    ensures (f, i) !in Live(layouts, info) && Live(layouts, info[f := s]) == Live(layouts, info) + {(f, i)}
  {
    var info' := info[f := s];
    forall g: nat, j: nat ensures (g, j) in Live(layouts, info') <==>
             (g, j) in Live(layouts, info) || (g, j) == (f, i) {
      assert IsLive(layouts, info', g, j) == (IsLive(layouts, info, g, j) || (g, j) == (f, i));
    }
  }

  lemma LiveGive(layouts: seq<Layout>, info: map<nat, SlabInfo>, f: nat, s: SlabInfo, i: nat)
    requires f in info && info[f].slab < |layouts| && i < layouts[info[f].slab].count < 64
    requires s.slab == info[f].slab && forall x :: x in s.free <==> x in info[f].free || x == i
    ensures Live(layouts, info[f := s]) == Live(layouts, info) - {(f, i)}
  {
    var info' := info[f := s];
    forall g: nat, j: nat ensures (g, j) in Live(layouts, info') <==>
             (g, j) in Live(layouts, info) && (g, j) != (f, i) {
      assert IsLive(layouts, info', g, j) == (IsLive(layouts, info, g, j) && (g, j) != (f, i));
    }
  }

  lemma LiveDrop(layouts: seq<Layout>, info: map<nat, SlabInfo>, f: nat)
    requires f in info && info[f].slab < |layouts| && Distinct(info[f].free)
             && |info[f].free| == layouts[info[f].slab].count
    requires forall i :: i in info[f].free ==> i < layouts[info[f].slab].count
    ensures Live(layouts, info - {f}) == Live(layouts, info)
  {
    AllOnList(info[f].free, layouts[info[f].slab].count);
    forall g: nat, j: nat ensures (g, j) in Live(layouts, info - {f}) <==> (g, j) in Live(layouts, info) {
      assert IsLive(layouts, info - {f}, g, j) == IsLive(layouts, info, g, j);
    }
  }

  class Kmem {
    const buddy: Allocator
    var layouts: seq<Layout>
    var partial: seq<seq<nat>>
    var full: seq<seq<nat>>
    var info: map<nat, SlabInfo>
    var header: map<nat, nat>   // obj->info, as the frame the footer is in, by the address of the header

    ghost predicate Valid()
      reads this, buddy, buddy.pages
    {
      && buddy.Valid() && SlabsOk(layouts, partial, full, info, None)
      && FramesOwned(info, buddy.Blocks()) && HeadersOk(layouts, info, header)
    }

    /** kmem_init: one slab allocator for every multiple of SLAB_ALIGN up to 32 times. */
    constructor (b: Allocator)
      requires b.Valid()
      ensures Valid() && buddy == b && info == map[]
    {
      buddy := b;
      partial, full := seq(NSLABS, _ => []), seq(NSLABS, _ => []);
      info, header := map[], map[];
      var ls: seq<Layout> := [];
      var i := 0;
      while i < NSLABS
        invariant 0 <= i <= NSLABS && |ls| == i && forall k :: 0 <= k < i ==> LayoutOk(ls[k], (k + 1) * ALIGN)
      {
        var l := SlabSetup((i + 1) * ALIGN);
        ls := ls + [l];
        i := i + 1;
      }
      layouts := ls;
    }

    /** slab_alloc_chunk. On success the new slab is the first partial one. */
    method SlabAllocChunk(k: nat) returns (ok: bool)
      requires Valid() && k < NSLABS
      modifies this, buddy, buddy.pages
      ensures layouts == old(layouts)
      ensures !ok ==>
                Valid() && partial == old(partial) && full == old(full) && info == old(info)
                && buddy.S() == old(buddy.S())
      ensures ok <==> old(buddy.Free()) != {}
      ensures ok ==> k < |partial| && partial[k] != [] && TakesPage(old(buddy.S()), buddy.S(), partial[k][0])
      ensures ok ==> full == old(full) && partial == old(partial)[k := [partial[k][0]] + old(partial)[k]]
      ensures ok ==>
                && info.Keys == old(info).Keys + {partial[k][0]}
                && forall g :: g in old(info) ==> info[g] == old(info)[g]
      ensures ok ==> Refilled(old(info), old(layouts), old(partial), k)
    {
      hide Inv;
      hide Owned;
      hide SlabsOk;
      hide FramesOwned;
      hide HeadersOk;
      hide LayoutOk;
      hide AllFree;
      var page := buddy.PageAlloc(false);
      if page.None? {
        NoFreePage(buddy.S());
        return false;
      }
      ok := true;
      var f := page.value;
      NewFrame(info, old(buddy.Blocks()), f);
      buddy.IncRef(f);
      SlabFacts(layouts, partial, full, info, None, k);
      SlabCount(layouts, partial, full, info, k);
      OnePage(f);
      var l := layouts[k];
      ghost var header0 := header;
      var free := InitObjects(l, f);
      AddSlab(layouts, partial, full, info, k, f, free);
      LiveAdd(layouts, info, k, f, free);
      AddOwned(info, old(buddy.Blocks()), f, SlabInfo(k, free, l.count));
      HeadersAdd(layouts, partial, full, info, header0, header, k, f, SlabInfo(k, free, l.count));
      assert TakesPage(old(buddy.S()), buddy.S(), f);
      partial := partial[k := [f] + partial[k]];
      info := info[f := SlabInfo(k, free, l.count)];
    }

    /** slab_alloc_chunk, the loop over the objects of the page. */
    method InitObjects(l: Layout, f: nat) returns (free: seq<nat>)
      requires l.infoOff == l.objSize * l.count && 0 < l.objSize
      modifies this`header
      ensures |free| == l.count && Distinct(free) && forall x :: x in free ==> x < l.count
      ensures HeadersSet(old(header), header, l, f, l.count)
    {
      free := [];
      var i := 0;
      while i < l.count
        invariant 0 <= i <= l.count && |free| == i && Distinct(free) && (forall x :: x in free ==> x < i)
        invariant HeadersSet(old(header), header, l, f, i)
      {
        PrependDistinct(i, free);
        HeaderNext(old(header), header, l, f, i);
        header := header[f * PAGE + i * l.objSize := f];
        free := [i] + free;
        i := i + 1;
      }
    }

    /** The state after slab_alloc_chunk: one more slab, with nothing but free objects. */
    ghost predicate Refilled(info0: map<nat, SlabInfo>, layouts0: seq<Layout>, partial0: seq<seq<nat>>, k: nat)
      reads this, buddy, buddy.pages
    {
      && k < |partial0| && k < |partial| && partial[k] != [] && layouts == layouts0
      && var f := partial[k][0];
         && buddy.Valid() && SlabsOk(layouts, partial, full, info, Some(f)) && FramesOwned(info, buddy.Blocks())
         && HeadersOk(layouts, info, header)
         && f !in info0 && f in info && Live(layouts, info) == Live(layouts, info0)
    }

    /** slab_alloc */
    method SlabAlloc(k: nat) returns (r: Option<nat>, ghost f: nat, ghost i: nat)
      requires Valid() && k < NSLABS
      modifies this, buddy, buddy.pages
      ensures Valid() && layouts == old(layouts)
      ensures r.None? <==> old(partial[k]) == [] && old(buddy.Free()) == {}
      ensures r.None? ==> Live(layouts, info) == old(Live(layouts, info))
      ensures r.None? || old(partial[k]) != [] ==> buddy.S() == old(buddy.S())
      ensures r.Some? ==>
                if old(partial[k]) != [] then f == old(partial[k][0])
                else f !in old(info) && TakesPage(old(buddy.S()), buddy.S(), f)
      ensures r.Some? ==>
                f in info && info[f].slab == k && (f, i) !in old(Live(layouts, info))
                && Live(layouts, info) == old(Live(layouts, info)) + {(f, i)}
      ensures r.Some? ==> r.value == Address(layouts[k], f, i)
    {
      hide Inv;
      hide Owned;
      hide SlabsOk;
      hide FramesOwned;
      hide HeadersOk;
      hide LayoutOk;
      hide Live;
      hide Address;
      f, i := 0, 0;
      ghost var newest: Option<nat> := None;
      SlabCount(layouts, partial, full, info, k);
      if partial[k] == [] {
        var ok := SlabAllocChunk(k);
        if !ok {
          return None, 0, 0;
        }
        newest := Some(partial[k][0]);
      }
      var slab := partial[k][0];
      TakeObject(layouts, partial, full, info, newest, k);
      var s := info[slab];
      var obj := s.free[0];
      f, i := slab, obj;
      TakeFacts(layouts, partial, full, info, newest, k, slab);
      LiveTake(layouts, info, slab, SlabInfo(k, s.free[1..], s.freeCount - 1), obj);
      OwnedUpdate(info, buddy.Blocks(), slab, SlabInfo(k, s.free[1..], s.freeCount - 1));
      HeadersUpdate(layouts, info, header, slab, SlabInfo(k, s.free[1..], s.freeCount - 1));
      info := info[slab := SlabInfo(k, s.free[1..], s.freeCount - 1)];
      if info[slab].free == [] {
        partial := partial[k := partial[k][1..]];
        full := full[k := [slab] + full[k]];
      }
      r := Some(Address(layouts[k], slab, obj));
    }

    /** slab_free of the live object at address p. */
    method SlabFree(p: nat, ghost f: nat, ghost i: nat)
      requires Valid() && (f, i) in Live(layouts, info) && p == Address(layouts[info[f].slab], f, i)
      modifies this, buddy, buddy.pages
      ensures Valid() && layouts == old(layouts)
      ensures Live(layouts, info) == old(Live(layouts, info)) - {(f, i)}
      ensures if exists j: nat ::
                (f, j) in Live(layouts, info)
                  then f in info && info[f].slab == old(info[f].slab) && buddy.S() == old(buddy.S())
              else f !in info && GivesPage(old(buddy.S()), buddy.S(), f)
    {
      hide Inv;
      hide Owned;
      hide SlabsOk;
      hide FramesOwned;
      hide HeadersOk;
      hide LayoutOk;
      hide Address;
      FreeFacts(layouts, partial, full, info, header, f, i);
      var obj := p - HEADER;
      var slab := header[obj];
      var s := info[slab];
      var k := s.slab;
      var n := (obj - slab * PAGE) / layouts[k].objSize;
      ReturnObject(layouts, partial, full, info, slab, n);
      PrependDistinctAny(n, s.free);
      ghost var s' := SlabInfo(k, [n] + s.free, s.freeCount + 1);
      LiveGive(layouts, info, slab, s', n);
      OwnedUpdate(info, buddy.Blocks(), slab, s');
      HeadersUpdate(layouts, info, header, slab, s');
      if s.free == [] {
        full := full[k := Without(full[k], slab)];
        partial := partial[k := [slab] + partial[k]];
      }
      info := info[slab := SlabInfo(k, [n] + s.free, s.freeCount + 1)];
      if info[slab].freeCount >= layouts[k].count {
        SlabFreeChunk(k, slab);
      } else {
        StillLive(layouts, info, slab);
      }
    }

    /** slab_free_chunk */
    method SlabFreeChunk(k: nat, f: nat)
      requires buddy.Valid() && SlabsOk(layouts, partial, full, info, Some(f)) && f in info && info[f].slab == k
      requires FramesOwned(info, buddy.Blocks()) && HeadersOk(layouts, info, header)
      modifies this`partial, this`info, buddy, buddy.pages
      ensures Valid() && info == old(info) - {f} && Live(layouts, info) == old(Live(layouts, info))
      ensures (forall j: nat :: (f, j) !in Live(layouts, info)) && GivesPage(old(buddy.S()), buddy.S(), f)
    {
      hide Inv;
      hide Owned;
      hide SlabsOk;
      hide HeadersOk;
      hide LayoutOk;
      DropSlab(layouts, partial, full, info, f);
      SlabSize(layouts, partial, full, info, f);
      SlabFacts(layouts, partial, full, info, Some(f), k);
      assert FrameOk(partial[k], full[k], info[f], layouts[k].count, f, true);
      LiveDrop(layouts, info, f);
      HeadersDrop(layouts, info, header, f);
      OnePage(f);
      OwnedNotFree(buddy.S(), f);
      partial := partial[k := Without(partial[k], f)];
      info := info - {f};
      buddy.PageDecref(f);
    }

    /** kmalloc */
    method Kmalloc(size: nat) returns (r: Option<nat>, ghost f: nat, ghost i: nat)
      requires Valid() && size < WORD
      modifies this, buddy, buddy.pages
      ensures Valid() && layouts == old(layouts)
      ensures size == 0 || size > 1024 ==> r.None?
      ensures 0 < size <= 1024 ==> (r.None? <==> old(partial)[(size - 1) / ALIGN] == [] && old(buddy.Free()) == {})
      ensures r.None? ==> Live(layouts, info) == old(Live(layouts, info)) && buddy.S() == old(buddy.S())
      ensures r.Some? ==>
                && 0 < size <= 1024 && f in info && info[f].slab == (size - 1) / ALIGN
                && var p := old(partial)[(size - 1) / ALIGN];
                   if p != [] then f == p[0] && buddy.S() == old(buddy.S())
                   else f !in old(info) && TakesPage(old(buddy.S()), buddy.S(), f)
      ensures r.Some? ==>
                (f, i) !in old(Live(layouts, info)) && Live(layouts, info) == old(Live(layouts, info)) + {(f, i)}
      ensures r.Some? ==>
                f in info && info[f].slab < NSLABS && r.value == Address(layouts[info[f].slab], f, i)
                && size + HEADER <= layouts[info[f].slab].objSize < size + HEADER + 2 * ALIGN
    {
      hide SlabsOk;
      hide FramesOwned;
      hide HeadersOk;
      hide Inv;
      hide Owned;
      hide Live;
      hide Address;
      r, f, i := None, 0, 0;
      if size == 0 {
        return;
      }
      var index := (RoundUp(size) % WORD / ALIGN + WORD - 1) % WORD;
      IndexOf(size, index);
      if index >= NSLABS {
        return;
      }
      SlabCount(layouts, partial, full, info, index);
      r, f, i := SlabAlloc(index);
    }

    /** kfree of an address that kmalloc returned and that has not been freed since. */
    method Kfree(p: nat, ghost f: nat, ghost i: nat)
      requires Valid() && (f, i) in Live(layouts, info) && p == Address(layouts[info[f].slab], f, i)
      modifies this, buddy, buddy.pages
      ensures Valid() && layouts == old(layouts) && Live(layouts, info) == old(Live(layouts, info)) - {(f, i)}
      ensures if exists j: nat :: (f, j) in Live(layouts, info)
              then f in info && buddy.S() == old(buddy.S())
              else f !in info && GivesPage(old(buddy.S()), buddy.S(), f)
    {
      SlabFree(p, f, i);
    }
  }

  /** The frame allocator after page f has been taken as a slab, and nothing else. */
  ghost predicate TakesPage(s: State, s': State, f: nat) {
    && f in FreePages(s) && f !in Owned(s, NO_HOLE)
    && FreePages(s') == FreePages(s) - {f} && Owned(s', NO_HOLE) == Owned(s, NO_HOLE)[f := Own(0, 1)]
  }

  /** And after slab f has been given back. */
  ghost predicate GivesPage(s: State, s': State, f: nat) {
    && f !in FreePages(s) && f in Owned(s, NO_HOLE)
    && FreePages(s') == FreePages(s) + {f} && Owned(s', NO_HOLE) == Owned(s, NO_HOLE) - {f}
  }

  ghost predicate FramesOwned(info: map<nat, SlabInfo>, blocks: map<nat, Own>) {
    forall f :: f in info ==> f in blocks && blocks[f] == Own(0, 1)
  }

  ghost predicate HeadersOk(layouts: seq<Layout>, info: map<nat, SlabInfo>, header: map<nat, nat>) {
    forall f: nat,
           i: nat {:trigger IsObject(layouts, info, f, i)} ::
               IsObject(layouts, info, f, i) ==> HeaderOk(layouts, info, header, f, i)
  }

  predicate HeaderOk(layouts: seq<Layout>, info: map<nat, SlabInfo>, header: map<nat, nat>, f: nat, i: nat)
    requires IsObject(layouts, info, f, i)
  {
    var a := Address(layouts[info[f].slab], f, i) - HEADER;
    a in header && header[a] == f
  }

  predicate IsObject(layouts: seq<Layout>, info: map<nat, SlabInfo>, f: nat, i: nat) {
    f in info && info[f].slab < |layouts| && i < layouts[info[f].slab].count
  }

  /** slab_setup */
  method SlabSetup(size: nat) returns (l: Layout)
    requires 0 < size <= 1024 && size % ALIGN == 0
    ensures LayoutOk(l, size)
  {
    var objSize := RoundUp(size + HEADER);
    var count := (PAGE - FOOTER) / objSize;
    l := Layout(objSize, count, objSize * count);
    CountBounds(objSize, count);
  }

  lemma CountBounds(z: nat, c: nat)
    requires 56 <= z <= 1056 && c == (4096 - 48) / z
    ensures 0 < c && z * c + 48 <= 4096 && 4096 - 48 < z * c + z
    ensures z >= 64 ==> c < 64
  {
    var x := 4096 - 48;
    assert x == z * (x / z) + x % z;
    if c == 0 { assert false; }
    if z >= 64 && c >= 64 { MulMono(64, c, 64); MulMono(64, z, c); assert false; }
  }

  // ---- Facts for the methods ------------------------------------------------------------------------------

  lemma NoFreePage(s: State)
    requires Inv(s, NO_HOLE) && NoRun(s, OrderOf(false))
    ensures FreePages(s) == {}
  {
    hide Inv;
    hide Pool;
    forall p: nat ensures p !in FreePages(s) {
      OnePage(p);
      assert OrderOf(false) == 0;
      assert p in FreePages(s) ==> AllFree(s, p, OrderOf(false));
    }
  }

  lemma OwnedNotFree(s: State, f: nat)
    requires Inv(s, NO_HOLE) && f in Owned(s, NO_HOLE)
    ensures f !in FreePages(s)
  {
    assert PageOk(s, f);
  }

  lemma OnePage(p: nat)
    ensures Down(p, 0) == p && BlockPages(p, 0) == {p}
  {
    assert Pow2(0) == 1;
    forall q: nat ensures Down(q, 0) == q {}
  }

  lemma NewFrame(info: map<nat, SlabInfo>, blocks: map<nat, Own>, f: nat)
    requires FramesOwned(info, blocks) && f !in blocks
    ensures f !in info
  {
  }

  lemma AddOwned(info: map<nat, SlabInfo>, blocks: map<nat, Own>, f: nat, s: SlabInfo)
    requires FramesOwned(info, blocks)
    ensures FramesOwned(info[f := s], blocks[f := Own(0, 1)])
  {
  }

  lemma OwnedUpdate(info: map<nat, SlabInfo>, blocks: map<nat, Own>, f: nat, s: SlabInfo)
    requires FramesOwned(info, blocks) && f in info
    ensures FramesOwned(info[f := s], blocks)
  {
  }

  lemma SlabCount(layouts: seq<Layout>, partial: seq<seq<nat>>, full: seq<seq<nat>>, info: map<nat, SlabInfo>, k: nat)
    requires SlabsOk(layouts, partial, full, info, None) && k < NSLABS
    ensures |layouts| == |partial| == |full| == NSLABS && LayoutOk(layouts[k], (k + 1) * ALIGN)
  {
  }

  lemma TakeFacts(layouts: seq<Layout>, partial: seq<seq<nat>>, full: seq<seq<nat>>, info: map<nat, SlabInfo>,
                  newest: Option<nat>, k: nat, f: nat)
    requires SlabsOk(layouts, partial, full, info, newest) && k < NSLABS && f in info && info[f].slab == k
             && info[f].free != []
    ensures |layouts| == |partial| == |full| == NSLABS && layouts[k].count < 64
    ensures info[f].free[0] < layouts[k].count
    ensures forall x :: x in info[f].free[1..] <==> x in info[f].free && x != info[f].free[0]
  {
    SlabFacts(layouts, partial, full, info, newest, k);
    TailDistinct(info[f].free);
    assert info[f].free[0] in info[f].free;
  }

  lemma HeadersUpdate(layouts: seq<Layout>, info: map<nat, SlabInfo>, header: map<nat, nat>, f: nat, s: SlabInfo)
    requires HeadersOk(layouts, info, header) && f in info && s.slab == info[f].slab
    ensures HeadersOk(layouts, info[f := s], header)
  {
    var info' := info[f := s];
    forall g: nat, i: nat | IsObject(layouts, info', g, i) ensures HeaderOk(layouts, info', header, g, i) {
      assert IsObject(layouts, info, g, i);
    }
  }

  /** slab_alloc_chunk has set the headers of the first n objects of frame f. */
  ghost predicate HeadersSet(h0: map<nat, nat>, h: map<nat, nat>, l: Layout, f: nat, n: nat) {
    && (forall i: nat {:trigger Address(l, f, i)} ::
          i < n ==> Address(l, f, i) - HEADER in h && h[Address(l, f, i) - HEADER] == f)
    && (forall a :: a in h0 && !(f * PAGE <= a < f * PAGE + l.infoOff) ==> a in h && h[a] == h0[a])
  }

  lemma HeaderKey(l: Layout, f: nat, n: nat)
    requires n < l.count && l.infoOff == l.objSize * l.count && 0 < l.objSize
    ensures var key := f * PAGE + n * l.objSize;
            Address(l, f, n) - HEADER == key && f * PAGE <= key < f * PAGE + l.infoOff
  {
    Multiples(n, l.count, l.objSize);
  }

  lemma HeaderNext(h0: map<nat, nat>, h: map<nat, nat>, l: Layout, f: nat, n: nat)
    requires HeadersSet(h0, h, l, f, n) && n < l.count && l.infoOff == l.objSize * l.count && 0 < l.objSize
    ensures HeadersSet(h0, h[f * PAGE + n * l.objSize := f], l, f, n + 1)
  {
    hide Address;
    HeaderKey(l, f, n);
    var h' := h[f * PAGE + n * l.objSize := f];
    forall i: nat | i < n + 1 ensures Address(l, f, i) - HEADER in h' && h'[Address(l, f, i) - HEADER] == f {
      if i < n { assert Address(l, f, i) - HEADER in h; }
    }
  }

  lemma HeadersAdd(layouts: seq<Layout>, partial: seq<seq<nat>>, full: seq<seq<nat>>, info: map<nat, SlabInfo>,
                   h0: map<nat, nat>, h: map<nat, nat>, k: nat, f: nat, s: SlabInfo)
    requires SlabsOk(layouts, partial, full, info, None) && k < NSLABS && f !in info && s.slab == k
    requires HeadersOk(layouts, info, h0) && HeadersSet(h0, h, layouts[k], f, layouts[k].count)
    ensures HeadersOk(layouts, info[f := s], h)
  {
    var info' := info[f := s];
    forall g: nat, i: nat | IsObject(layouts, info', g, i) ensures HeaderOk(layouts, info', h, g, i) {
      if g != f {
        assert IsObject(layouts, info, g, i);
        var j := info[g].slab;
        assert LayoutOk(layouts[j], (j + 1) * ALIGN) && LayoutOk(layouts[k], (k + 1) * ALIGN);
        HeaderElsewhere(layouts[j], (j + 1) * ALIGN, g, i, layouts[k], (k + 1) * ALIGN, f);
      }
    }
  }

  lemma HeaderElsewhere(l: Layout, ls: nat, g: nat, i: nat, m: Layout, ms: nat, f: nat)
    requires LayoutOk(l, ls) && LayoutOk(m, ms) && i < l.count && f != g
    ensures var a := Address(l, g, i) - HEADER; !(f * PAGE <= a < f * PAGE + m.infoOff)
  {
    var a := Address(l, g, i) - HEADER;
    InPage(l, ls, g, i, a);
  }

  lemma IndexOf(size: nat, index: nat)
    requires 0 < size < WORD && index == (RoundUp(size) % WORD / ALIGN + WORD - 1) % WORD
    ensures size > 1024 ==> index >= NSLABS
    ensures size <= 1024 ==> index == (size - 1) / ALIGN < NSLABS && size <= (index + 1) * ALIGN
  {
    var q := (size + 31) / 32;
    assert RoundUp(size) == q * 32;
    if size <= 1024 {
      assert q * 32 < WORD && q == (size - 1) / 32 + 1;
    } else if q * 32 < WORD {
      assert q >= 33;
    } else {
      assert q * 32 == WORD;
    }
  }

  lemma ObjectIndex(l: Layout, f: nat, i: nat)
    requires l.objSize > 0
    ensures var a := Address(l, f, i) - HEADER; a >= 0 && a - f * PAGE >= 0 && (a - f * PAGE) / l.objSize == i
  {
    var z := l.objSize;
    assert i * z == z * i;
    DivUnique(i * z, z, i, 0);
  }

  lemma ObjectSize(l: Layout, size: nat)
    requires LayoutOk(l, size)
    ensures l.objSize > 0
  {
  }

  lemma FreeFacts(layouts: seq<Layout>, partial: seq<seq<nat>>, full: seq<seq<nat>>, info: map<nat, SlabInfo>,
                  header: map<nat, nat>, f: nat, i: nat)
    requires SlabsOk(layouts, partial, full, info, None) && HeadersOk(layouts, info, header)
             && (f, i) in Live(layouts, info)
    ensures |layouts| == |partial| == |full| == NSLABS && f in info && info[f].slab < NSLABS
    ensures var l := layouts[info[f].slab]; var a := Address(l, f, i) - HEADER;
            && a >= 0 && a in header && header[a] == f && l.objSize > 0 && a - f * PAGE >= 0
            && (a - f * PAGE) / l.objSize == i
            && i < l.count < 64 && i !in info[f].free && Distinct(info[f].free)
            && info[f].freeCount == |info[f].free| < l.count
  {
    hide Address;
    assert IsLive(layouts, info, f, i) && IsObject(layouts, info, f, i) && HeaderOk(layouts, info, header, f, i);
    var k := info[f].slab;
    SlabCount(layouts, partial, full, info, k);
    SlabFacts(layouts, partial, full, info, None, k);
    hide SlabsOk;
    hide HeadersOk;
    hide LayoutOk;
    assert FrameOk(partial[k], full[k], info[f], layouts[k].count, f, false);
    ObjectSize(layouts[k], (k + 1) * ALIGN);
    ObjectIndex(layouts[k], f, i);
  }

  lemma PrependDistinctAny(x: nat, s: seq<nat>)
    ensures forall y :: y in [x] + s <==> y in s || y == x
  {
  }

  /** With an object that is not free the slab keeps its frame. */
  lemma StillLive(layouts: seq<Layout>, info: map<nat, SlabInfo>, f: nat)
    requires f in info && info[f].slab < |layouts| && |info[f].free| < layouts[info[f].slab].count < 64
             && Distinct(info[f].free)
    ensures exists j: nat :: (f, j) in Live(layouts, info)
  {
    var n := layouts[info[f].slab].count;
    var j := Missing(info[f].free, n);
    assert IsLive(layouts, info, f, j) && (f, j) in Live(layouts, info);
  }

  lemma Missing(s: seq<nat>, n: nat) returns (j: nat)
    requires |s| < n && Distinct(s)
    ensures j < n && j !in s
  {
    if Numbers(n) <= Elements(s) {
      DistinctCount(s);
      SubsetSize(Numbers(n), Elements(s));
    }
    j :| j in Numbers(n) && j !in Elements(s);
  }

  lemma SlabSize(layouts: seq<Layout>, partial: seq<seq<nat>>, full: seq<seq<nat>>, info: map<nat, SlabInfo>, f: nat)
    requires SlabsOk(layouts, partial, full, info, Some(f)) && f in info
    ensures info[f].slab < |layouts| == |partial| == |full| == NSLABS
  {
  }

  lemma HeadersDrop(layouts: seq<Layout>, info: map<nat, SlabInfo>, header: map<nat, nat>, f: nat)
    requires HeadersOk(layouts, info, header)
    ensures HeadersOk(layouts, info - {f}, header)
  {
    var info' := info - {f};
    forall g: nat, i: nat | IsObject(layouts, info', g, i) ensures HeaderOk(layouts, info', header, g, i) {
      assert IsObject(layouts, info, g, i);
      assert HeaderOk(layouts, info, header, g, i);
    }
  }

  // ---- Safety ---------------------------------------------------------------------------------------------

  /** Between calls, the bytes of a live object belong to no other live object, to no header and
      to no footer of any slab. */
  lemma LiveSeparate(layouts: seq<Layout>, partial: seq<seq<nat>>, full: seq<seq<nat>>, info: map<nat, SlabInfo>,
                     f: nat, i: nat, g: nat, j: nat, b: nat)
    requires SlabsOk(layouts, partial, full, info, None) && (f, i) in Live(layouts, info)
             && IsObject(layouts, info, g, j)
    requires InObject(layouts[info[f].slab], f, i, b)
    ensures f * PAGE <= b < f * PAGE + PAGE
    ensures (g, j) in Live(layouts, info) && (f, i) != (g, j) ==> !InObject(layouts[info[g].slab], g, j, b)
    ensures !InHeader(layouts[info[g].slab], g, j, b) && !InFooter(layouts[info[g].slab], g, b)
  {
    assert IsLive(layouts, info, f, i);
    var k, m := info[f].slab, info[g].slab;
    SlabCount(layouts, partial, full, info, k);
    SlabCount(layouts, partial, full, info, m);
    hide SlabsOk;
    InPage(layouts[k], (k + 1) * ALIGN, f, i, b);
    Separate(layouts[k], (k + 1) * ALIGN, f, i, layouts[m], (m + 1) * ALIGN, g, j, b);
  }
}
