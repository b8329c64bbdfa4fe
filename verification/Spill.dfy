/** A state in which the code breaks what it should keep: two tasks share a 2M page that reaches from
    a writable VMA into one that is only readable. A task comes to such a page when fork merges
    4K pages of both VMAs in the child, and shares it when it forks again. */
module Spill {
  import opened Common
  import opened Orders
  import opened Buddy
  import opened Paging
  import opened Effects
  import opened Areas
  import opened Cow
  import opened Eager
  import opened Forking

  const READ_WRITE := Flags(true, true, false)
  const READ_ONLY := Flags(true, false, false)

  /** Frames 0 to 2 and 3 to 5 hold the page tables of the two tasks; the 2M page is at frame 512. */
  function Entry(t: nat): Pte {
    if t % 3 == 2 then Pte(true, true, 512, Perm(false, true, true)) else TableEntry(t + 1)
  }

  function EntryIndex(t: nat): nat { if t % 3 == 2 then 1 else 0 }

  function TableAt(t: nat): (r: seq<Pte>)
    ensures |r| == 512
    ensures forall i :: 0 <= i < 512 ==> r[i] == if i == EntryIndex(t) then Entry(t) else ZERO_ENTRY
  {
    ZeroTable()[EntryIndex(t) := Entry(t)]
  }

  function UsedFrames(): (r: set<nat>)
    ensures forall f: nat :: f in r <==> f < 6 || f == 512
  {
    {0, 1, 2, 3, 4, 5, 512}
  }

  function OnesPage(): (r: Bytes)
    ensures |r| == 4096 && r[0] == 1
  {
    seq(4096, _ => 1)
  }

  function SharedMem(): Mem {
    Mem(map t: nat | t < 6 :: TableAt(t),
        map t: nat | t < 6 :: Home(t - t % 3, 4 - t % 3, 0),
        map t: nat | t < 6 && t % 3 != 0 :: (t - 1, 0),
        map f | f in UsedFrames() :: if f == 512 then Own(HUGE, 2) else Own(0, 1),
        map[0 := 1, 3 := 1],
        seq(1024, _ => OnesPage()))
  }

  function SharedTasks(): map<nat, Task> {
    var areas := [Area(512, 768, READ_WRITE), Area(768, 1024, READ_ONLY)];
    map[1 := Task(0, areas), 2 := Task(3, areas)]
  }

  lemma SharedOwn()
    ensures OwnOk(SharedMem())
  {
    Pow2Huge();
    assert Pow2(0) == 1;
    var m := SharedMem();
    forall f, g ensures Apart(m.own, f, g) {}
  }

  lemma SharedShape()
    ensures var m := SharedMem();
            && Shaped(m) && OwnOk(m) && IsRoot(m, 0) && IsRoot(m, 3)
            && forall f :: f in m.held && m.held[f] > 0 ==> f in m.own
  {
    SharedOwn();
    hide OwnOk;
  }

  lemma SharedRefs(f: nat)
    ensures var tb := SharedMem().tb;
            Refs(tb, f) == if f == 512 then {(2, 1), (5, 1)} else if f in {1, 2, 4, 5} then {(f - 1, 0)} else {}
  {
    var tb := SharedMem().tb;
    forall t, i ensures (t, i) in Refs(tb, f) <==> t in tb && i == EntryIndex(t) && Entry(t).frame == f {}
  }

  lemma SharedTable(t: nat)
    requires t in SharedMem().tb
    ensures var m := SharedMem(); Shaped(m) && TableOk(m, t)
  {
    SharedShape();
    hide OwnOk;
  }

  lemma SharedSlots(t: nat, i: nat)
    requires t in SharedMem().tb && i < 512
    ensures var m := SharedMem(); Shaped(m) && SlotOk(m, t, i)
  {
    SharedShape();
  }

  lemma SharedRef(f: nat)
    requires f in SharedMem().own
    ensures RefOk(SharedMem(), f)
  {
    SharedRefs(f);
    hide Refs;
    if f == 512 { assert |{(2, 1), (5, 1)}| == 2; }
  }

  lemma SharedInv()
    ensures MInv(SharedMem())
  {
    hide SharedMem;
    hide OwnOk;
    hide TableOk;
    hide SlotOk;
    hide RefOk;
    hide Shaped;
    var m := SharedMem();
    SharedShape();
    forall t | t in m.tb ensures Shaped(m) && TableOk(m, t) { SharedTable(t); }
    forall t, i: nat | t in m.tb && i < 512 ensures SlotOk(m, t, i) { SharedSlots(t, i); }
    forall f | f in m.own ensures RefOk(m, f) { SharedRef(f); }
  }

  /** Only the 2M from page 512 on are mapped, and they are mapped to the shared page. */
  lemma SharedFind(q: nat, v: nat)
    requires q in {0, 3} && v < Span(5)
    ensures var s := Find(SharedMem().tb, q, 4, v);
            if 512 <= v < 1024 then s == Some(Spot(512 + v % 512, Perm(false, true, true), 512, true)) else s.None?
  {
    var tb := SharedMem().tb;
    assert |tb[q]| == 512 && |tb[q + 1]| == 512 && |tb[q + 2]| == 512;
    IndexZero(v);
    assert Find(tb, q + 2, 2, v) == if Index(2, v) == 1
           then Some(Spot(512 + v % 512, Perm(false, true, true), 512, true)) else None;
    assert Find(tb, q + 1, 3, v) == if Index(3, v) == 0 then Find(tb, q + 2, 2, v) else None;
    assert Find(tb, q, 4, v) == if Index(4, v) == 0 then Find(tb, q + 1, 3, v) else None;
  }

  lemma IndexZero(v: nat)
    requires v < Span(5)
    ensures 512 <= v < 1024 <==> Index(4, v) == 0 && Index(3, v) == 0 && Index(2, v) == 1
  {
    if Index(4, v) == 0 && Index(3, v) == 0 {
      assert v / 134217728 < 512;
      assert v < 134217728;
      assert v / 262144 < 512;
      assert v < 262144;
    }
  }

  lemma SharedLookup(v: nat)
    ensures var areas := SharedTasks()[1].areas;
            Lookup(areas, v) == if 512 <= v < 768 then Some(READ_WRITE) else if 768 <= v < 1024 then Some(READ_ONLY)
              else None
  {
    var areas := SharedTasks()[1].areas;
    var a := Area(768, 1024, READ_ONLY);
    assert areas[1..] == [a] && [a][1..] == [];
    assert AreaAt([a], v) == if 768 <= v < 1024 then Some(a) else None;
  }

  lemma SharedTaskOk(pid: nat)
    requires pid in {1, 2}
    ensures var m, task := SharedMem(), SharedTasks()[pid]; TaskOk(m, task) && Fits(m, task)
  {
    hide Find;
    hide MInv;
    hide Lookup;
    var m, task := SharedMem(), SharedTasks()[pid];
    SharedInv();
    SharedShape();
    forall v: nat | v < Span(5) ensures MappedOk(m, task, v) && FitsAt(m, task, v) {
      SharedFind(task.root, v);
      SharedLookup(v);
      ViewSpot(m, task.root, v);
    }
  }

  /** The state is one that tasks can be in, all entries are within the permissions of the VMAs, and
      a fault at page 512 spills into the VMA that is only readable. */
  lemma SpillHappens()
    ensures var m, tasks := SharedMem(), SharedTasks();
            && MInv(m) && TasksOk(m, tasks) && Fits(m, tasks[1]) && Fits(m, tasks[2])
            && Spills(m, tasks[1], 512) && !Writable(tasks[1].areas, 768)
  {
    hide Find;
    hide MInv;
    hide TaskOk;
    hide Fits;
    hide Lookup;
    SharedInv();
    SharedTaskOk(1);
    SharedTaskOk(2);
    SharedLookup(512);
    SharedLookup(768);
    SharedAt512();
    hide SharedMem;
    assert !Writable(SharedTasks()[1].areas, 768);
  }

  lemma SharedAt512()
    ensures SharedHuge(SharedMem(), 0, 512)
  {
    hide Find;
    SharedFind(0, 512);
  }

  /** After the page fault at page 512, task 1 can write page 768 against its VMA. */
  lemma SpillOpens(m1: Mem, m2: Mem)
    requires var m, task := SharedMem(), SharedTasks()[1];
             && Faulting(m, m1, task, 512, 513, READ_WRITE, 512)
             && MInv(m1) && IsRoot(m1, 0) && m1.home[0].root == 0
             && Walked(Protect(PermOf(READ_WRITE)), m1, m2, 0, 512, 513)
    ensures var s := Find(m2.tb, 0, 4, 768); s.Some? && s.value.perm.write
    ensures !Fits(m2, SharedTasks()[1])
  {
    hide MInv;
    hide WalkedBut;
    hide Find;
    hide Lookup;
    hide TasksOk;
    SpillHappens();
    var m, task := SharedMem(), SharedTasks()[1];
    FaultFits(m, m1, m2, task, 512, 513, READ_WRITE, 512);
    FaultRenews(m, m1, m2, task, 512, 513, READ_WRITE, 512);
    assert 768 - 768 % 512 == 512 - 512 % 512;
    var s := Find(m2.tb, 0, 4, 768);
  }

  /** munmap of an empty range at page 600 takes pages 600 to 767 out of the VMAs of task 1 and leaves
      them mapped. */
  lemma StaleHappens()
    ensures var m, tasks := SharedMem(), SharedTasks();
            var cut := Task(0, CutAll(tasks[1].areas, 600, 600));
            && MInv(m) && TasksOk(m, tasks) && Overcuts(tasks, Unmap(1, 600, 0)) && !TaskOk(m, cut)
            && forall v :: 600 <= v < 768 ==> Lookup(cut.areas, v).None? && Find(m.tb, 0, 4, v).Some?
  {
    hide Find;
    hide MInv;
    hide TaskOk;
    hide Fits;
    hide Lookup;
    hide Spills;
    hide SharedMem;
    hide CutAll;
    hide AreasOk;
    hide Reach;
    var m, tasks := SharedMem(), SharedTasks();
    SpillHappens();
    assert TaskOk(m, tasks[1]);
    SharedRoot();
    StaleAreas();
    forall v | 600 <= v < 768
      ensures Lookup(CutAll(tasks[1].areas, 600, 600), v).None? && Find(m.tb, 0, 4, v).Some?
    {
      SharedFind(0, v);
      CutLookup(tasks[1].areas, 600, 768, 0, v);
    }
    EmptyUnmapKeeps(m, tasks[1], 600);
    ViewSpot(m, 0, 600);
  }

  lemma SharedRoot()
    ensures IsRoot(SharedMem(), 0)
  {
    SharedShape();
  }

  /** When task 1 maps these pages again, it sees what was in them, and not zeros. */
  lemma StaleShows()
    ensures var m, cut := SharedMem(), CutAll(SharedTasks()[1].areas, 600, 600);
            |cut| == 2 && var task := Task(0, WithArea(cut, 1, Area(600, 768, READ_WRITE)));
            && AreasOk(task.areas) && 600 in SpaceOf(m, task)
            && SpaceOf(m, task)[600].bytes != Zeros(600, 168, READ_WRITE)[600].bytes
  {
    hide Find;
    hide Lookup;
    hide SharedMem;
    hide Content;
    StaleAreas();
    StaleContent();
    InsertLookup(CutAll(SharedTasks()[1].areas, 600, 600), 1, Area(600, 768, READ_WRITE), 0, 600);
  }

  lemma StaleAreas()
    ensures var areas := SharedTasks()[1].areas;
            && AreasOk(areas) && Straddled(areas, 600) && Reach(areas, 600) == 768
            && CutAll(areas, 600, 600) == CutAll(areas, 600, 768)
            && CutAll(areas, 600, 600) == [Area(512, 600, READ_WRITE), Area(768, 1024, READ_ONLY)]
  {
    var areas := SharedTasks()[1].areas;
    var b := Area(768, 1024, READ_ONLY);
    assert areas[0] in areas && areas[1..] == [b] && [b][1..] == [];
    CutEmpty(areas, 600);
    hide CutAll;
    CutAllOf(areas, 600, 600);
    CutAllOf([b], 600, 600);
    CutAllOf([], 600, 600);
  }

  lemma StaleContent()
    ensures Content(SharedMem(), 0, 600) == OnesPage() != ZeroPage()
  {
    SharedFind(0, 600);
    hide Find;
    assert ZeroPage()[0] == 0;
  }
}
