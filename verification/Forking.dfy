/** Tasks over shared page tables: task_clone, the page fault handler, user accesses and munmap.
    Every run of them is a run of the machine that copies eagerly. */
module Forking {
  import opened Common
  import opened Orders
  import opened Buddy
  import opened Paging
  import opened Effects
  import opened Callbacks
  import opened Tables
  import opened Memory
  import opened Areas
  import opened Places
  import opened Cow
  import opened Eager

  // ---- All tasks together ---------------------------------------------------------------------

  ghost predicate TasksOk(m: Mem, tasks: map<nat, Task>) {
    && (forall p {:trigger tasks[p]} :: p in tasks ==> TaskOk(m, tasks[p]))
    && (forall p, q :: p in tasks && q in tasks && p != q ==> tasks[p].root != tasks[q].root)
  }

  /** The pages of a task as its user sees them. */
  ghost function SpaceOf(m: Mem, task: Task): (s: map<nat, Page>) {
    map v: nat | v < USER_PAGES
      && Lookup(task.areas, v).Some? :: Page(Content(m, task.root, v), Lookup(task.areas, v).value)
  }

  ghost function SpacesOf(m: Mem, tasks: map<nat, Task>): Spaces {
    map p | p in tasks :: SpaceOf(m, tasks[p])
  }

  /** The tasks stay in order and no page's contents change. */
  ghost predicate Kept(m: Mem, m': Mem, tasks: map<nat, Task>) {
    MInv(m') && TasksOk(m', tasks) && forall p {:trigger tasks[p]} :: p in tasks ==> SameContent(m, m', tasks[p].root)
  }

  /** What tasks can write without a fault stays within their VMAs, except perhaps for those in
      `but`, and address spaces that share no page stay so, except perhaps those in `kin`. */
  ghost predicate Fitting(m: Mem, m': Mem, tasks: map<nat, Task>, but: set<nat>, kin: set<nat>) {
    forall p {:trigger tasks[p]} :: p in tasks ==>
      && (p !in but && Fits(m, tasks[p]) ==> Fits(m', tasks[p]))
      && (tasks[p].root !in kin && Alone(m, tasks[p].root) ==> Alone(m', tasks[p].root))
  }

  /** A task that is not loose keeps to its VMAs, one that is not kin to another shares no page, and
      one that is not hollow has no empty VMA. */
  ghost predicate Noted(m: Mem, tasks: map<nat, Task>, notes: Notes) {
    forall p {:trigger tasks[p]} :: p in tasks ==>
      && (p !in notes.loose ==> Fits(m, tasks[p]))
      && (p !in notes.kin ==> Alone(m, tasks[p].root))
      && (p !in notes.hollow ==> Solid(tasks[p].areas))
  }

  /** And a task that shares pages has no 2M that is writable in part. */
  ghost predicate Tight(m: Mem, tasks: map<nat, Task>, notes: Notes) {
    && Noted(m, tasks, notes)
    && forall p {:trigger tasks[p]} :: p in tasks && p in notes.kin && p !in notes.loose ==>
         !Mixed(SpaceOf(m, tasks[p]))
  }

  lemma KeptTrans(m: Mem, m1: Mem, m2: Mem, tasks: map<nat, Task>)
    requires Kept(m, m1, tasks) && Kept(m1, m2, tasks)
    ensures Kept(m, m2, tasks)
  {
    hide MInv;
    hide TaskOk;
    hide Content;
    forall p | p in tasks ensures SameContent(m, m2, tasks[p].root) {
      forall v: nat | v < Span(5) ensures Content(m2, tasks[p].root, v) == Content(m, tasks[p].root, v) {
        var x := Content(m1, tasks[p].root, v);
      }
    }
  }

  lemma KeptSpaces(m: Mem, m': Mem, tasks: map<nat, Task>)
    requires Kept(m, m', tasks)
    ensures SpacesOf(m', tasks) == SpacesOf(m, tasks)
  {
    hide MInv;
    hide TaskOk;
    hide Content;
    forall p | p in tasks ensures SpaceOf(m', tasks[p]) == SpaceOf(m, tasks[p]) {
      assert SameContent(m, m', tasks[p].root);
    }
  }

  lemma KeptSelf(m: Mem, tasks: map<nat, Task>)
    requires MInv(m) && TasksOk(m, tasks)
    ensures Kept(m, m, tasks)
  {
  }

  /** A step that keeps every page of every task keeps the tasks. */
  lemma KeptBy(m: Mem, m': Mem, tasks: map<nat, Task>)
    requires MInv(m') && TasksOk(m, tasks) && forall q :: IsRoot(m, q) ==> IsRoot(m', q)
    requires forall p, v: nat {:trigger MappedOk(m', tasks[p], v)} :: p in tasks && v < Span(5) ==>
               MappedOk(m', tasks[p], v) && Content(m', tasks[p].root, v) == Content(m, tasks[p].root, v)
    ensures Kept(m, m', tasks)
  {
    hide MInv;
    hide MappedOk;
    hide Content;
    forall p | p in tasks ensures TaskOk(m', tasks[p]) && SameContent(m, m', tasks[p].root) {
      assert TaskOk(m, tasks[p]);
      forall v: nat | v < Span(5) ensures Content(m', tasks[p].root, v) == Content(m, tasks[p].root, v) {
        assert MappedOk(m', tasks[p], v);
      }
    }
  }

  // ---- Page faults --------------------------------------------------------------------------------

  lemma PopulateKept(m: Mem, m': Mem, tasks: map<nat, Task>, pid: nat, lo: nat, hi: nat, flags: Flags, v: nat)
    requires MInv(m) && TasksOk(m, tasks) && pid in tasks && flags.read && lo <= v < hi <= Span(5)
    requires forall w :: lo <= w < hi ==> Lookup(tasks[pid].areas, w) == Some(flags)
    requires Walked(Populate(PermOf(flags)), m, m', tasks[pid].root, lo, hi)
    ensures Kept(m, m', tasks) && Private(m', tasks[pid].root, v)
  {
    hide MInv;
    hide WalkedBut;
    hide Find;
    hide Content;
    hide MappedOk;
    var r, op := tasks[pid].root, Populate(PermOf(flags));
    assert TaskOk(m, tasks[pid]);
    LookupOk(tasks[pid].areas, v);
    RootHome(m, r);
    forall p, w: nat | p in tasks && w < Span(5)
      ensures MappedOk(m', tasks[p], w) && Content(m', tasks[p].root, w) == Content(m, tasks[p].root, w)
    {
      PopulatePage(m, m', tasks[p], r, lo, hi, flags, w);
    }
    WalkedRoots(op, m, m', r, lo, hi);
    KeptBy(m, m', tasks);
    StepFacts(op, m, m', r, lo, hi, r, v);
  }

  lemma WalkedRoots(op: Op, m: Mem, m': Mem, t: nat, lo: nat, hi: nat)
    requires Walked(op, m, m', t, lo, hi)
    ensures MInv(m') && forall q :: IsRoot(m, q) ==> IsRoot(m', q)
  {
  }

  lemma ProtectKept(m: Mem, m': Mem, tasks: map<nat, Task>, t: nat, lo: nat, hi: nat, perm: Perm)
    requires MInv(m) && TasksOk(m, tasks) && t in m.home && perm.user && (perm.write ==> perm.noExec)
             && Walked(Protect(perm), m, m', t, lo, hi)
    requires perm.write ==> forall v :: lo <= v < hi ==> Private(m, m.home[t].root, v)
    requires forall p, v {:trigger Lookup(tasks[p].areas, v)} ::
               p in tasks && tasks[p].root == m.home[t].root && lo <= v < hi && Lookup(tasks[p].areas, v).Some? ==>
                 (perm.noExec <==> !Lookup(tasks[p].areas, v).value.exec)
    ensures Kept(m, m', tasks)
  {
    hide MInv;
    hide WalkedBut;
    hide Find;
    hide Content;
    hide MappedOk;
    forall p, w: nat | p in tasks && w < Span(5)
      ensures MappedOk(m', tasks[p], w) && Content(m', tasks[p].root, w) == Content(m, tasks[p].root, w)
    {
      ProtectPage(m, m', tasks[p], t, lo, hi, perm, w);
    }
    WalkedRoots(Protect(perm), m, m', t, lo, hi);
    KeptBy(m, m', tasks);
  }

  lemma FaultStart(m: Mem, tasks: map<nat, Task>, pid: nat, v: nat)
    requires MInv(m) && TasksOk(m, tasks) && pid in tasks && AreaAt(tasks[pid].areas, v).Some?
    ensures var r, a := tasks[pid].root, AreaAt(tasks[pid].areas, v).value;
            && IsRoot(m, r) && m.home[r] == Home(r, 4, 0) && a.base <= v < a.end <= USER_PAGES
  {
    hide MInv;
    assert TaskOk(m, tasks[pid]);
    RootHome(m, tasks[pid].root);
    AreaFound(tasks[pid].areas, v, v);
  }

  lemma FaultArea(m: Mem, tasks: map<nat, Task>, pid: nat, v: nat, w: nat)
    requires TasksOk(m, tasks) && pid in tasks && AreaAt(tasks[pid].areas, v).Some?
    requires AreaAt(tasks[pid].areas, v).value.base <= w < AreaAt(tasks[pid].areas, v).value.end
    ensures Lookup(tasks[pid].areas, w) == Some(AreaAt(tasks[pid].areas, v).value.flags)
  {
    assert TaskOk(m, tasks[pid]);
    AreaFound(tasks[pid].areas, v, w);
  }

  lemma FaultFitting(m: Mem, m1: Mem, m2: Mem, tasks: map<nat, Task>, pid: nat, lo: nat, hi: nat, flags: Flags, v: nat)
    requires TasksOk(m, tasks) && pid in tasks && Faulting(m, m1, tasks[pid], lo, hi, flags, v)
    requires MInv(m1) && IsRoot(m1, tasks[pid].root) && m1.home[tasks[pid].root].root == tasks[pid].root
    requires Walked(Protect(PermOf(flags)), m1, m2, tasks[pid].root, v, v + 1)
    ensures Fitting(m, m2, tasks, {pid}, {})
    ensures Fits(m, tasks[pid]) ==> (Fits(m2, tasks[pid]) <==> !Spills(m, tasks[pid], v))
  {
    hide MInv;
    hide WalkedBut;
    hide Renewed;
    hide Fits;
    hide Spills;
    hide Alone;
    var task := tasks[pid];
    WalkedRoots(Populate(PermOf(flags)), m, m1, task.root, lo, hi);
    forall p | p in tasks && Alone(m, tasks[p].root) ensures Alone(m2, tasks[p].root) {
      assert TaskOk(m, tasks[p]);
      WalkAlone(Populate(PermOf(flags)), m, m1, task.root, lo, hi, tasks[p].root);
      WalkAlone(Protect(PermOf(flags)), m1, m2, task.root, v, v + 1, tasks[p].root);
    }
    forall p | p in tasks && p != pid && Fits(m, tasks[p]) ensures Fits(m2, tasks[p]) {
      assert TaskOk(m, tasks[p]);
      OtherFits(Populate(PermOf(flags)), m, m1, task.root, lo, hi, tasks[p]);
      OtherFits(Protect(PermOf(flags)), m1, m2, task.root, v, v + 1, tasks[p]);
    }
    if Fits(m, task) { FaultFits(m, m1, m2, task, lo, hi, flags, v); }
  }

  /** After the fault the page is mapped with the permissions of its VMA. */
  lemma Faulted(m: Mem, m1: Mem, m': Mem, r: nat, v: nat, perm: Perm)
    requires MInv(m1) && IsRoot(m1, r) && m1.home[r].root == r && Private(m1, r, v) && v < Span(5)
    requires Walked(Protect(perm), m1, m', r, v, v + 1)
    ensures Find(m'.tb, r, 4, v).Some? && Find(m'.tb, r, 4, v).value.perm == perm
  {
    hide MInv;
    hide WalkedBut;
    hide Find;
    hide View;
    StepFacts(Protect(perm), m1, m', r, v, v + 1, r, v);
  }

  lemma OneTask(m: Mem, tasks: map<nat, Task>, pid: nat)
    requires TasksOk(m, tasks) && pid in tasks
    ensures forall p {:trigger tasks[p]} :: p in tasks && tasks[p].root == tasks[pid].root ==> p == pid
  {
  }

  ghost predicate PrivateRange(m: Mem, r: nat, lo: nat, hi: nat) { forall v :: lo <= v < hi ==> Private(m, r, v) }

  /** All that was populated is mapped afterwards, and nobody else has it. */
  lemma FaultPrivate(m: Mem, m1: Mem, m2: Mem, tasks: map<nat, Task>, pid: nat, lo: nat, hi: nat, flags: Flags, v: nat)
    requires TasksOk(m, tasks) && pid in tasks && Faulting(m, m1, tasks[pid], lo, hi, flags, v) && Kept(m, m1, tasks)
    requires Walked(Protect(PermOf(flags)), m1, m2, tasks[pid].root, v, v + 1)
    ensures PrivateRange(m2, tasks[pid].root, lo, hi) && Private(m2, tasks[pid].root, v)
  {
    hide MInv;
    hide WalkedBut;
    hide Find;
    hide View;
    hide Renewed;
    hide TasksOk;
    hide Private;
    KeptTask(m, m1, tasks, pid);
    var r := tasks[pid].root;
    forall w | lo <= w < hi ensures Private(m2, r, w) {
      StepFacts(Populate(PermOf(flags)), m, m1, r, lo, hi, r, w);
      PrivateMapped(m1, r, w);
      StepFacts(Protect(PermOf(flags)), m1, m2, r, v, v + 1, r, w);
    }
  }

  lemma PrivateMapped(m: Mem, r: nat, v: nat)
    requires Private(m, r, v)
    ensures Find(m.tb, r, 4, v).Some?
  {
  }

  /** What holds when the fault handler is done. */
  lemma FaultDone(m: Mem, m1: Mem, m2: Mem, tasks: map<nat, Task>, pid: nat, lo: nat, hi: nat, flags: Flags, v: nat)
    requires TasksOk(m, tasks) && pid in tasks && Faulting(m, m1, tasks[pid], lo, hi, flags, v)
    requires Kept(m, m1, tasks) && Private(m1, tasks[pid].root, v)
    requires Walked(Protect(PermOf(flags)), m1, m2, tasks[pid].root, v, v + 1)
    ensures Kept(m, m2, tasks) && Fitting(m, m2, tasks, {pid}, {})
    ensures var s := Find(m2.tb, tasks[pid].root, 4, v); s.Some? && s.value.perm == PermOf(flags)
    ensures Renewed(Populate(PermOf(flags)), m, m2, tasks[pid].root, v, v + 1)
    ensures Fits(m, tasks[pid]) ==> (Fits(m2, tasks[pid]) <==> !Spills(m, tasks[pid], v))
  {
    hide MInv;
    hide WalkedBut;
    hide Find;
    hide Renewed;
    hide Fits;
    hide Alone;
    hide Spills;
    hide TasksOk;
    hide Fitting;
    hide Kept;
    var task := tasks[pid];
    KeptTask(m, m1, tasks, pid);
    RootHome(m1, task.root);
    OneTask(m1, tasks, pid);
    LookupOk(task.areas, v);
    ProtectKept(m1, m2, tasks, task.root, v, v + 1, PermOf(flags));
    KeptTrans(m, m1, m2, tasks);
    Faulted(m, m1, m2, task.root, v, PermOf(flags));
    FaultFitting(m, m1, m2, tasks, pid, lo, hi, flags, v);
    FaultRenews(m, m1, m2, task, lo, hi, flags, v);
  }

  class Tasks {
    const pt: PageTables
    var tasks: map<nat, Task>

    ghost predicate Valid()
      reads this, pt, pt.buddy, pt.buddy.pages
    {
      pt.Valid() && TasksOk(pt.M(), tasks)
    }

    ghost function Spaces(): Eager.Spaces
      reads this, pt, pt.buddy, pt.buddy.pages
    {
      SpacesOf(pt.M(), tasks)
    }

    constructor (p: PageTables)
      requires p.Valid()
      ensures Valid() && pt == p && tasks == map[]
    {
      pt := p;
      tasks := map[];
    }

    /** task_page_fault_handler. The page may have been mapped before. */
    method PageFault(pid: nat, v: nat, write: bool, exec: bool) returns (handled: bool, ok: bool)
      requires Valid() && pid in tasks
      modifies pt, pt.buddy, pt.buddy.pages
      ensures pt.Valid()
      ensures !ok ==> Starves(old(pt.M()), tasks[pid], v, pt.buddy.S())
      ensures !handled ==> ok && pt.M() == old(pt.M())
      ensures handled <==> var f := Lookup(tasks[pid].areas, v);
                f.Some? && f.value.read && (write ==> f.value.write) && (exec ==> f.value.exec)
      ensures ok ==> Kept(old(pt.M()), pt.M(), tasks)
      ensures ok && handled ==>
        var s, f := Find(pt.tables, tasks[pid].root, 4, v), Lookup(tasks[pid].areas, v).value;
            s.Some? && s.value.perm.user && s.value.perm.write == f.write && s.value.perm.noExec == !f.exec
      ensures ok && handled ==>
        Renewed(Populate(PermOf(Lookup(tasks[pid].areas, v).value)), old(pt.M()), pt.M(), tasks[pid].root, v, v + 1)
      ensures ok && handled ==> Private(pt.M(), tasks[pid].root, v)
      ensures ok && handled ==>
                var a, b := AreaAt(tasks[pid].areas, v).value, v - v % 512;
                    a.base <= b && b + 512 <= a.end ==> PrivateRange(pt.M(), tasks[pid].root, b, b + 512)
      ensures ok ==> Fitting(old(pt.M()), pt.M(), tasks, {pid}, {})
      ensures ok && handled && Fits(old(pt.M()), tasks[pid]) ==>
                (Fits(pt.M(), tasks[pid]) <==> !Spills(old(pt.M()), tasks[pid], v))
    {
      hide MInv;
      hide Inv;
      hide Owned;
      hide NoRun;
      hide Renewed;
      hide Fits;
      hide Alone;
      hide Spills;
      hide Kept;
      hide Find;
      hide TasksOk;
      hide AreaAt;
      hide PrivateRange;
      hide Private;
      hide Needs2M;
      KeptSelf(pt.M(), tasks);
      var found := AreaAt(tasks[pid].areas, v);
      if found.None? || !found.value.flags.read || (write && !found.value.flags.write)
         || (exec && !found.value.flags.exec) {
        return false, true;
      }
      handled := true;
      ok := PopulateVma(pid, v, found.value);
    }

    /** do_populate_vma for a page fault at v in VMA a: 2M at once where the VMA has them all. */
    method PopulateVma(pid: nat, v: nat, a: Area) returns (ok: bool)
      requires Valid() && pid in tasks && AreaAt(tasks[pid].areas, v) == Some(a) && a.flags.read
      modifies pt, pt.buddy, pt.buddy.pages
      ensures pt.Valid()
      ensures !ok ==> Starves(old(pt.M()), tasks[pid], v, pt.buddy.S())
      ensures ok ==> Kept(old(pt.M()), pt.M(), tasks) && Fitting(old(pt.M()), pt.M(), tasks, {pid}, {})
      ensures ok ==>
                var s := Find(pt.tables, tasks[pid].root, 4, v);
                    && s.Some? && s.value.perm.user && s.value.perm.write == a.flags.write
                    && s.value.perm.noExec == !a.flags.exec
      ensures ok ==> Renewed(Populate(PermOf(a.flags)), old(pt.M()), pt.M(), tasks[pid].root, v, v + 1)
      ensures ok ==> Private(pt.M(), tasks[pid].root, v)
      ensures ok ==>
                var b := v - v % 512;
                    a.base <= b && b + 512 <= a.end ==> PrivateRange(pt.M(), tasks[pid].root, b, b + 512)
      ensures ok && Fits(old(pt.M()), tasks[pid]) ==>
                (Fits(pt.M(), tasks[pid]) <==> !Spills(old(pt.M()), tasks[pid], v))
    {
      hide MInv;
      hide Inv;
      hide Owned;
      hide WalkedBut;
      hide NoRun;
      hide Renewed;
      hide Fits;
      hide Alone;
      hide Spills;
      hide Kept;
      hide Find;
      hide TasksOk;
      hide AreaAt;
      hide PrivateRange;
      hide Private;
      hide Needs2M;
      hide SharedIn;
      hide Holds2M;
      ghost var m := pt.M();
      var task := tasks[pid];
      FaultStart(m, tasks, pid, v);
      var perm := Perm(a.flags.write, true, !a.flags.exec);
      var hbase := v - v % 512;
      var thp := Has2M(a, v);
      var lo, n := if thp then hbase else v, if thp then 512 else 1;
      forall w | lo <= w < lo + n ensures Lookup(task.areas, w) == Some(a.flags) { FaultArea(m, tasks, pid, v, w); }
      var unmerged;
      ok, unmerged := pt.PopulateRegion(task.root, lo, n, perm, thp);
      ok := ok || unmerged;
      if !ok {
        FaultStarves(m, task, a, lo, n, v, perm, pt.buddy.S());
        return;
      }
      PopulateKept(m, pt.M(), tasks, pid, lo, lo + n, a.flags, v);
      ghost var m1 := pt.M();
      KeptTask(m, m1, tasks, pid);
      ok := pt.ProtectRegion(task.root, v, 1, perm);
      if !ok {
        return;
      }
      FaultDone(m, m1, pt.M(), tasks, pid, lo, lo + n, a.flags, v);
      FaultPrivate(m, m1, pt.M(), tasks, pid, lo, lo + n, a.flags, v);
    }

    /** task_clone: the child gets the parent's VMAs and shares its pages; neither can write
        them any more without a fault. */
    method Clone(parent: nat, child: nat) returns (done: bool, ok: bool)
      requires Valid()
      modifies this, pt, pt.buddy, pt.buddy.pages
      ensures pt.Valid()
      ensures !ok ==> NoRun(pt.buddy.S(), 0) && tasks == old(tasks)
      ensures done <==> parent in old(tasks) && child !in old(tasks)
      ensures !done ==> ok && pt.M() == old(pt.M()) && tasks == old(tasks)
      ensures ok ==> Valid() && StaysTight(old(pt.M()), pt.M(), old(tasks), tasks, {parent}, {})
      ensures ok && done ==>
                && tasks.Keys == old(tasks).Keys + {child} && Fits(pt.M(), tasks[parent]) && Fits(pt.M(), tasks[child])
                && (Solid(tasks[parent].areas) ==> Solid(tasks[child].areas))
      ensures ok && done ==> Spaces() == old(Spaces())[child := old(Spaces())[parent]]
    {
      hide MInv;
      hide Inv;
      hide Owned;
      hide TasksOk;
      hide ForkState;
      hide SpacesOf;
      hide Opened;
      hide NoRun;
      hide Fits;
      hide Alone;
      ghost var m := pt.M();
      if parent !in tasks || child in tasks {
        return false, true;
      }
      done := true;
      var p := tasks[parent];
      var page := pt.NewSpace();
      if page.None? {
        ok := false;
        return;
      }
      var c := page.value;
      ForkStart(m, pt.M(), tasks, parent, c);
      var areas;
      areas, ok := CloneAreas(m, parent, c);
      if !ok {
        return;
      }
      ForkEnd(m, pt.M(), tasks, parent, child, c, areas);
      tasks := tasks[child := Task(c, areas)];
    }

    /** task_clone, the loops over the VMAs and their pages. add_vma may merge the child's VMAs. */
    method CloneAreas(ghost m: Mem, parent: nat, c: nat) returns (areas: seq<Area>, ok: bool)
      requires pt.Valid() && parent in tasks && ForkState(m, pt.M(), tasks, tasks[parent].root, c, 0)
      modifies pt, pt.buddy, pt.buddy.pages
      ensures pt.Valid()
      ensures !ok ==> NoRun(pt.buddy.S(), 0)
      ensures ok ==> Areas.Copied(tasks[parent].areas, |tasks[parent].areas|, areas)
      ensures ok ==> ForkState(m, pt.M(), tasks, tasks[parent].root, c, EndOf(tasks[parent].areas))
    {
      hide MInv;
      hide Inv;
      hide Owned;
      hide ForkState;
      hide AreasOk;
      hide Areas.Copied;
      hide NoRun;
      var p := tasks[parent];
      areas := [];
      ok := true;
      assert Areas.Copied(p.areas, 0, []) by { NoneCopied(p.areas); }
      var k := 0;
      while k < |p.areas|
        invariant ok && 0 <= k <= |p.areas| && pt.Valid()
        invariant Areas.Copied(p.areas, k, areas)
        invariant ForkState(m, pt.M(), tasks, p.root, c, EndOf(p.areas[..k]))
      {
        var a := p.areas[k];
        ForkAreas(m, pt.M(), tasks, parent, c, EndOf(p.areas[..k]));
        CopyNext(p.areas, k, areas);
        areas := areas + [a];
        ghost var base;
        areas, base := MergeAround(areas, |areas| - 1);
        ForkGap(m, pt.M(), tasks, parent, c, k);
        AreaBounds(m, pt.M(), tasks, parent, c, k);
        var va := a.base;
        while va < a.end
          invariant ok && a.base <= va <= a.end && pt.Valid()
          invariant ForkState(m, pt.M(), tasks, p.root, c, va)
        {
          ok := ClonePage(m, parent, c, va);
          if !ok {
            return;
          }
          va := va + 1;
        }
        k := k + 1;
      }
      assert p.areas[..k] == p.areas;
    }

    /** task_clone, loop body: the page at va. */
    method ClonePage(ghost m0: Mem, parent: nat, c: nat, va: nat) returns (ok: bool)
      requires pt.Valid() && parent in tasks && va < USER_PAGES
               && ForkState(m0, pt.M(), tasks, tasks[parent].root, c, va)
      modifies pt, pt.buddy, pt.buddy.pages
      ensures pt.Valid()
      ensures !ok ==> NoRun(pt.buddy.S(), 0)
      ensures ok ==> ForkState(m0, pt.M(), tasks, tasks[parent].root, c, va + 1)
      ensures ok ==> Shares(old(pt.tables), pt.tables, tasks[parent].root, c, va)
    {
      hide MInv;
      hide Inv;
      hide Owned;
      hide OwnOk;
      hide View;
      hide Find;
      hide Copying;
      hide Kept;
      hide NoneEmpty;
      hide WalkedBut;
      hide TaskOk;
      hide NoRun;
      hide Fitting;
      hide Shares;
      hide Behind;
      ghost var m := pt.M();
      var p := tasks[parent].root;
      ok := true;
      var entry := pt.PageLookup(p, va);
      if entry.None? {
        CopyingSkip(m, p, c, va, va + 1);
        SharesNone(m, p, c, va);
        return;
      }
      var (t, i) := entry.value;
      var e := pt.tables[t][i];
      ForkReady(m0, m, tasks, parent, c, t, i, va);
      pt.Store(t, i, ReadOnly(e));
      ghost var m1 := pt.M();
      FrameOrder(pt.buddy, e.frame);
      var inside := pt.buddy.pages[e.frame].order == HUGE && va % 512 != 0;
      ForkRoom(m0, m1, tasks, parent, c, t, i, va);
      var unmerged;
      ok, unmerged := pt.PageInsert(c, e.frame, va, ReadOnly(e).perm);
      ok := ok || unmerged || inside;
      ForkShares(m, pt.M(), p, c, t, i, va, inside, ok);
      if !inside && ok {
        ForkInserted(m0, m1, pt.M(), tasks, parent, c, t, i, va);
      }
    }

    /** A store by the task. Without a writable translation the processor raises a page fault
        and tries again. */
    method UserWrite(pid: nat, v: nat, off: nat, byte: bv8) returns (done: bool, ok: bool)
      requires Valid()
      modifies pt, pt.buddy, pt.buddy.pages
      ensures pt.Valid() && (ok ==> Valid())
      ensures !ok ==> pid in tasks && Starves(old(pt.M()), tasks[pid], v, pt.buddy.S())
      ensures ok ==> var step, a := Write(pid, v, off, byte), if done then Done else Refused;
                     Allowed(old(Spaces()), step, a) && Spaces() == Next(old(Spaces()), step, a)
      ensures ok ==> (done <==> pid in tasks && off < 4096 && v < USER_PAGES
                                && var s, f := Find(old(pt.tables), tasks[pid].root, 4, v), Lookup(tasks[pid].areas, v);
                                   (s.Some? && s.value.perm.write) || (f.Some? && f.value.read && f.value.write))
      ensures ok ==> FittingAfter(old(pt.M()), pt.M(), tasks, pid, v)
    {
      hide MInv;
      hide Inv;
      hide Owned;
      hide Kept;
      hide Find;
      hide TasksOk;
      hide NoRun;
      hide Needs2M;
      hide Fits;
      hide Alone;
      hide Spills;
      ghost var m := pt.M();
      KeptSelf(m, tasks);
      done, ok := false, true;
      WriteRefused(m, m, tasks, pid, v, off, byte);
      if pid !in tasks || off >= 4096 || v >= USER_PAGES {
        return;
      }
      var r := tasks[pid].root;
      var s := Find(pt.tables, r, 4, v);
      if s.Some? { MappedUser(m, tasks, pid, v); }
      if s.None? || !s.value.perm.write || !s.value.perm.user {
        var handled;
        handled, ok := PageFault(pid, v, true, false);
        if !ok {
          return;
        }
        WriteRefused(m, pt.M(), tasks, pid, v, off, byte);
        if !handled {
          return;
        }
        s := Find(pt.tables, r, 4, v);
      }
      done := true;
      WriteDone(m, pt.M(), tasks, pid, v, off, byte);
      ghost var m1 := pt.M();
      pt.Poke(s.value.frame, off, byte);
      PokeFitting(m, m1, pt.M(), tasks, pid, v);
    }

    /** A load by the task. */
    method UserRead(pid: nat, v: nat, off: nat) returns (byte: Option<bv8>, ok: bool)
      requires Valid()
      modifies pt, pt.buddy, pt.buddy.pages
      ensures pt.Valid() && (ok ==> Valid())
      ensures !ok ==> pid in tasks && Starves(old(pt.M()), tasks[pid], v, pt.buddy.S())
      ensures ok ==> FittingAfter(old(pt.M()), pt.M(), tasks, pid, v)
      ensures ok ==> Spaces() == old(Spaces())
      ensures ok ==> Allowed(old(Spaces()), Read(pid, v, off), if byte.Some? then Value(byte.value) else Refused)
    {
      hide MInv;
      hide Inv;
      hide Owned;
      hide Kept;
      hide Find;
      hide TasksOk;
      hide NoRun;
      hide Needs2M;
      hide Fits;
      hide Alone;
      hide Spills;
      ghost var m := pt.M();
      KeptSelf(m, tasks);
      byte, ok := None, true;
      ReadFacts(m, m, tasks, pid, v, off);
      if pid !in tasks || off >= 4096 || v >= USER_PAGES {
        return;
      }
      var r := tasks[pid].root;
      var s := Find(pt.tables, r, 4, v);
      if s.None? || !s.value.perm.user {
        var handled;
        handled, ok := PageFault(pid, v, false, false);
        if !ok {
          return;
        }
        ReadFacts(m, pt.M(), tasks, pid, v, off);
        if !handled {
          return;
        }
        s := Find(pt.tables, r, 4, v);
      }
      byte := Some(pt.data[s.value.frame][off]);
    }

    /** An instruction fetch by the task, from page v. */
    method UserExec(pid: nat, v: nat) returns (done: bool, ok: bool)
      requires Valid()
      modifies pt, pt.buddy, pt.buddy.pages
      ensures pt.Valid() && (ok ==> Valid())
      ensures !ok ==> pid in tasks && Starves(old(pt.M()), tasks[pid], v, pt.buddy.S())
      ensures ok ==> FittingAfter(old(pt.M()), pt.M(), tasks, pid, v)
      ensures ok ==> Spaces() == old(Spaces())
      ensures ok ==> Allowed(old(Spaces()), Exec(pid, v), if done then Done else Refused)
      ensures ok && done ==>
                var s := Find(pt.tables, tasks[pid].root, 4, v); s.Some? && s.value.perm.user && !s.value.perm.noExec
    {
      hide MInv;
      hide Inv;
      hide Owned;
      hide Kept;
      hide Find;
      hide TasksOk;
      hide NoRun;
      hide Needs2M;
      hide Fits;
      hide Alone;
      hide Spills;
      ghost var m := pt.M();
      KeptSelf(m, tasks);
      done, ok := false, true;
      ExecFacts(m, m, tasks, pid, v);
      if pid !in tasks || v >= USER_PAGES {
        return;
      }
      var r := tasks[pid].root;
      var s := Find(pt.tables, r, 4, v);
      if s.None? || s.value.perm.noExec || !s.value.perm.user {
        var handled;
        handled, ok := PageFault(pid, v, false, true);
        if !ok {
          return;
        }
        ExecFacts(m, pt.M(), tasks, pid, v);
        if !handled {
          return;
        }
      }
      done := true;
    }

    /** task_alloc with task_setup_vas: a task with nothing mapped. */
    method Create(pid: nat) returns (done: bool, ok: bool)
      requires Valid()
      modifies this, pt, pt.buddy, pt.buddy.pages
      ensures pt.Valid() && (ok ==> Valid())
      ensures !ok ==> NoRun(pt.buddy.S(), 0)
      ensures ok ==> StaysTight(old(pt.M()), pt.M(), old(tasks), tasks, {}, {})
      ensures ok && done ==>
                && pid in tasks && tasks.Keys == old(tasks).Keys + {pid} && Fits(pt.M(), tasks[pid])
                && Alone(pt.M(), tasks[pid].root) && tasks[pid].areas == []
      ensures !ok || !done ==> tasks == old(tasks)
      ensures ok && !done ==> pt.M() == old(pt.M())
      ensures ok ==> var a := if done then Done else Refused;
                     Allowed(old(Spaces()), Spawn(pid), a) && Spaces() == Next(old(Spaces()), Spawn(pid), a)
    {
      hide MInv;
      hide Inv;
      hide Owned;
      hide TasksOk;
      hide Opened;
      hide NoRun;
      hide Fits;
      hide Alone;
      ghost var m := pt.M();
      done, ok := false, true;
      if pid in tasks {
        return;
      }
      var page := pt.NewSpace();
      if page.None? {
        ok := false;
        return;
      }
      done := true;
      Created(m, pt.M(), tasks, pid, page.value);
      tasks := tasks[pid := Task(page.value, [])];
    }

    /** remove_vma_range, as munmap uses it: every VMA that meets the range is cut to what lies
        outside, and the pages of the range are unmapped. An empty range inside a VMA takes the VMA
        from there on, and unmaps nothing. */
    method Munmap(pid: nat, base: nat, size: nat) returns (done: bool, ok: bool)
      requires Valid() && base + size <= USER_PAGES
      modifies this, pt, pt.buddy, pt.buddy.pages
      ensures pt.Valid()
      ensures !ok ==> NoRun(pt.buddy.S(), 0) && (base % 512 != 0 || (base + size) % 512 != 0)
      ensures !ok || !done ==> tasks == old(tasks)
      ensures !done ==> pt.M() == old(pt.M())
      ensures ok && !Overcuts(old(tasks), Unmap(pid, base, size)) ==>
                && Valid() && tasks.Keys == old(tasks).Keys
                && StaysTight(old(pt.M()), pt.M(), old(tasks), tasks, {}, {})
                && var step, a := Unmap(pid, base, size), if done then Done else Refused;
                   Allowed(old(Spaces()), step, a) && Spaces() == Next(old(Spaces()), step, a)
      ensures Overcuts(old(tasks), Unmap(pid, base, size)) ==>
                && ok && done && pt.M() == old(pt.M())
                && var task, end := old(tasks)[pid], Reach(old(tasks)[pid].areas, base);
                   && tasks == old(tasks)[pid := Task(task.root, CutAll(task.areas, base, end))]
                   && (Valid() <==> Unmapped(pt.M(), task.root, base, end - base))
    {
      hide MInv;
      hide Inv;
      hide Owned;
      hide SpacesOf;
      hide TasksOk;
      hide CutAll;
      hide Unmapped;
      hide Unmapping;
      hide NoRun;
      hide Fits;
      hide Alone;
      ghost var m := pt.M();
      done, ok := false, true;
      if pid !in tasks {
        UnmapRefused(m, tasks, pid, base, size, 0);
        return;
      }
      var task := tasks[pid];
      var k := 0;
      while k < |task.areas| && task.areas[k].end <= base
        invariant 0 <= k <= |task.areas| && forall i :: 0 <= i < k ==> task.areas[i].end <= base
      {
        k := k + 1;
      }
      if k == |task.areas| || base + size <= task.areas[k].base {
        UnmapRefused(m, tasks, pid, base, size, k);
        return;
      }
      done := true;
      var areas;
      areas, ok := UnmapAreas(m, pid, base, size, k);
      if !ok {
        return;
      }
      if size == 0 {
        UnmapOver(m, tasks, pid, base, k);
      } else {
        UnmapEnd(m, pt.M(), tasks, pid, base, size);
      }
      tasks := tasks[pid := Task(task.root, areas)];
    }

    /** walk_vma_range with do_remove_vma, from VMA k on. */
    method UnmapAreas(ghost m: Mem, pid: nat, base: nat, size: nat, k0: nat) returns (areas: seq<Area>, ok: bool)
      requires Valid() && pid in tasks && pt.M() == m && base + size <= USER_PAGES
      requires k0 < |tasks[pid].areas| && tasks[pid].areas[k0].base < base + size
      requires forall i :: 0 <= i < k0 ==> tasks[pid].areas[i].end <= base
      modifies pt, pt.buddy, pt.buddy.pages
      ensures pt.Valid()
      ensures !ok ==> NoRun(pt.buddy.S(), 0) && (base % 512 != 0 || (base + size) % 512 != 0)
      ensures size == 0 ==> ok && pt.M() == m
      ensures ok ==> areas == CutAll(tasks[pid].areas, base, base + size)
      ensures ok ==> Unmapping(m, pt.M(), tasks, pid, base, size) && Unmapped(pt.M(), tasks[pid].root, base, size)
    {
      hide MInv;
      hide Inv;
      hide Owned;
      hide WalkedBut;
      hide TasksOk;
      hide CutAll;
      hide Unmapped;
      hide Unmapping;
      hide NoRun;
      var task, k := tasks[pid], k0;
      areas := task.areas[..k];
      ok := true;
      CutBelow(task.areas, k, base, base + size);
      UnmapStart(m, tasks, pid, base, size);
      while k < |task.areas| && task.areas[k].base < base + size
        invariant ok && k0 <= k <= |task.areas| && pt.Valid()
        invariant areas + CutAll(task.areas[k..], base, base + size) == CutAll(task.areas, base, base + size)
        invariant Unmapping(m, pt.M(), tasks, pid, base, size)
        invariant k > k0 ==> Unmapped(pt.M(), task.root, base, size)
        invariant size == 0 ==> pt.M() == m
      {
        CutNext(task.areas, k, base, base + size, areas);
        areas := areas + Cut(task.areas[k], base, base + size);
        ghost var m1 := pt.M();
        UnmapRoot(m, m1, tasks, pid, base, size);
        ok := pt.UnmapPageRange(task.root, base, size);
        if !ok {
          return;
        }
        UnmapTurn(m, m1, pt.M(), tasks, pid, base, size);
        k := k + 1;
      }
      UnmapRest(m, pt.M(), tasks, pid, base, size, k);
      areas := areas + task.areas[k..];
    }

    /** sys_mmap of anonymous memory, without MAP_FIXED and MAP_POPULATE. The new VMA may be merged
        with its neighbours; addr, which the task gets, is where the VMA begins then. */
    method Mmap(pid: nat, base: nat, size: nat, flags: Flags) returns (r: Placement, addr: nat)
      requires Valid() && base + size < WORD_PAGES
      modifies this
      ensures tasks.Keys == old(tasks).Keys && (r.Nowhere? || r.Never? ==> tasks == old(tasks))
      ensures pid !in old(tasks) || (flags.write && (flags.exec || !flags.read)) || (flags.exec && !flags.read)
              || base + size >= USER_PAGES ==>
                r.Nowhere?
      ensures r.Astray? || r.Never? <==> Misplaces(old(tasks), Map(pid, base, size, flags))
      ensures r.Astray? ==>
                && !Valid() && addr == r.base && WORD_PAGES - size < r.base < WORD_PAGES && var task := old(tasks)[pid];
                   tasks == old(tasks)[pid :=
                     Task(task.root, task.areas + [Area(r.base, r.base + size - WORD_PAGES, flags)])]
      ensures !r.Astray? ==>
                Valid() && StaysTight(pt.M(), pt.M(), old(tasks), tasks, {}, if size == 0 then {pid} else {})
      ensures r.At? || r.Nowhere? ==>
                var step, a := Map(pid, base, size, flags), if r.At? then Placed(r.base, addr) else Refused;
                Allowed(old(Spaces()), step, a) && Spaces() == Next(old(Spaces()), step, a)
      ensures pid in old(tasks) && Mappable(base, size, flags) && size > 0 ==>
                var free := FreeIn(old(tasks)[pid].areas, size);
                (r.At? ==> First(free, base, size, r.base)) && (r.Nowhere? ==> NoneFree(free, base, size))
    {
      hide MInv;
      hide Inv;
      hide Owned;
      hide SpacesOf;
      hide TasksOk;
      hide AreasOk;
      hide Regrouped;
      hide Allowed;
      hide Next;
      hide StaysTight;
      hide WithArea;
      hide Free;
      hide First;
      hide NoneFree;
      hide Strays;
      ghost var m := pt.M();
      MapRefused(m, tasks, Map(pid, base, size, flags));
      if pid !in tasks || (flags.write && flags.exec) || (flags.write && !flags.read) || (flags.exec && !flags.read)
         || base + size >= USER_PAGES {
        return Nowhere, 0;
      }
      var task := tasks[pid];
      MapAreas(m, tasks, pid);
      r := FindPlace(task.areas, base, size);
      addr := 0;
      match r {
        case At(b) =>
          var a := Area(b, b + size, flags);
          var k := 0;
          while k < |task.areas| && task.areas[k].end <= b
            invariant 0 <= k <= |task.areas| && forall i :: 0 <= i < k ==> task.areas[i].end <= b
          {
            k := k + 1;
          }
          FreeBefore(task.areas, b, size, k);
          MapRoom(m, tasks, pid, k, a);
          var areas;
          areas, addr := MergeAround(WithArea(task.areas, k, a), k);
          MapDone(m, tasks, pid, k, a, areas, base, addr);
          tasks := tasks[pid := Task(task.root, areas)];
        case Astray(b) =>
          MapAstray(m, tasks, pid, Area(b, b + size - WORD_PAGES, flags));
          addr := b;
          tasks := tasks[pid := Task(task.root, task.areas + [Area(b, b + size - WORD_PAGES, flags)])];
        case _ =>
      }
    }

    // ---- Runs ---------------------------------------------------------------------------------------

    /** One step of a run; ok is false when an allocation failed. */
    method Do(step: Step, ghost notes: Notes) returns (a: Answer, ok: bool)
      requires Valid() && Tight(pt.M(), tasks, notes) && StepOk(step) && !Breaks(tasks, step)
      modifies this, pt, pt.buddy, pt.buddy.pages
      ensures pt.Valid()
      ensures !ok ==> Starving(step, old(pt.M()), tasks, pt.buddy.S()) && tasks == old(tasks)
      ensures ok ==> Valid() && Spaces() == Next(old(Spaces()), step, a) && Answered(old(Spaces()), notes, step, a)
      ensures ok ==> Tight(pt.M(), tasks, NextNotes(old(Spaces()), notes, step, a))
    {
      hide MInv;
      hide Inv;
      hide Owned;
      hide TasksOk;
      hide Kept;
      hide SpaceOf;
      hide Fits;
      hide Alone;
      hide Spills;
      hide NoRun;
      hide NextNotes;
      hide StaysTight;
      hide Starves;
      hide Tight;
      hide SpacesOf;
      hide Mappable;
      ghost var m, tasks0 := pt.M(), tasks;
      var done;
      match step {
        case Spawn(pid) =>
          done, ok := Create(pid);
        case Fork(parent, child) =>
          done, ok := Clone(parent, child);
          ForkAnswered(m, tasks0, step);
        case Fault(pid, page, write, exec) =>
          FaultAllowed(m, tasks, step);
          done, ok := pid in tasks, true;
          if done {
            done, ok := PageFault(pid, page, write, exec);
            if ok { FaultKept(m, pt.M(), tasks); }
          }
        case Write(pid, page, off, byte) =>
          done, ok := UserWrite(pid, page, off, byte);
          if ok { WriteAnswered(m, tasks, notes, step, done); }
        case Read(pid, page, off) =>
          var byte;
          byte, ok := UserRead(pid, page, off);
          a := if byte.Some? then Value(byte.value) else Refused;
          if ok { TightAfter(m, pt.M(), tasks, notes, step, a); }
          return;
        case Exec(pid, page) =>
          done, ok := UserExec(pid, page);
        case Unmap(pid, base, size) =>
          done, ok := Munmap(pid, base, size);
        case Map(pid, base, size, flags) =>
          var place, addr := Mmap(pid, base, size, flags);
          a, ok := if place.At? then Placed(place.base, addr) else Refused, true;
          MapAnswered(m, tasks0, notes, step, a);
          TightStep(m, pt.M(), tasks0, tasks, notes, step, a);
          return;
      }
      a := if done then Done else Refused;
      if ok {
        if step.Fault? || step.Write? || step.Exec? {
          TightAfter(m, pt.M(), tasks, notes, step, a);
        } else {
          TightStep(m, pt.M(), tasks0, tasks, notes, step, a);
        }
      }
    }

    /** Copy-on-write is invisible: whatever the tasks do, every answer, and so every byte a task
        reads, is the answer of the machine that copies at fork. The run stops early only at a step
        for which the allocator had no memory, or before one that Breaks; `last` is the state before
        that step. */
    method Run(steps: seq<Step>, ghost notes: Notes)
      returns (answers: seq<Answer>, ok: bool, ghost end: Eager.Spaces, ghost notes': Notes, ghost last: Mem)
      requires Valid() && Tight(pt.M(), tasks, notes)
      requires forall i :: 0 <= i < |steps| ==> StepOk(steps[i])
      modifies this, pt, pt.buddy, pt.buddy.pages
      ensures pt.Valid() && |answers| <= |steps| && Runs(old(Spaces()), notes, steps[..|answers|], answers, end, notes')
      ensures ok ==> |answers| == |steps| && Valid() && Spaces() == end && Tight(pt.M(), tasks, notes')
      ensures !ok ==> |answers| < |steps| && end == SpacesOf(last, tasks)
      ensures !ok ==> Starving(steps[|answers|], last, tasks, pt.buddy.S())
                        || (Valid() && pt.M() == last && Breaks(tasks, steps[|answers|]))
    {
      hide MInv;
      hide Inv;
      hide Owned;
      hide TasksOk;
      hide SpacesOf;
      hide Answered;
      hide Next;
      hide NextNotes;
      hide Tight;
      hide Starving;
      hide Breaks;
      answers, ok, end, notes' := [], true, Spaces(), notes;
      var i := 0;
      last := pt.M();
      while i < |steps|
        invariant last == pt.M()
        invariant ok && 0 <= i == |answers| <= |steps| && Valid() && end == Spaces() && Tight(pt.M(), tasks, notes')
        invariant Runs(old(Spaces()), notes, steps[..i], answers, end, notes')
      {
        if Breaks(tasks, steps[i]) {
          ok := false;
          return;
        }
        var a;
        a, ok := Do(steps[i], notes');
        if !ok {
          return;
        }
        RunsSnoc(old(Spaces()), notes, steps[..i], answers, end, notes', steps[i], a);
        assert steps[..i + 1] == steps[..i] + [steps[i]];
        end, notes' := Next(end, steps[i], a), NextNotes(end, notes', steps[i], a);
        answers, last := answers + [a], pt.M();
        i := i + 1;
      }
    }
  }

  /** Ranges that munmap and mmap are modelled for. */
  predicate StepOk(step: Step) {
    && (step.Unmap? ==> step.base + step.size <= USER_PAGES)
    && (step.Map? ==> step.base + step.size < WORD_PAGES)
  }

  /** munmap of an empty range inside a VMA, which takes more than the range. */
  predicate Overcuts(tasks: map<nat, Task>, step: Step) {
    step.Unmap? && step.size == 0 && step.pid in tasks && Straddled(tasks[step.pid].areas, step.base)
  }

  /** mmap with a search that does not end, or ends outside the user half. */
  predicate Misplaces(tasks: map<nat, Task>, step: Step) {
    && step.Map? && step.pid in tasks && Mappable(step.base, step.size, step.flags)
    && Strays(tasks[step.pid].areas, step.base, step.size)
  }

  predicate Breaks(tasks: map<nat, Task>, step: Step) { Overcuts(tasks, step) || Misplaces(tasks, step) }

  /** The memory that a step in state m did not find. */
  ghost predicate Starving(step: Step, m: Mem, tasks: map<nat, Task>, s: State) {
    match step
    case Spawn(_) => NoRun(s, 0)
    case Fork(_, _) => NoRun(s, 0)
    case Unmap(_, base, size) => NoRun(s, 0) && (base % 512 != 0 || (base + size) % 512 != 0)
    case Map(_, _, _, _) => false
    case _ => step.pid in tasks && Starves(m, tasks[step.pid], step.page, s)
  }

  /** What an access to page v did not find: a page, or a 2M block where it takes one. */
  ghost predicate Starves(m: Mem, task: Task, v: nat, s: State) {
    NoRun(s, 0) || (NoRun(s, HUGE) && Needs2M(m, task, v))
  }

  lemma FaultStarves(m: Mem, task: Task, a: Area, lo: nat, n: nat, v: nat, perm: Perm, s: State)
    requires AreaAt(task.areas, v) == Some(a)
    requires if Has2M(a, v) then lo == v - v % 512 && n == 512 else lo == v && n == 1
    requires Starved(Populate(perm), lo, lo + n, SharedIn(m, task.root, lo, lo + n), s)
    ensures Starves(m, task, v, s)
  {
    hide NoRun;
    hide SharedHuge;
  }

  // ---- Entries and VMAs over a run ------------------------------------------------------------------

  /** What a step keeps of Tight, but for tasks that come to share pages or to have empty VMAs. */
  ghost predicate StaysTight(m: Mem, m': Mem, tasks: map<nat, Task>, tasks': map<nat, Task>, kin: set<nat>,
                             hollow: set<nat>)
  {
    forall p {:trigger tasks'[p]} :: p in tasks && p in tasks' ==>
      && (Fits(m, tasks[p]) ==> Fits(m', tasks'[p]))
      && (p !in kin && Alone(m, tasks[p].root) ==> Alone(m', tasks'[p].root))
      && (p !in hollow && Solid(tasks[p].areas) ==> Solid(tasks'[p].areas))
  }

  /** After an access of pid to page v, with a page fault if need be. */
  ghost predicate FittingAfter(m: Mem, m': Mem, tasks: map<nat, Task>, pid: nat, v: nat) {
    && Fitting(m, m', tasks, {pid}, {})
    && (pid in tasks && Fits(m, tasks[pid]) && !Spills(m, tasks[pid], v) ==> Fits(m', tasks[pid]))
  }

  lemma PokeFitting(m: Mem, m1: Mem, m2: Mem, tasks: map<nat, Task>, pid: nat, v: nat)
    requires FittingAfter(m, m1, tasks, pid, v) && m2.tb == m1.tb && m2.own == m1.own
    ensures FittingAfter(m, m2, tasks, pid, v)
  {
    hide Fits;
    hide Alone;
    hide Spills;
    forall p | p in tasks
      ensures Fits(m2, tasks[p]) == Fits(m1, tasks[p]) && (Alone(m1, tasks[p].root) ==> Alone(m2, tasks[p].root))
    { SameFits(m1, m2, tasks[p]); }
  }

  lemma SameFits(m: Mem, m': Mem, task: Task)
    requires m'.tb == m.tb && m'.own == m.own
    ensures Fits(m', task) == Fits(m, task) && (Alone(m, task.root) ==> Alone(m', task.root))
  {
    if Alone(m, task.root) { SameAlone(m, m', task.root); }
    hide Alone;
    forall v: nat ensures FitsAt(m', task, v) == FitsAt(m, task, v) {}
    if Fits(m, task) {
      forall v: nat | v < Span(5) ensures FitsAt(m', task, v) { assert FitsAt(m, task, v); }
    } else {
      var v: nat :| v < Span(5) && !FitsAt(m, task, v);
      assert !FitsAt(m', task, v);
    }
  }

  lemma SameAlone(m: Mem, m': Mem, q: nat)
    requires m'.tb == m.tb && m'.own == m.own && Alone(m, q)
    ensures Alone(m', q)
  {
    hide Find;
    forall v: nat | v < Span(5) && Find(m'.tb, q, 4, v).Some? ensures Private(m', q, v) {
      assert Private(m, q, v);
    }
  }

  /** A fault spills only in 2M that reach from a writable VMA into one that is only readable. */
  lemma SpillsMixed(m: Mem, task: Task, v: nat)
    requires MInv(m) && TaskOk(m, task) && v < Span(5) && Spills(m, task, v)
    ensures Mixed(SpaceOf(m, task))
  {
    hide MInv;
    hide Find;
    hide Content;
    hide Lookup;
    var w: nat :| w - w % 512 == v - v % 512 && !Writable(task.areas, w);
    SharedSlot(m, task.root, v, w);
    assert MappedOk(m, task, v) && MappedOk(m, task, w);
    LookupOk(task.areas, v);
    LookupOk(task.areas, w);
    var s := SpaceOf(m, task);
    assert v in s && w in s;
  }

  lemma WriteAnswered(m: Mem, tasks: map<nat, Task>, notes: Notes, step: Step, done: bool)
    requires MInv(m) && TasksOk(m, tasks) && Tight(m, tasks, notes) && step.Write?
    requires Allowed(SpacesOf(m, tasks), step, if done then Done else Refused)
    requires done ==> step.pid in tasks && step.page < USER_PAGES
                      && var s, f := Find(m.tb, tasks[step.pid].root, 4, step.page),
                         Lookup(tasks[step.pid].areas, step.page);
                         (s.Some? && s.value.perm.write) || (f.Some? && f.value.read && f.value.write)
    ensures Answered(SpacesOf(m, tasks), notes, step, if done then Done else Refused)
  {
    hide MInv;
    hide Find;
    hide Content;
    hide Lookup;
    hide Mixed;
    if done && step.pid !in notes.loose {
      SpaceAt(m, tasks, step.pid, step.page);
      assert Fits(m, tasks[step.pid]);
      assert FitsAt(m, tasks[step.pid], step.page);
    }
  }

  lemma TightAfter(m: Mem, m': Mem, tasks: map<nat, Task>, notes: Notes, step: Step, a: Answer)
    requires MInv(m) && TasksOk(m, tasks) && Tight(m, tasks, notes)
    requires step.Fault? || step.Write? || step.Read? || step.Exec?
    requires FittingAfter(m, m', tasks, step.pid, step.page) && SpacesOf(m', tasks) == Next(SpacesOf(m, tasks), step, a)
    ensures Tight(m', tasks, NextNotes(SpacesOf(m, tasks), notes, step, a))
  {
    hide MInv;
    hide Fits;
    hide Spills;
    hide SpaceOf;
    hide Mixed;
    hide Alone;
    hide Solid;
    hide Next;
    forall p | p in tasks && p !in notes.loose ensures Fits(m', tasks[p]) {
      assert TaskOk(m, tasks[p]);
      if p == step.pid && Spills(m, tasks[p], step.page) {
        SpillsBound(m, tasks[p], step.page);
        SpillsMixed(m, tasks[p], step.page);
        SpillsShared(m, tasks[p], step.page);
      }
    }
    TightNext(SpacesOf(m, tasks), m', tasks, notes, step, a);
  }

  lemma SpillsShared(m: Mem, task: Task, v: nat)
    requires Spills(m, task, v) && v < Span(5)
    ensures !Alone(m, task.root)
  {
    if Alone(m, task.root) { AloneNoShared(m, task.root, v); }
  }

  lemma SpillsBound(m: Mem, task: Task, v: nat)
    requires TaskOk(m, task) && Spills(m, task, v)
    ensures v < Span(5)
  {
    LookupOk(task.areas, v);
  }

  /** What is left to note after a step: the tasks with mixed 2M. */
  lemma TightNext(s: Eager.Spaces, m': Mem, tasks': map<nat, Task>, notes: Notes, step: Step, a: Answer)
    requires SpacesOf(m', tasks') == Next(s, step, a) && Noted(m', tasks', NotesBut(notes, step, a))
    ensures Tight(m', tasks', NextNotes(s, notes, step, a))
  {
    hide Fits;
    hide Alone;
    hide Solid;
    hide SpaceOf;
    hide Mixed;
    hide Next;
    hide NotesBut;
    var s': Eager.Spaces := SpacesOf(m', tasks');
    forall p | p in tasks' ensures p in s' && s'[p] == SpaceOf(m', tasks'[p]) {}
  }

  /** A step that is no access to memory. */
  lemma TightStep(m: Mem, m': Mem, tasks: map<nat, Task>, tasks': map<nat, Task>, notes: Notes, step: Step, a: Answer)
    requires Tight(m, tasks, notes) && SpacesOf(m', tasks') == Next(SpacesOf(m, tasks), step, a)
    requires (step.Spawn? || step.Fork? || step.Unmap? || step.Map?) && (a.Refused? ==> m' == m && tasks' == tasks)
    requires StaysTight(m, m', tasks, tasks', if step.Fork? then {step.parent} else {},
                        if step.Map? && step.size == 0 then {step.pid} else {})
    requires step.Unmap? || step.Map? ==> tasks'.Keys == tasks.Keys
    requires a.Done? && step.Spawn? ==>
               && tasks'.Keys == tasks.Keys + {step.pid} && Fits(m', tasks'[step.pid])
               && Alone(m', tasks'[step.pid].root) && Solid(tasks'[step.pid].areas)
    requires a.Done? && step.Fork? ==>
               && step.parent in tasks && tasks'.Keys == tasks.Keys + {step.child} && Fits(m', tasks'[step.parent])
               && Fits(m', tasks'[step.child])
               && (Solid(tasks'[step.parent].areas) ==> Solid(tasks'[step.child].areas))
    requires a.Refused? || if step.Map? then a.Placed? else a.Done?
    ensures Tight(m', tasks', NextNotes(SpacesOf(m, tasks), notes, step, a))
  {
    hide Fits;
    hide Alone;
    hide Solid;
    hide SpaceOf;
    hide Mixed;
    hide Next;
    TightNext(SpacesOf(m, tasks), m', tasks', notes, step, a);
  }

  /** What is free between VMAs that are not empty is free of pages. */
  lemma FreeSame(m: Mem, tasks: map<nat, Task>, pid: nat, size: nat, b: nat)
    requires MInv(m) && TasksOk(m, tasks) && pid in tasks && Solid(tasks[pid].areas) && size > 0
    requires pid in SpacesOf(m, tasks)
    ensures FreeIn(tasks[pid].areas, size)(b) == Unused(SpacesOf(m, tasks)[pid], size)(b)
  {
    hide MInv;
    hide SpacesOf;
    var areas, pages := tasks[pid].areas, SpacesOf(m, tasks)[pid];
    assert TaskOk(m, tasks[pid]);
    if Free(areas, b, size) {
      forall v | b <= v < b + size ensures v !in pages {
        SpaceAt(m, tasks, pid, v);
        if AreaAt(areas, v).Some? { AreaFound(areas, v, v); }
      }
    } else {
      var a :| a in areas && a.end > b && b + size > a.base;
      var i :| 0 <= i < |areas| && areas[i] == a;
      var v := if a.base < b then b else a.base;
      AreaIs(areas, i, v);
      SpaceAt(m, tasks, pid, v);
      assert v in pages;
    }
  }

  /** mmap's place among the VMAs is its place among the pages. */
  lemma MapAnswered(m: Mem, tasks: map<nat, Task>, notes: Notes, step: Step, a: Answer)
    requires MInv(m) && TasksOk(m, tasks) && Tight(m, tasks, notes) && step.Map?
    requires Allowed(SpacesOf(m, tasks), step, a)
    requires step.pid in tasks && Mappable(step.base, step.size, step.flags) && step.size > 0 ==>
               var free := FreeIn(tasks[step.pid].areas, step.size);
               (a.Placed? ==> First(free, step.base, step.size, a.at))
               && (a.Refused? ==> NoneFree(free, step.base, step.size))
    ensures Answered(SpacesOf(m, tasks), notes, step, a)
  {
    hide MInv;
    hide SpacesOf;
    hide Fits;
    hide Alone;
    hide Mixed;
    hide Free;
    hide FreeIn;
    hide Unused;
    SpaceKeys(m, tasks);
    if step.pid in tasks && step.pid !in notes.hollow && step.size > 0 {
      assert Solid(tasks[step.pid].areas);
      forall b: nat
        ensures FreeIn(tasks[step.pid].areas, step.size)(b) == Unused(SpacesOf(m, tasks)[step.pid], step.size)(b)
      { FreeSame(m, tasks, step.pid, step.size, b); }
    }
  }

  lemma SpaceKeys(m: Mem, tasks: map<nat, Task>)
    ensures SpacesOf(m, tasks).Keys == tasks.Keys
  {
  }

  lemma KeptTask(m: Mem, m': Mem, tasks: map<nat, Task>, pid: nat)
    requires Kept(m, m', tasks) && pid in tasks
    ensures MInv(m') && TasksOk(m', tasks) && TaskOk(m', tasks[pid]) && IsRoot(m', tasks[pid].root)
            && m'.home[tasks[pid].root].root == tasks[pid].root
  {
    hide MInv;
    RootHome(m', tasks[pid].root);
  }

  // ---- Fork -----------------------------------------------------------------------------------------

  /** Fork has copied what the parent has mapped before page cur; the other tasks notice nothing. */
  ghost predicate ForkState(m0: Mem, m: Mem, tasks: map<nat, Task>, p: nat, c: nat, cur: nat) {
    && MInv(m) && Kept(m0, m, tasks) && IsRoot(m, p) && IsRoot(m, c) && p != c && m.home[c].root == c
    && Fitting(m0, m, tasks, {}, {p}) && NoneEmpty(m, c) && Copying(m, p, c, cur)
    && (forall q :: q in tasks ==> tasks[q].root != c)
  }

  lemma ForkStart(m: Mem, m': Mem, tasks: map<nat, Task>, parent: nat, c: nat)
    requires MInv(m) && MInv(m') && TasksOk(m, tasks) && parent in tasks && c !in m.tb && IsRoot(m', c)
             && Opened(m, m', c)
    ensures ForkState(m, m', tasks, tasks[parent].root, c, 0)
  {
    hide MInv;
    hide Find;
    hide Content;
    hide MappedOk;
    hide Kept;
    hide Fitting;
    RootHome(m', c);
    OpenKept(m, m', tasks, c);
    FittingLess(m, m', tasks, {tasks[parent].root});
    forall q | q in tasks ensures tasks[q].root != c && IsRoot(m', tasks[q].root) { assert TaskOk(m, tasks[q]); }
    assert NoneEmpty(m', c);
    forall v: nat | v < Span(5) ensures CopyingAt(m', tasks[parent].root, c, 0, v) {}
  }

  lemma FittingLess(m: Mem, m': Mem, tasks: map<nat, Task>, kin: set<nat>)
    requires Fitting(m, m', tasks, {}, {})
    ensures Fitting(m, m', tasks, {}, kin)
  {
    hide Fits;
    hide Alone;
  }

  /** task_setup_vas keeps the permissions of all entries. */
  lemma OpenFits(m: Mem, m': Mem, c: nat, task: Task)
    requires Opened(m, m', c) && IsRoot(m, task.root) && Fits(m, task)
    ensures Fits(m', task)
  {
    hide Find;
    hide View;
    forall v: nat | v < Span(5) ensures FitsAt(m', task, v) {
      var p := Private(m', task.root, v);
      assert SameGuard(m, m', task.root, v) && FitsAt(m, task, v);
    }
  }

  lemma OpenAlone(m: Mem, m': Mem, c: nat, q: nat)
    requires Opened(m, m', c) && IsRoot(m, q) && Alone(m, q)
    ensures Alone(m', q)
  {
    hide Find;
    hide View;
    hide Private;
    forall v: nat | v < Span(5) && Find(m'.tb, q, 4, v).Some? ensures Private(m', q, v) {
      var p := Private(m', q, v);
      assert SameGuard(m, m', q, v);
      var p0 := Private(m, q, v);
    }
  }

  lemma ForkAreas(m: Mem, m': Mem, tasks: map<nat, Task>, p: nat, c: nat, cur: nat)
    requires p in tasks && ForkState(m, m', tasks, tasks[p].root, c, cur)
    ensures AreasOk(tasks[p].areas)
  {
    assert TaskOk(m', tasks[p]);
  }

  lemma AreaBounds(m: Mem, m': Mem, tasks: map<nat, Task>, p: nat, c: nat, k: nat)
    requires p in tasks && k < |tasks[p].areas| && ForkState(m, m', tasks, tasks[p].root, c, tasks[p].areas[k].base)
    ensures tasks[p].areas[k].base <= tasks[p].areas[k].end <= USER_PAGES
  {
    assert TaskOk(m', tasks[p]);
  }

  lemma FrameOrder(b: Allocator, f: nat)
    requires b.Valid() && f in b.Blocks()
    ensures f < b.pages.Length && b.pages[f].order == b.Blocks()[f].order
  {
    hide Inv;
    hide Owned;
    PageOrder(b.S(), f);
  }

  /** Between two VMAs nothing is mapped. */
  lemma ForkGap(m0: Mem, m: Mem, tasks: map<nat, Task>, parent: nat, c: nat, k: nat)
    requires parent in tasks && var areas := tasks[parent].areas;
             k <= |areas| && ForkState(m0, m, tasks, tasks[parent].root, c, EndOf(areas[..k]))
    ensures var areas := tasks[parent].areas;
            ForkState(m0, m, tasks, tasks[parent].root, c, if k < |areas| then areas[k].base else Span(5))
  {
    hide MInv;
    hide View;
    hide Find;
    var areas, p := tasks[parent].areas, tasks[parent].root;
    var cur, next := EndOf(areas[..k]), if k < |areas| then areas[k].base else Span(5);
    KeptTask(m0, m, tasks, parent);
    forall v | cur <= v < next && v < Span(5) ensures View(m, p, v).None? {
      MappedInArea(m, tasks[parent], v);
    }
    CopyingSkip(m, p, c, cur, next);
  }

  lemma MappedInArea(m: Mem, task: Task, v: nat)
    requires MInv(m) && TaskOk(m, task) && v < Span(5)
    ensures View(m, task.root, v).Some? ==>
              exists i :: 0 <= i < |task.areas| && task.areas[i].base <= v < task.areas[i].end
  {
    hide MInv;
    assert MappedOk(m, task, v);
    if View(m, task.root, v).Some? { AreaFound(task.areas, v, v); }
  }

  lemma ForkReady(m0: Mem, m: Mem, tasks: map<nat, Task>, parent: nat, c: nat, t: nat, i: nat, va: nat)
    requires parent in tasks && ForkState(m0, m, tasks, tasks[parent].root, c, va)
             && Maps(m, tasks[parent].root, t, i, va) && va < Span(5)
    ensures CanSwap(m, t, i, ReadOnly(m.tb[t][i]))
    ensures var m1 := Swap(m, t, i, ReadOnly(m.tb[t][i]));
            && ForkState(m0, m1, tasks, tasks[parent].root, c, va) && Maps(m1, tasks[parent].root, t, i, va)
            && m1.tb[t][i] == ReadOnly(m.tb[t][i])
  {
    hide MInv;
    hide View;
    hide Find;
    hide Copying;
    hide Kept;
    hide NoneEmpty;
    hide WalkedBut;
    ShapedOf(m);
    var p := tasks[parent].root;
    var lo, hi := SlotRange(m, p, t, i, va);
    var e := ReadOnly(m.tb[t][i]);
    var m1 := Swap(m, t, i, e);
    ProtectLeaf(m, t, i, e.perm, lo, hi);
    KeptTask(m0, m, tasks, parent);
    MapsUser(m, tasks[parent], t, i, va);
    ForkExec(m, tasks, parent, t, i, va, lo, hi);
    ProtectKept(m, m1, tasks, t, lo, hi, e.perm);
    KeptTrans(m0, m, m1, tasks);
    WalkedRoots(Protect(e.perm), m, m1, t, lo, hi);
    ReadOnlyFitting(m0, m, m1, tasks, t, lo, hi, e.perm, {p});
    ProtectNoneEmpty(m, m1, Protect(e.perm), t, lo, hi, c);
    CopyingProtect(m, m1, p, c, t, i, va, lo, hi);
  }

  lemma ForkExec(m: Mem, tasks: map<nat, Task>, parent: nat, t: nat, i: nat, va: nat, lo: nat, hi: nat)
    requires TasksOk(m, tasks) && parent in tasks && Maps(m, tasks[parent].root, t, i, va)
             && SlotOf(m, t, i, va, lo, hi)
    ensures forall p, v {:trigger Lookup(tasks[p].areas, v)} ::
              p in tasks && tasks[p].root == tasks[parent].root && lo <= v < hi && Lookup(tasks[p].areas, v).Some? ==>
                (m.tb[t][i].perm.noExec <==> !Lookup(tasks[p].areas, v).value.exec)
  {
    hide MInv;
    hide Find;
    hide Lookup;
    ShapedOf(m);
    OneTask(m, tasks, parent);
    assert TaskOk(m, tasks[parent]);
    forall v | lo <= v < hi && Lookup(tasks[parent].areas, v).Some?
      ensures m.tb[t][i].perm.noExec <==> !Lookup(tasks[parent].areas, v).value.exec
    {
      MapsFacts(m, tasks[parent].root, t, i, va, lo, hi, v);
      WholeSlotBound(m, t, i, lo, hi);
      assert MappedOk(m, tasks[parent], v);
    }
  }

  lemma ReadOnlyFitting(m0: Mem, m: Mem, m1: Mem, tasks: map<nat, Task>, t: nat, lo: nat, hi: nat, perm: Perm,
                        kin: set<nat>)
    requires MInv(m) && TasksOk(m, tasks) && t in m.home && Walked(Protect(perm), m, m1, t, lo, hi) && !perm.write
    requires Fitting(m0, m, tasks, {}, kin)
    ensures Fitting(m0, m1, tasks, {}, kin)
  {
    hide MInv;
    hide WalkedBut;
    hide Fits;
    hide Alone;
    forall q | q in tasks && tasks[q].root !in kin && Alone(m0, tasks[q].root) ensures Alone(m1, tasks[q].root) {
      assert TaskOk(m, tasks[q]);
      WalkAlone(Protect(perm), m, m1, t, lo, hi, tasks[q].root);
    }
    forall q | q in tasks && Fits(m0, tasks[q]) ensures Fits(m1, tasks[q]) {
      assert TaskOk(m, tasks[q]);
      LessFits(Protect(perm), m, m1, t, lo, hi, tasks[q], tasks[q].areas);
      assert tasks[q].(areas := tasks[q].areas) == tasks[q];
    }
  }

  lemma InsertFitting(m0: Mem, m: Mem, m': Mem, tasks: map<nat, Task>, op: Op, c: nat, lo: nat, hi: nat, t: nat, i: nat)
    requires MInv(m) && TasksOk(m, tasks) && IsRoot(m, c) && m.home[c].root == c && Walked(op, m, m', c, lo, hi)
    requires t in m.tb && t in m.home && i < |m.tb[t]| == 512 && m.tb[t][i].present && op.Insert?
             && op.frame == m.tb[t][i].frame
    requires Fitting(m0, m, tasks, {}, {m.home[t].root}) && forall q :: q in tasks ==> tasks[q].root != c
    ensures Fitting(m0, m', tasks, {}, {m.home[t].root})
  {
    hide MInv;
    hide WalkedBut;
    hide Fits;
    hide Alone;
    hide Find;
    forall q | q in tasks && tasks[q].root != m.home[t].root && Alone(m0, tasks[q].root)
           ensures Alone(m', tasks[q].root) {
      assert TaskOk(m, tasks[q]);
      forall v: nat | v < Span(5) && Find(m.tb, tasks[q].root, 4, v).Some?
        ensures Find(m.tb, tasks[q].root, 4, v).value.block != op.frame
      { AloneBlock(m, tasks[q].root, t, i, v); }
      WalkAlone(op, m, m', c, lo, hi, tasks[q].root);
    }
    forall q | q in tasks && Fits(m0, tasks[q]) ensures Fits(m', tasks[q]) {
      assert TaskOk(m, tasks[q]);
      OtherFits(op, m, m', c, lo, hi, tasks[q]);
    }
  }

  lemma MapsUser(m: Mem, task: Task, t: nat, i: nat, va: nat)
    requires Maps(m, task.root, t, i, va) && TaskOk(m, task) && va < Span(5)
    ensures m.tb[t][i].perm.user
  {
    hide MInv;
    ShapedOf(m);
    LeafTranslates(m, t, i, va);
    assert MappedOk(m, task, va);
  }

  /** page_insert into the child finds its place, or the page came with its 2M page before. */
  lemma ForkRoom(m0: Mem, m: Mem, tasks: map<nat, Task>, parent: nat, c: nat, t: nat, i: nat, va: nat)
    requires parent in tasks && ForkState(m0, m, tasks, tasks[parent].root, c, va)
             && Maps(m, tasks[parent].root, t, i, va) && va < USER_PAGES
    ensures var f := m.tb[t][i].frame;
            && f in m.own && f !in m.tb && m.own[f].order in {0, HUGE}
            && (m.own[f].order == HUGE && va % 512 != 0 ==> ForkState(m0, m, tasks, tasks[parent].root, c, va + 1))
            && (m.own[f].order == 0 || va % 512 == 0 ==>
                  va + Pow2(m.own[f].order) <= USER_PAGES && Clear(m.tb, c, 4, va, m.own[f].order == HUGE))
  {
    hide MInv;
    hide View;
    hide Find;
    hide Copying;
    hide Kept;
    hide NoneEmpty;
    hide Clear;
    ShapedOf(m);
    LeafFacts(m, t, i);
    Pow2Huge();
    assert Pow2(0) == 1;
    var p := tasks[parent].root;
    var lo, hi := SlotRange(m, p, t, i, va);
    if lo < va {
      CopyingInside(m, p, c, t, i, va, lo, hi);
    } else {
      forall w | va <= w < hi ensures View(m, c, w).None? { NotCopied(m, p, c, t, i, va, hi, w); }
      RootHome(m, c);
      ClearWhereFree(m, c, va, m.home[t].level == 2);
    }
  }

  lemma NotCopied(m: Mem, p: nat, c: nat, t: nat, i: nat, va: nat, hi: nat, w: nat)
    requires Maps(m, p, t, i, va) && SlotOf(m, t, i, va, va, hi) && Copying(m, p, c, va) && va <= w < hi
    ensures View(m, c, w).None?
  {
    hide MInv;
    hide View;
    hide Find;
    MapsFacts(m, p, t, i, va, va, hi, w);
    WholeSlotBound(m, t, i, va, hi);
    assert CopyingAt(m, p, c, va, w) by { var x := View(m, c, w); }
  }

  lemma WholeSlotBound(m: Mem, t: nat, i: nat, lo: nat, hi: nat)
    requires MInv(m) && WholeSlot(m, t, i, lo, hi)
    ensures hi <= Span(5)
  {
    hide MInv;
    InSlotCovers(m, t, i, lo, hi, hi - 1);
  }

  /** Page va of the parent is behind the child's page too, and not a copy, unless the child's pages have
      been merged into a 2M page. Inside a 2M page of the parent there was nothing to do. */
  ghost predicate Shares(tb: map<nat, seq<Pte>>, tb': map<nat, seq<Pte>>, p: nat, c: nat, va: nat) {
    var s, d := Find(tb, p, 4, va), Find(tb', c, 4, va);
    s.Some? && !(s.value.huge && va % 512 != 0) ==>
      d.Some? && (d.value.block == s.value.block || (d.value.huge && !s.value.huge))
  }

  lemma SharesNone(m: Mem, p: nat, c: nat, va: nat)
    requires MInv(m) && IsRoot(m, p) && va < Span(5) && View(m, p, va).None?
    ensures Shares(m.tb, m.tb, p, c, va)
  {
    hide MInv;
    ViewSpot(m, p, va);
  }

  lemma ForkShares(m: Mem, m': Mem, p: nat, c: nat, t: nat, i: nat, va: nat, inside: bool, ok: bool)
    requires Maps(m, p, t, i, va) && m.tb[t][i].frame in m.own
    requires inside <==> m.own[m.tb[t][i].frame].order == HUGE && va % 512 != 0
    requires !inside && ok ==>
               var f := m.tb[t][i].frame; var k := m.own[f].order;
               Behind(m'.tb, c, va, va + Pow2(k), f, k == 0)
    ensures ok ==> Shares(m.tb, m'.tb, p, c, va)
  {
    assert SlotOk(m, t, i);
    LeafTranslates(m, t, i, va);
    hide MInv;
    assert Pow2(m.own[m.tb[t][i].frame].order) > 0;
    var s := Find(m'.tb, c, 4, va);
  }

  lemma ForkInserted(m0: Mem, m: Mem, m': Mem, tasks: map<nat, Task>, parent: nat, c: nat, t: nat, i: nat, va: nat)
    requires parent in tasks && ForkState(m0, m, tasks, tasks[parent].root, c, va)
             && Maps(m, tasks[parent].root, t, i, va) && va < USER_PAGES
    requires !m.tb[t][i].perm.write && m.tb[t][i].frame in m.own
    requires var f := m.tb[t][i].frame; var n := Pow2(m.own[f].order);
             && (m.own[f].order == 0 || va % 512 == 0) && f + n <= |m.data|
             && Walked(Insert(f, m.tb[t][i].perm, va, m.data[f..f + n]), m, m', c, va, va + n)
    ensures ForkState(m0, m', tasks, tasks[parent].root, c, va + 1)
  {
    hide MInv;
    hide View;
    hide Find;
    hide Copying;
    hide Kept;
    hide NoneEmpty;
    hide WalkedBut;
    ShapedOf(m);
    LeafFacts(m, t, i);
    Pow2Huge();
    assert Pow2(0) == 1;
    var p, f := tasks[parent].root, m.tb[t][i].frame;
    var n := Pow2(m.own[f].order);
    var op := Insert(f, m.tb[t][i].perm, va, m.data[f..f + n]);
    var lo, hi := SlotRange(m, p, t, i, va);
    KeptTask(m0, m, tasks, parent);
    CopyingInsert(m, m', p, c, t, i, va, hi, op);
    InsertNoneEmpty(m, m', op, c, va, hi);
    WalkedRoots(op, m, m', c, va, hi);
    InsertKept(m, m', tasks, op, c, t, i, va, hi);
    InsertFitting(m0, m, m', tasks, op, c, va, hi, t, i);
    KeptTrans(m0, m, m', tasks);
    RootHome(m', c);
  }

  lemma InsertKept(m: Mem, m': Mem, tasks: map<nat, Task>, op: Op, c: nat, t: nat, i: nat, lo: nat, hi: nat)
    requires MInv(m) && TasksOk(m, tasks) && IsRoot(m, c) && m.home[c].root == c && op.Insert?
             && Walked(op, m, m', c, lo, hi)
    requires forall q :: q in tasks ==> tasks[q].root != c
    requires t in m.tb && i < 512 && m.tb[t][i].present && !IsTable(m.home[t].level, m.tb[t][i])
             && !m.tb[t][i].perm.write
    requires op.frame == m.tb[t][i].frame
    ensures Kept(m, m', tasks)
  {
    hide MInv;
    hide WalkedBut;
    hide Find;
    hide Content;
    hide MappedOk;
    forall p, v: nat | p in tasks && v < Span(5)
      ensures MappedOk(m', tasks[p], v) && Content(m', tasks[p].root, v) == Content(m, tasks[p].root, v)
    {
      var s := Find(m.tb, tasks[p].root, 4, v);
      if s.Some? && s.value.block == op.frame { SharedNotWritable(m, t, i, tasks[p], v); }
      InsertPage(op, m, m', tasks[p], c, lo, hi, v);
    }
    WalkedRoots(op, m, m', c, lo, hi);
    KeptBy(m, m', tasks);
  }

  /** The child sees what the parent sees, and neither can write it without a fault. */
  lemma ForkEnd(m0: Mem, m: Mem, tasks: map<nat, Task>, parent: nat, child: nat, c: nat, areas: seq<Area>)
    requires parent in tasks && child !in tasks
             && ForkState(m0, m, tasks, tasks[parent].root, c, EndOf(tasks[parent].areas))
    requires Areas.Copied(tasks[parent].areas, |tasks[parent].areas|, areas)
    ensures var tasks' := tasks[child := Task(c, areas)];
            && TasksOk(m, tasks') && SpacesOf(m, tasks') == SpacesOf(m0, tasks)[child := SpacesOf(m0, tasks)[parent]]
            && StaysTight(m0, m, tasks, tasks', {parent}, {}) && Fits(m, tasks[parent]) && Fits(m, tasks'[child])
            && (Solid(tasks[parent].areas) ==> Solid(areas))
  {
    hide MInv;
    hide Content;
    hide MappedOk;
    hide Copying;
    hide Find;
    hide View;
    hide Lookup;
    hide AreasOk;
    hide FitsAt;
    var p := tasks[parent].root;
    assert tasks[parent].areas[..|tasks[parent].areas|] == tasks[parent].areas;
    ForkGap(m0, m, tasks, parent, c, |tasks[parent].areas|);
    KeptTask(m0, m, tasks, parent);
    KeptSpaces(m0, m, tasks);
    var task := Task(c, areas);
    forall v: nat | v < Span(5)
      ensures MappedOk(m, task, v) && Content(m, c, v) == Content(m, p, v)
      ensures FitsAt(m, task, v) && FitsAt(m, tasks[parent], v)
    {
      ChildPage(m, tasks[parent], task, v);
    }
    ForkSpaces(m, tasks, parent, child, task);
    hide Fits;
    hide Alone;
    hide SpacesOf;
  }

  lemma ForkSpaces(m: Mem, tasks: map<nat, Task>, parent: nat, child: nat, task: Task)
    requires parent in tasks && child !in tasks && SameLookup(tasks[parent].areas, task.areas)
    requires forall v: nat {:trigger Content(m, task.root, v)} :: v < Span(5) ==>
               Content(m, task.root, v) == Content(m, tasks[parent].root, v)
    ensures SpacesOf(m, tasks[child := task]) == SpacesOf(m, tasks)[child := SpacesOf(m, tasks)[parent]]
  {
    hide Content;
    hide Lookup;
    assert SpaceOf(m, task) == SpaceOf(m, tasks[parent]);
  }

  lemma ChildPage(m: Mem, parent: Task, task: Task, v: nat)
    requires MInv(m) && TaskOk(m, parent) && IsRoot(m, task.root) && SameLookup(parent.areas, task.areas) && v < Span(5)
    requires Copying(m, parent.root, task.root, Span(5))
    ensures MappedOk(m, task, v) && Content(m, task.root, v) == Content(m, parent.root, v)
    ensures FitsAt(m, task, v) && FitsAt(m, parent, v)
  {
    hide MInv;
    hide View;
    hide Find;
    hide Lookup;
    var f := Lookup(task.areas, v);
    assert CopyingAt(m, parent.root, task.root, Span(5), v) by { var x := View(m, task.root, v); }
    assert MappedOk(m, parent, v);
    ViewSpot(m, parent.root, v);
    ViewSpot(m, task.root, v);
  }

  // ---- User accesses ----------------------------------------------------------------------------------

  lemma SpaceAt(m: Mem, tasks: map<nat, Task>, pid: nat, v: nat)
    requires MInv(m) && TasksOk(m, tasks) && pid in tasks
    ensures pid in SpacesOf(m, tasks)
    ensures v in SpacesOf(m, tasks)[pid] <==> Lookup(tasks[pid].areas, v).Some?
    ensures v in SpacesOf(m, tasks)[pid] ==>
              v < USER_PAGES
                && SpacesOf(m, tasks)[pid][v] == Page(Content(m, tasks[pid].root, v), Lookup(tasks[pid].areas, v).value)
    ensures v < USER_PAGES ==> |Content(m, tasks[pid].root, v)| == 4096
  {
    hide MInv;
    hide Find;
    var task := tasks[pid];
    assert TaskOk(m, task);
    if AreaAt(task.areas, v).Some? { AreaFound(task.areas, v, v); }
    if v < USER_PAGES {
      ViewSpot(m, task.root, v);
      assert MappedOk(m, task, v);
    }
  }

  /** Whatever the tasks have done, the processor lets a task execute a page exactly if its VMA does,
      and write it only if it cannot be executed. */
  lemma WriteXorExecute(m: Mem, tasks: map<nat, Task>, pid: nat, v: nat)
    requires MInv(m) && TasksOk(m, tasks) && pid in tasks && v < USER_PAGES && Find(m.tb, tasks[pid].root, 4, v).Some?
    ensures var p, f := Effective(m.tb, tasks[pid].root, 4, v), Lookup(tasks[pid].areas, v);
            && p.user && f.Some? && f.value.read && (p.noExec <==> !f.value.exec) && (p.write ==> p.noExec)
            && !(f.value.write && f.value.exec)
  {
    hide Find;
    hide Effective;
    assert TaskOk(m, tasks[pid]) && MappedOk(m, tasks[pid], v);
    RootHome(m, tasks[pid].root);
    LastEntryDecides(m, tasks[pid].root, v);
    LookupOk(tasks[pid].areas, v);
  }

  lemma MappedUser(m: Mem, tasks: map<nat, Task>, pid: nat, v: nat)
    requires TasksOk(m, tasks) && pid in tasks && v < USER_PAGES && Find(m.tb, tasks[pid].root, 4, v).Some?
    ensures Find(m.tb, tasks[pid].root, 4, v).value.perm.user
  {
    assert TaskOk(m, tasks[pid]) && MappedOk(m, tasks[pid], v);
  }

  /** A write that faults for good: the VMA does not allow it. */
  lemma WriteRefused(m: Mem, m': Mem, tasks: map<nat, Task>, pid: nat, v: nat, off: nat, byte: bv8)
    requires MInv(m) && TasksOk(m, tasks) && Kept(m, m', tasks)
    ensures SpacesOf(m', tasks) == SpacesOf(m, tasks) && TasksOk(m', tasks)
    ensures (pid !in tasks || off >= 4096 || v >= USER_PAGES || Lookup(tasks[pid].areas, v).None?
             || !Lookup(tasks[pid].areas, v).value.read || !Lookup(tasks[pid].areas, v).value.write) ==>
              Allowed(SpacesOf(m, tasks), Write(pid, v, off, byte), Refused)
  {
    hide MInv;
    hide Content;
    hide Lookup;
    KeptSpaces(m, m', tasks);
    if pid in tasks { SpaceAt(m, tasks, pid, v); }
  }

  lemma WriteDone(m0: Mem, m: Mem, tasks: map<nat, Task>, pid: nat, v: nat, off: nat, byte: bv8)
    requires MInv(m0) && TasksOk(m0, tasks) && Kept(m0, m, tasks) && pid in tasks && v < USER_PAGES && off < 4096
    requires var s := Find(m.tb, tasks[pid].root, 4, v); s.Some? && s.value.perm.write
    ensures var f := Find(m.tb, tasks[pid].root, 4, v).value.frame;
            && f < |m.data| && |m.data[f]| == 4096
            && var m' := m.(data := m.data[f := m.data[f][off := byte]]);
               && TasksOk(m', tasks)
               && Allowed(SpacesOf(m0, tasks), Write(pid, v, off, byte), Done)
               && SpacesOf(m', tasks) == Next(SpacesOf(m0, tasks), Write(pid, v, off, byte), Done)
  {
    hide MInv;
    hide Find;
    hide Allowed;
    hide TasksOk;
    hide SpaceOf;
    hide SpacesOf;
    hide Kept;
    WriteReady(m0, m, tasks, pid, v, off, byte);
    var s: Eager.Spaces := SpacesOf(m0, tasks);
    var f := Find(m.tb, tasks[pid].root, 4, v).value.frame;
    var page := m.data[f][off := byte];
    assert Next(s, Write(pid, v, off, byte), Done) == s[pid := s[pid][v := s[pid][v].(bytes := page)]];
    hide Next;
    WriteTasks(m, tasks, pid, v, page);
    WriteSpaces(m, m.(data := m.data[f := page]), tasks, pid, v, page);
  }

  lemma WriteReady(m0: Mem, m: Mem, tasks: map<nat, Task>, pid: nat, v: nat, off: nat, byte: bv8)
    requires MInv(m0) && TasksOk(m0, tasks) && Kept(m0, m, tasks) && pid in tasks && v < USER_PAGES && off < 4096
    requires var s := Find(m.tb, tasks[pid].root, 4, v); s.Some? && s.value.perm.write
    ensures MInv(m) && TasksOk(m, tasks) && SpacesOf(m, tasks) == SpacesOf(m0, tasks) && Private(m, tasks[pid].root, v)
    ensures Lookup(tasks[pid].areas, v).Some?
    ensures var f, s := Find(m.tb, tasks[pid].root, 4, v).value.frame, SpacesOf(m0, tasks);
            && f < |m.data| && |m.data[f]| == 4096 && pid in s && v in s[pid] && s[pid][v].bytes == m.data[f]
    ensures Allowed(SpacesOf(m0, tasks), Write(pid, v, off, byte), Done)
  {
    hide MInv;
    hide Find;
    hide Lookup;
    KeptTask(m0, m, tasks, pid);
    KeptSpaces(m0, m, tasks);
    hide Kept;
    hide TasksOk;
    ViewSpot(m, tasks[pid].root, v);
    SpaceAt(m, tasks, pid, v);
    assert MappedOk(m, tasks[pid], v);
  }

  lemma WriteTasks(m: Mem, tasks: map<nat, Task>, pid: nat, v: nat, page: Bytes)
    requires MInv(m) && TasksOk(m, tasks) && pid in tasks && v < USER_PAGES && Private(m, tasks[pid].root, v)
             && |page| == 4096
    ensures var f := Find(m.tb, tasks[pid].root, 4, v).value.frame;
            && f < |m.data|
            && var m' := m.(data := m.data[f := page]);
               && TasksOk(m', tasks)
               && forall p, w: nat {:trigger Content(m', tasks[p].root, w)} :: p in tasks && w < Span(5) ==>
                    Content(m', tasks[p].root, w) == if (p, w) == (pid, v) then page else Content(m, tasks[p].root, w)
  {
    hide MInv;
    hide Find;
    hide Content;
    hide MappedOk;
    var r := tasks[pid].root;
    assert TaskOk(m, tasks[pid]);
    WritePage(m, r, v, page, tasks[pid], v);
    var m' := m.(data := m.data[Find(m.tb, r, 4, v).value.frame := page]);
    forall p, w: nat | p in tasks && w < Span(5)
      ensures MappedOk(m', tasks[p], w) && Content(m', tasks[p].root, w) == if (p, w) == (pid, v) then page
              else Content(m, tasks[p].root, w)
    {
      WritePage(m, r, v, page, tasks[p], w);
    }
    forall p | p in tasks ensures TaskOk(m', tasks[p]) { assert TaskOk(m, tasks[p]); }
  }

  lemma WriteSpaces(m: Mem, m': Mem, tasks: map<nat, Task>, pid: nat, v: nat, page: Bytes)
    requires pid in tasks && v < USER_PAGES && Lookup(tasks[pid].areas, v).Some?
    requires forall p, w: nat {:trigger Content(m', tasks[p].root, w)} :: p in tasks && w < Span(5) ==>
               Content(m', tasks[p].root, w) == if (p, w) == (pid, v) then page else Content(m, tasks[p].root, w)
    ensures var s := SpacesOf(m, tasks);
            v in s[pid] && SpacesOf(m', tasks) == s[pid := s[pid][v := s[pid][v].(bytes := page)]]
  {
    hide Content;
    hide Lookup;
    var s: Eager.Spaces := SpacesOf(m, tasks);
    var mine: map<nat, Page> := s[pid][v := s[pid][v].(bytes := page)];
    forall p | p in tasks ensures SpaceOf(m', tasks[p]) == if p == pid then mine else s[p] {}
  }

  lemma ReadFacts(m: Mem, m': Mem, tasks: map<nat, Task>, pid: nat, v: nat, off: nat)
    requires MInv(m) && TasksOk(m, tasks) && Kept(m, m', tasks)
    ensures SpacesOf(m', tasks) == SpacesOf(m, tasks) && TasksOk(m', tasks)
    ensures (pid !in tasks || off >= 4096 || v >= USER_PAGES || Lookup(tasks[pid].areas, v).None?
             || !Lookup(tasks[pid].areas, v).value.read) ==> Allowed(SpacesOf(m, tasks), Read(pid, v, off), Refused)
    ensures pid in tasks && v < USER_PAGES && off < 4096 && Find(m'.tb, tasks[pid].root, 4, v).Some? ==>
              var f := Find(m'.tb, tasks[pid].root, 4, v).value.frame;
              f < |m'.data| && off < |m'.data[f]|
                && Allowed(SpacesOf(m, tasks), Read(pid, v, off), Value(m'.data[f][off]))
  {
    hide MInv;
    hide Lookup;
    hide Find;
    KeptSpaces(m, m', tasks);
    if pid in tasks {
      SpaceAt(m', tasks, pid, v);
      assert TaskOk(m', tasks[pid]);
      if v < USER_PAGES {
        ViewSpot(m', tasks[pid].root, v);
        assert MappedOk(m', tasks[pid], v);
      }
    }
  }

  lemma ExecFacts(m: Mem, m': Mem, tasks: map<nat, Task>, pid: nat, v: nat)
    requires MInv(m) && TasksOk(m, tasks) && Kept(m, m', tasks)
    ensures SpacesOf(m', tasks) == SpacesOf(m, tasks) && TasksOk(m', tasks)
    ensures (pid !in tasks || v >= USER_PAGES || Lookup(tasks[pid].areas, v).None?
             || !Lookup(tasks[pid].areas, v).value.read || !Lookup(tasks[pid].areas, v).value.exec) ==>
              Allowed(SpacesOf(m, tasks), Exec(pid, v), Refused)
    ensures pid in tasks && v < USER_PAGES
            && (var s := Find(m'.tb, tasks[pid].root, 4, v); s.Some? && !s.value.perm.noExec) ==>
              Allowed(SpacesOf(m, tasks), Exec(pid, v), Done)
  {
    hide MInv;
    hide Lookup;
    hide Find;
    hide Content;
    KeptSpaces(m, m', tasks);
    if pid in tasks {
      SpaceAt(m', tasks, pid, v);
      assert TaskOk(m', tasks[pid]);
      if v < USER_PAGES { assert MappedOk(m', tasks[pid], v); }
    }
  }

  lemma RootsApart(m: Mem, tasks: map<nat, Task>, c: nat)
    requires TasksOk(m, tasks) && c !in m.tb
    ensures forall q :: q in tasks ==> tasks[q].root != c
  {
    forall q | q in tasks ensures tasks[q].root != c { assert TaskOk(m, tasks[q]); }
  }

  /** task_setup_vas leaves all other tasks as they are. */
  lemma OpenKept(m: Mem, m': Mem, tasks: map<nat, Task>, c: nat)
    requires MInv(m) && MInv(m') && TasksOk(m, tasks) && Opened(m, m', c)
    ensures Kept(m, m', tasks) && Fitting(m, m', tasks, {}, {})
  {
    hide MInv;
    hide Find;
    hide Content;
    hide MappedOk;
    hide Fits;
    hide Alone;
    forall p, v: nat | p in tasks && v < Span(5)
      ensures MappedOk(m', tasks[p], v) && Content(m', tasks[p].root, v) == Content(m, tasks[p].root, v)
    {
      OpenPage(m, m', c, tasks[p], v);
    }
    KeptBy(m, m', tasks);
    forall q | q in tasks && Fits(m, tasks[q]) ensures Fits(m', tasks[q]) {
      assert TaskOk(m, tasks[q]);
      OpenFits(m, m', c, tasks[q]);
    }
    forall q | q in tasks && Alone(m, tasks[q].root) ensures Alone(m', tasks[q].root) {
      assert TaskOk(m, tasks[q]);
      OpenAlone(m, m', c, tasks[q].root);
    }
  }

  lemma AddTask(m: Mem, tasks: map<nat, Task>, pid: nat, task: Task)
    requires TasksOk(m, tasks) && pid !in tasks && TaskOk(m, task)
             && forall q :: q in tasks ==> tasks[q].root != task.root
    ensures TasksOk(m, tasks[pid := task])
    ensures SpacesOf(m, tasks[pid := task]) == SpacesOf(m, tasks)[pid := SpaceOf(m, task)]
  {
    hide TaskOk;
    hide SpaceOf;
  }

  /** A task with nothing mapped and no VMA. */
  lemma NewTask(m: Mem, c: nat)
    requires MInv(m) && IsRoot(m, c) && forall v: nat {:trigger View(m, c, v)} :: View(m, c, v).None?
    ensures var task := Task(c, []); TaskOk(m, task) && Fits(m, task) && Alone(m, c) && SpaceOf(m, task) == map[]
  {
    hide MInv;
    hide MappedOk;
    hide FitsAt;
    hide Content;
    var task := Task(c, []);
    forall v: nat | v < Span(5) ensures MappedOk(m, task, v) && FitsAt(m, task, v) && Find(m.tb, c, 4, v).None? {
      var x := View(m, c, v);
      NothingMapped(m, task, v);
    }
  }

  lemma Created(m: Mem, m': Mem, tasks: map<nat, Task>, pid: nat, c: nat)
    requires MInv(m) && MInv(m') && TasksOk(m, tasks) && pid !in tasks && c !in m.tb && IsRoot(m', c)
             && Opened(m, m', c)
    ensures var tasks' := tasks[pid := Task(c, [])];
            && TasksOk(m', tasks') && SpacesOf(m', tasks') == SpacesOf(m, tasks)[pid := map[]]
            && StaysTight(m, m', tasks, tasks', {}, {}) && Fits(m', tasks'[pid]) && Alone(m', c)
  {
    hide MInv;
    hide View;
    hide Fits;
    hide Alone;
    hide TaskOk;
    hide SpaceOf;
    OpenKept(m, m', tasks, c);
    KeptSpaces(m, m', tasks);
    RootsApart(m, tasks, c);
    NewTask(m', c);
    hide Opened;
    AddTask(m', tasks, pid, Task(c, []));
  }

  lemma NothingMapped(m: Mem, task: Task, v: nat)
    requires MInv(m) && IsRoot(m, task.root) && v < Span(5) && View(m, task.root, v).None?
    ensures MappedOk(m, task, v) && FitsAt(m, task, v) && Find(m.tb, task.root, 4, v).None?
  {
    hide MInv;
    ViewSpot(m, task.root, v);
  }

  // ---- munmap -------------------------------------------------------------------------------------------

  /** munmap's loop: nothing outside the range changes. */
  ghost predicate Unmapping(m: Mem, m': Mem, tasks: map<nat, Task>, pid: nat, base: nat, size: nat)
    requires pid in tasks
  {
    && MInv(m') && TasksOk(m', tasks) && Fitting(m, m', tasks, {}, {})
    && forall p, v: nat {:trigger Content(m', tasks[p].root, v)} ::
         p in tasks && v < Span(5) && !(p == pid && base <= v < base + size) ==>
           Content(m', tasks[p].root, v) == Content(m, tasks[p].root, v)
  }

  ghost predicate Unmapped(m: Mem, r: nat, base: nat, size: nat) {
    forall v :: base <= v < base + size ==> View(m, r, v).None?
  }

  lemma UnmapStart(m: Mem, tasks: map<nat, Task>, pid: nat, base: nat, size: nat)
    requires MInv(m) && TasksOk(m, tasks) && pid in tasks
    ensures Unmapping(m, m, tasks, pid, base, size)
  {
  }

  lemma UnmapRoot(m: Mem, m': Mem, tasks: map<nat, Task>, pid: nat, base: nat, size: nat)
    requires pid in tasks && Unmapping(m, m', tasks, pid, base, size)
    ensures IsRoot(m', tasks[pid].root)
  {
    assert TaskOk(m', tasks[pid]);
  }

  lemma UnmapTurn(m: Mem, m1: Mem, m2: Mem, tasks: map<nat, Task>, pid: nat, base: nat, size: nat)
    requires pid in tasks && Unmapping(m, m1, tasks, pid, base, size) && base + size <= Span(5)
    requires Walked(Remove, m1, m2, tasks[pid].root, base, base + size)
    ensures Unmapping(m, m2, tasks, pid, base, size) && Unmapped(m2, tasks[pid].root, base, size)
  {
    hide MInv;
    hide WalkedBut;
    hide Find;
    hide View;
    hide Content;
    hide MappedOk;
    var r, hi := tasks[pid].root, base + size;
    assert TaskOk(m1, tasks[pid]);
    RootHome(m1, r);
    WalkedRoots(Remove, m1, m2, r, base, hi);
    forall p, v: nat | p in tasks && v < Span(5)
      ensures MappedOk(m2, tasks[p], v)
      ensures !(p == pid && base <= v < hi) ==> Content(m2, tasks[p].root, v) == Content(m, tasks[p].root, v)
    {
      RemovePage(m1, m2, tasks[p], tasks[p].areas, r, base, hi, v);
      var x := Content(m1, tasks[p].root, v);
    }
    forall p | p in tasks ensures TaskOk(m2, tasks[p]) { assert TaskOk(m1, tasks[p]); }
    forall v | base <= v < hi ensures View(m2, r, v).None? { StepFacts(Remove, m1, m2, r, base, hi, r, v); }
    hide Fits;
    hide Alone;
    forall q | q in tasks && Alone(m, tasks[q].root) ensures Alone(m2, tasks[q].root) {
      WalkAlone(Remove, m1, m2, r, base, hi, tasks[q].root);
    }
    forall q | q in tasks && Fits(m, tasks[q]) ensures Fits(m2, tasks[q]) {
      LessFits(Remove, m1, m2, r, base, hi, tasks[q], tasks[q].areas);
      assert tasks[q].(areas := tasks[q].areas) == tasks[q];
    }
  }

  lemma UnmapRest(m: Mem, m': Mem, tasks: map<nat, Task>, pid: nat, base: nat, size: nat, k: nat)
    requires pid in tasks && Unmapping(m, m', tasks, pid, base, size)
    requires k <= |tasks[pid].areas| && (k < |tasks[pid].areas| ==> base + size <= tasks[pid].areas[k].base)
    ensures CutAll(tasks[pid].areas[k..], base, base + size) == tasks[pid].areas[k..]
  {
    hide MInv;
    assert TaskOk(m', tasks[pid]);
    assert AreasOk(tasks[pid].areas[k..]);
    CutAbove(tasks[pid].areas[k..], base, base + size);
  }

  lemma CutTask(m: Mem, task: Task, task': Task, base: nat, size: nat)
    requires MInv(m) && TaskOk(m, task) && Unmapped(m, task.root, base, size) && size > 0
    requires task' == Task(task.root, CutAll(task.areas, base, base + size))
    ensures TaskOk(m, task') && (Fits(m, task) ==> Fits(m, task')) && (Solid(task.areas) ==> Solid(task'.areas))
  {
    hide MInv;
    hide MappedOk;
    hide FitsAt;
    hide CutAll;
    CutLookup(task.areas, base, base + size, 0, 0);
    if Solid(task.areas) { CutSolid(task.areas, base, base + size); }
    forall v: nat | v < Span(5) ensures MappedOk(m, task', v) && (FitsAt(m, task, v) ==> FitsAt(m, task', v)) {
      CutMapped(m, task, task', base, size, v);
    }
  }

  lemma UnmapSpaces(m: Mem, m': Mem, tasks: map<nat, Task>, pid: nat, base: nat, size: nat)
    requires pid in tasks && Unmapping(m, m', tasks, pid, base, size) && size > 0
    ensures var s, task := SpacesOf(m, tasks), Task(tasks[pid].root, CutAll(tasks[pid].areas, base, base + size));
            SpacesOf(m', tasks)[pid := SpaceOf(m', task)] == s[pid := s[pid] - Pages(base, size)]
  {
    hide MInv;
    hide Content;
    hide CutAll;
    hide Lookup;
    hide MappedOk;
    hide Fits;
    hide Alone;
    assert TaskOk(m', tasks[pid]);
    CutSpace(m, m', tasks[pid], Task(tasks[pid].root, CutAll(tasks[pid].areas, base, base + size)), base, size);
    forall p | p in tasks && p != pid ensures SpaceOf(m', tasks[p]) == SpaceOf(m, tasks[p])
    { SameSpace(m, m', tasks[p]); }
    hide SpaceOf;
  }

  lemma UnmapEnd(m: Mem, m': Mem, tasks: map<nat, Task>, pid: nat, base: nat, size: nat)
    requires pid in tasks && TasksOk(m, tasks) && Unmapping(m, m', tasks, pid, base, size)
             && Unmapped(m', tasks[pid].root, base, size) && size > 0
    ensures var tasks' := tasks[pid := Task(tasks[pid].root, CutAll(tasks[pid].areas, base, base + size))];
            && TasksOk(m', tasks') && StaysTight(m, m', tasks, tasks', {}, {})
            && Allowed(SpacesOf(m, tasks), Unmap(pid, base, size), Done)
            && SpacesOf(m', tasks') == Next(SpacesOf(m, tasks), Unmap(pid, base, size), Done)
  {
    hide MInv;
    hide Unmapped;
    hide CutAll;
    hide SpaceOf;
    hide Fits;
    hide Alone;
    hide TaskOk;
    var task, s := tasks[pid], SpacesOf(m, tasks);
    var task' := Task(task.root, CutAll(task.areas, base, base + size));
    UnmapSpaces(m, m', tasks, pid, base, size);
    CutTask(m', task, task', base, size);
    MapTasks(m', tasks, pid, task');
    hide TasksOk;
    hide SpacesOf;
  }

  lemma SameSpace(m: Mem, m': Mem, task: Task)
    requires SameContent(m, m', task.root)
    ensures SpaceOf(m', task) == SpaceOf(m, task)
  {
    hide Content;
    hide Lookup;
  }

  /** munmap of an empty range takes nothing exactly if the range is not inside a VMA. */
  lemma EmptyUnmapExact(m: Mem, task: Task, base: nat)
    requires TaskOk(m, task)
    ensures var task', end := Task(task.root, CutAll(task.areas, base, base)), Reach(task.areas, base);
            && SpaceOf(m, task') == SpaceOf(m, task) - Pages(base, end - base)
            && (SpaceOf(m, task') == SpaceOf(m, task) - Pages(base, 0) <==> !Straddled(task.areas, base))
  {
    hide MappedOk;
    hide Content;
    hide Lookup;
    hide CutAll;
    hide Reach;
    hide Straddled;
    var task', end := Task(task.root, CutAll(task.areas, base, base)), Reach(task.areas, base);
    CutEmpty(task.areas, base);
    StraddledReach(task.areas, base, base);
    if base < end {
      CutSpace(m, m, task, task', base, end - base);
      assert base in SpaceOf(m, task) && base !in SpaceOf(m, task');
    } else {
      assert task' == task;
    }
  }

  /** What it takes stays mapped, so the task is in order after it exactly if nothing was mapped. */
  lemma EmptyUnmapKeeps(m: Mem, task: Task, base: nat)
    requires MInv(m) && TaskOk(m, task)
    ensures var task' := Task(task.root, CutAll(task.areas, base, base));
            TaskOk(m, task') <==> Unmapped(m, task.root, base, Reach(task.areas, base) - base)
  {
    hide MInv;
    hide View;
    hide Find;
    hide Lookup;
    hide CutAll;
    hide Reach;
    var task', end := Task(task.root, CutAll(task.areas, base, base)), Reach(task.areas, base);
    CutEmpty(task.areas, base);
    if base == end {
      assert task' == task;
    } else if Unmapped(m, task.root, base, end - base) {
      CutTask(m, task, task', base, end - base);
    } else {
      var v :| base <= v < end && View(m, task.root, v).Some?;
      StraddledReach(task.areas, base, v);
      CutLookup(task.areas, base, end, 0, v);
      ViewSpot(m, task.root, v);
      assert !MappedOk(m, task', v);
    }
  }

  lemma UnmapOver(m: Mem, tasks: map<nat, Task>, pid: nat, base: nat, k: nat)
    requires MInv(m) && TasksOk(m, tasks) && pid in tasks
    requires k < |tasks[pid].areas| && tasks[pid].areas[k].base < base < tasks[pid].areas[k].end
    ensures Overcuts(tasks, Unmap(pid, base, 0))
    ensures var areas, end := tasks[pid].areas, Reach(tasks[pid].areas, base);
            var tasks' := tasks[pid := Task(tasks[pid].root, CutAll(areas, base, base))];
            && CutAll(areas, base, base) == CutAll(areas, base, end)
            && (TasksOk(m, tasks') <==> Unmapped(m, tasks[pid].root, base, end - base))
  {
    hide MInv;
    hide CutAll;
    hide Reach;
    hide Unmapped;
    var task := tasks[pid];
    var task' := Task(task.root, CutAll(task.areas, base, base));
    var tasks' := tasks[pid := task'];
    assert TaskOk(m, task);
    hide TaskOk;
    assert task.areas[k] in task.areas;
    EmptyUnmapKeeps(m, task, base);
    UnmapOrder(m, tasks, pid, base);
    if TaskOk(m, task') {
      MapTasks(m, tasks, pid, task');
    } else {
      assert tasks'[pid] == task';
    }
  }

  lemma UnmapOrder(m: Mem, tasks: map<nat, Task>, pid: nat, base: nat)
    requires TasksOk(m, tasks) && pid in tasks && Straddled(tasks[pid].areas, base)
    ensures var areas := tasks[pid].areas; CutAll(areas, base, base) == CutAll(areas, base, Reach(areas, base))
  {
    assert TaskOk(m, tasks[pid]);
    CutEmpty(tasks[pid].areas, base);
    StraddledReach(tasks[pid].areas, base, base);
  }

  lemma CutMapped(m: Mem, task: Task, task': Task, base: nat, size: nat, v: nat)
    requires MInv(m) && TaskOk(m, task) && Unmapped(m, task.root, base, size) && size > 0 && v < Span(5)
    requires task' == Task(task.root, CutAll(task.areas, base, base + size))
    ensures MappedOk(m, task', v) && (FitsAt(m, task, v) ==> FitsAt(m, task', v))
  {
    hide MInv;
    hide Find;
    hide CutAll;
    hide Lookup;
    CutLookup(task.areas, base, base + size, 0, v);
    assert MappedOk(m, task, v);
    ViewSpot(m, task.root, v);
  }

  lemma CutSpace(m: Mem, m': Mem, task: Task, task': Task, base: nat, size: nat)
    requires AreasOk(task.areas) && task' == Task(task.root, CutAll(task.areas, base, base + size)) && size > 0
    requires forall v: nat {:trigger Content(m', task.root, v)} :: v < Span(5) && !(base <= v < base + size) ==>
               Content(m', task.root, v) == Content(m, task.root, v)
    ensures SpaceOf(m', task') == SpaceOf(m, task) - Pages(base, size)
  {
    hide Content;
    hide Lookup;
    hide CutAll;
    forall v: nat ensures Lookup(task'.areas, v) == if base <= v < base + size then None else Lookup(task.areas, v) {
      CutLookup(task.areas, base, base + size, 0, v);
    }
  }

  lemma UnmapRefused(m: Mem, tasks: map<nat, Task>, pid: nat, base: nat, size: nat, k: nat)
    requires MInv(m) && TasksOk(m, tasks)
    requires pid in tasks ==> var areas := tasks[pid].areas;
               k <= |areas| && (forall i :: 0 <= i < k ==> areas[i].end <= base)
                 && (k < |areas| ==> base + size <= areas[k].base)
    ensures Allowed(SpacesOf(m, tasks), Unmap(pid, base, size), Refused) && !Overcuts(tasks, Unmap(pid, base, size))
  {
    hide MInv;
    hide Content;
    hide Find;
    if pid in tasks {
      assert TaskOk(m, tasks[pid]);
      forall v | base <= v < base + size ensures v !in SpacesOf(m, tasks)[pid] {
        SpaceAt(m, tasks, pid, v);
        assert TaskOk(m, tasks[pid]);
        if AreaAt(tasks[pid].areas, v).Some? { AreaFound(tasks[pid].areas, v, v); }
      }
    }
  }

  // ---- mmap -----------------------------------------------------------------------------------------------

  lemma MapRefused(m: Mem, tasks: map<nat, Task>, step: Step)
    requires step.Map?
    ensures step.pid !in tasks || !Mappable(step.base, step.size, step.flags) || step.size > 0 ==>
              Allowed(SpacesOf(m, tasks), step, Refused)
    ensures Next(SpacesOf(m, tasks), step, Refused) == SpacesOf(m, tasks)
    ensures StaysTight(m, m, tasks, tasks, {}, if step.size == 0 then {step.pid} else {})
  {
  }

  lemma MapAreas(m: Mem, tasks: map<nat, Task>, pid: nat)
    requires TasksOk(m, tasks) && pid in tasks
    ensures AreasOk(tasks[pid].areas)
  {
    assert TaskOk(m, tasks[pid]);
  }

  /** A VMA that ends before it begins. */
  lemma MapAstray(m: Mem, tasks: map<nat, Task>, pid: nat, a: Area)
    requires pid in tasks && a.end < a.base
    ensures !TasksOk(m, tasks[pid := Task(tasks[pid].root, tasks[pid].areas + [a])])
  {
    var tasks' := tasks[pid := Task(tasks[pid].root, tasks[pid].areas + [a])];
    var areas := tasks'[pid].areas;
    assert areas[|areas| - 1] == a;
    assert !TaskOk(m, tasks'[pid]);
  }

  lemma MapRoom(m: Mem, tasks: map<nat, Task>, pid: nat, k: nat, a: Area)
    requires MInv(m) && TasksOk(m, tasks) && pid in tasks && k <= |tasks[pid].areas|
             && AreaOk(a)
    requires forall i :: 0 <= i < k ==> tasks[pid].areas[i].end <= a.base
    requires k < |tasks[pid].areas| ==> a.end <= tasks[pid].areas[k].base
    ensures AreasOk(WithArea(tasks[pid].areas, k, a)) && k < |WithArea(tasks[pid].areas, k, a)|
  {
    hide MInv;
    assert TaskOk(m, tasks[pid]);
    InsertLookup(tasks[pid].areas, k, a, 0, 0);
  }

  /** The task after mmap. */
  lemma MapTask(m: Mem, task: Task, task': Task, k: nat, a: Area)
    requires MInv(m) && TaskOk(m, task) && k <= |task.areas| && AreaOk(a)
    requires forall i :: 0 <= i < k ==> task.areas[i].end <= a.base
    requires k < |task.areas| ==> a.end <= task.areas[k].base
    requires task'.root == task.root && Regrouped(WithArea(task.areas, k, a), task'.areas)
    ensures TaskOk(m, task') && Adds(task, task', a) && (Fits(m, task) ==> Fits(m, task'))
    ensures Solid(task.areas) && a.base < a.end ==> Solid(task'.areas)
  {
    hide MInv;
    hide MappedOk;
    hide Lookup;
    hide FitsAt;
    assert Solid(task.areas) && a.base < a.end ==> Solid(WithArea(task.areas, k, a));
    hide Solid;
    MapLookup(task, task', k, a);
    hide Adds;
    forall v: nat | v < Span(5) ensures MappedOk(m, task', v) && (FitsAt(m, task, v) ==> FitsAt(m, task', v)) {
      MapMapped(m, task, task', a, v);
    }
  }

  /** What lies between the address that mmap returns and the new pages. */
  lemma MapStart(m: Mem, tasks: map<nat, Task>, pid: nat, k: nat, a: Area, addr: nat)
    requires MInv(m) && TasksOk(m, tasks) && pid in tasks && k <= |tasks[pid].areas| && pid in SpacesOf(m, tasks)
    requires k < |WithArea(tasks[pid].areas, k, a)| && MergedBase(WithArea(tasks[pid].areas, k, a), k, addr)
    ensures var pages := SpacesOf(m, tasks)[pid];
            addr <= a.base && forall v :: addr <= v < a.base ==> v in pages && pages[v].flags == a.flags
  {
    hide MInv;
    hide SpacesOf;
    var areas := tasks[pid].areas;
    assert TaskOk(m, tasks[pid]);
    forall v | addr <= v < a.base
      ensures v in SpacesOf(m, tasks)[pid] && SpacesOf(m, tasks)[pid][v].flags == a.flags
    {
      AreaIs(areas, k - 1, v);
      SpaceAt(m, tasks, pid, v);
    }
  }

  lemma MapDone(m: Mem, tasks: map<nat, Task>, pid: nat, k: nat, a: Area, areas: seq<Area>, base: nat,
                addr: nat)
    requires MInv(m) && TasksOk(m, tasks) && pid in tasks && k <= |tasks[pid].areas|
             && AreaOk(a)
    requires forall i :: 0 <= i < k ==> tasks[pid].areas[i].end <= a.base
    requires k < |tasks[pid].areas| ==> a.end <= tasks[pid].areas[k].base
    requires Regrouped(WithArea(tasks[pid].areas, k, a), areas) && Mappable(base, a.end - a.base, a.flags)
             && (a.base == a.end ==> a.base == if base > 0 then base else USER_PAGES)
    requires k < |WithArea(tasks[pid].areas, k, a)| && MergedBase(WithArea(tasks[pid].areas, k, a), k, addr)
    ensures var tasks' := tasks[pid := Task(tasks[pid].root, areas)];
            && TasksOk(m, tasks') && StaysTight(m, m, tasks, tasks', {}, if a.base == a.end then {pid} else {})
            && Allowed(SpacesOf(m, tasks), Map(pid, base, a.end - a.base, a.flags), Placed(a.base, addr))
            && SpacesOf(m, tasks') ==
                 Next(SpacesOf(m, tasks), Map(pid, base, a.end - a.base, a.flags), Placed(a.base, addr))
  {
    hide MInv;
    hide TaskOk;
    hide Adds;
    hide SpaceOf;
    hide Zeros;
    hide Fits;
    hide Alone;
    var task := tasks[pid];
    var task' := Task(task.root, areas);
    assert TaskOk(m, task);
    MapTask(m, task, task', k, a);
    hide Regrouped;
    var s: Eager.Spaces := SpacesOf(m, tasks);
    MapSpace(m, task, task', a);
    MapTasks(m, tasks, pid, task');
    MapStart(m, tasks, pid, k, a, addr);
    hide Solid;
  }

  /** The flags of the VMAs after mmap. */
  ghost predicate Adds(task: Task, task': Task, a: Area) {
    forall v: nat {:trigger Lookup(task'.areas, v)} ::
      && Lookup(task'.areas, v) == (if a.base <= v < a.end then Some(a.flags) else Lookup(task.areas, v))
      && (a.base <= v < a.end ==> Lookup(task.areas, v).None?)
  }

  lemma MapLookup(task: Task, task': Task, k: nat, a: Area)
    requires AreasOk(task.areas) && k <= |task.areas| && AreaOk(a)
    requires forall i :: 0 <= i < k ==> task.areas[i].end <= a.base
    requires k < |task.areas| ==> a.end <= task.areas[k].base
    requires SameLookup(WithArea(task.areas, k, a), task'.areas)
    ensures Adds(task, task', a)
  {
    hide Lookup;
    forall v: nat
      ensures Lookup(task'.areas, v) == if a.base <= v < a.end then Some(a.flags) else Lookup(task.areas, v)
      ensures a.base <= v < a.end ==> Lookup(task.areas, v).None?
    {
      InsertLookup(task.areas, k, a, 0, v);
      if a.base <= v < a.end { MapFree(task.areas, k, a, v); }
    }
  }

  lemma MapTasks(m: Mem, tasks: map<nat, Task>, pid: nat, task': Task)
    requires pid in tasks && TasksOk(m, tasks) && TaskOk(m, task') && task'.root == tasks[pid].root
    ensures TasksOk(m, tasks[pid := task'])
            && SpacesOf(m, tasks[pid := task']) == SpacesOf(m, tasks)[pid := SpaceOf(m, task')]
  {
    hide TaskOk;
    hide SpaceOf;
  }

  /** No page of the new VMA lies in an old one. */
  lemma MapFree(areas: seq<Area>, k: nat, a: Area, v: nat)
    requires AreasOk(areas) && k <= |areas| && a.base <= v < a.end
    requires forall i :: 0 <= i < k ==> areas[i].end <= a.base
    requires k < |areas| ==> a.end <= areas[k].base
    ensures Lookup(areas, v).None?
  {
    if AreaAt(areas, v).Some? {
      AreaFound(areas, v, v);
    }
  }

  lemma MapMapped(m: Mem, task: Task, task': Task, a: Area, v: nat)
    requires MInv(m) && TaskOk(m, task) && v < Span(5) && task'.root == task.root && Adds(task, task', a)
    ensures MappedOk(m, task', v) && (FitsAt(m, task, v) ==> FitsAt(m, task', v))
  {
    hide MInv;
    hide Find;
    hide Lookup;
    assert MappedOk(m, task, v);
    var f := Lookup(task'.areas, v);
  }

  lemma MapSpace(m: Mem, task: Task, task': Task, a: Area)
    requires MInv(m) && TaskOk(m, task) && a.base <= a.end <= USER_PAGES && task'.root == task.root
             && Adds(task, task', a)
    ensures forall v :: a.base <= v < a.end ==> v !in SpaceOf(m, task)
    ensures SpaceOf(m, task') == SpaceOf(m, task) + Zeros(a.base, a.end - a.base, a.flags)
  {
    hide MInv;
    hide Find;
    hide Content;
    hide MappedOk;
    hide Lookup;
    forall v: nat
      ensures Lookup(task'.areas, v) == if a.base <= v < a.end then Some(a.flags) else Lookup(task.areas, v)
      ensures a.base <= v < a.end ==> Lookup(task.areas, v).None? && Content(m, task.root, v) == ZeroPage()
    {
      var f := Lookup(task'.areas, v);
      if a.base <= v < a.end { MapZero(m, task, v); }
    }
  }

  lemma MapZero(m: Mem, task: Task, v: nat)
    requires MInv(m) && TaskOk(m, task) && v < Span(5) && Lookup(task.areas, v).None?
    ensures Content(m, task.root, v) == ZeroPage()
  {
    hide MInv;
    hide Find;
    assert MappedOk(m, task, v);
    ViewSpot(m, task.root, v);
  }

  lemma FaultAllowed(m: Mem, tasks: map<nat, Task>, step: Step)
    requires MInv(m) && TasksOk(m, tasks) && step.Fault?
    ensures Allowed(SpacesOf(m, tasks), step,
              if step.pid in tasks
                 && var f := Lookup(tasks[step.pid].areas, step.page);
                    f.Some? && f.value.read && (step.write ==> f.value.write) && (step.exec ==> f.value.exec)
              then Done else Refused)
  {
    hide MInv;
    hide Content;
    hide Lookup;
    if step.pid in tasks { SpaceAt(m, tasks, step.pid, step.page); }
  }

  lemma ForkAnswered(m: Mem, tasks: map<nat, Task>, step: Step)
    requires step.Fork?
    ensures var s, done := SpacesOf(m, tasks), step.parent in tasks && step.child !in tasks;
            && (done ==> step.parent in s && Next(s, step, Done) == s[step.child := s[step.parent]])
            && Allowed(s, step, if done then Done else Refused)
  {
    hide SpaceOf;
  }

  lemma FaultKept(m: Mem, m': Mem, tasks: map<nat, Task>)
    requires Kept(m, m', tasks)
    ensures TasksOk(m', tasks) && SpacesOf(m', tasks) == SpacesOf(m, tasks)
  {
    KeptSpaces(m, m', tasks);
  }
}
