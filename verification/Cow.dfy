/** What fork, page faults and user accesses keep true of the page tables of all tasks:
    a writable page is private, and a page shared by fork looks the same to everyone. */
module Cow {
  import opened Common
  import opened Orders
  import opened Paging
  import opened Effects
  import opened Callbacks
  import opened Memory
  import opened Areas

  // ---- Views and translations ---------------------------------------------------------------

  /** What a task reads in page v: untouched pages read as zero. */
  ghost function Content(m: Mem, q: nat, v: nat): Bytes {
    match View(m, q, v)
    case None => ZeroPage()
    case Some(p) => p.bytes
  }

  lemma ViewSpot(m: Mem, q: nat, v: nat)
    requires MInv(m) && IsRoot(m, q) && v < Span(5)
    ensures var s := Find(m.tb, q, 4, v);
            if s.None? then View(m, q, v).None?
            else s.value.frame < |m.data| && View(m, q, v) == Some(PageView(m.data[s.value.frame], s.value.perm))
  {
    assert TableOk(m, q);
    if Find(m.tb, q, 4, v).Some? {
      var x, i := SpotBlock(m, q, v);
      hide MInv;
      LeafView(m, x, i, v);
    }
  }

  /** A walk in one address space changes no translation of another. */
  lemma OtherFind(op: Op, m: Mem, m': Mem, t: nat, lo: nat, hi: nat, q: nat, v: nat)
    requires MInv(m) && Walked(op, m, m', t, lo, hi) && IsRoot(m, q) && q != m.home[t].root && v < Span(5)
    ensures Find(m'.tb, q, 4, v) == Find(m.tb, q, 4, v)
  {
    hide MInv;
    hide Effect;
    hide Guarded;
    hide Pruned;
    hide Find;
    assert SameFor(m, m'.tb, q, v);
    FindFrame(m, m'.tb, q, v);
  }

  /** All pages of a 2M page are translated by its entry. */
  lemma HugeSlot(m: Mem, q: nat, v: nat, w: nat)
    requires MInv(m) && IsRoot(m, q) && v < Span(5) && w - w % 512 == v - v % 512
    requires Find(m.tb, q, 4, v).Some? && Find(m.tb, q, 4, v).value.huge
    ensures w < Span(5) && Find(m.tb, q, 4, w).Some?
    ensures var s := Find(m.tb, q, 4, v).value;
            Find(m.tb, q, 4, w).value == Spot(s.block + w % 512, s.perm, s.block, true)
  {
    assert TableOk(m, q);
    var x, i := SpotBlock(m, q, v);
    assert TableOk(m, x);
    hide MInv;
    hide Find;
    HugeCovers(m, x, i, v, w);
    LeafTranslates(m, x, i, w);
  }

  lemma HugeCovers(m: Mem, x: nat, i: nat, v: nat, w: nat)
    requires x in m.home && m.home[x].level == 2 && m.home[x].base % Span(3) == 0 && m.home[x].base + Span(3) <= Span(5)
    requires i < 512 && SlotCovers(m, x, i, v) && w - w % 512 == v - v % 512
    ensures SlotCovers(m, x, i, w) && w < Span(5)
  {
    var b := m.home[x].base + i * 512;
    ChildCovers(2, m.home[x].base, i, v);
    SameRun(b, v, w);
    ChildCovers(2, m.home[x].base, i, w);
  }

  lemma SameRun(b: nat, v: nat, w: nat)
    requires b % 512 == 0 && b <= v < b + 512 && w - w % 512 == v - v % 512
    ensures b <= w < b + 512 && b == v - v % 512
  {
  }

  lemma LeafTranslates(m: Mem, t: nat, i: nat, v: nat)
    requires MInv(m) && t in m.tb && i < 512 && m.tb[t][i].present && !IsTable(m.home[t].level, m.tb[t][i])
             && SlotCovers(m, t, i, v)
    ensures var e, k := m.tb[t][i], m.home[t].level;
            Find(m.tb, m.home[t].root, 4, v) ==
                Some(Spot(if k == 2 then e.frame + v % 512 else e.frame, e.perm, e.frame, k == 2))
  {
    FindPath(m, t, v);
  }

  // ---- Pages of a task ------------------------------------------------------------------------

  datatype Task = Task(root: nat, areas: seq<Area>)

  /** A mapped page lies in a readable VMA and is open to the user; it can be executed exactly if the
      VMA can, and if it can be written without a fault, it cannot be executed and no other entry
      refers to its block. */
  ghost predicate MappedOk(m: Mem, task: Task, v: nat) {
    match Find(m.tb, task.root, 4, v)
    case None => true
    case Some(s) =>
      && Lookup(task.areas, v).Some? && Lookup(task.areas, v).value.read
      && s.perm.user && (s.perm.noExec <==> !Lookup(task.areas, v).value.exec)
      && (s.perm.write ==> s.perm.noExec && Private(m, task.root, v)) && |Content(m, task.root, v)| == 4096
  }

  ghost predicate TaskOk(m: Mem, task: Task) {
    && IsRoot(m, task.root) && AreasOk(task.areas)
    && forall v: nat {:trigger MappedOk(m, task, v)} :: v < Span(5) ==> MappedOk(m, task, v)
  }

  ghost predicate SameContent(m: Mem, m': Mem, q: nat) {
    forall v: nat {:trigger Content(m', q, v)} :: v < Span(5) ==> Content(m', q, v) == Content(m, q, v)
  }

  ghost function PermOf(flags: Flags): Perm { Perm(flags.write, true, !flags.exec) }

  // ---- Page faults ------------------------------------------------------------------------------

  lemma StepFacts(op: Op, m: Mem, m': Mem, t: nat, lo: nat, hi: nat, q: nat, v: nat)
    requires MInv(m) && Walked(op, m, m', t, lo, hi) && IsRoot(m, q) && v < Span(5)
    ensures MInv(m') && IsRoot(m', q) && t in m.home
    ensures var a, a' := Find(m.tb, q, 4, v), Find(m'.tb, q, 4, v);
            && Guard(op, Inside(m.home[t].root, lo, hi, q, v), m, m', q, v)
            && (Renews(op, m, m', q, v) ==> Near(m.home[t].root, lo, hi, q, v))
            && Rel(op, Inside(m.home[t].root, lo, hi, q, v), v, View(m, q, v), View(m', q, v))
            && (if a.None? then View(m, q, v).None?
                else View(m, q, v).Some? && View(m, q, v).value.perm == a.value.perm)
            && (if a'.None? then View(m', q, v).None?
                else View(m', q, v).Some? && View(m', q, v).value.perm == a'.value.perm)
  {
    hide MInv;
    hide View;
    hide Find;
    hide Guard;
    var p := Private(m', q, v);
    assert IsRoot(m', q);
    ViewSpot(m, q, v);
    ViewSpot(m', q, v);
  }

  /** A shared 2M page is renewed with the PAGE_NO_EXEC that it had: its pages had the same. */
  lemma RenewsAlike(m: Mem, m': Mem, task: Task, lo: nat, hi: nat, flags: Flags, v: nat)
    requires MInv(m) && TaskOk(m, task) && v < Span(5) && !(lo <= v < hi)
    requires forall w :: lo <= w < hi ==> Lookup(task.areas, w) == Some(flags)
    requires SharedHuge(m, task.root, v) && Near(task.root, lo, hi, task.root, v)
    ensures Find(m.tb, task.root, 4, v).value.perm.noExec <==> !flags.exec
  {
    hide MInv;
    hide Find;
    hide Lookup;
    var b := v - v % 512;
    var w := if lo < b then b else lo;
    SlotMod(b, w);
    HugeSlot(m, task.root, v, w);
    assert MappedOk(m, task, w);
  }

  lemma SlotMod(b: nat, w: nat)
    requires b % 512 == 0 && b <= w < b + 512
    ensures w - w % 512 == b
  {
  }

  /** populate_region inside a VMA. */
  lemma PopulatePage(m: Mem, m': Mem, task: Task, r: nat, lo: nat, hi: nat, flags: Flags, v: nat)
    requires MInv(m) && TaskOk(m, task) && IsRoot(m, r) && Walked(Populate(PermOf(flags)), m, m', r, lo, hi)
    requires m.home[r].root == r && v < Span(5)
    requires task.root == r ==>
               flags.read && FlagsOk(flags) && forall w :: lo <= w < hi ==> Lookup(task.areas, w) == Some(flags)
    ensures MappedOk(m', task, v) && Content(m', task.root, v) == Content(m, task.root, v)
  {
    hide MInv;
    hide WalkedBut;
    hide Find;
    hide View;
    StepFacts(Populate(PermOf(flags)), m, m', r, lo, hi, task.root, v);
    assert MappedOk(m, task, v);
    if task.root == r && !(lo <= v < hi) && Renews(Populate(PermOf(flags)), m, m', r, v) {
      RenewsAlike(m, m', task, lo, hi, flags, v);
    }
  }

  /** protect_region, and fork's clearing of PAGE_WRITE. */
  lemma ProtectPage(m: Mem, m': Mem, task: Task, t: nat, lo: nat, hi: nat, perm: Perm, v: nat)
    requires MInv(m) && TaskOk(m, task) && Walked(Protect(perm), m, m', t, lo, hi) && t in m.home && v < Span(5)
    requires task.root == m.home[t].root ==> perm.user && (perm.write ==> perm.noExec)
    requires perm.write && Inside(m.home[t].root, lo, hi, task.root, v) ==> Private(m, task.root, v)
    requires Inside(m.home[t].root, lo, hi, task.root, v) && Lookup(task.areas, v).Some? ==>
               (perm.noExec <==> !Lookup(task.areas, v).value.exec)
    ensures MappedOk(m', task, v) && Content(m', task.root, v) == Content(m, task.root, v)
  {
    hide MInv;
    hide WalkedBut;
    hide Find;
    hide View;
    StepFacts(Protect(perm), m, m', t, lo, hi, task.root, v);
    assert MappedOk(m, task, v);
  }

  /** unmap_page_range under VMAs that are taken away. */
  lemma RemovePage(m: Mem, m': Mem, task: Task, areas': seq<Area>, r: nat, lo: nat, hi: nat, v: nat)
    requires MInv(m) && TaskOk(m, task) && IsRoot(m, r) && Walked(Remove, m, m', r, lo, hi)
    requires m.home[r].root == r && v < Span(5)
    requires Lookup(areas', v) == Lookup(task.areas, v) || Inside(r, lo, hi, task.root, v)
    ensures MappedOk(m', task.(areas := areas'), v)
    ensures !Inside(r, lo, hi, task.root, v) ==> Content(m', task.root, v) == Content(m, task.root, v)
  {
    hide MInv;
    hide WalkedBut;
    hide Find;
    hide View;
    StepFacts(Remove, m, m', r, lo, hi, task.root, v);
    assert MappedOk(m, task, v);
  }

  // ---- Entries and the permissions of VMAs ------------------------------------------------------

  predicate Writable(areas: seq<Area>, v: nat) { Lookup(areas, v).Some? && Lookup(areas, v).value.write }

  ghost predicate FitsAt(m: Mem, task: Task, v: nat) {
    var s := Find(m.tb, task.root, 4, v);
    s.Some? && s.value.perm.write ==> Writable(task.areas, v)
  }

  /** What the task can write without a fault lies in writable VMAs. */
  ghost predicate Fits(m: Mem, task: Task) {
    forall v: nat {:trigger FitsAt(m, task, v)} :: v < Span(5) ==> FitsAt(m, task, v)
  }

  /** A fault at page v makes the whole of a shared 2M page writable, with pages of a VMA that is not. */
  ghost predicate Spills(m: Mem, task: Task, v: nat) {
    && SharedHuge(m, task.root, v) && Writable(task.areas, v)
    && exists w: nat :: w - w % 512 == v - v % 512 && !Writable(task.areas, w)
  }

  /** All of the 2M around page v are in the VMA, so that a fault takes a 2M block. */
  predicate Has2M(a: Area, v: nat) { a.base <= v - v % 512 && v - v % 512 + 512 <= a.end }

  /** A fault at page v may take a 2M block: for a shared one, or for 2M of the VMA. */
  ghost predicate Needs2M(m: Mem, task: Task, v: nat) {
    SharedHuge(m, task.root, v) || (AreaAt(task.areas, v).Some? && Has2M(AreaAt(task.areas, v).value, v))
  }

  lemma SharedSlot(m: Mem, q: nat, v: nat, w: nat)
    requires MInv(m) && IsRoot(m, q) && v < Span(5) && w - w % 512 == v - v % 512 && SharedHuge(m, q, v)
    ensures w < Span(5) && SharedHuge(m, q, w)
  {
    hide MInv;
    hide Find;
    HugeSlot(m, q, v, w);
  }

  /** populate_region of pages in one 2M of a VMA, seen from page w of the task. */
  lemma PopulateFitsAt(m: Mem, m': Mem, task: Task, lo: nat, hi: nat, flags: Flags, v: nat, w: nat)
    requires Faulting(m, m', task, lo, hi, flags, v) && FitsAt(m, task, w) && w < Span(5) && !Spills(m, task, v)
    ensures FitsAt(m', task, w)
  {
    hide MInv;
    hide WalkedBut;
    hide Find;
    hide View;
    hide Private;
    StepFacts(Populate(PermOf(flags)), m, m', task.root, lo, hi, task.root, w);
    assert Lookup(task.areas, v) == Some(flags);
    if !(lo <= w < hi) && Renews(Populate(PermOf(flags)), m, m', task.root, w) {
      NearSlot(lo, hi, v, w);
      SharedSlot(m, task.root, w, v);
    }
  }

  ghost predicate Faulting(m: Mem, m': Mem, task: Task, lo: nat, hi: nat, flags: Flags, v: nat) {
    && MInv(m) && IsRoot(m, task.root) && m.home[task.root].root == task.root
    && v - v % 512 <= lo <= v < hi <= v - v % 512 + 512 && hi <= Span(5)
    && (forall x :: lo <= x < hi ==> Lookup(task.areas, x) == Some(flags))
    && Walked(Populate(PermOf(flags)), m, m', task.root, lo, hi)
    && Renewed(Populate(PermOf(flags)), m, m', task.root, lo, hi)
  }

  lemma NearSlot(lo: nat, hi: nat, v: nat, w: nat)
    requires v - v % 512 <= lo < hi <= v - v % 512 + 512 && w - w % 512 < hi && lo < w - w % 512 + 512
    ensures w - w % 512 == v - v % 512
  {
  }

  lemma SlotStart(lo: nat, v: nat)
    requires v - v % 512 <= lo <= v
    ensures lo - lo % 512 == v - v % 512
  {
  }

  /** The page that a fault at v makes writable against the permissions of its VMA. */
  lemma SpilledPage(m: Mem, m': Mem, task: Task, lo: nat, hi: nat, flags: Flags, v: nat) returns (w: nat)
    requires Faulting(m, m', task, lo, hi, flags, v) && Spills(m, task, v)
    ensures w < Span(5) && w != v && !FitsAt(m', task, w)
  {
    hide MInv;
    hide WalkedBut;
    hide Find;
    hide View;
    hide Private;
    assert Lookup(task.areas, v) == Some(flags);
    w :| w - w % 512 == v - v % 512 && !Writable(task.areas, w);
    SharedSlot(m, task.root, v, w);
    SlotStart(lo, v);
    SharedSlot(m, task.root, v, lo);
    var s := Find(m'.tb, task.root, 4, w);
  }

  /** protect_region of page v with the permissions of its VMA. */
  lemma ProtectFitsAt(m: Mem, m': Mem, task: Task, flags: Flags, v: nat, w: nat)
    requires MInv(m) && IsRoot(m, task.root) && m.home[task.root].root == task.root && v < Span(5) && w < Span(5)
    requires Lookup(task.areas, v) == Some(flags) && Walked(Protect(PermOf(flags)), m, m', task.root, v, v + 1)
    ensures if w == v then FitsAt(m', task, w) else FitsAt(m', task, w) <==> FitsAt(m, task, w)
  {
    hide MInv;
    hide WalkedBut;
    hide Find;
    hide View;
    hide Private;
    StepFacts(Protect(PermOf(flags)), m, m', task.root, v, v + 1, task.root, w);
  }

  /** After a fault in a shared 2M page all its pages have the permissions of the faulting VMA. */
  lemma FaultRenews(m: Mem, m1: Mem, m2: Mem, task: Task, lo: nat, hi: nat, flags: Flags, v: nat)
    requires Faulting(m, m1, task, lo, hi, flags, v)
    requires MInv(m1) && IsRoot(m1, task.root) && m1.home[task.root].root == task.root
    requires Walked(Protect(PermOf(flags)), m1, m2, task.root, v, v + 1)
    ensures Renewed(Populate(PermOf(flags)), m, m2, task.root, v, v + 1)
  {
    hide MInv;
    hide WalkedBut;
    hide Find;
    hide View;
    hide Private;
    if SharedHuge(m, task.root, v) {
      SlotStart(lo, v);
      SharedSlot(m, task.root, v, lo);
      forall w: nat | w - w % 512 == v - v % 512
        ensures Find(m2.tb, task.root, 4, w).Some? && Find(m2.tb, task.root, 4, w).value.perm == PermOf(flags)
      {
        SharedSlot(m, task.root, v, w);
        var s := Find(m1.tb, task.root, 4, w);
        StepFacts(Protect(PermOf(flags)), m1, m2, task.root, v, v + 1, task.root, w);
      }
    }
  }

  /** A page fault keeps the entries within the permissions of the VMAs, except when it renews a
      shared 2M page that reaches into a VMA without write permission. */
  lemma FaultFits(m: Mem, m1: Mem, m2: Mem, task: Task, lo: nat, hi: nat, flags: Flags, v: nat)
    requires Faulting(m, m1, task, lo, hi, flags, v) && Fits(m, task)
    requires MInv(m1) && IsRoot(m1, task.root) && m1.home[task.root].root == task.root
    requires Walked(Protect(PermOf(flags)), m1, m2, task.root, v, v + 1)
    ensures Fits(m2, task) <==> !Spills(m, task, v)
  {
    hide MInv;
    hide WalkedBut;
    hide Renewed;
    hide FitsAt;
    assert Lookup(task.areas, v) == Some(flags);
    hide Lookup;
    if Spills(m, task, v) {
      var w := SpilledPage(m, m1, task, lo, hi, flags, v);
      ProtectFitsAt(m1, m2, task, flags, v, w);
    } else {
      hide Spills;
      forall w: nat | w < Span(5) ensures FitsAt(m2, task, w) {
        PopulateFitsAt(m, m1, task, lo, hi, flags, v, w);
        ProtectFitsAt(m1, m2, task, flags, v, w);
      }
    }
  }

  /** A walk in another address space. */
  lemma OtherFits(op: Op, m: Mem, m': Mem, t: nat, lo: nat, hi: nat, task: Task)
    requires MInv(m) && Walked(op, m, m', t, lo, hi) && IsRoot(m, task.root) && task.root != m.home[t].root
    ensures Fits(m', task) <==> Fits(m, task)
  {
    hide MInv;
    hide WalkedBut;
    hide Find;
    forall v: nat | v < Span(5) ensures FitsAt(m', task, v) <==> FitsAt(m, task, v) {
      OtherFind(op, m, m', t, lo, hi, task.root, v);
    }
    if Fits(m', task) {
      forall v: nat | v < Span(5) ensures FitsAt(m, task, v) { assert FitsAt(m', task, v); }
    }
  }

  /** Unmapping, and clearing PAGE_WRITE, make nothing writable; VMAs may go where pages went. */
  lemma LessFits(op: Op, m: Mem, m': Mem, t: nat, lo: nat, hi: nat, task: Task, areas': seq<Area>)
    requires MInv(m) && Walked(op, m, m', t, lo, hi) && IsRoot(m, task.root) && Fits(m, task) && t in m.home
    requires op.Remove? || (op.Protect? && !op.perm.write)
    requires forall v: nat {:trigger Lookup(areas', v)} :: Lookup(areas', v) == Lookup(task.areas, v)
               || (op.Remove? && Inside(m.home[t].root, lo, hi, task.root, v))
    ensures Fits(m', task.(areas := areas'))
  {
    hide MInv;
    hide WalkedBut;
    hide Find;
    hide View;
    hide Private;
    hide Lookup;
    forall v: nat | v < Span(5) ensures FitsAt(m', task.(areas := areas'), v) {
      StepFacts(op, m, m', t, lo, hi, task.root, v);
      assert FitsAt(m, task, v);
    }
  }

  // ---- Pages that are not shared ------------------------------------------------------------------

  /** Address space q shares none of its pages. */
  ghost predicate Alone(m: Mem, q: nat) {
    forall v: nat {:trigger Private(m, q, v)} :: v < Span(5) && Find(m.tb, q, 4, v).Some? ==> Private(m, q, v)
  }

  /** Only page_insert shares a page, and only the page that it inserts. */
  lemma WalkAlone(op: Op, m: Mem, m': Mem, t: nat, lo: nat, hi: nat, q: nat)
    requires MInv(m) && Walked(op, m, m', t, lo, hi) && IsRoot(m, q) && t in m.home && Alone(m, q)
    requires op.Insert? ==>
               && q != m.home[t].root
               && forall v: nat {:trigger Find(m.tb, q, 4, v)} :: v < Span(5) && Find(m.tb, q, 4, v).Some? ==>
                    Find(m.tb, q, 4, v).value.block != op.frame
    ensures Alone(m', q)
  {
    hide MInv;
    hide WalkedBut;
    hide Find;
    hide View;
    hide Private;
    forall v: nat | v < Span(5) && Find(m'.tb, q, 4, v).Some? ensures Private(m', q, v) {
      StepFacts(op, m, m', t, lo, hi, q, v);
      var p := Private(m, q, v);
    }
  }

  /** The block behind an entry of another address space. */
  lemma AloneBlock(m: Mem, q: nat, t: nat, i: nat, v: nat)
    requires MInv(m) && IsRoot(m, q) && Alone(m, q) && v < Span(5) && Find(m.tb, q, 4, v).Some?
    requires t in m.tb && i < 512 && m.tb[t][i].present && m.home[t].root != q
    ensures Find(m.tb, q, 4, v).value.block != m.tb[t][i].frame
  {
    assert TableOk(m, q);
    var x, j := SpotBlock(m, q, v);
    assert Private(m, q, v);
    if Find(m.tb, q, 4, v).value.block == m.tb[t][i].frame {
      TwoEntries(m, t, i, x, j);
      assert false;
    }
  }

  lemma AloneNoShared(m: Mem, q: nat, v: nat)
    requires Alone(m, q) && v < Span(5)
    ensures !SharedHuge(m, q, v)
  {
  }

  // ---- Fork -----------------------------------------------------------------------------------

  /** task_setup_vas changes nothing for the other tasks. */
  lemma OpenPage(m: Mem, m': Mem, r: nat, task: Task, v: nat)
    requires MInv(m) && MInv(m') && TaskOk(m, task) && Opened(m, m', r) && v < Span(5)
    ensures MappedOk(m', task, v) && Content(m', task.root, v) == Content(m, task.root, v)
  {
    hide MInv;
    hide Find;
    hide View;
    var p, x := Private(m', task.root, v), View(m', task.root, v);
    assert MappedOk(m, task, v);
  }

  /** An entry without PAGE_WRITE: nobody can write its block. */
  lemma SharedNotWritable(m: Mem, t: nat, i: nat, task: Task, v: nat)
    requires MInv(m) && t in m.tb && i < 512 && m.tb[t][i].present && !IsTable(m.home[t].level, m.tb[t][i])
             && !m.tb[t][i].perm.write
    requires TaskOk(m, task) && v < Span(5) && Find(m.tb, task.root, 4, v).Some?
    requires Find(m.tb, task.root, 4, v).value.block == m.tb[t][i].frame
    ensures !Find(m.tb, task.root, 4, v).value.perm.write
  {
    assert MappedOk(m, task, v);
    assert TableOk(m, task.root);
    var x, j := SpotBlock(m, task.root, v);
    hide MappedOk;
    hide TaskOk;
    if (x, j) != (t, i) {
      TwoEntries(m, t, i, x, j);
      assert !Private(m, task.root, v);
      NotPrivate(m, task, v);
    }
  }

  lemma NotPrivate(m: Mem, task: Task, v: nat)
    requires MappedOk(m, task, v) && !Private(m, task.root, v) && Find(m.tb, task.root, 4, v).Some?
    ensures !Find(m.tb, task.root, 4, v).value.perm.write
  {
  }

  lemma TwoEntries(m: Mem, t: nat, i: nat, x: nat, j: nat)
    requires MInv(m) && t in m.tb && i < 512 && x in m.tb && j < 512 && (t, i) != (x, j)
    requires m.tb[t][i].present && m.tb[x][j].present && m.tb[t][i].frame == m.tb[x][j].frame
    requires m.tb[t][i].frame in m.own
    ensures m.own[m.tb[t][i].frame].ref >= 2
  {
    var f := m.tb[t][i].frame;
    assert RefOk(m, f);
    assert {(t, i), (x, j)} <= Refs(m.tb, f);
    SubsetSize({(t, i), (x, j)}, Refs(m.tb, f));
  }

  /** page_insert of a page that nobody can write, into another address space. */
  lemma InsertPage(op: Op, m: Mem, m': Mem, task: Task, c: nat, lo: nat, hi: nat, v: nat)
    requires MInv(m) && TaskOk(m, task) && IsRoot(m, c) && m.home[c].root == c && op.Insert?
             && Walked(op, m, m', c, lo, hi)
    requires task.root != c && v < Span(5)
    requires Find(m.tb, task.root, 4, v).Some? && Find(m.tb, task.root, 4, v).value.block == op.frame ==>
               !Find(m.tb, task.root, 4, v).value.perm.write
    ensures MappedOk(m', task, v) && Content(m', task.root, v) == Content(m, task.root, v)
  {
    hide MInv;
    hide WalkedBut;
    hide Find;
    hide View;
    StepFacts(op, m, m', c, lo, hi, task.root, v);
    assert MappedOk(m, task, v);
  }

  /** The address at which fork's loop over the pages of the VMAs copies page v. */
  ghost function Key(m: Mem, q: nat, v: nat): nat {
    match Find(m.tb, q, 4, v)
    case None => v
    case Some(s) => if s.huge then v - v % 512 else v
  }

  /** Fork has got to page cur: child c has what parent p has mapped before cur, with 2M pages
      copied as a whole, and neither can write it. */
  ghost predicate Copying(m: Mem, p: nat, c: nat, cur: nat) {
    forall v: nat {:trigger View(m, c, v)} :: v < Span(5) ==> CopyingAt(m, p, c, cur, v)
  }

  ghost predicate CopyingAt(m: Mem, p: nat, c: nat, cur: nat, v: nat) {
    if View(m, p, v).Some? && Key(m, p, v) < cur then View(m, c, v) == View(m, p, v) && !View(m, p, v).value.perm.write
    else View(m, c, v).None?
  }

  /** The page fork copies v with is mapped. */
  lemma KeyMapped(m: Mem, q: nat, v: nat)
    requires MInv(m) && IsRoot(m, q) && v < Span(5) && View(m, q, v).Some?
    ensures Key(m, q, v) <= v && View(m, q, Key(m, q, v)).Some? && Key(m, q, Key(m, q, v)) == Key(m, q, v)
  {
    hide MInv;
    hide View;
    hide Find;
    ViewSpot(m, q, v);
    var k := Key(m, q, v);
    if Find(m.tb, q, 4, v).value.huge {
      HugeSlot(m, q, v, k);
      ViewSpot(m, q, k);
    }
  }

  /** No mapped page from cur to next: fork's loop has nothing to copy there. */
  lemma CopyingSkip(m: Mem, p: nat, c: nat, cur: nat, next: nat)
    requires MInv(m) && IsRoot(m, p) && Copying(m, p, c, cur) && cur <= next
    requires forall v :: cur <= v < next && v < Span(5) ==> View(m, p, v).None?
    ensures Copying(m, p, c, next)
  {
    hide MInv;
    hide View;
    hide Find;
    hide Key;
    forall v: nat | v < Span(5) ensures CopyingAt(m, p, c, next, v) {
      assert CopyingAt(m, p, c, cur, v) by { var x := View(m, c, v); }
      if View(m, p, v).Some? { KeyMapped(m, p, v); }
    }
  }

  /** Entry (t, i) maps page va of address space p. */
  ghost predicate Maps(m: Mem, p: nat, t: nat, i: nat, va: nat) {
    && MInv(m) && t in m.tb && i < 512 && m.home[t].root == p && SlotCovers(m, t, i, va)
    && m.tb[t][i].present && !IsTable(m.home[t].level, m.tb[t][i])
  }

  ghost predicate SlotOf(m: Mem, t: nat, i: nat, va: nat, lo: nat, hi: nat) {
    && WholeSlot(m, t, i, lo, hi) && lo <= va < hi && m.home[t].level <= 2
    && (if m.home[t].level == 2 then lo == va - va % 512 && hi == lo + 512 else lo == va && hi == va + 1)
  }

  lemma SlotRange(m: Mem, p: nat, t: nat, i: nat, va: nat) returns (lo: nat, hi: nat)
    requires Maps(m, p, t, i, va)
    ensures SlotOf(m, t, i, va, lo, hi)
  {
    assert TableOk(m, t);
    hide MInv;
    lo := m.home[t].base + i * Span(m.home[t].level);
    hi := lo + Span(m.home[t].level);
    ChildCovers(m.home[t].level, m.home[t].base, i, va);
    assert (i + 1) * Span(m.home[t].level) == i * Span(m.home[t].level) + Span(m.home[t].level);
    if m.home[t].level == 2 { SameRun(lo, va, va); }
  }

  function ReadOnly(e: Pte): Pte { e.(perm := e.perm.(write := false)) }

  /** The entry's own page, and how fork reaches it. */
  lemma MapsFacts(m: Mem, p: nat, t: nat, i: nat, va: nat, lo: nat, hi: nat, v: nat)
    requires Maps(m, p, t, i, va) && SlotOf(m, t, i, va, lo, hi) && lo <= v < hi
    ensures var e, k := m.tb[t][i], m.home[t].level;
            && Find(m.tb, p, 4, v) == Some(Spot(if k == 2 then e.frame + v % 512 else e.frame, e.perm, e.frame, k == 2))
            && Key(m, p, v) == lo
  {
    hide MInv;
    hide Find;
    WholeSlotCovers(m, t, i, lo, hi, v);
    LeafTranslates(m, t, i, v);
  }

  lemma ReadOnlyFind(m: Mem, p: nat, t: nat, i: nat, va: nat, lo: nat, hi: nat, v: nat)
    requires Maps(m, p, t, i, va) && SlotOf(m, t, i, va, lo, hi) && IsRoot(m, p) && v < Span(5)
    ensures var a, a' := Find(m.tb, p, 4, v), Find(SetEntry(m.tb, t, i, ReadOnly(m.tb[t][i])), p, 4, v);
            a' == if lo <= v < hi && a.Some? then Some(a.value.(perm := a.value.perm.(write := false))) else a
  {
    hide MInv;
    hide Find;
    ShapedOf(m);
    ProtectLeaf(m, t, i, ReadOnly(m.tb[t][i]).perm, lo, hi);
    SwapFind(m, t, i, ReadOnly(m.tb[t][i]), p, v);
    WholeSlotCovers(m, t, i, lo, hi, v);
    if lo <= v < hi { MapsFacts(m, p, t, i, va, lo, hi, v); }
  }

  /** Clearing PAGE_WRITE in the parent's entry does not disturb what is copied already. */
  lemma CopyingProtect(m: Mem, m1: Mem, p: nat, c: nat, t: nat, i: nat, va: nat, lo: nat, hi: nat)
    requires Maps(m, p, t, i, va) && SlotOf(m, t, i, va, lo, hi) && IsRoot(m, p) && IsRoot(m, c) && p != c
    requires m1 == Swap(m, t, i, ReadOnly(m.tb[t][i])) && Copying(m, p, c, va)
    ensures Copying(m1, p, c, va) && Maps(m1, p, t, i, va) && SlotOf(m1, t, i, va, lo, hi)
            && m1.tb[t][i] == ReadOnly(m.tb[t][i])
  {
    hide MInv;
    hide View;
    hide Find;
    hide WalkedBut;
    ShapedOf(m);
    var perm := ReadOnly(m.tb[t][i]).perm;
    ProtectLeaf(m, t, i, perm, lo, hi);
    WalkedInv(Protect(perm), m, m1, t, lo, hi);
    forall v: nat | v < Span(5) ensures CopyingAt(m1, p, c, va, v) {
      CopyingProtectAt(m, m1, p, c, t, i, va, lo, hi, v);
    }
  }

  lemma CopyingProtectAt(m: Mem, m1: Mem, p: nat, c: nat, t: nat, i: nat, va: nat, lo: nat, hi: nat, v: nat)
    requires Maps(m, p, t, i, va) && SlotOf(m, t, i, va, lo, hi) && IsRoot(m, p) && IsRoot(m, c) && p != c
             && v < Span(5)
    requires m1 == Swap(m, t, i, ReadOnly(m.tb[t][i])) && Walked(Protect(ReadOnly(m.tb[t][i]).perm), m, m1, t, lo, hi)
    requires Copying(m, p, c, va)
    ensures CopyingAt(m1, p, c, va, v)
  {
    hide MInv;
    hide View;
    hide Find;
    hide WalkedBut;
    ShapedOf(m);
    var perm := ReadOnly(m.tb[t][i]).perm;
    assert CopyingAt(m, p, c, va, v) by { var x := View(m, c, v); }
    StepFacts(Protect(perm), m, m1, t, lo, hi, p, v);
    StepFacts(Protect(perm), m, m1, t, lo, hi, c, v);
    ReadOnlyFind(m, p, t, i, va, lo, hi, v);
    assert Key(m1, p, v) == Key(m, p, v);
    if lo <= v < hi { MapsFacts(m, p, t, i, va, lo, hi, v); }
  }

  /** A page inside a 2M page came with its first page. */
  lemma CopyingInside(m: Mem, p: nat, c: nat, t: nat, i: nat, va: nat, lo: nat, hi: nat)
    requires Maps(m, p, t, i, va) && SlotOf(m, t, i, va, lo, hi) && IsRoot(m, p) && lo < va && Copying(m, p, c, va)
    ensures Copying(m, p, c, va + 1)
  {
    hide MInv;
    hide View;
    hide Find;
    hide Key;
    MapsFacts(m, p, t, i, va, lo, hi, va);
    var next := va + 1;
    forall v: nat | v < Span(5) ensures CopyingAt(m, p, c, next, v) {
      assert CopyingAt(m, p, c, va, v) by { var x := View(m, c, v); }
      if View(m, p, v).Some? { KeyMapped(m, p, v); }
    }
  }

  /** page_insert of the parent's page into the child. */
  lemma CopyingInsert(m: Mem, m': Mem, p: nat, c: nat, t: nat, i: nat, va: nat, hi: nat, op: Op)
    requires Maps(m, p, t, i, va) && SlotOf(m, t, i, va, va, hi) && IsRoot(m, p) && IsRoot(m, c) && p != c
             && m.home[c].root == c
    requires !m.tb[t][i].perm.write && Copying(m, p, c, va)
    requires op.Insert? && op.frame == m.tb[t][i].frame && op.perm == m.tb[t][i].perm && op.first == va
    requires op.frame + (hi - va) <= |m.data| && op.bytes == m.data[op.frame..op.frame + (hi - va)]
    requires Walked(op, m, m', c, va, hi)
    ensures Copying(m', p, c, va + 1)
  {
    hide MInv;
    hide View;
    hide Find;
    hide WalkedBut;
    var next := va + 1;
    forall v: nat | v < Span(5) ensures CopyingAt(m', p, c, next, v) {
      CopyingInsertAt(m, m', p, c, t, i, va, hi, op, v);
    }
  }

  lemma CopyingInsertAt(m: Mem, m': Mem, p: nat, c: nat, t: nat, i: nat, va: nat, hi: nat, op: Op, v: nat)
    requires Maps(m, p, t, i, va) && SlotOf(m, t, i, va, va, hi) && IsRoot(m, p) && IsRoot(m, c) && p != c
             && m.home[c].root == c
    requires !m.tb[t][i].perm.write && Copying(m, p, c, va) && v < Span(5)
    requires op.Insert? && op.frame == m.tb[t][i].frame && op.perm == m.tb[t][i].perm && op.first == va
    requires op.frame + (hi - va) <= |m.data| && op.bytes == m.data[op.frame..op.frame + (hi - va)]
    requires Walked(op, m, m', c, va, hi)
    ensures CopyingAt(m', p, c, va + 1, v)
  {
    hide MInv;
    hide View;
    hide Find;
    hide WalkedBut;
    assert CopyingAt(m, p, c, va, v) by { var x := View(m, c, v); }
    StepFacts(op, m, m', c, va, hi, p, v);
    StepFacts(op, m, m', c, va, hi, c, v);
    OtherFind(op, m, m', c, va, hi, p, v);
    assert Key(m', p, v) == Key(m, p, v);
    if va <= v < hi {
      MapsFacts(m, p, t, i, va, va, hi, v);
      ViewSpot(m, p, v);
      assert m.home[t].level == 2 ==> v % 512 == v - va;
    } else if View(m, p, v).Some? && Key(m, p, v) == va {
      ViewSpot(m, p, v);
      HugeAround(m, p, t, i, va, hi, v);
      assert false;
    }
  }

  lemma HugeAround(m: Mem, p: nat, t: nat, i: nat, va: nat, hi: nat, v: nat)
    requires Maps(m, p, t, i, va) && SlotOf(m, t, i, va, va, hi) && IsRoot(m, p) && v < Span(5)
    requires Find(m.tb, p, 4, v).Some? && Key(m, p, v) == va
    ensures va <= v < hi
  {
    hide MInv;
    hide Find;
    if Find(m.tb, p, 4, v).value.huge {
      HugeSlot(m, p, v, va);
      MapsFacts(m, p, t, i, va, va, hi, va);
    }
  }

  // ---- Room for the page in the child ----------------------------------------------------------

  /** The page tables of lowest level in address space c all map something. */
  ghost predicate NoneEmpty(m: Mem, c: nat) {
    forall x {:trigger EmptyTable(m.tb, x)} ::
             x in m.tb && x in m.home && m.home[x].root == c && m.home[x].level == 1 ==>
      !EmptyTable(m.tb, x)
  }

  lemma ProtectNoneEmpty(m: Mem, m': Mem, op: Op, t: nat, lo: nat, hi: nat, c: nat)
    requires Walked(op, m, m', t, lo, hi) && NoneEmpty(m, c) && c != m.home[t].root
    ensures NoneEmpty(m', c)
  {
    hide MInv;
    hide Effect;
    hide Guarded;
    hide Pruned;
    forall x | x in m'.tb && x in m'.home && m'.home[x].root == c && m'.home[x].level == 1
           ensures !EmptyTable(m'.tb, x) {
      assert !EmptyTable(m.tb, x);
    }
  }

  lemma InsertNoneEmpty(m: Mem, m': Mem, op: Op, c: nat, lo: nat, hi: nat)
    requires MInv(m) && op.Insert? && IsRoot(m, c) && m.home[c].root == c && Walked(op, m, m', c, lo, hi)
             && NoneEmpty(m, c)
    ensures NoneEmpty(m', c)
  {
    hide MInv;
    hide Effect;
    hide Guarded;
    hide Pruned;
    forall x | x in m'.tb && x in m'.home && m'.home[x].root == c && m'.home[x].level == 1
           ensures !EmptyTable(m'.tb, x) {
      if Under(m'.home, c, lo, hi, x) {
        var v := if lo <= m'.home[x].base then m'.home[x].base else lo;
        InsertedIn(m, m', op, c, lo, hi, x, v);
      } else {
        assert !EmptyTable(m.tb, x);
      }
    }
  }

  lemma InsertedIn(m: Mem, m': Mem, op: Op, c: nat, lo: nat, hi: nat, x: nat, v: nat)
    requires MInv(m) && op.Insert? && IsRoot(m, c) && m.home[c].root == c && Walked(op, m, m', c, lo, hi)
    requires x in m'.tb && m'.home[x].root == c && m'.home[x].level == 1 && Covers(m'.home[x], v) && lo <= v < hi
    ensures !EmptyTable(m'.tb, x)
  {
    assert TableOk(m', x);
    FindPath(m', x, v);
    hide MInv;
    hide WalkedBut;
    StepFacts(op, m, m', c, lo, hi, c, v);
    assert m'.tb[x][Index(1, v)].present;
  }

  /** Where nothing is mapped, page_insert meets neither a 2M page nor a table in its way. */
  lemma {:induction false} ClearWhereFree(m: Mem, t: nat, va: nat, huge: bool)
    requires MInv(m) && t in m.tb && Covers(m.home[t], va) && m.home[t].level >= 2 && NoneEmpty(m, m.home[t].root)
    requires if huge then va % 512 == 0 && forall w :: va <= w < va + 512 ==> View(m, m.home[t].root, w).None?
             else View(m, m.home[t].root, va).None?
    ensures Clear(m.tb, t, m.home[t].level, va, huge)
    decreases m.home[t].level
  {
    ShapedOf(m);
    var i := Index(m.home[t].level, va);
    if IsTable(m.home[t].level, m.tb[t][i]) {
      SlotOfChild(m, t, i, va);
      if m.home[t].level > 2 {
        ClearWhereFree(m, m.tb[t][i].frame, va, huge);
      } else if huge {
        TableInWay(m, m.tb[t][i].frame, va);
      }
    } else if !huge && m.home[t].level == 2 {
      LeafView(m, t, i, va);
    }
  }

  lemma TableInWay(m: Mem, x: nat, va: nat)
    requires MInv(m) && x in m.tb && m.home[x].level == 1 && NoneEmpty(m, m.home[x].root) && Covers(m.home[x], va)
             && va % 512 == 0
    ensures exists w :: va <= w < va + 512 && View(m, m.home[x].root, w).Some?
  {
    assert TableOk(m, x);
    assert !EmptyTable(m.tb, x);
    hide MInv;
    ShapedOf(m);
    var j :| 0 <= j < 512 && m.tb[x][j].present;
    var w := m.home[x].base + j;
    SameRun(m.home[x].base, va, va);
    ChildCovers(1, m.home[x].base, j, w);
    LeafView(m, x, j, w);
  }

  // ---- User writes ------------------------------------------------------------------------------

  /** The frame of a private page is behind no other page of any address space. */
  lemma PrivateFrame(m: Mem, p: nat, v: nat, q: nat, w: nat)
    requires MInv(m) && IsRoot(m, p) && v < Span(5) && IsRoot(m, q) && w < Span(5) && (p, v) != (q, w)
    requires Private(m, p, v) && Find(m.tb, q, 4, w).Some?
    ensures Find(m.tb, p, 4, v).value.frame != Find(m.tb, q, 4, w).value.frame
  {
    assert TableOk(m, p) && TableOk(m, q);
    var x, i := SpotBlock(m, p, v);
    var y, j := SpotBlock(m, q, w);
    hide Find;
    if m.tb[x][i].frame != m.tb[y][j].frame {
      BlocksApart(m, m.tb[x][i].frame, m.tb[y][j].frame);
      Pow2Huge();
      assert Pow2(0) == 1;
    } else {
      if (x, i) != (y, j) {
        TwoEntries(m, x, i, y, j);
        assert false;
      }
      OneEntry(m, x, i, v, w);
    }
  }

  lemma BlocksApart(m: Mem, f: nat, g: nat)
    requires MInv(m) && f in m.own && g in m.own && f != g
    ensures f + Pow2(m.own[f].order) <= g || g + Pow2(m.own[g].order) <= f
  {
    assert Apart(m.own, f, g) && Apart(m.own, g, f);
  }

  lemma OneEntry(m: Mem, x: nat, i: nat, v: nat, w: nat)
    requires MInv(m) && x in m.tb && i < 512 && m.home[x].level <= 2 && SlotCovers(m, x, i, v)
             && SlotCovers(m, x, i, w) && v != w
    ensures m.home[x].level == 2 && v % 512 != w % 512
  {
    assert TableOk(m, x);
    hide MInv;
    ChildCovers(m.home[x].level, m.home[x].base, i, v);
    ChildCovers(m.home[x].level, m.home[x].base, i, w);
    if m.home[x].level == 2 { SameRun(m.home[x].base + i * 512, v, v); SameRun(m.home[x].base + i * 512, w, w); }
  }

  /** A store to a private page is seen in that page only. */
  lemma WritePage(m: Mem, p: nat, v: nat, page: Bytes, task: Task, w: nat)
    requires MInv(m) && IsRoot(m, p) && v < Span(5) && Private(m, p, v) && TaskOk(m, task) && w < Span(5)
             && |page| == 4096
    ensures var f := Find(m.tb, p, 4, v).value.frame;
            && f < |m.data|
            && var m' := m.(data := m.data[f := page]);
               MappedOk(m', task, w) && Content(m', task.root, w) == if (p, v) == (task.root, w) then page
                 else Content(m, task.root, w)
  {
    hide MInv;
    hide Find;
    ViewSpot(m, p, v);
    ViewSpot(m, task.root, w);
    assert MappedOk(m, task, w);
    var f := Find(m.tb, p, 4, v).value.frame;
    if (p, v) != (task.root, w) && Find(m.tb, task.root, 4, w).Some? { PrivateFrame(m, p, v, task.root, w); }
  }
}
