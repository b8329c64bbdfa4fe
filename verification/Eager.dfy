/** The machine that fork is measured against: every task has its own pages, and fork copies
    them all at once. */
module Eager {
  import opened Paging
  import opened Effects
  import opened Areas
  import opened Places

  datatype Page = Page(bytes: Bytes, flags: Flags)
  type Spaces = map<nat, map<nat, Page>>

  datatype Step =
    | Spawn(pid: nat)
    | Fork(parent: nat, child: nat)
    | Fault(pid: nat, page: nat, write: bool, exec: bool)
    | Write(pid: nat, page: nat, off: nat, byte: bv8)
    | Read(pid: nat, page: nat, off: nat)
    | Exec(pid: nat, page: nat)
    | Unmap(pid: nat, base: nat, size: nat)
    | Map(pid: nat, base: nat, size: nat, flags: Flags)

  /** mmap puts the pages `at`, and returns where the VMA begins that they are in. */
  datatype Answer = Refused | Done | Value(byte: bv8) | Placed(at: nat, start: nat)

  predicate InRange(base: nat, size: nat, v: nat) { base <= v < base + size }

  function Pages(base: nat, size: nat): set<nat> { set v: nat | base <= v < base + size && InRange(base, size, v) }

  function Zeros(base: nat, size: nat, flags: Flags): map<nat, Page> {
    map v: nat | v in Pages(base, size) :: Page(ZeroPage(), flags)
  }

  /** What a step does to the pages if it is not refused. */
  function Next(s: Spaces, step: Step, a: Answer): Spaces {
    if a.Refused? then s else
      match step
      case Spawn(p) => s[p := map[]]
      case Fork(p, c) => if p in s then s[c := s[p]] else s
      case Write(p, v, off, b) =>
        if p in s && v in s[p] && off < |s[p][v].bytes|
           then s[p := s[p][v := s[p][v].(bytes := s[p][v].bytes[off := b])]] else s
      case Unmap(p, base, size) => if p in s then s[p := s[p] - Pages(base, size)] else s
      case Map(p, base, size, flags) =>
        if p in s && a.Placed? then s[p := s[p] + Zeros(a.at, size, flags)] else s
      case _ => s
  }

  /** Some 2M of the task reach from a writable VMA into one that is only readable. */
  ghost predicate Mixed(pages: map<nat, Page>) {
    exists v, w :: v in pages && w in pages && v - v % 512 == w - w % 512
      && pages[v].flags.read && pages[v].flags.write && pages[w].flags.read && !pages[w].flags.write
  }

  /** The answers a step may give, whatever happened before. */
  ghost predicate Allowed(s: Spaces, step: Step, a: Answer) {
    match step
    case Spawn(p) => a == if p in s then Refused else Done
    case Fork(p, c) => a == if p in s && c !in s then Done else Refused
    case Fault(p, v, w, x) =>
      a == if p in s && v in s[p] && s[p][v].flags.read && (w ==> s[p][v].flags.write) && (x ==> s[p][v].flags.exec)
           then Done else Refused
    case Write(p, v, off, b) =>
      && a in {Done, Refused}
      && (p !in s || v !in s[p] || !s[p][v].flags.read || off >= 4096 ==> a == Refused)
      && (p in s && v in s[p] && off < 4096 && s[p][v].flags.read && s[p][v].flags.write ==> a == Done)
    case Read(p, v, off) =>
      a == if p in s && v in s[p] && off < |s[p][v].bytes| && s[p][v].flags.read then Value(s[p][v].bytes[off])
        else Refused
    case Exec(p, v) =>
      a == if p in s && v in s[p] && s[p][v].flags.read && s[p][v].flags.exec then Done else Refused
    case Unmap(p, base, size) =>
      && a in {Done, Refused}
      && (p !in s ==> a == Refused)
      && (a == Refused && p in s ==> forall v :: base <= v < base + size ==> v !in s[p])
    case Map(p, base, size, flags) =>
      && (a == Refused || a.Placed?)
      && (a.Placed? ==>
            && p in s && Mappable(base, size, flags) && 1 <= a.at && a.at + size <= USER_PAGES
            && (forall v :: a.at <= v < a.at + size ==> v !in s[p]) && a.start <= a.at
            && forall v :: a.start <= v < a.at ==> v in s[p] && s[p][v].flags == flags)
      && (p in s && Mappable(base, size, flags) && size == 0 ==>
            a.Placed? && a.at == if base > 0 then base else USER_PAGES)
  }

  ghost function Unused(pages: map<nat, Page>, size: nat): nat -> bool {
    (b: nat) => forall v :: b <= v < b + size ==> v !in pages
  }

  /** sys_mmap's tests of prot and of the end of the range. */
  predicate Mappable(base: nat, size: nat, flags: Flags) {
    && (flags.write ==> flags.read && !flags.exec) && (flags.exec ==> flags.read) && base + size < USER_PAGES
  }

  /** What decides the answers that the pages leave open. `kin` are the tasks that took part in a
      fork, `loose` those of them with mixed 2M, now or at some time since their last fork, and
      `hollow` the tasks that may have an empty VMA. */
  datatype Notes = Notes(kin: set<nat>, loose: set<nat>, hollow: set<nat>)

  /** A write to a page that is only readable is refused, except perhaps for loose tasks:
      populate_pde renews the permissions of a shared 2M page as a whole. And mmap finds the first
      free place in its order, unless an empty VMA may be in the way. */
  ghost predicate Answered(s: Spaces, notes: Notes, step: Step, a: Answer) {
    && Allowed(s, step, a)
    && (step.Write? && step.pid in s && step.page in s[step.pid] && !s[step.pid][step.page].flags.write
        && step.pid !in notes.loose ==>
          a == Refused)
    && (step.Map? && step.pid in s && Mappable(step.base, step.size, step.flags) && step.size > 0
        && step.pid !in notes.hollow ==>
          var free := Unused(s[step.pid], step.size);
          if a.Placed? then First(free, step.base, step.size, a.at) else NoneFree(free, step.base, step.size))
  }

  ghost function NextNotes(s: Spaces, notes: Notes, step: Step, a: Answer): Notes {
    var s', n := Next(s, step, a), NotesBut(notes, step, a);
    n.(loose := n.loose + set p | p in s' && p in n.kin && Mixed(s'[p]))
  }

  ghost function NotesBut(notes: Notes, step: Step, a: Answer): Notes {
    if !a.Done? && !a.Placed? then notes else
      match step
      case Spawn(p) => Notes(notes.kin - {p}, notes.loose - {p}, notes.hollow - {p})
      case Fork(p, c) =>
        Notes(notes.kin + {p, c}, notes.loose - {p, c},
              if p in notes.hollow then notes.hollow + {c} else notes.hollow - {c})
      case Map(p, _, size, _) => if size == 0 then notes.(hollow := notes.hollow + {p}) else notes
      case _ => notes
  }

  /** A run of steps from s and notes with these answers ends in s' and notes'. */
  ghost predicate Runs(s: Spaces, notes: Notes, steps: seq<Step>, answers: seq<Answer>, s': Spaces, notes': Notes)
    decreases |steps|
  {
    if steps == [] then answers == [] && s' == s && notes' == notes
    else
      && answers != [] && Answered(s, notes, steps[0], answers[0])
      && Runs(Next(s, steps[0], answers[0]), NextNotes(s, notes, steps[0], answers[0]), steps[1..], answers[1..], s',
              notes')
  }

  lemma {:induction false} RunsSnoc(s: Spaces, notes: Notes, steps: seq<Step>, answers: seq<Answer>, s1: Spaces,
                                    notes1: Notes, step: Step, a: Answer)
    requires Runs(s, notes, steps, answers, s1, notes1) && Answered(s1, notes1, step, a)
    ensures Runs(s, notes, steps + [step], answers + [a], Next(s1, step, a), NextNotes(s1, notes1, step, a))
    decreases |steps|
  {
    hide Answered;
    hide Next;
    hide NextNotes;
    if steps == [] {
      assert (steps + [step])[1..] == [] && (answers + [a])[1..] == [];
    } else {
      var s2, notes2 := Next(s, steps[0], answers[0]), NextNotes(s, notes, steps[0], answers[0]);
      RunsSnoc(s2, notes2, steps[1..], answers[1..], s1, notes1, step, a);
      assert (steps + [step])[1..] == steps[1..] + [step] && (answers + [a])[1..] == answers[1..] + [a];
    }
  }

  // ---- What the machine promises --------------------------------------------------------------------

  /** A load gives the byte stored last, and a store shows nowhere else. */
  lemma ReadsBack(s: Spaces, p: nat, v: nat, off: nat, byte: bv8, q: nat, w: nat, o: nat, a: Answer)
    requires Allowed(s, Write(p, v, off, byte), Done) && |s[p][v].bytes| == 4096
    ensures var s' := Next(s, Write(p, v, off, byte), Done);
            && Allowed(s', Read(p, v, off), Value(byte))
            && ((q, w, o) != (p, v, off) ==> (Allowed(s', Read(q, w, o), a) <==> Allowed(s, Read(q, w, o), a)))
  {
  }

  /** After fork the child reads what its parent reads, and the others notice nothing. */
  lemma ForkCopies(s: Spaces, p: nat, c: nat, q: nat, v: nat, off: nat, a: Answer)
    requires Allowed(s, Fork(p, c), Done)
    ensures var s' := Next(s, Fork(p, c), Done);
            && (Allowed(s', Read(c, v, off), a) <==> Allowed(s, Read(p, v, off), a))
            && (q != c ==> (Allowed(s', Read(q, v, off), a) <==> Allowed(s, Read(q, v, off), a)))
  {
  }

  /** What one of them stores afterwards the other does not read. */
  lemma ForkSeparates(s: Spaces, p: nat, c: nat, q: nat, r: nat, v: nat, off: nat, byte: bv8, a: Answer)
    requires Allowed(s, Fork(p, c), Done) && q in {p, c} && r in {p, c} && q != r
    requires var s' := Next(s, Fork(p, c), Done); Allowed(s', Write(q, v, off, byte), Done) && |s'[q][v].bytes| == 4096
    ensures var s'' := Next(Next(s, Fork(p, c), Done), Write(q, v, off, byte), Done);
            Allowed(s'', Read(r, v, off), a) <==> Allowed(s, Read(p, v, off), a)
  {
    ForkCopies(s, p, c, p, v, off, a);
    ReadsBack(Next(s, Fork(p, c), Done), q, v, off, byte, r, v, off, a);
  }

  /** New pages read as zero, and allow what the flags say. */
  lemma MapZeros(s: Spaces, p: nat, base: nat, size: nat, flags: Flags, at: nat, start: nat, v: nat, off: nat,
                 byte: bv8)
    requires Allowed(s, Map(p, base, size, flags), Placed(at, start)) && at <= v < at + size && off < 4096
    ensures var s' := Next(s, Map(p, base, size, flags), Placed(at, start));
            && Allowed(s', Read(p, v, off), if flags.read then Value(0) else Refused)
            && Allowed(s', Exec(p, v), if flags.exec then Done else Refused)
            && (flags.write ==> Allowed(s', Write(p, v, off, byte), Done))
            && (!flags.read ==> Allowed(s', Write(p, v, off, byte), Refused))
  {
  }

  /** Unmapped pages cannot be read, and the others are as before. */
  lemma UnmapForgets(s: Spaces, p: nat, base: nat, size: nat, q: nat, v: nat, off: nat, a: Answer)
    requires Allowed(s, Unmap(p, base, size), Done)
    ensures var s' := Next(s, Unmap(p, base, size), Done);
            if q == p && base <= v < base + size then Allowed(s', Read(q, v, off), a) <==> a == Refused
            else Allowed(s', Read(q, v, off), a) <==> Allowed(s, Read(q, v, off), a)
  {
  }
}
