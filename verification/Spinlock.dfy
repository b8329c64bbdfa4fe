/** kernel/spinlock.c: ranked spinlocks as interleaved steps of the CPUs. */
module Spinlock {
  import opened Common

  // ---- Ranks ------------------------------------------------------------------------------------

  const TOP: bv64 := 0x8000_0000_0000_0000

  /** What spin_init accepts, without rank 0. */
  predicate PowerOfTwo(r: bv64) { r != 0 && r & (r - 1) == 0 }

  predicate Below(x: bv64, y: bv64) { x < y }

  function Join(x: bv64, y: bv64): bv64 { x | y }

  function Toggle(x: bv64, y: bv64): bv64 { x ^ y }

  function Twice(x: bv64): bv64 { x << 1 }

  lemma JoinTop(x: bv64, t: bv64)
    requires PowerOfTwo(t) && Below(x, t)
    ensures Toggle(Join(x, t), t) == x
  {
  }

  lemma JoinTopTwice(x: bv64, t: bv64)
    requires PowerOfTwo(t) && Below(x, t) && Below(t, TOP)
    ensures Below(Join(x, t), Twice(t))
  {
  }

  lemma Doubled(r: bv64, t: bv64)
    requires PowerOfTwo(r) && PowerOfTwo(t) && Below(r, t)
    ensures !Below(t, Twice(r))
  {
  }

  lemma JoinAbove(x: bv64, y: bv64)
    ensures !Below(Join(x, y), x) && !Below(Join(x, y), y)
  {
  }

  lemma BelowTrans(x: bv64, y: bv64, z: bv64)
    requires !Below(y, x) && Below(y, z)
    ensures Below(x, z)
  {
  }

  lemma AtMostTrans(x: bv64, y: bv64, z: bv64)
    requires !Below(y, x) && !Below(z, y)
    ensures !Below(z, x)
  {
  }

  lemma BelowAsym(x: bv64, y: bv64)
    requires Below(x, y)
    ensures !Below(y, x) && x != y
  {
  }

  // ---- States -----------------------------------------------------------------------------------

  /** struct spinlock without its rank, which spin_init fixes; owner is its cpu field. */
  datatype Lock = Lock(locked: bool, owner: Option<nat>)

  /** Where a CPU is inside __spin_lock, __spin_trylock or __spin_unlock of a lock. */
  datatype Pc =
    | Idle
    | Spinning(lock: nat)    // checks passed, compare-and-swap pending
    | Trying(lock: nat)      // the same for trylock
    | Taken(lock: nat)       // compare-and-swap done, rank not yet raised
    | Ranked(lock: nat)      // rank raised, owner not yet stored
    | Leaving(lock: nat)     // unlock's checks passed
    | Cleared(lock: nat)     // owner cleared, lock not yet free
    | Dropped(lock: nat)     // lock free, rank not yet lowered

  /** held lists the locks from the compare-and-swap that takes them to the store that frees them; got
      is what the last __spin_trylock returned. */
  datatype Cpu = Cpu(pc: Pc, rank: bv64, held: seq<nat>, got: bool)

  datatype State = State(ranks: seq<bv64>, locks: seq<Lock>, cpus: seq<Cpu>)

  datatype Action = Acquire(lock: nat) | TryAcquire(lock: nat) | Release(lock: nat) | Go

  predicate Holding(s: State, c: nat, l: nat)
    requires l < |s.locks|
  {
    s.locks[l].locked && s.locks[l].owner == Some(c)
  }

  /** The checks of __spin_lock and __spin_trylock; otherwise they panic. */
  predicate MayLock(s: State, c: nat, l: nat)
    requires c < |s.cpus| && l < |s.locks|
  {
    !Holding(s, c, l) && Below(s.cpus[c].rank, Rank(s.ranks, l))
  }

  /** The checks of __spin_unlock; otherwise it panics. */
  predicate MayUnlock(s: State, c: nat, l: nat)
    requires c < |s.cpus| && l < |s.locks|
  {
    Holding(s, c, l) && Below(s.cpus[c].rank, Twice(Rank(s.ranks, l))) && !Below(s.cpus[c].rank, Rank(s.ranks, l))
  }

  /** CPU c can take the step without a panic. */
  predicate Enabled(s: State, c: nat, a: Action) {
    && c < |s.cpus|
    && match a
       case Acquire(l) => s.cpus[c].pc.Idle? && l < |s.locks| && MayLock(s, c, l)
       case TryAcquire(l) => s.cpus[c].pc.Idle? && l < |s.locks| && MayLock(s, c, l)
       case Release(l) => s.cpus[c].pc.Idle? && l < |s.locks| && MayUnlock(s, c, l)
       case Go => !s.cpus[c].pc.Idle? && s.cpus[c].pc.lock < |s.locks|
  }

  function SetCpu(s: State, c: nat, u: Cpu): State
    requires c < |s.cpus|
  {
    s.(cpus := s.cpus[c := u])
  }

  function SetLock(s: State, l: nat, k: Lock): State
    requires l < |s.locks|
  {
    s.(locks := s.locks[l := k])
  }

  /** One step of CPU c. */
  function Do(s: State, c: nat, a: Action): State
    requires Enabled(s, c, a)
  {
    var u := s.cpus[c];
    match a
    case Acquire(l) => SetCpu(s, c, u.(pc := Spinning(l)))
    case TryAcquire(l) => SetCpu(s, c, u.(pc := Trying(l)))
    case Release(l) => SetCpu(s, c, u.(pc := Leaving(l)))
    case Go =>
      var l := u.pc.lock;
      var k := s.locks[l];
      match u.pc
      case Spinning(_) =>
        if k.locked then s else SetLock(SetCpu(s, c, u.(pc := Taken(l), held := u.held + [l])), l, k.(locked := true))
      case Trying(_) =>
        if k.locked then SetCpu(s, c, u.(pc := Idle, got := false))
        else SetLock(SetCpu(s, c, u.(pc := Taken(l), held := u.held + [l])), l, k.(locked := true))
      case Taken(_) => SetCpu(s, c, u.(pc := Ranked(l), rank := Join(u.rank, Rank(s.ranks, l))))
      case Ranked(_) => SetLock(SetCpu(s, c, u.(pc := Idle, got := true)), l, k.(owner := Some(c)))
      case Leaving(_) => SetLock(SetCpu(s, c, u.(pc := Cleared(l))), l, k.(owner := None))
      case Cleared(_) => SetLock(SetCpu(s, c, u.(pc := Dropped(l), held := Without(u.held, l))), l, k.(locked := false))
      case Dropped(_) => SetCpu(s, c, u.(pc := Idle, rank := Toggle(u.rank, Rank(s.ranks, l))))
  }

  /** All CPUs idle, all locks free, every rank a power of two below 2^63. */
  predicate Start(s: State) {
    && |s.ranks| == |s.locks| && (forall l :: 0 <= l < |s.ranks| ==> PowerOfTwo(s.ranks[l]) && Below(s.ranks[l], TOP))
    && (forall l :: 0 <= l < |s.locks| ==> s.locks[l] == Lock(false, None))
    && (forall c :: 0 <= c < |s.cpus| ==> s.cpus[c] == Cpu(Idle, 0, [], false))
  }

  // ---- Invariant ------------------------------------------------------------------------------------

  /** The union of the ranks of some locks. */
  function Union(ranks: seq<bv64>, held: seq<nat>): bv64 {
    if held == [] then 0 else Join(Union(ranks, held[..|held| - 1]), Rank(ranks, held[|held| - 1]))
  }

  /** Each lock outranks all that were taken before it. */
  predicate Stack(ranks: seq<bv64>, held: seq<nat>) {
    held == [] ||
    var l := held[|held| - 1];
    l < |ranks| && Stack(ranks, held[..|held| - 1]) && Below(Union(ranks, held[..|held| - 1]), Rank(ranks, l))
  }

  function Rank(ranks: seq<bv64>, l: nat): bv64 { if l < |ranks| then ranks[l] else 0 }

  predicate OnTop(u: Cpu, l: nat) { u.held != [] && u.held[|u.held| - 1] == l }

  /** A CPU by itself: its rank is the union of the ranks it holds, up to the step it is in. */
  predicate CpuOk(ranks: seq<bv64>, u: Cpu) {
    && (!u.pc.Idle? ==> u.pc.lock < |ranks|) && Stack(ranks, u.held)
    && match u.pc
       case Idle => u.rank == Union(ranks, u.held)
       case Spinning(l) => u.rank == Union(ranks, u.held) && Below(u.rank, Rank(ranks, l))
       case Trying(l) => u.rank == Union(ranks, u.held) && Below(u.rank, Rank(ranks, l))
       case Taken(l) => OnTop(u, l) && u.rank == Union(ranks, u.held[..|u.held| - 1])
       case Ranked(l) => OnTop(u, l) && u.rank == Union(ranks, u.held)
       case Leaving(l) => OnTop(u, l) && u.rank == Union(ranks, u.held)
       case Cleared(l) => OnTop(u, l) && u.rank == Union(ranks, u.held)
       case Dropped(l) =>
         Below(Union(ranks, u.held), Rank(ranks, l)) && u.rank == Join(Union(ranks, u.held), Rank(ranks, l))
  }

  /** CPU c holds the lock, and is not on its way to store its name in it, or past clearing it. */
  ghost predicate Owns(s: State, c: nat, l: nat) {
    c < |s.cpus| && l in s.cpus[c].held && s.cpus[c].pc !in {Taken(l), Ranked(l), Cleared(l)}
  }

  /** A lock is locked exactly while a CPU holds it, and its owner field names that CPU exactly while
      it owns it. */
  ghost predicate LockOk(s: State, l: nat)
    requires l < |s.locks|
  {
    && (s.locks[l].locked <==> exists c :: 0 <= c < |s.cpus| && l in s.cpus[c].held)
    && forall c: nat {:trigger Owns(s, c, l)} :: s.locks[l].owner == Some(c) <==> Owns(s, c, l)
  }

  ghost predicate Inv(s: State) {
    && |s.ranks| == |s.locks| && (forall l :: 0 <= l < |s.ranks| ==> PowerOfTwo(s.ranks[l]) && Below(s.ranks[l], TOP))
    && (forall c {:trigger s.cpus[c]} :: 0 <= c < |s.cpus| ==> CpuOk(s.ranks, s.cpus[c]))
    && (forall l: nat {:trigger s.locks[l]} :: l < |s.locks| ==> LockOk(s, l))
    && (forall c, d, l: nat {:trigger l in s.cpus[c].held, l in s.cpus[d].held} ::
          0 <= c < |s.cpus| && 0 <= d < |s.cpus| && l in s.cpus[c].held && l in s.cpus[d].held ==> c == d)
  }

  // ---- Facts about stacks -----------------------------------------------------------------------------

  lemma {:induction false} UnionGe(ranks: seq<bv64>, held: seq<nat>, l: nat)
    requires l in held
    ensures !Below(Union(ranks, held), Rank(ranks, l))
    decreases |held|
  {
    hide Below;
    hide Join;
    var p, t := held[..|held| - 1], held[|held| - 1];
    JoinAbove(Union(ranks, p), Rank(ranks, t));
    if l != t {
      assert l in p;
      UnionGe(ranks, p, l);
      AtMostTrans(Rank(ranks, l), Union(ranks, p), Union(ranks, held));
    }
  }

  lemma {:induction false} StackKnown(ranks: seq<bv64>, held: seq<nat>, l: nat)
    requires Stack(ranks, held) && l in held
    ensures l < |ranks|
    decreases |held|
  {
    hide Below;
    hide Join;
    hide Toggle;
    hide Twice;
    hide PowerOfTwo;
    if l != held[|held| - 1] {
      assert l in held[..|held| - 1];
      StackKnown(ranks, held[..|held| - 1], l);
    }
  }

  /** The last lock is in the stack once. */
  lemma TopOnce(ranks: seq<bv64>, held: seq<nat>)
    requires Stack(ranks, held) && held != []
    ensures held[|held| - 1] !in held[..|held| - 1]
  {
    hide Below;
    hide Join;
    var p, t := held[..|held| - 1], held[|held| - 1];
    if t in p { UnionGe(ranks, p, t); }
  }

  lemma {:induction false} LessTop(held: seq<nat>, l: nat)
    requires held != [] && held[|held| - 1] == l && l !in held[..|held| - 1]
    ensures Without(held, l) == held[..|held| - 1]
    decreases |held|
  {
    if |held| > 1 {
      assert held[1..][..|held| - 2] == held[..|held| - 1][1..];
      assert held[0] == held[..|held| - 1][0];
      LessTop(held[1..], l);
    }
  }

  /** unlock's rank checks accept exactly the lock taken last. */
  lemma ReleaseInOrder(ranks: seq<bv64>, held: seq<nat>, l: nat)
    requires Stack(ranks, held) && l in held
             && forall i :: 0 <= i < |ranks| ==> PowerOfTwo(ranks[i]) && Below(ranks[i], TOP)
    ensures Below(Union(ranks, held), Twice(Rank(ranks, l))) && !Below(Union(ranks, held), Rank(ranks, l)) <==>
              l == held[|held| - 1]
  {
    hide Below;
    hide Join;
    hide Twice;
    hide Toggle;
    hide PowerOfTwo;
    var p, t := held[..|held| - 1], held[|held| - 1];
    var x := Union(ranks, p);
    JoinAbove(x, Rank(ranks, t));
    JoinTopTwice(x, Rank(ranks, t));
    if l != t {
      assert l in p;
      StackKnown(ranks, held, l);
      UnionGe(ranks, p, l);
      BelowTrans(Rank(ranks, l), x, Rank(ranks, t));
      Doubled(Rank(ranks, l), Rank(ranks, t));
      AtMostTrans(Twice(Rank(ranks, l)), Rank(ranks, t), Union(ranks, held));
    }
  }

  // ---- Every step keeps the invariant -----------------------------------------------------------------

  lemma TopHeld(ranks: seq<bv64>, u: Cpu)
    requires CpuOk(ranks, u) && (u.pc.Cleared? || u.pc.Leaving? || u.pc.Ranked?)
    ensures u.pc.lock in u.held && u.pc.lock < |ranks|
  {
  }

  /** A CPU changes only its own entry, and holds the same locks; a lock changes its owner only if it
      is from nobody to this CPU or back. */
  ghost predicate SameButOwner(s: State, s': State, c: nat, l: nat)
    requires l < |s.locks| && l < |s'.locks|
  {
    && s'.locks[l].locked == s.locks[l].locked
    && if Owns(s, c, l) == Owns(s', c, l) then s'.locks[l].owner == s.locks[l].owner
       else s'.locks[l].owner == if Owns(s', c, l) then Some(c) else None
  }

  lemma SameHeld(s: State, s': State, c: nat)
    requires Inv(s) && c < |s.cpus| && s'.ranks == s.ranks && |s'.locks| == |s.locks|
    requires |s'.cpus| == |s.cpus| && s'.cpus == s.cpus[c := s'.cpus[c]] && s'.cpus[c].held == s.cpus[c].held
             && CpuOk(s.ranks, s'.cpus[c])
    requires forall l: nat :: l < |s.locks| ==> SameButOwner(s, s', c, l)
    ensures Inv(s')
  {
    hide Below;
    hide Join;
    hide Toggle;
    hide Twice;
    hide PowerOfTwo;
    hide CpuOk;
    hide SameButOwner;
    forall d | 0 <= d < |s.cpus| ensures s'.cpus[d].held == s.cpus[d].held && CpuOk(s.ranks, s'.cpus[d]) {}
    forall l: nat | l < |s.locks| ensures LockOk(s', l) {
      assert LockOk(s, l) && SameButOwner(s, s', c, l);
      SameLock(s, s', c, l);
    }
  }

  lemma SameLock(s: State, s': State, c: nat, l: nat)
    requires c < |s.cpus| && l < |s.locks| && |s'.locks| == |s.locks|
    requires |s'.cpus| == |s.cpus| && s'.cpus == s.cpus[c := s'.cpus[c]] && s'.cpus[c].held == s.cpus[c].held
    requires LockOk(s, l) && SameButOwner(s, s', c, l)
    requires forall d, e ::
               0 <= d < |s.cpus| && 0 <= e < |s.cpus| && l in s.cpus[d].held && l in s.cpus[e].held ==> d == e
    ensures LockOk(s', l)
  {
    if s.locks[l].locked {
      var d :| 0 <= d < |s.cpus| && l in s.cpus[d].held;
      assert l in s'.cpus[d].held;
    }
    forall d: nat ensures s'.locks[l].owner == Some(d) <==> Owns(s', d, l) {
      assert s.locks[l].owner == Some(d) <==> Owns(s, d, l);
      assert s.locks[l].owner == Some(c) <==> Owns(s, c, l);
    }
  }

  /** s' differs from s in that CPU c holds lock l in addition. */
  ghost predicate Took(s: State, s': State, c: nat, l: nat) {
    && c < |s.cpus| && l < |s.locks| && s'.ranks == s.ranks && |s'.cpus| == |s.cpus|
    && s'.cpus == s.cpus[c := s'.cpus[c]]
    && s'.locks == s.locks[l := Lock(true, s.locks[l].owner)]
    && s'.cpus[c].held == s.cpus[c].held + [l] && s'.cpus[c].pc == Taken(l)
    && (s.cpus[c].pc.Spinning? || s.cpus[c].pc.Trying?)
  }

  lemma TookLock(s: State, s': State, c: nat, l: nat, k: nat)
    requires Took(s, s', c, l) && k < |s.locks| && LockOk(s, k) && !s.locks[l].locked
    ensures LockOk(s', k)
  {
    forall d: nat ensures Owns(s', d, k) == Owns(s, d, k) { assert s.locks[k].owner == Some(d) <==> Owns(s, d, k); }
    assert forall d :: 0 <= d < |s.cpus| ==> (k in s'.cpus[d].held <==> k in s.cpus[d].held || (d == c && k == l));
    if k == l { assert l in s'.cpus[c].held; }
    else if s.locks[k].locked {
      var d :| 0 <= d < |s.cpus| && k in s.cpus[d].held;
      assert k in s'.cpus[d].held;
    }
  }

  lemma TookInv(s: State, s': State, c: nat, l: nat)
    requires Inv(s) && Took(s, s', c, l) && CpuOk(s.ranks, s'.cpus[c]) && !s.locks[l].locked
    ensures Inv(s')
  {
    hide Below;
    hide Join;
    hide Toggle;
    hide Twice;
    hide PowerOfTwo;
    hide CpuOk;
    assert LockOk(s, l);
    forall d | 0 <= d < |s.cpus| ensures l !in s.cpus[d].held {}
    forall k: nat | k < |s.locks| ensures LockOk(s', k) { assert LockOk(s, k); TookLock(s, s', c, l, k); }
    hide LockOk;
    assert forall d, k: nat ::
             0 <= d < |s.cpus| ==> (k in s'.cpus[d].held <==> k in s.cpus[d].held || (d == c && k == l));
  }

  /** The compare-and-swap that succeeds. */
  lemma TakeStep(s: State, c: nat)
    requires Inv(s) && Enabled(s, c, Go) && (s.cpus[c].pc.Spinning? || s.cpus[c].pc.Trying?)
             && !s.locks[s.cpus[c].pc.lock].locked
    ensures Inv(Do(s, c, Go))
  {
    hide Below;
    hide Join;
    hide Toggle;
    hide Twice;
    hide PowerOfTwo;
    hide LockOk;
    var s', l, u := Do(s, c, Go), s.cpus[c].pc.lock, s.cpus[c];
    assert s'.cpus[c].held[..|u.held|] == u.held;
    assert CpuOk(s.ranks, u) && CpuOk(s.ranks, s'.cpus[c]);
    TookInv(s, s', c, l);
  }

  /** s' differs from s in that CPU c does not hold lock l any more. */
  ghost predicate Freed(s: State, s': State, c: nat, l: nat) {
    && c < |s.cpus| && l < |s.locks| && s'.ranks == s.ranks && |s'.cpus| == |s.cpus|
    && s'.cpus == s.cpus[c := s'.cpus[c]]
    && s'.locks == s.locks[l := Lock(false, None)]
    && s.cpus[c].held == s'.cpus[c].held + [l] && l !in s'.cpus[c].held && s.cpus[c].pc == Cleared(l)
    && s'.cpus[c].pc == Dropped(l)
  }

  lemma FreedLock(s: State, s': State, c: nat, l: nat, k: nat)
    requires Freed(s, s', c, l) && k < |s.locks| && LockOk(s, k)
             && forall d :: 0 <= d < |s.cpus| && d != c ==> l !in s.cpus[d].held
    ensures LockOk(s', k)
  {
    assert forall d :: 0 <= d < |s.cpus| ==> (k in s'.cpus[d].held <==> k in s.cpus[d].held && !(d == c && k == l));
    forall d: nat ensures Owns(s', d, k) == Owns(s, d, k) { assert s.locks[k].owner == Some(d) <==> Owns(s, d, k); }
    if k != l && s.locks[k].locked {
      var d :| 0 <= d < |s.cpus| && k in s.cpus[d].held;
      assert k in s'.cpus[d].held;
    }
  }

  lemma FreedInv(s: State, s': State, c: nat, l: nat)
    requires Inv(s) && Freed(s, s', c, l) && CpuOk(s.ranks, s'.cpus[c])
    ensures Inv(s')
  {
    hide Below;
    hide Join;
    hide Toggle;
    hide Twice;
    hide PowerOfTwo;
    hide CpuOk;
    assert l in s.cpus[c].held;
    forall d | 0 <= d < |s.cpus| && d != c ensures l !in s.cpus[d].held {}
    forall k: nat | k < |s.locks| ensures LockOk(s', k) { assert LockOk(s, k); FreedLock(s, s', c, l, k); }
    hide LockOk;
    assert forall d, k: nat :: 0 <= d < |s.cpus| ==> (k in s'.cpus[d].held ==> k in s.cpus[d].held);
  }

  lemma ClearedOwner(s: State, c: nat)
    requires Inv(s) && c < |s.cpus| && s.cpus[c].pc.Cleared?
    ensures s.cpus[c].pc.lock < |s.locks| && s.locks[s.cpus[c].pc.lock].owner.None?
  {
    hide Below;
    hide Join;
    hide Toggle;
    hide Twice;
    hide PowerOfTwo;
    var l := s.cpus[c].pc.lock;
    assert CpuOk(s.ranks, s.cpus[c]) && LockOk(s, l);
    TopHeld(s.ranks, s.cpus[c]);
    forall d: nat ensures s.locks[l].owner != Some(d) { var owns := Owns(s, d, l); }
  }

  /** The store that frees the lock. */
  lemma DropStep(s: State, c: nat)
    requires Inv(s) && Enabled(s, c, Go) && s.cpus[c].pc.Cleared?
    ensures Inv(Do(s, c, Go))
  {
    hide Below;
    hide Join;
    hide Toggle;
    hide Twice;
    hide PowerOfTwo;
    hide LockOk;
    hide Without;
    var s', l, u := Do(s, c, Go), s.cpus[c].pc.lock, s.cpus[c];
    assert CpuOk(s.ranks, u);
    TopOnce(s.ranks, u.held);
    LessTop(u.held, l);
    assert CpuOk(s.ranks, s'.cpus[c]);
    assert u.held == s'.cpus[c].held + [l];
    ClearedOwner(s, c);
    FreedInv(s, s', c, l);
  }

  /** The other steps. */
  lemma OtherStep(s: State, c: nat, a: Action)
    requires Inv(s) && Enabled(s, c, a)
    requires a.Go? ==>
               !s.cpus[c].pc.Cleared?
               && ((s.cpus[c].pc.Spinning? || s.cpus[c].pc.Trying?) ==> s.locks[s.cpus[c].pc.lock].locked)
    ensures Inv(Do(s, c, a))
  {
    hide Below;
    hide Join;
    hide Toggle;
    hide Twice;
    hide PowerOfTwo;
    hide LockOk;
    var s', u := Do(s, c, a), s.cpus[c];
    assert CpuOk(s.ranks, u);
    StepCpu(s, c, a);
    StepOwner(s, c, a);
    hide CpuOk;
    SameHeld(s, s', c);
  }

  lemma StepOwner(s: State, c: nat, a: Action)
    requires Inv(s) && Enabled(s, c, a)
    requires a.Go? ==>
               !s.cpus[c].pc.Cleared?
               && ((s.cpus[c].pc.Spinning? || s.cpus[c].pc.Trying?) ==> s.locks[s.cpus[c].pc.lock].locked)
    ensures |Do(s, c, a).locks| == |s.locks| && forall l: nat :: l < |s.locks| ==> SameButOwner(s, Do(s, c, a), c, l)
  {
    hide Below;
    hide Join;
    hide Toggle;
    hide Twice;
    hide PowerOfTwo;
    hide LockOk;
    var u := s.cpus[c];
    assert CpuOk(s.ranks, u);
    if u.pc.Ranked? || u.pc.Leaving? { TopHeld(s.ranks, u); }
  }

  lemma StepCpu(s: State, c: nat, a: Action)
    requires Inv(s) && Enabled(s, c, a)
    requires a.Go? ==>
               !s.cpus[c].pc.Cleared?
               && ((s.cpus[c].pc.Spinning? || s.cpus[c].pc.Trying?) ==> s.locks[s.cpus[c].pc.lock].locked)
    ensures CpuOk(s.ranks, Do(s, c, a).cpus[c]) && Do(s, c, a).cpus[c].held == s.cpus[c].held
  {
    hide Below;
    hide Join;
    hide Toggle;
    hide Twice;
    hide PowerOfTwo;
    var u := s.cpus[c];
    assert CpuOk(s.ranks, u);
    if a.Go? {
      StepGo(s.ranks, s.locks, u, Do(s, c, a).cpus[c]);
    } else if a.Release? {
      OwnerHolds(s, c, a.lock);
      ReleaseInOrder(s.ranks, u.held, a.lock);
    }
  }

  lemma StepGo(ranks: seq<bv64>, locks: seq<Lock>, u: Cpu, v: Cpu)
    requires CpuOk(ranks, u) && (forall l :: 0 <= l < |ranks| ==> PowerOfTwo(ranks[l]) && Below(ranks[l], TOP))
    requires match u.pc
             case Taken(l) => v == u.(pc := Ranked(l), rank := Join(u.rank, Rank(ranks, l)))
             case Ranked(l) => v == u.(pc := Idle, got := true)
             case Leaving(l) => v == u.(pc := Cleared(l))
             case Dropped(l) => v == u.(pc := Idle, rank := Toggle(u.rank, Rank(ranks, l)))
             case Trying(l) => v == u.(pc := Idle, got := false)
             case _ => v == u
    ensures CpuOk(ranks, v)
  {
    hide Below;
    hide Join;
    hide Toggle;
    hide PowerOfTwo;
    if u.pc.Dropped? { JoinTop(Union(ranks, u.held), Rank(ranks, u.pc.lock)); }
  }

  lemma OwnerHolds(s: State, c: nat, l: nat)
    requires Inv(s) && c < |s.cpus| && l < |s.locks| && Holding(s, c, l)
    ensures l in s.cpus[c].held
  {
    assert LockOk(s, l) && Owns(s, c, l);
  }

  lemma StepInv(s: State, c: nat, a: Action)
    requires Inv(s) && Enabled(s, c, a)
    ensures Inv(Do(s, c, a))
  {
    hide Below;
    hide Join;
    hide Toggle;
    hide Twice;
    hide PowerOfTwo;
    hide Inv;
    if a.Go? && s.cpus[c].pc.Cleared? {
      DropStep(s, c);
    } else if a.Go? && (s.cpus[c].pc.Spinning? || s.cpus[c].pc.Trying?) && !s.locks[s.cpus[c].pc.lock].locked {
      TakeStep(s, c);
    } else {
      OtherStep(s, c, a);
    }
  }

  lemma StartInv(s: State)
    requires Start(s)
    ensures Inv(s)
  {
    forall l: nat | l < |s.locks| ensures LockOk(s, l) {}
  }

  // ---- Runs ---------------------------------------------------------------------------------------------

  /** Some interleaving of steps leads from s to s'. */
  ghost predicate Reaches(s: State, run: seq<(nat, Action)>, s': State)
    decreases |run|
  {
    if run == [] then s' == s
    else Enabled(s, run[0].0, run[0].1) && Reaches(Do(s, run[0].0, run[0].1), run[1..], s')
  }

  lemma {:induction false} ReachesInv(s: State, run: seq<(nat, Action)>, s': State)
    requires Inv(s) && Reaches(s, run, s')
    ensures Inv(s')
    decreases |run|
  {
    hide Below;
    hide Join;
    hide Toggle;
    hide Twice;
    hide PowerOfTwo;
    hide Inv;
    if run != [] {
      StepInv(s, run[0].0, run[0].1);
      ReachesInv(Do(s, run[0].0, run[0].1), run[1..], s');
    }
  }

  /** At most one CPU holds a lock, and it is locked exactly then. */
  lemma MutualExclusion(s0: State, run: seq<(nat, Action)>, s: State, l: nat)
    requires Start(s0) && Reaches(s0, run, s) && l < |s.locks|
    ensures s.locks[l].locked <==> exists c :: 0 <= c < |s.cpus| && l in s.cpus[c].held
    ensures forall c, d ::
              0 <= c < |s.cpus| && 0 <= d < |s.cpus| && l in s.cpus[c].held && l in s.cpus[d].held ==> c == d
  {
    hide Below;
    hide Join;
    hide Toggle;
    hide Twice;
    hide PowerOfTwo;
    StartInv(s0);
    ReachesInv(s0, run, s);
    assert LockOk(s, l);
  }

  /** Between calls the rank of a CPU is the union of the ranks it holds. */
  lemma RankIsUnion(s0: State, run: seq<(nat, Action)>, s: State, c: nat)
    requires Start(s0) && Reaches(s0, run, s) && c < |s.cpus| && s.cpus[c].pc.Idle?
    ensures s.cpus[c].rank == Union(s.ranks, s.cpus[c].held)
  {
    hide Below;
    hide Join;
    hide Toggle;
    hide Twice;
    hide PowerOfTwo;
    StartInv(s0);
    ReachesInv(s0, run, s);
    assert CpuOk(s.ranks, s.cpus[c]);
  }

  /** Between calls the owner field names the CPU in exactly the locks it holds. */
  lemma OwnerIsHolder(s0: State, run: seq<(nat, Action)>, s: State, c: nat, l: nat)
    requires Start(s0) && Reaches(s0, run, s) && c < |s.cpus| && l < |s.locks| && s.cpus[c].pc.Idle?
    ensures Holding(s, c, l) <==> l in s.cpus[c].held
  {
    hide Below;
    hide Join;
    hide Toggle;
    hide Twice;
    hide PowerOfTwo;
    StartInv(s0);
    ReachesInv(s0, run, s);
    assert LockOk(s, l);
    assert Owns(s, c, l) <==> l in s.cpus[c].held;
  }

  /** A CPU can unlock a lock, without a panic, exactly if it is the one it took last. */
  lemma LastInFirstOut(s0: State, run: seq<(nat, Action)>, s: State, c: nat, l: nat)
    requires Start(s0) && Reaches(s0, run, s) && c < |s.cpus| && l < |s.locks| && s.cpus[c].pc.Idle?
    ensures Enabled(s, c, Release(l)) <==> OnTop(s.cpus[c], l)
  {
    hide Below;
    hide Join;
    hide Toggle;
    hide Twice;
    hide PowerOfTwo;
    OwnerIsHolder(s0, run, s, c, l);
    RankIsUnion(s0, run, s, c);
    StartInv(s0);
    ReachesInv(s0, run, s);
    assert CpuOk(s.ranks, s.cpus[c]);
    if l in s.cpus[c].held { ReleaseInOrder(s.ranks, s.cpus[c].held, l); }
  }

  /** And it can lock one exactly if that outranks all the locks it holds. */
  lemma LockInOrder(s0: State, run: seq<(nat, Action)>, s: State, c: nat, l: nat)
    requires Start(s0) && Reaches(s0, run, s) && c < |s.cpus| && l < |s.locks| && s.cpus[c].pc.Idle?
    ensures Enabled(s, c, Acquire(l)) <==> forall x :: x in s.cpus[c].held ==> Below(Rank(s.ranks, x), Rank(s.ranks, l))
    ensures Enabled(s, c, TryAcquire(l)) <==> Enabled(s, c, Acquire(l))
  {
    hide Below;
    hide Join;
    hide Toggle;
    hide Twice;
    hide PowerOfTwo;
    OwnerIsHolder(s0, run, s, c, l);
    RankIsUnion(s0, run, s, c);
    StartInv(s0);
    ReachesInv(s0, run, s);
    var u := s.cpus[c];
    UnionBelow(s.ranks, u.held, Rank(s.ranks, l));
    if l in u.held { NotBelowSelf(Rank(s.ranks, l)); }
  }

  lemma NotBelowSelf(x: bv64)
    ensures !Below(x, x)
  {
  }

  lemma ZeroBelow(t: bv64)
    requires PowerOfTwo(t)
    ensures Below(0, t)
  {
  }

  lemma JoinBelow(x: bv64, y: bv64, t: bv64)
    requires PowerOfTwo(t) && Below(x, t) && Below(y, t)
    ensures Below(Join(x, y), t)
  {
  }

  lemma {:induction false} UnionBelow(ranks: seq<bv64>, held: seq<nat>, t: bv64)
    requires PowerOfTwo(t)
    ensures Below(Union(ranks, held), t) <==> forall x :: x in held ==> Below(Rank(ranks, x), t)
    decreases |held|
  {
    hide Below;
    hide Join;
    hide PowerOfTwo;
    if held == [] {
      ZeroBelow(t);
    } else {
      var p, l := held[..|held| - 1], held[|held| - 1];
      UnionBelow(ranks, p, t);
      assert held == p + [l];
      if Below(Union(ranks, held), t) {
        JoinAbove(Union(ranks, p), Rank(ranks, l));
        BelowTrans(Union(ranks, p), Union(ranks, held), t);
        BelowTrans(Rank(ranks, l), Union(ranks, held), t);
      } else if Below(Union(ranks, p), t) && Below(Rank(ranks, l), t) {
        JoinBelow(Union(ranks, p), Rank(ranks, l), t);
        assert false;
      }
    }
  }

  // ---- Calls ----------------------------------------------------------------------------------------------

  /** In this run CPU c goes through one call at most. */
  predicate OnlyGo(run: seq<(nat, Action)>, c: nat) { forall i :: 0 <= i < |run| && run[i].0 == c ==> run[i].1.Go? }

  /** Lock l was taken in some state on the way. */
  ghost predicate SawLocked(s: State, run: seq<(nat, Action)>, l: nat)
    decreases |run|
  {
    || (l < |s.locks| && s.locks[l].locked)
    || (run != [] && Enabled(s, run[0].0, run[0].1) && SawLocked(Do(s, run[0].0, run[0].1), run[1..], l))
  }

  /** The other CPUs leave CPU c alone, and without a call it does nothing. */
  lemma {:induction false} Rests(s: State, run: seq<(nat, Action)>, s': State, c: nat)
    requires Reaches(s, run, s') && OnlyGo(run, c) && c < |s.cpus| && s.cpus[c].pc.Idle?
    ensures c < |s'.cpus| && s'.cpus[c] == s.cpus[c] && s'.ranks == s.ranks
    decreases |run|
  {
    hide Below;
    hide Join;
    hide Toggle;
    hide Twice;
    if run != [] {
      Rests(Do(s, run[0].0, run[0].1), run[1..], s', c);
    }
  }

  /** CPU c takes a step of its call, or another CPU does something. */
  lemma CallStep(s: State, d: nat, a: Action, c: nat)
    requires Enabled(s, d, a) && c < |s.cpus|
    ensures var s' := Do(s, d, a);
            c < |s'.cpus| && s'.ranks == s.ranks && |s'.locks| == |s.locks| && (d != c ==> s'.cpus[c] == s.cpus[c])
  {
  }

  /** From the compare-and-swap on: the call ends with the lock, and the rank raised. */
  lemma {:induction false} Finishes(s: State, run: seq<(nat, Action)>, s': State, c: nat, l: nat)
    requires Reaches(s, run, s') && OnlyGo(run, c) && c < |s.cpus| && s.cpus[c].pc in {Taken(l), Ranked(l)}
    ensures c < |s'.cpus| && s'.cpus[c].held == s.cpus[c].held
    ensures s'.cpus[c].pc.Idle? ==>
              s'.cpus[c].got && s'.cpus[c].rank ==
                if s.cpus[c].pc.Taken? then Join(s.cpus[c].rank, Rank(s.ranks, l)) else s.cpus[c].rank
    ensures s'.cpus[c].pc in {Idle, Taken(l), Ranked(l)}
    decreases |run|
  {
    hide Below;
    hide Join;
    hide Toggle;
    hide Twice;
    if run != [] {
      var s1 := Do(s, run[0].0, run[0].1);
      CallStep(s, run[0].0, run[0].1, c);
      if s1.cpus[c].pc.Idle? {
        Rests(s1, run[1..], s', c);
      } else {
        Finishes(s1, run[1..], s', c, l);
      }
    }
  }

  /** __spin_lock comes back only with the lock as the last one, and with its rank. */
  lemma {:induction false} Acquires(s: State, run: seq<(nat, Action)>, s': State, c: nat, l: nat)
    requires Reaches(s, run, s') && OnlyGo(run, c) && c < |s.cpus| && s.cpus[c].pc == Spinning(l)
    ensures c < |s'.cpus|
    ensures s'.cpus[c].pc.Idle? ==>
              s'.cpus[c].held == s.cpus[c].held + [l] && s'.cpus[c].rank == Join(s.cpus[c].rank, Rank(s.ranks, l))
    decreases |run|
  {
    hide Below;
    hide Join;
    hide Toggle;
    hide Twice;
    if run != [] {
      var s1 := Do(s, run[0].0, run[0].1);
      CallStep(s, run[0].0, run[0].1, c);
      if s1.cpus[c].pc.Taken? {
        Finishes(s1, run[1..], s', c, l);
      } else {
        Acquires(s1, run[1..], s', c, l);
      }
    }
  }

  /** __spin_trylock comes back with the lock exactly if it says so, and without it only if it was
      taken on the way; then nothing else has changed for the CPU. */
  lemma {:induction false} Tries(s: State, run: seq<(nat, Action)>, s': State, c: nat, l: nat)
    requires Reaches(s, run, s') && OnlyGo(run, c) && c < |s.cpus| && s.cpus[c].pc == Trying(l)
    ensures c < |s'.cpus|
    ensures s'.cpus[c].pc.Idle? && s'.cpus[c].got ==>
              s'.cpus[c].held == s.cpus[c].held + [l] && s'.cpus[c].rank == Join(s.cpus[c].rank, Rank(s.ranks, l))
    ensures s'.cpus[c].pc.Idle? && !s'.cpus[c].got ==>
              s'.cpus[c].held == s.cpus[c].held && s'.cpus[c].rank == s.cpus[c].rank && SawLocked(s, run, l)
    decreases |run|
  {
    hide Below;
    hide Join;
    hide Toggle;
    hide Twice;
    if run != [] {
      var s1 := Do(s, run[0].0, run[0].1);
      CallStep(s, run[0].0, run[0].1, c);
      if s1.cpus[c].pc.Taken? {
        Finishes(s1, run[1..], s', c, l);
      } else if s1.cpus[c].pc.Idle? {
        Rests(s1, run[1..], s', c);
      } else {
        Tries(s1, run[1..], s', c, l);
      }
    }
  }

  /** __spin_unlock comes back without the lock, and with the rank it had before the lock. */
  lemma {:induction false} Releases(s: State, run: seq<(nat, Action)>, s': State, c: nat, l: nat)
    requires Reaches(s, run, s') && OnlyGo(run, c) && c < |s.cpus| && s.cpus[c].pc in {Leaving(l), Cleared(l)}
    ensures c < |s'.cpus|
    ensures s'.cpus[c].pc.Idle? ==>
              && s'.cpus[c].held == Without(s.cpus[c].held, l)
              && s'.cpus[c].rank == Toggle(s.cpus[c].rank, Rank(s.ranks, l))
    decreases |run|
  {
    hide Below;
    hide Join;
    hide Toggle;
    hide Twice;
    hide Without;
    if run != [] {
      var s1 := Do(s, run[0].0, run[0].1);
      CallStep(s, run[0].0, run[0].1, c);
      if s1.cpus[c].pc.Dropped? {
        Drops(s1, run[1..], s', c, l);
      } else {
        Releases(s1, run[1..], s', c, l);
      }
    }
  }

  lemma {:induction false} Drops(s: State, run: seq<(nat, Action)>, s': State, c: nat, l: nat)
    requires Reaches(s, run, s') && OnlyGo(run, c) && c < |s.cpus| && s.cpus[c].pc == Dropped(l)
    ensures c < |s'.cpus|
    ensures s'.cpus[c].pc.Idle? ==>
              s'.cpus[c].held == s.cpus[c].held && s'.cpus[c].rank == Toggle(s.cpus[c].rank, Rank(s.ranks, l))
    decreases |run|
  {
    hide Below;
    hide Join;
    hide Toggle;
    hide Twice;
    if run != [] {
      var s1 := Do(s, run[0].0, run[0].1);
      CallStep(s, run[0].0, run[0].1, c);
      if s1.cpus[c].pc.Idle? {
        Rests(s1, run[1..], s', c);
      } else {
        Drops(s1, run[1..], s', c, l);
      }
    }
  }

  /** The steps of CPU c in a run. */
  function Steps(run: seq<(nat, Action)>, c: nat): nat {
    if run == [] then 0 else (if run[0].0 == c then 1 else 0) + Steps(run[1..], c)
  }

  /** The steps that a call takes from here on, unless it is spinning. */
  function Left(pc: Pc): nat {
    match pc
    case Idle => 0
    case Spinning(_) => 3
    case Trying(_) => 3
    case Taken(_) => 2
    case Ranked(_) => 1
    case Leaving(_) => 3
    case Cleared(_) => 2
    case Dropped(_) => 1
  }

  lemma {:induction false} StepsLeft(s: State, run: seq<(nat, Action)>, s': State, c: nat)
    requires Reaches(s, run, s') && OnlyGo(run, c) && c < |s.cpus| && !s.cpus[c].pc.Spinning?
    ensures c < |s'.cpus| && !s'.cpus[c].pc.Spinning?
    ensures Steps(run, c) + Left(s'.cpus[c].pc) <= Left(s.cpus[c].pc)
    decreases |run|
  {
    hide Below;
    hide Join;
    hide Toggle;
    hide Twice;
    if run != [] {
      CallStep(s, run[0].0, run[0].1, c);
      GoOn(s, run[0].0, run[0].1, c);
      hide Do;
      StepsLeft(Do(s, run[0].0, run[0].1), run[1..], s', c);
    }
  }

  lemma GoOn(s: State, d: nat, a: Action, c: nat)
    requires Enabled(s, d, a) && (d == c ==> a.Go?) && c < |s.cpus| && !s.cpus[c].pc.Spinning?
    ensures var s' := Do(s, d, a);
            c < |s'.cpus| && !s'.cpus[c].pc.Spinning?
            && Left(s'.cpus[c].pc) + (if d == c then 1 else 0) <= Left(s.cpus[c].pc)
  {
    CallStep(s, d, a, c);
  }

  /** __spin_trylock takes three steps at most. It comes back with the lock as the last one and with its
      rank, or with nothing changed, and then the lock was taken by somebody on the way. */
  lemma TryLock(s: State, c: nat, l: nat, run: seq<(nat, Action)>, s': State)
    requires Enabled(s, c, TryAcquire(l)) && Reaches(Do(s, c, TryAcquire(l)), run, s') && OnlyGo(run, c)
    ensures c < |s'.cpus| && Steps(run, c) <= 3 && (Steps(run, c) == 3 ==> s'.cpus[c].pc.Idle?)
    ensures s'.cpus[c].pc.Idle? ==>
              if s'.cpus[c].got
              then s'.cpus[c].held == s.cpus[c].held + [l] && s'.cpus[c].rank == Join(s.cpus[c].rank, Rank(s.ranks, l))
              else s'.cpus[c].held == s.cpus[c].held && s'.cpus[c].rank == s.cpus[c].rank
                   && SawLocked(Do(s, c, TryAcquire(l)), run, l)
  {
    hide Below;
    hide Join;
    hide Toggle;
    hide Twice;
    var s1 := Do(s, c, TryAcquire(l));
    Tries(s1, run, s', c, l);
    StepsLeft(s1, run, s', c);
  }

  lemma {:induction false} ReachesOn(s: State, run: seq<(nat, Action)>, s1: State, run1: seq<(nat, Action)>, s2: State)
    requires Reaches(s, run, s1) && Reaches(s1, run1, s2)
    ensures Reaches(s, run + run1, s2)
    decreases |run|
  {
    hide Do;
    hide Enabled;
    if run == [] {
      assert run + run1 == run1;
    } else {
      ReachesOn(Do(s, run[0].0, run[0].1), run[1..], s1, run1, s2);
      assert (run + run1)[1..] == run[1..] + run1;
    }
  }

  /** A call and the run that follows it. */
  lemma ReachesCall(s: State, run: seq<(nat, Action)>, s1: State, c: nat, a: Action, run1: seq<(nat, Action)>,
                    s2: State)
    requires Reaches(s, run, s1) && Enabled(s1, c, a) && Reaches(Do(s1, c, a), run1, s2)
    ensures Reaches(s, run + ([(c, a)] + run1), s2)
  {
    hide Do;
    hide Enabled;
    assert ([(c, a)] + run1)[1..] == run1;
    ReachesOn(s, run, s1, [(c, a)] + run1, s2);
  }

  /** When __spin_lock returns the CPU can unlock the lock again, and when that returns the CPU holds
      what it held before, with the same rank, and has its name in the lock no more. */
  lemma LockUnlock(s0: State, run: seq<(nat, Action)>, s: State, c: nat, l: nat, run1: seq<(nat, Action)>, s1: State,
                   run2: seq<(nat, Action)>, s2: State)
    requires Start(s0) && Reaches(s0, run, s) && Enabled(s, c, Acquire(l))
    requires Reaches(Do(s, c, Acquire(l)), run1, s1) && OnlyGo(run1, c) && c < |s1.cpus| && s1.cpus[c].pc.Idle?
    ensures OnTop(s1.cpus[c], l) && Enabled(s1, c, Release(l)) && Holding(s1, c, l)
    ensures Reaches(Do(s1, c, Release(l)), run2, s2) && OnlyGo(run2, c) ==>
              c < |s2.cpus| && Steps(run2, c) <= 3 && (Steps(run2, c) == 3 ==> s2.cpus[c].pc.Idle?)
    ensures Reaches(Do(s1, c, Release(l)), run2, s2) && OnlyGo(run2, c) && c < |s2.cpus| && s2.cpus[c].pc.Idle? ==>
              && s2.cpus[c].held == s.cpus[c].held && s2.cpus[c].rank == s.cpus[c].rank
              && l < |s2.locks| && !Holding(s2, c, l)
  {
    Unlockable(s0, run, s, c, l, run1, s1);
    var before := run + ([(c, Acquire(l))] + run1);
    if Reaches(Do(s1, c, Release(l)), run2, s2) && OnlyGo(run2, c) { StepsLeft(Do(s1, c, Release(l)), run2, s2, c); }
    if Reaches(Do(s1, c, Release(l)), run2, s2) && OnlyGo(run2, c) && c < |s2.cpus| && s2.cpus[c].pc.Idle? {
      Unlocks(s0, before, s1, c, l, s.cpus[c].held, run2, s2);
      RankIsUnion(s0, run, s, c);
      SameRanks(s0, run, s);
      SameRanks(s0, before, s1);
    }
  }

  lemma Unlockable(s0: State, run: seq<(nat, Action)>, s: State, c: nat, l: nat, run1: seq<(nat, Action)>, s1: State)
    requires Start(s0) && Reaches(s0, run, s) && Enabled(s, c, Acquire(l))
    requires Reaches(Do(s, c, Acquire(l)), run1, s1) && OnlyGo(run1, c) && c < |s1.cpus| && s1.cpus[c].pc.Idle?
    ensures Reaches(s0, run + ([(c, Acquire(l))] + run1), s1)
    ensures s1.cpus[c].held == s.cpus[c].held + [l] && Enabled(s1, c, Release(l)) && Holding(s1, c, l)
  {
    hide Below;
    hide Join;
    hide Toggle;
    hide Twice;
    Acquires(Do(s, c, Acquire(l)), run1, s1, c, l);
    ReachesCall(s0, run, s, c, Acquire(l), run1, s1);
    SameRanks(Do(s, c, Acquire(l)), run1, s1);
    LastInFirstOut(s0, run + ([(c, Acquire(l))] + run1), s1, c, l);
    OwnerIsHolder(s0, run + ([(c, Acquire(l))] + run1), s1, c, l);
  }

  lemma Unlocks(s0: State, run: seq<(nat, Action)>, s: State, c: nat, l: nat, held: seq<nat>, run1: seq<(nat, Action)>,
                s1: State)
    requires Start(s0) && Reaches(s0, run, s) && Enabled(s, c, Release(l)) && s.cpus[c].held == held + [l]
    requires Reaches(Do(s, c, Release(l)), run1, s1) && OnlyGo(run1, c) && c < |s1.cpus| && s1.cpus[c].pc.Idle?
    ensures s1.cpus[c].held == held && s1.cpus[c].rank == Union(s.ranks, held) && l < |s1.locks| && !Holding(s1, c, l)
  {
    hide Below;
    hide Join;
    hide Toggle;
    hide Twice;
    hide Without;
    Releases(Do(s, c, Release(l)), run1, s1, c, l);
    ReachesCall(s0, run, s, c, Release(l), run1, s1);
    SameRanks(Do(s, c, Release(l)), run1, s1);
    StartInv(s0);
    ReachesInv(s0, run, s);
    assert CpuOk(s.ranks, s.cpus[c]);
    TopOnce(s.ranks, s.cpus[c].held);
    LessTop(s.cpus[c].held, l);
    assert s.cpus[c].held[..|held|] == held;
    RankIsUnion(s0, run + ([(c, Release(l))] + run1), s1, c);
    OwnerIsHolder(s0, run + ([(c, Release(l))] + run1), s1, c, l);
  }

  lemma {:induction false} SameRanks(s: State, run: seq<(nat, Action)>, s': State)
    requires Reaches(s, run, s')
    ensures s'.ranks == s.ranks && |s'.locks| == |s.locks| && |s'.cpus| == |s.cpus|
    decreases |run|
  {
    hide Below;
    hide Join;
    hide Toggle;
    hide Twice;
    if run != [] { SameRanks(Do(s, run[0].0, run[0].1), run[1..], s'); }
  }

  /** A free lock is taken in four steps, and given back in four, if no other CPU moves. */
  lemma Uncontended(s: State, c: nat, l: nat) returns (s': State)
    requires Enabled(s, c, Acquire(l)) && !s.locks[l].locked
    ensures Reaches(s, [(c, Acquire(l)), (c, Go), (c, Go), (c, Go)], s')
    ensures c < |s'.cpus| && s'.cpus[c].pc.Idle? && OnTop(s'.cpus[c], l)
  {
    hide Below;
    hide Join;
    hide Toggle;
    hide Twice;
    var s1 := Do(s, c, Acquire(l));
    s' := ThreeGo(s1, c);
    assert [(c, Acquire(l)), (c, Go), (c, Go), (c, Go)][1..] == [(c, Go), (c, Go), (c, Go)];
  }

  lemma ThreeGo(s: State, c: nat) returns (s': State)
    requires c < |s.cpus| && (s.cpus[c].pc.Spinning? || s.cpus[c].pc.Leaving?) && s.cpus[c].pc.lock < |s.locks|
    requires s.cpus[c].pc.Spinning? ==> !s.locks[s.cpus[c].pc.lock].locked
    ensures Reaches(s, [(c, Go), (c, Go), (c, Go)], s') && c < |s'.cpus| && s'.cpus[c].pc.Idle?
    ensures s.cpus[c].pc.Spinning? ==> OnTop(s'.cpus[c], s.cpus[c].pc.lock)
  {
    hide Below;
    hide Join;
    hide Toggle;
    hide Twice;
    var s1 := Do(s, c, Go);
    var s2 := Do(s1, c, Go);
    s' := Do(s2, c, Go);
    OneGo(s2, c);
    var two, three := [(c, Go), (c, Go)], [(c, Go), (c, Go), (c, Go)];
    assert three[1..] == two && two[1..] == [(c, Go)];
    hide Do;
    assert Reaches(s1, two, s');
  }

  lemma OneGo(s: State, c: nat)
    requires Enabled(s, c, Go)
    ensures Reaches(s, [(c, Go)], Do(s, c, Go))
  {
    hide Do;
    assert [(c, Go)][1..] == [];
  }

  lemma UnlockSteps(s: State, c: nat, l: nat) returns (s': State)
    requires Enabled(s, c, Release(l))
    ensures Reaches(s, [(c, Release(l)), (c, Go), (c, Go), (c, Go)], s')
    ensures c < |s'.cpus| && s'.cpus[c].pc.Idle?
  {
    hide Below;
    hide Join;
    hide Toggle;
    hide Twice;
    s' := ThreeGo(Do(s, c, Release(l)), c);
    assert [(c, Release(l)), (c, Go), (c, Go), (c, Go)][1..] == [(c, Go), (c, Go), (c, Go)];
  }

  /** CPU c spins on a lock that CPU d holds. */
  predicate WaitsFor(s: State, c: nat, d: nat) {
    c < |s.cpus| && d < |s.cpus| && s.cpus[c].pc.Spinning? && s.cpus[c].pc.lock in s.cpus[d].held
  }

  /** Along a chain of waiting CPUs the ranks they wait for go up. */
  lemma WaitsUp(s: State, c: nat, d: nat)
    requires Inv(s) && WaitsFor(s, c, d) && s.cpus[d].pc.Spinning?
    ensures Below(Rank(s.ranks, s.cpus[c].pc.lock), Rank(s.ranks, s.cpus[d].pc.lock))
  {
    hide Below;
    hide Join;
    hide Toggle;
    hide Twice;
    hide PowerOfTwo;
    assert CpuOk(s.ranks, s.cpus[d]);
    var w, u := s.cpus[c].pc.lock, s.cpus[d];
    UnionGe(s.ranks, u.held, w);
    BelowTrans(Rank(s.ranks, w), u.rank, Rank(s.ranks, u.pc.lock));
  }

  lemma {:induction false} ChainUp(s: State, cs: seq<nat>, i: nat)
    requires Inv(s) && 0 < i < |cs| && forall j :: 0 <= j < |cs| - 1 ==> WaitsFor(s, cs[j], cs[j + 1])
    requires cs[|cs| - 1] < |s.cpus| && s.cpus[cs[|cs| - 1]].pc.Spinning?
    ensures cs[0] < |s.cpus| && cs[i] < |s.cpus| && s.cpus[cs[0]].pc.Spinning? && s.cpus[cs[i]].pc.Spinning?
    ensures Below(Rank(s.ranks, s.cpus[cs[0]].pc.lock), Rank(s.ranks, s.cpus[cs[i]].pc.lock))
    decreases i
  {
    hide Below;
    hide Join;
    hide Toggle;
    hide Twice;
    hide PowerOfTwo;
    hide Inv;
    assert WaitsFor(s, cs[0], cs[1]) && WaitsFor(s, cs[i - 1], cs[i]);
    assert i < |cs| - 1 ==> WaitsFor(s, cs[i], cs[i + 1]);
    WaitsUp(s, cs[i - 1], cs[i]);
    if i > 1 {
      ChainUp(s, cs, i - 1);
      BelowAsym(Rank(s.ranks, s.cpus[cs[0]].pc.lock), Rank(s.ranks, s.cpus[cs[i - 1]].pc.lock));
      BelowTrans(Rank(s.ranks, s.cpus[cs[0]].pc.lock), Rank(s.ranks, s.cpus[cs[i - 1]].pc.lock),
                 Rank(s.ranks, s.cpus[cs[i]].pc.lock));
    }
  }

  /** No deadlock: no CPUs wait for each other's locks in a circle. */
  lemma NoCircle(s0: State, run: seq<(nat, Action)>, s: State, cs: seq<nat>)
    requires Start(s0) && Reaches(s0, run, s) && |cs| > 1
    ensures !(cs[0] == cs[|cs| - 1] && forall j :: 0 <= j < |cs| - 1 ==> WaitsFor(s, cs[j], cs[j + 1]))
  {
    hide Below;
    hide Join;
    hide Toggle;
    hide Twice;
    hide PowerOfTwo;
    StartInv(s0);
    ReachesInv(s0, run, s);
    hide Inv;
    if cs[0] == cs[|cs| - 1] && forall j :: 0 <= j < |cs| - 1 ==> WaitsFor(s, cs[j], cs[j + 1]) {
      assert WaitsFor(s, cs[0], cs[1]);
      ChainUp(s, cs, |cs| - 1);
      BelowAsym(Rank(s.ranks, s.cpus[cs[0]].pc.lock), Rank(s.ranks, s.cpus[cs[0]].pc.lock));
    }
  }

  /** CPU c can do nothing but spin. */
  predicate Blocked(s: State, c: nat)
    requires c < |s.cpus|
  {
    s.cpus[c].pc.Spinning? && s.cpus[c].pc.lock < |s.locks| && s.locks[s.cpus[c].pc.lock].locked
  }

  function Room(r: bv64): bv64 { r ^ 0xFFFF_FFFF_FFFF_FFFF }

  lemma RoomLess(x: bv64, y: bv64)
    requires Below(x, y)
    ensures Room(y) < Room(x)
  {
  }

  /** From a CPU that spins, following the locks leads to one that does not. */
  lemma {:induction false} Mover(s: State, c: nat) returns (d: nat)
    requires Inv(s) && c < |s.cpus|
    ensures d < |s.cpus| && !Blocked(s, d)
    decreases if Blocked(s, c) then 1 else 0, if Blocked(s, c) then Room(Rank(s.ranks, s.cpus[c].pc.lock)) else 0
  {
    hide Below;
    hide Join;
    hide Toggle;
    hide Twice;
    hide PowerOfTwo;
    hide Room;
    d := c;
    if Blocked(s, c) {
      var l := s.cpus[c].pc.lock;
      assert LockOk(s, l);
      d :| 0 <= d < |s.cpus| && l in s.cpus[d].held;
      assert WaitsFor(s, c, d);
      if Blocked(s, d) {
        WaitsUp(s, c, d);
        RoomLess(Rank(s.ranks, l), Rank(s.ranks, s.cpus[d].pc.lock));
        d := Mover(s, d);
      }
    }
  }

  /** However the locks are taken, some CPU is not held up. */
  lemma SomeoneMoves(s0: State, run: seq<(nat, Action)>, s: State)
    requires Start(s0) && Reaches(s0, run, s) && |s.cpus| > 0
    ensures exists c :: 0 <= c < |s.cpus| && !Blocked(s, c)
  {
    hide Below;
    hide Join;
    hide Toggle;
    hide Twice;
    hide PowerOfTwo;
    StartInv(s0);
    ReachesInv(s0, run, s);
    var c := Mover(s, 0);
  }

  /** Why 2^63 is left out: a lock of that rank can be taken, but never be released. */
  lemma TopRankStuck(s: State, c: nat, l: nat)
    requires c < |s.cpus| && l < |s.locks| && Rank(s.ranks, l) == TOP
    ensures !MayUnlock(s, c, l)
    ensures MayLock(s, c, l) <==> !Holding(s, c, l) && Below(s.cpus[c].rank, TOP)
  {
    assert TOP << 1 == 0;
  }
}
