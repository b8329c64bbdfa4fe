/** kernel/sched/sched.c: the run queues of one CPU, with the run-queue lock obtained. */
module Sched {
  import opened Common

  // ---- The order in which tasks come up -----------------------------------------------------------

  function Reversed(s: seq<nat>): seq<nat> { if s == [] then [] else Reversed(s[1..]) + [s[0]] }

  lemma {:induction false} ReversedSnoc(s: seq<nat>, x: nat)
    ensures Reversed(s + [x]) == [x] + Reversed(s)
    decreases |s|
  {
    if s == [] {
      assert s + [x] == [x];
    } else {
      assert (s + [x])[1..] == s[1..] + [x];
      ReversedSnoc(s[1..], x);
    }
  }

  /** The first of the tasks s that is runnable, or |s|. */
  function FirstAlive(s: seq<nat>, dead: set<nat>): (k: nat)
    ensures k <= |s| && (k < |s| ==> s[k] !in dead) && forall i :: 0 <= i < k ==> s[i] in dead
  {
    if s == [] then 0 else if s[0] !in dead then 0 else 1 + FirstAlive(s[1..], dead)
  }

  /** One CPU: the current task, the others in the order in which they will run, and the tasks
      that are not runnable any more. */
  datatype Cpu = Cpu(cur: Option<nat>, queue: seq<nat>, dead: set<nat>)

  /** Everyone in line, if the current task were to yield now. */
  function Line(c: Cpu): seq<nat> { c.queue + if c.cur.Some? && c.cur.value !in c.dead then [c.cur.value] else [] }

  /** sched_yield runs the first runnable task in line. */
  function Yielded(c: Cpu): Cpu {
    var s := Line(c);
    var k := FirstAlive(s, c.dead);
    if k < |s| then Cpu(Some(s[k]), s[k + 1..], c.dead) else Cpu(None, [], c.dead)
  }

  class Scheduler {
    var runq: seq<nat>     // this_cpu->runq
    var nextq: seq<nat>    // this_cpu->nextq
    var cur: Option<nat>   // cur_task
    var dead: set<nat>     // tasks whose status is neither TASK_RUNNING nor TASK_RUNNABLE

    ghost function View(): Cpu
      reads this
    {
      Cpu(cur, Reversed(runq) + Reversed(nextq), dead)
    }

    /** sched_yield, the loop that takes tasks from the run queue and drops those that are not runnable. */
    method PopRunnable() returns (ran: Option<nat>)
      modifies this`runq
      ensures var r := old(Reversed(runq)); var k := FirstAlive(r, dead);
              if k < |r| then ran == Some(r[k]) && Reversed(runq) == r[k + 1..] else ran.None? && runq == []
    {
      hide FirstAlive;
      hide Reversed;
      ghost var r, i := Reversed(runq), 0;
      ran := None;
      while runq != []
        invariant i <= |r| && Reversed(runq) == r[i..] && forall j :: 0 <= j < i ==> r[j] in dead
        decreases |runq|
      {
        var n := |runq| - 1;
        var task := runq[n];
        assert runq == runq[..n] + [task];
        ReversedSnoc(runq[..n], task);
        assert r[i] == r[i..][0] && r[i + 1..] == r[i..][1..];
        runq := runq[..n];
        if task in dead {
          i := i + 1;
          continue;
        }
        FirstAliveIs(r, dead, i);
        return Some(task);
      }
      ReversedEmpty();
      FirstAliveIs(r, dead, i);
    }

    /** sched_yield, with the lock and an empty run queue: the tasks that have had their turn move over. */
    method Refill()
      requires runq == []
      modifies this`runq, this`nextq
      ensures runq == old(nextq) && nextq == []
    {
      while nextq != []
        invariant nextq + runq == old(nextq)
        decreases |nextq|
      {
        var n := |nextq| - 1;
        var node := nextq[n];
        nextq := nextq[..n];
        runq := [node] + runq;
      }
    }

    /** sched_yield, up to task_run. Without a runnable task it keeps trying; here it stops. */
    method Yield() returns (ran: Option<nat>)
      modifies this
      ensures View() == Yielded(old(View())) && ran == cur
    {
      hide FirstAlive;
      hide Reversed;
      hide Yielded;
      ghost var c := View();
      if cur.Some? && cur.value !in dead {
        ReversedCons(cur.value, nextq);
        nextq := [cur.value] + nextq;
        cur := None;
      }
      ghost var r, t := Reversed(runq), Reversed(nextq);
      assert Line(c) == r + t;
      hide Line;
      YieldedIs(c, r, t);
      ran := PopRunnable();
      if ran.None? {
        Refill();
        ReversedEmpty();
        ran := PopRunnable();
      }
      cur := ran;
    }
  }

  lemma YieldedIs(c: Cpu, r: seq<nat>, t: seq<nat>)
    requires Line(c) == r + t
    ensures Yielded(c) == Taken(r, t, FirstAlive(r, c.dead), FirstAlive(t, c.dead), c.dead)
  {
    hide FirstAlive;
    hide Line;
    FirstAliveConcat(r, t, c.dead);
    var j, i := FirstAlive(r, c.dead), FirstAlive(t, c.dead);
    TakenIs(r, t, j, i, c.dead);
    hide Taken;
  }

  /** The CPU after it has taken task j of the run queue r, or task i of the next queue t. */
  function Taken(r: seq<nat>, t: seq<nat>, j: nat, i: nat, dead: set<nat>): Cpu {
    if j < |r| then Cpu(Some(r[j]), r[j + 1..] + t, dead)
    else if i < |t| then Cpu(Some(t[i]), t[i + 1..] + [], dead)
    else Cpu(None, [] + [], dead)
  }

  lemma TakenIs(r: seq<nat>, t: seq<nat>, j: nat, i: nat, dead: set<nat>)
    requires j <= |r| && i <= |t|
    ensures var s, k := r + t, if j < |r| then j else |r| + i;
            Taken(r, t, j, i, dead) == if k < |s| then Cpu(Some(s[k]), s[k + 1..], dead) else Cpu(None, [], dead)
  {
    var s, k := r + t, if j < |r| then j else |r| + i;
    if j < |r| {
      assert s[j + 1..] == r[j + 1..] + t;
    } else if i < |t| {
      assert s[k + 1..] == t[i + 1..] + [];
    }
  }

  lemma ReversedEmpty()
    ensures Reversed([]) == []
  {
  }

  lemma ReversedCons(x: nat, s: seq<nat>)
    ensures Reversed([x] + s) == Reversed(s) + [x]
  {
    assert ([x] + s)[1..] == s;
  }

  lemma {:induction false} FirstAliveIs(s: seq<nat>, dead: set<nat>, k: nat)
    requires k <= |s| && (k < |s| ==> s[k] !in dead) && forall i :: 0 <= i < k ==> s[i] in dead
    ensures FirstAlive(s, dead) == k
    decreases k
  {
    if k > 0 { FirstAliveIs(s[1..], dead, k - 1); }
  }

  lemma FirstAliveConcat(s: seq<nat>, t: seq<nat>, dead: set<nat>)
    ensures FirstAlive(s + t, dead) == var k := FirstAlive(s, dead); if k < |s| then k else |s| + FirstAlive(t, dead)
  {
    var k := FirstAlive(s, dead);
    FirstAliveIs(s + t, dead, if k < |s| then k else |s| + FirstAlive(t, dead));
  }

  // ---- Round robin ------------------------------------------------------------------------------------

  /** A timer tick or a yield, or the end of a task's being runnable. */
  datatype Event = Tick | Stop(task: nat)

  function After(c: Cpu, e: Event): Cpu {
    match e
    case Tick => Yielded(c)
    case Stop(t) => c.(dead := c.dead + {t})
  }

  /** The tasks that run, one for each tick, as long as there is one. */
  function Ran(c: Cpu, events: seq<Event>): seq<nat>
    decreases |events|
  {
    if events == [] then []
    else
      var d := After(c, events[0]);
      (if events[0].Tick? && d.cur.Some? then [d.cur.value] else []) + Ran(d, events[1..])
  }

  /** Nobody is in line twice. */
  ghost predicate Orderly(c: Cpu) { Distinct(c.queue + if c.cur.Some? then [c.cur.value] else []) }

  /** The runnable tasks of the CPU: the current one and those in line. */
  function Runnable(c: Cpu): set<nat> { set t | t in Line(c) && t !in c.dead }

  /** After a tick the line is turned: the task that runs goes to its end. */
  lemma TurnedLine(c: Cpu)
    requires Orderly(c) && FirstAlive(Line(c), c.dead) < |Line(c)|
    ensures var s, k := Line(c), FirstAlive(Line(c), c.dead);
            && Distinct(s) && Line(Yielded(c)) == s[k + 1..] + [s[k]] && Distinct(s[k + 1..] + [s[k]])
            && Yielded(c) == Cpu(Some(s[k]), s[k + 1..], c.dead)
  {
    LineDistinct(c);
    var s, k := Line(c), FirstAlive(Line(c), c.dead);
    hide FirstAlive;
    Turned(s, k);
    assert s[k] !in c.dead;
  }

  /** No runnable task gets lost, and none appears from nowhere. */
  lemma NobodyLost(c: Cpu, e: Event)
    requires Orderly(c)
    ensures Orderly(After(c, e))
    ensures Runnable(After(c, e)) == Runnable(c) - if e.Stop? then {e.task} else {}
  {
    if e.Tick? {
      var s, k := Line(c), FirstAlive(Line(c), c.dead);
      if k < |s| {
        TurnedLine(c);
        var d := Yielded(c);
        hide FirstAlive;
        hide Line;
        forall t ensures t in Runnable(d) <==> t in Runnable(c) { SameLine(s, k, c.dead, t); }
      } else {
        hide FirstAlive;
        forall t ensures t !in Runnable(c) { if t in s { var i :| 0 <= i < |s| && s[i] == t; } }
      }
    }
  }

  lemma SameLine(s: seq<nat>, k: nat, dead: set<nat>, t: nat)
    requires k < |s| && s[k] !in dead && forall i :: 0 <= i < k ==> s[i] in dead
    ensures t in s[k + 1..] + [s[k]] && t !in dead <==> t in s && t !in dead
  {
    var d := s[k + 1..] + [s[k]];
    if t in s && t !in dead {
      var i :| 0 <= i < |s| && s[i] == t;
      assert i == k || s[k + 1..][i - k - 1] == t;
    }
  }

  lemma LineDistinct(c: Cpu)
    requires Orderly(c)
    ensures Distinct(Line(c))
  {
    var s := c.queue + if c.cur.Some? then [c.cur.value] else [];
    forall i, j | 0 <= i < j < |Line(c)| ensures Line(c)[i] != Line(c)[j]
    { assert Line(c)[i] == s[i] && Line(c)[j] == s[j]; }
  }

  /** Dropping the first k tasks and sending task k to the end. */
  lemma Turned(s: seq<nat>, k: nat)
    requires Distinct(s) && k < |s|
    ensures Distinct(s[k + 1..] + [s[k]]) && forall i :: k < i < |s| ==> s[i] in s[k + 1..] + [s[k]]
  {
    var d := s[k + 1..] + [s[k]];
    forall i, j | 0 <= i < j < |d| ensures d[i] != d[j] { assert d[i] == s[k + 1 + i]; }
    forall i | k < i < |s| ensures s[i] in d { assert d[i - k - 1] == s[i]; }
  }

  function Count(s: seq<nat>, x: nat): nat { if s == [] then 0 else (if s[0] == x then 1 else 0) + Count(s[1..], x) }

  lemma TurnedAt(s: seq<nat>, k: nat, i: nat)
    requires Distinct(s) && k <= i < |s|
    ensures var d, n := s[k + 1..] + [s[k]], if i == k then |s| - k - 1 else i - k - 1;
            |d| == |s| - k && d[n] == s[i] && (s[k] == s[i] <==> i == k)
  {
  }

  /** After a tick those ahead have moved up, and the one that runs goes last. */
  lemma TickMoves(c: Cpu, x: nat)
    requires Orderly(c) && x in Line(c) && x !in c.dead
    ensures var d := Yielded(c); var s, k := Line(c), FirstAlive(Line(c), c.dead);
            && k <= Pos(s, x) && d.cur == Some(s[k]) && x in Line(d)
            && Pos(Line(d), x) == (if s[k] == x then |Line(d)| - 1 else Pos(s, x) - k - 1)
            && (s[k] == x <==> Pos(s, x) == k)
  {
    var d := Yielded(c);
    var s, k, i := Line(c), FirstAlive(Line(c), c.dead), Pos(Line(c), x);
    assert k <= i && k < |s|;
    TurnedLine(c);
    hide FirstAlive;
    hide Line;
    hide Yielded;
    hide Pos;
    TurnedAt(s, k, i);
    hide Distinct;
    PosIs(Line(d), if i == k then |s| - k - 1 else i - k - 1);
  }

  /** Whoever stops leaves the line only from its end. */
  lemma StopLine(c: Cpu, t: nat, i: nat)
    requires i < |Line(c)| && Line(c)[i] != t
    ensures var d := After(c, Stop(t)); i < |Line(d)| && Line(d)[i] == Line(c)[i]
  {
  }

  /** A task that stops being runnable does not hold the others up. */
  lemma StopMoves(c: Cpu, t: nat, x: nat)
    requires Orderly(c) && x in Line(c) && x != t
    ensures var d := After(c, Stop(t)); x in Line(d) && Pos(Line(d), x) == Pos(Line(c), x) && Orderly(d)
  {
    var d, s, i := After(c, Stop(t)), Line(c), Pos(Line(c), x);
    hide Pos;
    LineDistinct(d);
    hide Distinct;
    StopLine(c, t, i);
    hide Line;
    PosIs(Line(d), i);
  }

  /** A tick keeps the order of two tasks, unless one of them runs: that is the one ahead. */
  lemma TickOrder(c: Cpu, a: nat, b: nat)
    requires Orderly(c) && a != b && a in Line(c) && b in Line(c) && a !in c.dead && b !in c.dead
    ensures var d := Yielded(c);
            && d.cur.Some? && a in Line(d) && b in Line(d) && d.dead == c.dead && Orderly(d)
            && (d.cur.value == a ==> Pos(Line(c), a) <= Pos(Line(c), b))
            && (d.cur.value == b ==> Pos(Line(c), b) < Pos(Line(c), a) && Pos(Line(d), a) <= Pos(Line(d), b))
            && (d.cur.value != a && d.cur.value != b ==>
                  (Pos(Line(d), b) < Pos(Line(d), a) <==> Pos(Line(c), b) < Pos(Line(c), a)))
  {
    NobodyLost(c, Tick);
    TickMoves(c, a);
    TickMoves(c, b);
    assert Yielded(c).dead == c.dead;
    hide Line;
    hide FirstAlive;
    hide Yielded;
    hide Pos;
    hide Orderly;
    hide Runnable;
  }

  /** Until task a runs, task b runs once if it is ahead of a in line, and not at all otherwise. */
  lemma {:induction false} BetweenRuns(c: Cpu, events: seq<Event>, a: nat, b: nat, k: nat)
    requires Orderly(c) && a != b && a in Line(c) && b in Line(c) && a !in c.dead && b !in c.dead
    requires forall i :: 0 <= i < |events| ==> events[i] != Stop(a) && events[i] != Stop(b)
    requires k < |Ran(c, events)| && Ran(c, events)[k] == a && a !in Ran(c, events)[..k]
    ensures Count(Ran(c, events)[..k], b) == if Pos(Line(c), b) < Pos(Line(c), a) then 1 else 0
    decreases |events|
  {
    hide Line;
    hide Yielded;
    hide FirstAlive;
    hide Orderly;
    hide Pos;
    var d, rest, tr := After(c, events[0]), events[1..], Ran(c, events);
    if events[0].Stop? {
      StopMoves(c, events[0].task, a);
      StopMoves(c, events[0].task, b);
      assert tr == Ran(d, rest);
      BetweenRuns(d, rest, a, b, k);
    } else {
      TickOrder(c, a, b);
      var t, r := d.cur.value, Ran(d, rest);
      assert tr == [t] + r;
      hide Ran;
      if k == 0 {
        assert tr[..0] == [];
      } else {
        FirstOther(r, t, a, b, k);
        BetweenRuns(d, rest, a, b, k - 1);
      }
    }
  }

  lemma FirstOther(r: seq<nat>, t: nat, a: nat, b: nat, k: nat)
    requires 0 < k <= |r| && ([t] + r)[k] == a && a !in ([t] + r)[..k]
    ensures t != a && r[k - 1] == a && a !in r[..k - 1]
            && Count(([t] + r)[..k], b) == (if t == b then 1 else 0) + Count(r[..k - 1], b)
  {
    var s := ([t] + r)[..k];
    assert s[0] == t && s[1..] == r[..k - 1];
    forall x | x in r[..k - 1] ensures x in s { assert x in s[1..]; }
  }

  /** Round robin: between two runs of a task, every other task that stays runnable runs exactly once. */
  lemma RoundRobin(c: Cpu, events: seq<Event>, a: nat, b: nat, k: nat)
    requires Orderly(c) && c.cur == Some(a) && b in c.queue && a !in c.dead && b !in c.dead
    requires forall i :: 0 <= i < |events| ==> events[i] != Stop(a) && events[i] != Stop(b)
    requires k < |Ran(c, events)| && Ran(c, events)[k] == a && a !in Ran(c, events)[..k]
    ensures Count(Ran(c, events)[..k], b) == 1
  {
    var s, n := Line(c), |c.queue|;
    LineDistinct(c);
    assert s[n] == a;
    PosIs(s, n);
    var i :| 0 <= i < n && c.queue[i] == b;
    assert s[i] == b;
    PosIs(s, i);
    BetweenRuns(c, events, a, b, k);
  }

  function Ticks(events: seq<Event>): nat {
    if events == [] then 0 else (if events[0].Tick? then 1 else 0) + Ticks(events[1..])
  }

  /** Nobody waits longer than it takes everyone ahead to have a turn. */
  lemma {:induction false} TurnComes(c: Cpu, events: seq<Event>, a: nat)
    requires Orderly(c) && a in Line(c) && a !in c.dead && Ticks(events) > Pos(Line(c), a)
    requires forall i :: 0 <= i < |events| ==> events[i] != Stop(a)
    ensures a in Ran(c, events)
    decreases |events|
  {
    var d, rest := After(c, events[0]), events[1..];
    NobodyLost(c, events[0]);
    if events[0].Stop? {
      StopMoves(c, events[0].task, a);
      TurnComes(d, rest, a);
    } else {
      TickMoves(c, a);
      if d.cur.value != a { TurnComes(d, rest, a); }
    }
  }
}
