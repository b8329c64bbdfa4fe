/** lib/list.c: circular doubly linked lists in memory, and the sequences they stand for. */
module CircularList {
  import opened Common

  /** struct list */
  datatype Link = Link(next: nat, prev: nat)

  type Memory = map<nat, Link>

  function After(c: seq<nat>, i: nat): nat
    requires i < |c|
  {
    if i + 1 == |c| then c[0] else c[i + 1]
  }

  function Before(c: seq<nat>, i: nat): nat
    requires i < |c|
  {
    if i == 0 then c[|c| - 1] else c[i - 1]
  }

  ghost predicate LinkOk(mem: Memory, c: seq<nat>, i: nat)
    requires i < |c|
  {
    c[i] in mem && mem[c[i]] == Link(After(c, i), Before(c, i))
  }

  /** The nodes c are linked in a circle, in this order. */
  ghost predicate Ring(mem: Memory, c: seq<nat>) {
    c != [] && Distinct(c) && forall i: nat {:trigger LinkOk(mem, c, i)} :: i < |c| ==> LinkOk(mem, c, i)
  }

  /** The list at head holds the nodes s. */
  ghost predicate IsList(mem: Memory, head: nat, s: seq<nat>) { Ring(mem, [head] + s) }

  /** Every list without a node of c is as it was. */
  ghost predicate Undisturbed(mem: Memory, mem': Memory, c: seq<nat>) {
    forall d: seq<nat> {:trigger Ring(mem', d)} :: Ring(mem, d) && (forall x :: x in d ==> x !in c) ==> Ring(mem', d)
  }

  /** Lists are independent of memory outside them. */
  lemma RingFrame(mem: Memory, mem': Memory, c: seq<nat>)
    requires forall x :: x in mem && x !in c ==> x in mem' && mem'[x] == mem[x]
    ensures Undisturbed(mem, mem', c)
  {
    forall d: seq<nat> | Ring(mem, d) && (forall x :: x in d ==> x !in c) ensures Ring(mem', d) {
      forall i: nat | i < |d| ensures LinkOk(mem', d, i) { assert LinkOk(mem, d, i); }
    }
  }

  function Inserted(c: seq<nat>, k: nat, x: nat): seq<nat>
    requires k <= |c|
  {
    c[..k] + [x] + c[k..]
  }

  function Removed(c: seq<nat>, k: nat): seq<nat>
    requires k < |c|
  {
    c[..k] + c[k + 1..]
  }

  lemma InsertedAt(c: seq<nat>, k: nat, x: nat, i: nat)
    requires k <= |c| && i <= |c|
    ensures Inserted(c, k, x)[i] == if i < k then c[i] else if i == k then x else c[i - 1]
  {
  }

  lemma InsertedDistinct(c: seq<nat>, k: nat, x: nat)
    requires k <= |c| && Distinct(c) && x !in c
    ensures Distinct(Inserted(c, k, x))
  {
    var d := Inserted(c, k, x);
    forall i, j | 0 <= i < j < |d| ensures d[i] != d[j] {
      InsertedAt(c, k, x, i);
      InsertedAt(c, k, x, j);
    }
  }

  /** Memory after a node x has been linked in behind position k. */
  ghost predicate LinkedIn(mem: Memory, mem': Memory, c: seq<nat>, k: nat, x: nat)
    requires k < |c|
  {
    var a, b := c[k], After(c, k);
    && x in mem' && mem'[x] == Link(b, a) && a in mem && b in mem && a in mem' && b in mem'
    && (if a == b then mem'[a] == Link(x, x)
        else mem'[a] == mem[a].(next := x) && mem'[b] == mem[b].(prev := x))
    && (forall y :: y in mem && y != a && y != b && y != x ==> y in mem' && mem'[y] == mem[y])
  }

  lemma LinkedInRing(mem: Memory, mem': Memory, c: seq<nat>, k: nat, x: nat)
    requires Ring(mem, c) && k < |c| && x !in c && LinkedIn(mem, mem', c, k, x)
    ensures Ring(mem', Inserted(c, k + 1, x))
  {
    var d := Inserted(c, k + 1, x);
    InsertedDistinct(c, k + 1, x);
    forall i: nat | i < |d| ensures LinkOk(mem', d, i) { LinkedInAt(mem, mem', c, k, x, i); }
  }

  lemma LinkedInAt(mem: Memory, mem': Memory, c: seq<nat>, k: nat, x: nat, i: nat)
    requires Ring(mem, c) && k < |c| && x !in c && LinkedIn(mem, mem', c, k, x) && i <= |c|
    ensures LinkOk(mem', Inserted(c, k + 1, x), i)
  {
    var d, n := Inserted(c, k + 1, x), |c|;
    forall j | 0 <= j <= n ensures d[j] == if j <= k then c[j] else if j == k + 1 then x else c[j - 1]
    { InsertedAt(c, k + 1, x, j); }
    if i <= k {
      assert LinkOk(mem, c, i);
    } else if i > k + 1 {
      assert LinkOk(mem, c, i - 1);
    }
  }

  /** Memory after the node at position k has been taken out. */
  ghost predicate TakenOut(mem: Memory, mem': Memory, c: seq<nat>, k: nat)
    requires k < |c|
  {
    var x, a, b := c[k], Before(c, k), After(c, k);
    && x in mem' && mem'[x] == Link(x, x) && a in mem && b in mem && a in mem' && b in mem'
    && (if a == b then a != x ==> mem'[a] == Link(a, a)
        else mem'[a] == mem[a].(next := b) && mem'[b] == mem[b].(prev := a))
    && (forall y :: y in mem && y != a && y != b && y != x ==> y in mem' && mem'[y] == mem[y])
  }

  lemma TakenOutRing(mem: Memory, mem': Memory, c: seq<nat>, k: nat)
    requires Ring(mem, c) && k < |c| && |c| > 1 && TakenOut(mem, mem', c, k)
    ensures Ring(mem', Removed(c, k)) && Ring(mem', [c[k]])
  {
    var d := Removed(c, k);
    forall i | 0 <= i < |d| ensures d[i] == if i < k then c[i] else c[i + 1] {}
    forall i: nat | i < |d| ensures LinkOk(mem', d, i) { TakenOutAt(mem, mem', c, k, i); }
    assert LinkOk(mem', [c[k]], 0);
  }

  lemma TakenOutAt(mem: Memory, mem': Memory, c: seq<nat>, k: nat, i: nat)
    requires Ring(mem, c) && k < |c| && |c| > 1 && TakenOut(mem, mem', c, k) && i < |c| - 1
    ensures LinkOk(mem', Removed(c, k), i)
  {
    var d := Removed(c, k);
    forall j | 0 <= j < |d| ensures d[j] == if j < k then c[j] else c[j + 1] {}
    var o := if i < k then i else i + 1;
    assert LinkOk(mem, c, o) && LinkOk(mem, c, k);
  }

  class Lists {
    var mem: Memory

    /** list_init */
    method Init(head: nat)
      modifies this
      ensures IsList(mem, head, []) && mem.Keys == old(mem.Keys) + {head}
      ensures forall x :: x in old(mem) && x != head ==> mem[x] == old(mem)[x]
      ensures Undisturbed(old(mem), mem, [head])
    {
      mem := mem[head := Link(head, head)];
      RingFrame(old(mem), mem, [head]);
      assert LinkOk(mem, [head], 0);
      assert [head] + [] == [head];
    }

    /** list_insert_after: node comes right behind position k of the circle. */
    method InsertAfter(after: nat, node: nat, ghost c: seq<nat>, ghost k: nat)
      requires Ring(mem, c) && k < |c| && c[k] == after && node !in c
      modifies this
      ensures Ring(mem, Inserted(c, k + 1, node)) && mem.Keys == old(mem.Keys) + {node}
      ensures forall x :: x in old(mem) && x !in c && x != node ==> mem[x] == old(mem)[x]
      ensures Undisturbed(old(mem), mem, c + [node])
    {
      ghost var mem0 := mem;
      AroundPlace(mem, c, k);
      var next := mem[after].next;
      mem := mem[node := Link(next, after)];
      mem := mem[next := mem[next].(prev := node)];
      mem := mem[after := mem[after].(next := node)];
      LinkedInRing(mem0, mem, c, k, node);
      RingFrame(mem0, mem, c + [node]);
    }

    /** list_insert_before: node comes right before position k of the circle. */
    method InsertBefore(before: nat, node: nat, ghost c: seq<nat>, ghost k: nat)
      requires Ring(mem, c) && k < |c| && c[k] == before && node !in c
      modifies this
      ensures Ring(mem, Inserted(c, if k == 0 then |c| else k, node)) && mem.Keys == old(mem.Keys) + {node}
      ensures forall x :: x in old(mem) && x !in c && x != node ==> mem[x] == old(mem)[x]
      ensures Undisturbed(old(mem), mem, c + [node])
    {
      ghost var mem0, j := mem, if k == 0 then |c| - 1 else k - 1;
      AroundPlace(mem, c, k);
      AroundPlace(mem, c, j);
      var prev := mem[before].prev;
      mem := mem[node := Link(before, prev)];
      mem := mem[prev := mem[prev].(next := node)];
      mem := mem[before := mem[before].(prev := node)];
      LinkedInRing(mem0, mem, c, j, node);
      RingFrame(mem0, mem, c + [node]);
    }

    /** list_del: the node leaves its list and is left as a list of its own. */
    method Del(node: nat, ghost c: seq<nat>, ghost k: nat)
      requires Ring(mem, c) && k < |c| && c[k] == node && |c| > 1
      modifies this
      ensures Ring(mem, Removed(c, k)) && IsList(mem, node, []) && mem.Keys == old(mem.Keys)
      ensures forall x :: x in old(mem) && x !in c ==> mem[x] == old(mem)[x]
      ensures Undisturbed(old(mem), mem, c)
    {
      ghost var mem0 := mem;
      AroundPlace(mem, c, k);
      AroundPlace(mem, c, if k == 0 then |c| - 1 else k - 1);
      var next, prev := mem[node].next, mem[node].prev;
      mem := mem[prev := mem[prev].(next := next)];
      mem := mem[next := mem[next].(prev := prev)];
      mem := mem[node := Link(node, node)];
      TakenOutRing(mem0, mem, c, k);
      RingFrame(mem0, mem, c);
      assert [node] + [] == [node];
    }

    /** list_add */
    method Add(head: nat, node: nat, ghost s: seq<nat>)
      requires IsList(mem, head, s) && node !in [head] + s
      modifies this
      ensures IsList(mem, head, [node] + s) && mem.Keys == old(mem.Keys) + {node}
      ensures forall x :: x in old(mem) && x !in [head] + s && x != node ==> mem[x] == old(mem)[x]
      ensures Undisturbed(old(mem), mem, [head] + s + [node])
    {
      assert Inserted([head] + s, 1, node) == [head] + ([node] + s);
      InsertAfter(head, node, [head] + s, 0);
    }

    /** list_add_tail */
    method AddTail(head: nat, node: nat, ghost s: seq<nat>)
      requires IsList(mem, head, s) && node !in [head] + s
      modifies this
      ensures IsList(mem, head, s + [node]) && mem.Keys == old(mem.Keys) + {node}
      ensures forall x :: x in old(mem) && x !in [head] + s && x != node ==> mem[x] == old(mem)[x]
      ensures Undisturbed(old(mem), mem, [head] + s + [node])
    {
      assert Inserted([head] + s, |s| + 1, node) == [head] + (s + [node]);
      InsertBefore(head, node, [head] + s, 0);
    }

    /** list_pop */
    method Pop(head: nat, ghost s: seq<nat>) returns (r: Option<nat>)
      requires IsList(mem, head, s)
      modifies this
      ensures if s == [] then r.None? && mem == old(mem)
              else r == Some(s[0]) && IsList(mem, head, s[1..]) && IsList(mem, s[0], []) && mem.Keys == old(mem.Keys)
      ensures forall x :: x in old(mem) && x !in [head] + s ==> x in mem && mem[x] == old(mem)[x]
      ensures Undisturbed(old(mem), mem, [head] + s)
    {
      ghost var c := [head] + s;
      AroundPlace(mem, c, 0);
      var node := mem[head].next;
      if node == head {
        return None;
      }
      assert Removed(c, 1) == [head] + s[1..];
      Del(node, c, 1);
      r := Some(node);
    }

    /** list_pop_tail */
    method PopTail(head: nat, ghost s: seq<nat>) returns (r: Option<nat>)
      requires IsList(mem, head, s)
      modifies this
      ensures if s == [] then r.None? && mem == old(mem)
              else var n := |s| - 1;
                r == Some(s[n]) && IsList(mem, head, s[..n]) && IsList(mem, s[n], []) && mem.Keys == old(mem.Keys)
      ensures forall x :: x in old(mem) && x !in [head] + s ==> x in mem && mem[x] == old(mem)[x]
      ensures Undisturbed(old(mem), mem, [head] + s)
    {
      ghost var c := [head] + s;
      AroundPlace(mem, c, 0);
      var node := mem[head].prev;
      if node == head {
        return None;
      }
      assert Removed(c, |s|) == [head] + s[..|s| - 1];
      Del(node, c, |s|);
      r := Some(node);
    }

    /** list_next and list_prev */
    method Neighbour(head: nat, node: nat, back: bool, ghost s: seq<nat>, ghost k: nat) returns (r: Option<nat>)
      requires IsList(mem, head, s) && k < |s| && s[k] == node
      ensures !back ==> r == if k + 1 < |s| then Some(s[k + 1]) else None
      ensures back ==> r == if k > 0 then Some(s[k - 1]) else None
    {
      ghost var c := [head] + s;
      AroundPlace(mem, c, k + 1);
      assert c[0] == head && forall j :: 0 <= j < |s| ==> c[j + 1] == s[j];
      forall j | 0 <= j < |s| ensures s[j] != head { assert c[j + 1] == s[j]; }
      var x := if back then mem[node].prev else mem[node].next;
      r := if x == head then None else Some(x);
    }
  }

  lemma AroundPlace(mem: Memory, c: seq<nat>, k: nat)
    requires Ring(mem, c) && k < |c|
    ensures c[k] in mem && mem[c[k]] == Link(After(c, k), Before(c, k)) && After(c, k) in mem && Before(c, k) in mem
    ensures After(c, k) in c && Before(c, k) in c && (|c| > 1 ==> After(c, k) != c[k] && Before(c, k) != c[k])
    ensures var a := After(c, k); mem[a].prev == c[k]
    ensures var b := Before(c, k); mem[b].next == c[k]
  {
    assert LinkOk(mem, c, k);
    assert LinkOk(mem, c, if k + 1 == |c| then 0 else k + 1);
    assert LinkOk(mem, c, if k == 0 then |c| - 1 else k - 1);
  }
}
