/** lib/rbtree.c: nodes in memory, linked by pointers, and the trees they stand for. */
module RbTree {
  import Orders

  // ---- Trees ------------------------------------------------------------------------------------

  const NULL: nat := 0

  datatype Tree = Leaf | Node(x: nat, red: bool, left: Tree, right: Tree)

  /** struct rb_node; pointers are addresses, and a direction is true for RB_RIGHT. */
  datatype RbNode = RbNode(parent: nat, left: nat, right: nat, red: bool)

  function Child(n: RbNode, d: bool): nat { if d then n.right else n.left }

  function SetChild(n: RbNode, d: bool, c: nat): RbNode { if d then n.(right := c) else n.(left := c) }

  function Kid(t: Tree, d: bool): Tree
    requires t.Node?
  {
    if d then t.right else t.left
  }

  /** Node x with subtree t in direction d and subtree o in the other. */
  function Make(x: nat, red: bool, d: bool, t: Tree, o: Tree): Tree {
    if d then Node(x, red, o, t) else Node(x, red, t, o)
  }

  function Inorder(t: Tree): seq<nat> {
    match t
    case Leaf => []
    case Node(x, _, l, r) => Inorder(l) + [x] + Inorder(r)
  }

  function Ids(t: Tree): set<nat> {
    match t
    case Leaf => {}
    case Node(x, _, l, r) => {x} + Ids(l) + Ids(r)
  }

  /** The way from the root down to a subtree: at node x it goes in direction d, past subtree o. */
  datatype Path = Top | Step(x: nat, red: bool, d: bool, o: Tree, up: Path)

  function Plug(p: Path, t: Tree): Tree
    decreases p
  {
    match p
    case Top => t
    case Step(x, red, d, o, up) => Plug(up, Make(x, red, d, t, o))
  }

  function Before(p: Path): seq<nat> {
    match p
    case Top => []
    case Step(x, _, d, o, up) => Before(up) + if d then Inorder(o) + [x] else []
  }

  function After(p: Path): seq<nat> {
    match p
    case Top => []
    case Step(x, _, d, o, up) => (if d then [] else [x] + Inorder(o)) + After(up)
  }

  function PathIds(p: Path): set<nat> {
    match p
    case Top => {}
    case Step(x, _, _, o, up) => {x} + Ids(o) + PathIds(up)
  }

  function Ptr(p: Path): nat { if p.Top? then NULL else p.x }

  lemma {:induction false} PlugInorder(p: Path, t: Tree)
    ensures Inorder(Plug(p, t)) == Before(p) + Inorder(t) + After(p)
    decreases p
  {
    if p.Step? {
      PlugInorder(p.up, Make(p.x, p.red, p.d, t, p.o));
      if p.d { SeqRight(Before(p.up), Inorder(p.o), p.x, Inorder(t), After(p.up)); }
      else { SeqLeft(Before(p.up), Inorder(t), p.x, Inorder(p.o), After(p.up)); }
    }
  }

  lemma SeqRight(a: seq<nat>, o: seq<nat>, x: nat, m: seq<nat>, b: seq<nat>)
    ensures a + (o + [x] + m) + b == (a + (o + [x])) + m + ([] + b)
  {
  }

  lemma SeqLeft(a: seq<nat>, m: seq<nat>, x: nat, o: seq<nat>, b: seq<nat>)
    ensures a + (m + [x] + o) + b == (a + []) + m + (([x] + o) + b)
  {
  }

  lemma SeqDrop(a: seq<nat>, l: seq<nat>, x: nat, r: seq<nat>, b: seq<nat>)
    ensures var s, k := a + (l + [x] + r) + b, |a| + |l|; k < |s| && a + (l + r) + b == s[..k] + s[k + 1..]
  {
    var s, k := a + (l + [x] + r) + b, |a| + |l|;
    assert s[..k] == a + l;
    assert s[k + 1..] == r + b;
  }

  lemma {:induction false} PlugIds(p: Path, t: Tree)
    ensures Ids(Plug(p, t)) == PathIds(p) + Ids(t)
    decreases p
  {
    if p.Step? { PlugIds(p.up, Make(p.x, p.red, p.d, t, p.o)); }
  }

  // ---- Trees in memory ----------------------------------------------------------------------------

  type Memory = map<nat, RbNode>

  /** Pointer ptr stands for tree t, whose parent link is par. */
  ghost predicate Rep(mem: Memory, t: Tree, par: nat, ptr: nat) {
    match t
    case Leaf => ptr == NULL
    case Node(x, red, l, r) =>
      && ptr == x != NULL && x in mem && mem[x].parent == par && mem[x].red == red
      && x !in Ids(l) && x !in Ids(r) && Ids(l) !! Ids(r)
      && Rep(mem, l, x, mem[x].left) && Rep(mem, r, x, mem[x].right)
  }

  /** Going down path p from root arrives at pointer ptr. */
  ghost predicate PathRep(mem: Memory, p: Path, root: nat, ptr: nat)
    decreases p
  {
    match p
    case Top => root == ptr
    case Step(x, red, d, o, up) =>
      && x != NULL && x in mem && mem[x].parent == Ptr(up) && mem[x].red == red && Child(mem[x], d) == ptr
      && x !in Ids(o) && x !in PathIds(up) && Ids(o) !! PathIds(up)
      && Rep(mem, o, x, Child(mem[x], !d)) && PathRep(mem, up, root, x)
  }

  /** The whole tree, seen from one of its subtrees. */
  ghost predicate At(mem: Memory, root: nat, p: Path, t: Tree, ptr: nat) {
    PathRep(mem, p, root, ptr) && Rep(mem, t, Ptr(p), ptr) && PathIds(p) !! Ids(t)
  }

  lemma {:induction false} RepFrame(mem: Memory, mem': Memory, t: Tree, par: nat, ptr: nat)
    requires Rep(mem, t, par, ptr) && forall i :: i in Ids(t) && i in mem ==> i in mem' && mem'[i] == mem[i]
    ensures Rep(mem', t, par, ptr)
    decreases t
  {
    if t.Node? {
      RepFrame(mem, mem', t.left, t.x, mem[t.x].left);
      RepFrame(mem, mem', t.right, t.x, mem[t.x].right);
    }
  }

  lemma {:induction false} PathFrame(mem: Memory, mem': Memory, p: Path, root: nat, ptr: nat)
    requires PathRep(mem, p, root, ptr) && forall i :: i in PathIds(p) && i in mem ==> i in mem' && mem'[i] == mem[i]
    ensures PathRep(mem', p, root, ptr)
    decreases p
  {
    if p.Step? {
      RepFrame(mem, mem', p.o, p.x, Child(mem[p.x], !p.d));
      PathFrame(mem, mem', p.up, root, p.x);
    }
  }

  lemma Kids(mem: Memory, t: Tree, par: nat, ptr: nat, d: bool)
    requires Rep(mem, t, par, ptr) && t.Node?
    ensures ptr == t.x != NULL && ptr in mem && mem[ptr].parent == par && mem[ptr].red == t.red
    ensures Rep(mem, Kid(t, d), ptr, Child(mem[ptr], d)) && Rep(mem, Kid(t, !d), ptr, Child(mem[ptr], !d))
    ensures Ids(t) == {ptr} + Ids(Kid(t, d)) + Ids(Kid(t, !d))
    ensures ptr !in Ids(Kid(t, d)) && ptr !in Ids(Kid(t, !d)) && Ids(Kid(t, d)) !! Ids(Kid(t, !d))
  {
  }

  lemma MakeRep(mem: Memory, x: nat, red: bool, d: bool, a: Tree, b: Tree, par: nat)
    requires x != NULL && x in mem && mem[x].parent == par && mem[x].red == red
    requires Rep(mem, a, x, Child(mem[x], d)) && Rep(mem, b, x, Child(mem[x], !d))
    requires x !in Ids(a) && x !in Ids(b) && Ids(a) !! Ids(b)
    ensures Rep(mem, Make(x, red, d, a, b), par, x) && Ids(Make(x, red, d, a, b)) == {x} + Ids(a) + Ids(b)
  {
  }

  /** The address of a subtree. */
  lemma PtrOf(mem: Memory, t: Tree, par: nat, ptr: nat)
    requires Rep(mem, t, par, ptr)
    ensures ptr == if t.Node? then t.x else NULL
    ensures t.Node? ==> ptr in Ids(t) && ptr != NULL && ptr in mem
  {
  }

  /** One step down or up the tree. */
  lemma Descend(mem: Memory, root: nat, p: Path, t: Tree, ptr: nat, d: bool)
    requires At(mem, root, p, t, ptr) && t.Node?
    ensures ptr == t.x && ptr in mem && At(mem, root, Step(t.x, t.red, d, Kid(t, !d), p), Kid(t, d), Child(mem[ptr], d))
  {
  }

  lemma Ascend(mem: Memory, root: nat, p: Path, t: Tree, ptr: nat)
    requires At(mem, root, p, t, ptr) && p.Step?
    ensures p.x in mem && At(mem, root, p.up, Make(p.x, p.red, p.d, t, p.o), p.x)
  {
  }

  /** The same tree from its root. */
  lemma {:induction false} Whole(mem: Memory, root: nat, p: Path, t: Tree, ptr: nat)
    requires At(mem, root, p, t, ptr)
    ensures At(mem, root, Top, Plug(p, t), root)
    decreases p
  {
    if p.Step? {
      Ascend(mem, root, p, t, ptr);
      Whole(mem, root, p.up, Make(p.x, p.red, p.d, t, p.o), p.x);
    }
  }

  /** Every node of the tree has a path to it. */
  lemma {:induction false} Seek(mem: Memory, root: nat, p: Path, t: Tree, ptr: nat, x: nat) returns (q: Path, s: Tree)
    requires At(mem, root, p, t, ptr) && x in Ids(t)
    ensures At(mem, root, q, s, x) && s.Node? && s.x == x && Plug(q, s) == Plug(p, t)
    decreases t
  {
    if t.x == x {
      return p, t;
    }
    var d := x in Ids(t.right);
    Descend(mem, root, p, t, ptr, d);
    q, s := Seek(mem, root, Step(t.x, t.red, d, Kid(t, !d), p), Kid(t, d), Child(mem[ptr], d), x);
  }

  // ---- Rotation -----------------------------------------------------------------------------------

  function Rotated(t: Tree, d: bool): Tree
    requires t.Node? && Kid(t, !d).Node?
  {
    var c := Kid(t, !d);
    Make(c.x, c.red, d, Make(t.x, t.red, d, Kid(t, d), Kid(c, d)), Kid(c, !d))
  }

  lemma RotatedInorder(t: Tree, d: bool)
    requires t.Node? && Kid(t, !d).Node?
    ensures Inorder(Rotated(t, d)) == Inorder(t) && Ids(Rotated(t, d)) == Ids(t)
  {
    var c := Kid(t, !d);
    if d {
      assert Inorder(t) == Inorder(c.left) + [c.x] + Inorder(c.right) + [t.x] + Inorder(t.right);
      assert Inorder(Rotated(t, d)) == Inorder(c.left) + [c.x] + (Inorder(c.right) + [t.x] + Inorder(t.right));
    } else {
      assert Inorder(t) == Inorder(t.left) + [t.x] + (Inorder(c.left) + [c.x] + Inorder(c.right));
      assert Inorder(Rotated(t, d)) == Inorder(t.left) + [t.x] + Inorder(c.left) + [c.x] + Inorder(c.right);
    }
  }

  /** A subtree whose root got a new parent. */
  lemma Reparent(mem: Memory, mem': Memory, t: Tree, par: nat, ptr: nat, par': nat)
    requires Rep(mem, t, par, ptr)
    requires t.Node? ==> ptr in mem' && mem'[ptr] == mem[ptr].(parent := par')
    requires forall i :: i in Ids(t) && i != ptr && i in mem ==> i in mem' && mem'[i] == mem[i]
    ensures Rep(mem', t, par', ptr)
  {
    if t.Node? {
      RepFrame(mem, mem', t.left, t.x, mem[t.x].left);
      RepFrame(mem, mem', t.right, t.x, mem[t.x].right);
    }
  }

  /** A path that ends at another pointer. */
  lemma Redirect(mem: Memory, mem': Memory, p: Path, root: nat, ptr: nat, root': nat, ptr': nat)
    requires PathRep(mem, p, root, ptr)
    requires if p.Top? then root' == ptr'
             else root' == root && p.x in mem' && mem'[p.x] == SetChild(mem[p.x], p.d, ptr')
    requires forall i :: i in PathIds(p) && i != Ptr(p) && i in mem ==> i in mem' && mem'[i] == mem[i]
    ensures PathRep(mem', p, root', ptr')
  {
    if p.Step? {
      RepFrame(mem, mem', p.o, p.x, Child(mem[p.x], !p.d));
      PathFrame(mem, mem', p.up, root, p.x);
    }
  }

  /** The pointers rotate_node leaves behind. */
  ghost predicate Turned(mem: Memory, mem': Memory, root: nat, root': nat, p: Path, t: Tree, d: bool)
    requires t.Node? && Kid(t, !d).Node?
  {
    var c := Kid(t, !d);
    var mid := if Kid(c, d).Node? then Kid(c, d).x else NULL;
    && t.x in mem && c.x in mem && (mid != NULL ==> mid in mem) && (p.Step? ==> p.x in mem)
    && mem'.Keys == mem.Keys
    && (forall i ::
          i in mem && i != t.x && i != c.x && (mid == NULL || i != mid) && (p.Top? || i != p.x) ==> mem'[i] == mem[i])
    && mem'[t.x] == SetChild(mem[t.x], !d, mid).(parent := c.x)
    && mem'[c.x] == SetChild(mem[c.x], d, t.x).(parent := Ptr(p))
    && (mid != NULL ==> mem'[mid] == mem[mid].(parent := t.x))
    && (if p.Top? then root' == c.x else root' == root && mem'[p.x] == SetChild(mem[p.x], p.d, c.x))
  }

  lemma TurnedAt(mem: Memory, mem': Memory, root: nat, root': nat, p: Path, t: Tree, d: bool)
    requires At(mem, root, p, t, if t.Node? then t.x else NULL) && t.Node? && Kid(t, !d).Node?
             && Turned(mem, mem', root, root', p, t, d)
    ensures At(mem', root', p, Rotated(t, d), Kid(t, !d).x)
  {
    hide Rep;
    hide Ids;
    hide Make;
    hide PathRep;
    var c := Kid(t, !d);
    var m := Kid(c, d);
    Kids(mem, t, Ptr(p), t.x, d);
    PtrOf(mem, c, t.x, Child(mem[t.x], !d));
    Kids(mem, c, t.x, c.x, d);
    PtrOf(mem, m, c.x, Child(mem[c.x], d));
    PathPtr(mem, p, root, t.x);
    Reparent(mem, mem', m, c.x, Child(mem[c.x], d), t.x);
    RepFrame(mem, mem', Kid(t, d), t.x, Child(mem[t.x], d));
    RepFrame(mem, mem', Kid(c, !d), c.x, Child(mem[c.x], !d));
    MakeRep(mem', t.x, t.red, d, Kid(t, d), m, c.x);
    MakeRep(mem', c.x, c.red, d, Make(t.x, t.red, d, Kid(t, d), m), Kid(c, !d), Ptr(p));
    Redirect(mem, mem', p, root, t.x, root', c.x);
  }

  lemma PathPtr(mem: Memory, p: Path, root: nat, ptr: nat)
    requires PathRep(mem, p, root, ptr)
    ensures p.Step? ==> p.x in PathIds(p) && p.x in mem && p.x != NULL && Child(mem[p.x], p.d) == ptr
  {
  }

  lemma RotateStart(mem: Memory, root: nat, p: Path, t: Tree, node: nat, d: bool)
    requires At(mem, root, p, t, node) && t.Node? && Kid(t, !d).Node?
    ensures var c := Kid(t, !d);
            var mid := if Kid(c, d).Node? then Kid(c, d).x else NULL;
            && t.x == node && node in mem && Child(mem[node], !d) == c.x && mem[node].parent == Ptr(p)
            && c.x in mem && Child(mem[c.x], d) == mid && c.x != node && c.x in Ids(t) && node in Ids(t)
            && (mid != NULL ==> mid in mem && mid != node && mid != c.x && mid in Ids(t))
            && (p.Step? ==>
                  p.x in PathIds(p) && p.x in mem && p.x != node && p.x != c.x && p.x != mid && p.x != NULL
                  && (mem[p.x].right == node <==> p.d))
  {
    hide Rep;
    hide Ids;
    var c := Kid(t, !d);
    PtrOf(mem, t, Ptr(p), node);
    Kids(mem, t, Ptr(p), node, d);
    PtrOf(mem, c, node, Child(mem[node], !d));
    Kids(mem, c, node, c.x, d);
    PtrOf(mem, Kid(c, d), c.x, Child(mem[c.x], d));
    if p.Step? { PtrOf(mem, p.o, p.x, Child(mem[p.x], !p.d)); }
  }

  // ---- Colours ----------------------------------------------------------------------------------------

  predicate IsRed(t: Tree) { t.Node? && t.red }

  /** No red node has a red child, and every way down passes b black nodes. */
  predicate Rbt(t: Tree, b: nat) {
    match t
    case Leaf => b == 0
    case Node(_, red, l, r) =>
      if red then Rbt(l, b) && Rbt(r, b) && !IsRed(l) && !IsRed(r)
      else b >= 1 && Rbt(l, b - 1) && Rbt(r, b - 1)
  }

  /** Around a subtree of black height b the tree is a red-black tree with a black root; only
      the subtree's own root may be red under a red node. */
  predicate RbtPath(p: Path, b: nat)
    decreases p
  {
    match p
    case Top => true
    case Step(_, red, _, o, up) =>
      Rbt(o, b) && if red then !IsRed(o) && up.Step? && !up.red && RbtPath(up, b) else RbtPath(up, b + 1)
  }

  function Length(p: Path): nat { if p.Top? then 0 else 1 + Length(p.up) }

  ghost predicate Balanced(t: Tree) { !IsRed(t) && exists b: nat :: Rbt(t, b) }

  lemma {:induction false} PlugRbt(p: Path, t: Tree, b: nat) returns (h: nat)
    requires RbtPath(p, b) && Rbt(t, b) && (IsRed(t) ==> p.Top? || !p.red)
    ensures Rbt(Plug(p, t), h) && (p.Step? ==> !IsRed(Plug(p, t)))
    decreases p
  {
    if p.Top? {
      h := b;
    } else {
      h := PlugRbt(p.up, Make(p.x, p.red, p.d, t, p.o), if p.red then b else b + 1);
    }
  }

  /** Painting the root of a subtree. */
  lemma Paint(mem: Memory, root: nat, p: Path, t: Tree, ptr: nat, red: bool)
    requires At(mem, root, p, t, ptr) && t.Node?
    ensures ptr in mem && At(mem[ptr := mem[ptr].(red := red)], root, p, t.(red := red), ptr)
  {
    hide Ids;
    var mem' := mem[ptr := mem[ptr].(red := red)];
    assert Ids(t.(red := red)) == Ids(t) && ptr in Ids(t) by { SameIds(t, red); PtrOf(mem, t, Ptr(p), ptr); }
    PathFrame(mem, mem', p, root, ptr);
    RepFrame(mem, mem', t.left, t.x, mem[t.x].left);
    RepFrame(mem, mem', t.right, t.x, mem[t.x].right);
  }

  lemma SameIds(t: Tree, red: bool)
    requires t.Node?
    ensures Ids(t.(red := red)) == Ids(t) && Inorder(t.(red := red)) == Inorder(t)
  {
  }

  /** rb_balance when the uncle is red. */
  function Recoloured(p: Path, t: Tree): Tree
    requires p.Step? && p.up.Step?
  {
    Make(p.up.x, true, p.up.d, Make(p.x, false, p.d, t, p.o), if p.up.o.Node? then p.up.o.(red := false) else Leaf)
  }

  lemma RecolouredInorder(p: Path, t: Tree)
    requires p.Step? && p.up.Step? && IsRed(p.up.o)
    ensures Inorder(Plug(p.up.up, Recoloured(p, t))) == Inorder(Plug(p, t))
  {
    PlugInorder(p.up.up, Recoloured(p, t));
    PlugInorder(p.up.up, Make(p.up.x, p.up.red, p.up.d, Make(p.x, p.red, p.d, t, p.o), p.up.o));
  }

  lemma RecolouredRbt(p: Path, t: Tree, b: nat)
    requires p.Step? && p.red && RbtPath(p, b) && Rbt(t, b) && IsRed(t) && IsRed(p.up.o)
    ensures Rbt(Recoloured(p, t), b + 1) && IsRed(Recoloured(p, t)) && RbtPath(p.up.up, b + 1)
  {
  }

  /** rb_balance's last step, for a node on the same side of its parent as the parent of the grandparent. */
  lemma OuterInorder(p: Path, t: Tree)
    requires p.Step? && p.up.Step? && p.d == p.up.d
    ensures var g := Make(p.up.x, true, p.d, Make(p.x, false, p.d, t, p.o), p.up.o);
            && Rotated(g, !p.d) == Make(p.x, false, p.d, t, Make(p.up.x, true, p.d, p.o, p.up.o))
            && Inorder(Plug(Step(p.x, false, p.d, Make(p.up.x, true, p.d, p.o, p.up.o), p.up.up), t)) ==
                 Inorder(Plug(p, t))
  {
    var g := Make(p.up.x, true, p.d, Make(p.x, false, p.d, t, p.o), p.up.o);
    RotatedInorder(g, !p.d);
    PlugInorder(p.up.up, Rotated(g, !p.d));
    PlugInorder(p.up.up, Make(p.up.x, p.up.red, p.up.d, Make(p.x, p.red, p.d, t, p.o), p.up.o));
  }

  lemma OuterRbt(p: Path, t: Tree, b: nat)
    requires p.Step? && p.red && RbtPath(p, b) && Rbt(t, b) && IsRed(t) && !IsRed(p.up.o) && p.d == p.up.d
    ensures RbtPath(Step(p.x, false, p.d, Make(p.up.x, true, p.d, p.o, p.up.o), p.up.up), b)
  {
  }

  /** rb_balance's first rotation, for a node on the other side: afterwards it is on the same side. */
  lemma InnerInorder(p: Path, t: Tree)
    requires p.Step? && p.up.Step? && p.d != p.up.d && t.Node?
    ensures var g := p.up.d;
            && Rotated(Make(p.x, p.red, p.d, t, p.o), g) ==
                 Make(t.x, t.red, g, Make(p.x, p.red, g, p.o, Kid(t, g)), Kid(t, !g))
            && Inorder(Plug(Step(t.x, t.red, g, Kid(t, !g), p.up), Make(p.x, p.red, g, p.o, Kid(t, g)))) ==
                 Inorder(Plug(p, t))
  {
    var a := Make(p.x, p.red, p.d, t, p.o);
    RotatedInorder(a, p.up.d);
    PlugInorder(p.up, Rotated(a, p.up.d));
    PlugInorder(p.up, a);
  }

  lemma InnerRbt(p: Path, t: Tree, b: nat)
    requires p.Step? && p.red && RbtPath(p, b) && Rbt(t, b) && IsRed(t) && p.d != p.up.d
    ensures var g := p.up.d;
            && Rbt(Make(p.x, true, g, p.o, Kid(t, g)), b) && RbtPath(Step(t.x, true, g, Kid(t, !g), p.up), b)
  {
  }

  /** In a red-black tree every subtree fits its surroundings. */
  lemma {:induction false} SplitRbt(p: Path, t: Tree, h: nat) returns (b: nat)
    requires Rbt(Plug(p, t), h) && !IsRed(Plug(p, t))
    ensures RbtPath(p, b) && Rbt(t, b) && (IsRed(t) ==> p.Step? && !p.red)
    decreases p
  {
    if p.Top? {
      b := h;
    } else {
      var c := SplitRbt(p.up, Make(p.x, p.red, p.d, t, p.o), h);
      b := if p.red then c else c - 1;
    }
  }

  function Height(t: Tree): nat {
    match t
    case Leaf => 0
    case Node(_, _, l, r) => 1 + if Height(l) < Height(r) then Height(r) else Height(l)
  }

  lemma {:induction false} RbtHeight(t: Tree, b: nat)
    requires Rbt(t, b)
    ensures Height(t) <= 2 * b + (if IsRed(t) then 1 else 0) && Orders.Pow2(b) <= |Inorder(t)| + 1
    decreases t
  {
    if t.Node? {
      var c := if t.red then b else b - 1;
      RbtHeight(t.left, c);
      RbtHeight(t.right, c);
    }
  }

  /** A balanced tree of n nodes has height at most 2 * log2(n + 1). */
  lemma HeightBound(t: Tree)
    requires Balanced(t)
    ensures Orders.Pow2(Height(t)) <= (|Inorder(t)| + 1) * (|Inorder(t)| + 1)
  {
    var b: nat :| Rbt(t, b);
    RbtHeight(t, b);
    var n := |Inorder(t)| + 1;
    Pow2Mono(Height(t), 2 * b);
    Pow2Double(b);
    Orders.MulMono(Orders.Pow2(b), n, Orders.Pow2(b));
    Orders.MulMono(Orders.Pow2(b), n, n);
  }

  lemma {:induction false} Pow2Mono(a: nat, b: nat)
    requires a <= b
    ensures Orders.Pow2(a) <= Orders.Pow2(b)
  {
    if a < b { Pow2Mono(a, b - 1); }
  }

  lemma {:induction false} Pow2Double(b: nat)
    ensures Orders.Pow2(2 * b) == Orders.Pow2(b) * Orders.Pow2(b)
  {
    if b > 0 {
      Pow2Double(b - 1);
      assert Orders.Pow2(2 * b - 1) == 2 * Orders.Pow2(2 * (b - 1));
    }
  }

  // ---- What rb_balance reads -------------------------------------------------------------------------

  ghost predicate AtFact(mem: Memory, p: Path, t: Tree, node: nat) {
    && t.Node? && t.x == node && node in mem && mem[node].parent == Ptr(p) && mem[node].red == t.red
    && (p.Step? ==> p.x != NULL && p.x in mem && mem[p.x].red == p.red)
  }

  lemma AtFacts(mem: Memory, root: nat, p: Path, t: Tree, node: nat)
    requires At(mem, root, p, t, node) && t.Node?
    ensures AtFact(mem, p, t, node)
  {
  }

  lemma RedParent(mem: Memory, root: nat, p: Path, t: Tree, node: nat, b: nat)
    requires At(mem, root, p, t, node) && t.Node? && RbtPath(p, b) && p.Step? && p.red
    ensures p.up.Step? && p.x in mem && p.up.x in mem && Length(p) == 2 + Length(p.up.up)
    ensures node in mem && mem[node].parent == p.x && mem[p.x].parent == p.up.x
    ensures mem[p.up.x].left == p.x <==> !p.up.d
    ensures Child(mem[p.up.x], !p.up.d) == if p.up.o.Node? then p.up.o.x else NULL
    ensures p.up.o.Node? ==> p.up.o.x in mem && p.up.o.x != NULL && mem[p.up.o.x].red == p.up.o.red
    ensures Child(mem[p.x], !p.up.d) == node <==> p.d != p.up.d
  {
    assert PathRep(mem, p.up, root, p.x);
    PtrOf(mem, p.o, p.x, Child(mem[p.x], !p.d));
    PtrOf(mem, p.up.o, p.up.x, Child(mem[p.up.x], !p.up.d));
    PtrOf(mem, t, p.x, node);
  }

  lemma PtrAt(mem: Memory, root: nat, p: Path, t: Tree, ptr: nat)
    requires At(mem, root, p, t, ptr)
    ensures ptr == if t.Node? then t.x else NULL
  {
  }

  lemma SamePtr(mem: Memory, root: nat, p: Path, mem': Memory, root': nat, p': Path, t: Tree, ptr: nat, ptr': nat)
    requires At(mem, root, p, t, ptr) && At(mem', root', p', t, ptr')
    ensures ptr == ptr'
  {
  }

  lemma SamePlug(p: Path, t: Tree, red: bool)
    requires t.Node?
    ensures Inorder(Plug(p, t.(red := red))) == Inorder(Plug(p, t))
  {
    SameIds(t, red);
    PlugInorder(p, t);
    PlugInorder(p, t.(red := red));
  }

  lemma RootNode(mem: Memory, root: nat, p: Path, t: Tree)
    requires At(mem, root, Top, Plug(p, t), root) && t.Node?
    ensures Plug(p, t).Node? && root in mem
    decreases p
  {
    if p.Step? { RootNode(mem, root, p.up, Make(p.x, p.red, p.d, t, p.o)); }
  }

  lemma BlackRoot(t: Tree, h: nat)
    requires t.Node? && Rbt(t, h)
    ensures Balanced(t.(red := false))
  {
    assert Rbt(t.(red := false), if t.red then h + 1 else h);
  }

  // ---- Insertion -----------------------------------------------------------------------------------------

  /** The path to the empty place under a node. */
  lemma LeafPath(mem: Memory, root: nat, t: Tree, parent: nat, dir: bool) returns (p: Path)
    requires At(mem, root, Top, t, root) && Balanced(t)
    requires if parent == NULL then t.Leaf? else parent in Ids(t) && parent in mem && Child(mem[parent], dir) == NULL
    ensures At(mem, root, p, Leaf, NULL) && Plug(p, Leaf) == t && RbtPath(p, 0) && Ptr(p) == parent
            && (p.Step? ==> p.d == dir)
    ensures parent != NULL ==>
              if dir then Before(p) != [] && Before(p)[|Before(p)| - 1] == parent
                 else After(p) != [] && After(p)[0] == parent
  {
    p := Top;
    if parent != NULL {
      var q, s := Seek(mem, root, Top, t, root, parent);
      Descend(mem, root, q, s, parent, dir);
      p := Step(parent, s.red, dir, Kid(s, !dir), q);
      PtrAt(mem, root, p, Kid(s, dir), NULL);
      NodeNotNull(mem, root, p, Kid(s, dir), NULL);
    }
    var h: nat :| Rbt(t, h);
    var b := SplitRbt(p, Leaf, h);
  }

  lemma NodeNotNull(mem: Memory, root: nat, p: Path, t: Tree, ptr: nat)
    requires At(mem, root, p, t, ptr)
    ensures t.Node? <==> ptr != NULL
  {
  }

  lemma AttachedAt(mem: Memory, root: nat, p: Path, node: nat)
    requires At(mem, root, p, Leaf, NULL) && node != NULL && node !in PathIds(p)
    ensures p.Step? ==> p.x in mem && p.x != NULL && p.x != node
    ensures var mem1 := mem[node := RbNode(Ptr(p), NULL, NULL, false)];
            var mem' := if p.Step? then mem1[p.x := SetChild(mem[p.x], p.d, node)] else mem1;
            At(mem', if p.Top? then node else root, p, Node(node, false, Leaf, Leaf), node)
  {
    var mem1 := mem[node := RbNode(Ptr(p), NULL, NULL, false)];
    var mem' := if p.Step? then mem1[p.x := SetChild(mem[p.x], p.d, node)] else mem1;
    Redirect(mem, mem', p, root, NULL, if p.Top? then node else root, node);
  }

  lemma {:induction false} InorderIds(t: Tree)
    ensures forall x :: x in Ids(t) <==> x in Inorder(t)
    decreases t
  {
    if t.Node? {
      InorderIds(t.left);
      InorderIds(t.right);
    }
  }

  lemma OneNode(node: nat)
    ensures Inorder(Leaf) == [] && Inorder(Node(node, false, Leaf, Leaf)) == [node] && Ids(Leaf) == {}
  {
  }

  lemma InsertedIds(t: Tree, p: Path, node: nat)
    requires Inorder(t) == Before(p) + [node] + After(p)
    ensures Ids(t) == Ids(Plug(p, Leaf)) + {node}
  {
    InorderIds(t);
    InorderIds(Plug(p, Leaf));
    PlugInorder(p, Leaf);
  }

  // ---- Order ------------------------------------------------------------------------------------------------

  /** The place of the root of t, under path p, in the order of the whole tree. */
  function Rank(p: Path, t: Tree): nat
    requires t.Node?
  {
    |Before(p)| + |Inorder(t.left)|
  }

  lemma RankIs(p: Path, t: Tree)
    requires t.Node?
    ensures Rank(p, t) < |Inorder(Plug(p, t))| && Inorder(Plug(p, t))[Rank(p, t)] == t.x
  {
    PlugInorder(p, t);
  }

  // ---- Removal ------------------------------------------------------------------------------------------------

  /** The way down the right edge of t, below path p. */
  function Spine(p: Path, t: Tree): Path
    requires t.Node?
    decreases t
  {
    if t.right.Leaf? then p else Spine(Step(t.x, t.red, true, t.left, p), t.right)
  }

  function MaxTree(t: Tree): (r: Tree)
    requires t.Node?
    ensures r.Node? && r.right.Leaf?
    decreases t
  {
    if t.right.Leaf? then t else MaxTree(t.right)
  }

  /** t without its largest node. */
  function RemoveMax(t: Tree): Tree
    requires t.Node?
    decreases t
  {
    if t.right.Leaf? then t.left else Node(t.x, t.red, t.left, RemoveMax(t.right))
  }

  lemma {:induction false} RemoveMaxInorder(t: Tree)
    requires t.Node?
    ensures Inorder(RemoveMax(t)) + [MaxTree(t).x] == Inorder(t)
    decreases t
  {
    if t.right.Node? {
      RemoveMaxInorder(t.right);
      assert Inorder(RemoveMax(t)) + [MaxTree(t).x] ==
               Inorder(t.left) + [t.x] + (Inorder(RemoveMax(t.right)) + [MaxTree(t).x]);
    } else {
      assert Inorder(t) == Inorder(t.left) + [t.x] + [];
    }
  }

  lemma {:induction false} RemoveMaxIds(mem: Memory, t: Tree, par: nat, ptr: nat)
    requires t.Node? && Rep(mem, t, par, ptr)
    ensures MaxTree(t).x in Ids(t) && Ids(RemoveMax(t)) == Ids(t) - {MaxTree(t).x}
    decreases t
  {
    if t.right.Node? { RemoveMaxIds(mem, t.right, ptr, mem[ptr].right); }
  }

  lemma {:induction false} SpineDown(mem: Memory, root: nat, p: Path, t: Tree, ptr: nat)
    requires At(mem, root, p, t, ptr) && t.Node?
    ensures At(mem, root, Spine(p, t), MaxTree(t), MaxTree(t).x)
    decreases t
  {
    PtrAt(mem, root, p, t, ptr);
    if t.right.Node? {
      Descend(mem, root, p, t, ptr, true);
      SpineDown(mem, root, Step(t.x, t.red, true, t.left, p), t.right, mem[ptr].right);
    }
  }

  lemma {:induction false} SpineUp(mem: Memory, root: nat, p: Path, t: Tree, ptr: nat) returns (ptr': nat)
    requires t.Node? && At(mem, root, Spine(p, t), MaxTree(t).left, ptr)
    ensures At(mem, root, p, RemoveMax(t), ptr')
    decreases t
  {
    ptr' := ptr;
    if t.right.Node? {
      var q := Step(t.x, t.red, true, t.left, p);
      ptr' := SpineUp(mem, root, q, t.right, ptr);
      Ascend(mem, root, q, RemoveMax(t.right), ptr');
      ptr' := t.x;
    }
  }

  /** What do_remove makes of the subtree at the node it removes. The node that takes its place
      has been cleared before and is black. */
  function Removed(t: Tree): Tree
    requires t.Node?
  {
    if t.left.Node? && t.right.Node? then Node(MaxTree(t.left).x, false, RemoveMax(t.left), t.right)
    else if t.left.Node? then t.left
    else t.right
  }

  lemma RemovedInorder(t: Tree)
    requires t.Node?
    ensures Inorder(Removed(t)) == Inorder(t.left) + Inorder(t.right)
  {
    if t.left.Node? && t.right.Node? { RemoveMaxInorder(t.left); }
  }

  lemma PluggedNode(p: Path, t: Tree)
    requires t.Node?
    ensures Inorder(Plug(p, t)) == Before(p) + (Inorder(t.left) + [t.x] + Inorder(t.right)) + After(p)
  {
    hide Plug;
    hide Before;
    hide After;
    PlugInorder(p, t);
  }

  lemma RemovedOrder(p: Path, t: Tree)
    requires t.Node?
    ensures var s, k := Inorder(Plug(p, t)), Rank(p, t);
            k < |s| && Inorder(Plug(p, Removed(t))) == s[..k] + s[k + 1..]
  {
    hide Plug;
    hide Before;
    hide After;
    hide Inorder;
    hide Removed;
    PluggedNode(p, t);
    PlugInorder(p, Removed(t));
    RemovedInorder(t);
    SeqDrop(Before(p), Inorder(t.left), t.x, Inorder(t.right), After(p));
  }

  const CLEARED := RbNode(NULL, NULL, NULL, false)

  /** A node with at most one subtree k gives its place to k. */
  lemma Spliced(mem: Memory, mem': Memory, root: nat, root': nat, p: Path, t: Tree, d: bool)
    requires At(mem, root, p, t, if t.Node? then t.x else NULL) && t.Node? && Kid(t, !d).Leaf?
    requires var k := Kid(t, d);
             && t.x in mem && mem'.Keys == mem.Keys
             && (forall i ::
                   i in mem && i != t.x && (k.Leaf? || i != k.x) && (p.Top? || i != p.x) ==> mem'[i] == mem[i])
             && (k.Node? ==> k.x in mem && mem'[k.x] == mem[k.x].(parent := Ptr(p)))
             && (if p.Top? then root' == Child(mem[t.x], d)
                 else root' == root && p.x in mem && mem'[p.x] == SetChild(mem[p.x], p.d, Child(mem[t.x], d)))
    ensures At(mem', root', p, Kid(t, d), Child(mem[t.x], d))
  {
    hide Rep;
    hide Ids;
    hide PathRep;
    var k := Kid(t, d);
    Kids(mem, t, Ptr(p), t.x, d);
    PtrOf(mem, k, t.x, Child(mem[t.x], d));
    PathPtr(mem, p, root, t.x);
    Reparent(mem, mem', k, t.x, Child(mem[t.x], d), Ptr(p));
    Redirect(mem, mem', p, root, t.x, root', Child(mem[t.x], d));
  }

  /** Node c takes the place of node x with both its subtrees. */
  ghost predicate TakesPlace(mem: Memory, mem': Memory, root: nat, root': nat, p: Path, t: Tree, c: nat)
    requires t.Node?
  {
    && t.x in mem && c in mem && c != NULL && c !in Ids(t) && c !in PathIds(p) && mem'.Keys == mem.Keys
    && (forall i ::
          && i in mem && i != t.x && i != c && (t.left.Leaf? || i != t.left.x) && (t.right.Leaf? || i != t.right.x)
          && (p.Top? || i != p.x)
          ==> mem'[i] == mem[i])
    && mem'[c] == RbNode(Ptr(p), mem[t.x].left, mem[t.x].right, false)
    && (t.left.Node? ==> t.left.x in mem && mem'[t.left.x] == mem[t.left.x].(parent := c))
    && (t.right.Node? ==> t.right.x in mem && mem'[t.right.x] == mem[t.right.x].(parent := c))
    && (if p.Top? then root' == c else root' == root && p.x in mem && mem'[p.x] == SetChild(mem[p.x], p.d, c))
  }

  lemma TakesPlaceAt(mem: Memory, mem': Memory, root: nat, root': nat, p: Path, t: Tree, c: nat)
    requires t.Node? && At(mem, root, p, t, t.x) && TakesPlace(mem, mem', root, root', p, t, c)
    ensures At(mem', root', p, Node(c, false, t.left, t.right), c)
  {
    hide Rep;
    hide Ids;
    hide PathRep;
    hide PathIds;
    Kids(mem, t, Ptr(p), t.x, false);
    PtrOf(mem, t.left, t.x, mem[t.x].left);
    PtrOf(mem, t.right, t.x, mem[t.x].right);
    PathPtr(mem, p, root, t.x);
    Reparent(mem, mem', t.left, t.x, mem[t.x].left, c);
    Reparent(mem, mem', t.right, t.x, mem[t.x].right, c);
    MakeRep(mem', c, false, false, t.left, t.right, Ptr(p));
    Redirect(mem, mem', p, root, t.x, root', c);
  }

  lemma UpOrder(p: Path, t: Tree)
    requires p.Step?
    ensures var u := Make(p.x, p.red, p.d, t, p.o);
            && Plug(p.up, u) == Plug(p, t) && Length(p.up) < Length(p)
            && (if p.d then
                  && Before(p) != [] && Before(p)[|Before(p)| - 1] == p.x
                  && |Before(p.up)| + |Inorder(u)| == |Before(p)| + |Inorder(t)|
                else After(p) != [] && After(p)[0] == p.x && |Before(p.up)| == |Before(p)|)
  {
  }

  lemma UpperSide(mem: Memory, root: nat, p: Path, t: Tree, node: nat, dir: bool)
    requires At(mem, root, p, t, node) && t.Node?
    ensures p.Step? ==> p.x in mem && (Child(mem[p.x], dir) == node <==> p.d == dir)
  {
    PtrOf(mem, t, Ptr(p), node);
    if p.Step? { PtrOf(mem, p.o, p.x, Child(mem[p.x], !p.d)); }
  }

  lemma RemoveStart(mem: Memory, root: nat, p: Path, t: Tree, node: nat)
    requires At(mem, root, p, t, node) && t.Node?
    ensures node in mem && (mem[node].left != NULL <==> t.left.Node?) && (mem[node].right != NULL <==> t.right.Node?)
  {
    PtrOf(mem, t.left, node, mem[node].left);
    PtrOf(mem, t.right, node, mem[node].right);
  }

  lemma SpliceStart(mem: Memory, root: nat, p: Path, t: Tree, node: nat, d: bool)
    requires At(mem, root, p, t, node) && t.Node? && Kid(t, !d).Leaf?
    ensures node in mem && var child := Child(mem[node], d);
            && child == (if Kid(t, d).Node? then Kid(t, d).x else NULL) && child != node && node != Ptr(p)
            && (child != NULL ==> child in mem) && (p.Step? ==> p.x in mem && p.x != child)
  {
    Kids(mem, t, Ptr(p), node, d);
    PtrOf(mem, t, Ptr(p), node);
    PtrOf(mem, Kid(t, d), node, Child(mem[node], d));
    PathPtr(mem, p, root, node);
  }

  lemma PlaceStart(mem: Memory, root: nat, p: Path, t: Tree, node: nat)
    requires At(mem, root, p, t, node) && t.Node?
    ensures node == t.x && node in mem && node in Ids(t) && node != NULL && node != Ptr(p)
    ensures mem[node].left == (if t.left.Node? then t.left.x else NULL)
            && mem[node].right == (if t.right.Node? then t.right.x else NULL)
    ensures t.left.Node? ==>
              t.left.x in mem && t.left.x in Ids(t) && t.left.x != node && t.left.x != NULL && t.left.x != Ptr(p)
    ensures t.right.Node? ==>
              t.right.x in mem && t.right.x in Ids(t) && t.right.x != node && t.right.x != NULL && t.right.x != Ptr(p)
    ensures t.left.Node? && t.right.Node? ==> t.left.x != t.right.x
    ensures p.Step? ==> p.x in PathIds(p) && p.x in mem && p.x != NULL
  {
    PtrOf(mem, t, Ptr(p), node);
    PtrOf(mem, t.left, node, mem[node].left);
    PtrOf(mem, t.right, node, mem[node].right);
    PathPtr(mem, p, root, node);
  }

  /** The node at the end of the left or right edge. */
  function Edge(t: Tree, d: bool): nat
    requires t.Node?
    decreases t
  {
    if Kid(t, d).Leaf? then t.x else Edge(Kid(t, d), d)
  }

  lemma {:induction false} EdgeIs(t: Tree, d: bool)
    requires t.Node?
    ensures Inorder(t) != [] && Edge(t, d) == if d then Inorder(t)[|Inorder(t)| - 1] else Inorder(t)[0]
    ensures d ==> Edge(t, d) == MaxTree(t).x
    decreases t
  {
    if Kid(t, d).Node? { EdgeIs(Kid(t, d), d); }
  }

  lemma MaxOutside(mem: Memory, root: nat, p: Path, t: Tree, node: nat)
    requires At(mem, root, p, t, node) && t.Node? && t.left.Node? && t.right.Node?
    ensures var c := MaxTree(t.left).x;
            c != NULL && c != node && c !in Ids(Node(t.x, t.red, RemoveMax(t.left), t.right)) && c !in PathIds(p)
  {
    Kids(mem, t, Ptr(p), node, false);
    RemoveMaxIds(mem, t.left, node, mem[node].left);
    IdsNotNull(mem, t.left, node, mem[node].left);
  }

  lemma {:induction false} IdsNotNull(mem: Memory, t: Tree, par: nat, ptr: nat)
    requires Rep(mem, t, par, ptr)
    ensures NULL !in Ids(t)
    decreases t
  {
    if t.Node? {
      IdsNotNull(mem, t.left, t.x, mem[t.x].left);
      IdsNotNull(mem, t.right, t.x, mem[t.x].right);
    }
  }

  class Rb {
    var root: nat
    var mem: Memory
    ghost var tree: Tree

    ghost predicate Valid()
      reads this
    {
      At(mem, root, Top, tree, root) && Balanced(tree)
    }

    /** rb_init */
    constructor ()
      ensures Valid() && tree == Leaf && mem == map[]
    {
      root, mem, tree := NULL, map[], Leaf;
      new;
      assert Rbt(Leaf, 0);
    }

    /** rotate_node at the node under path p. */
    method RotateNode(node: nat, d: bool, ghost p: Path, ghost t: Tree)
      requires At(mem, root, p, t, node) && t.Node? && Kid(t, !d).Node?
      modifies this`root, this`mem
      ensures mem.Keys == old(mem.Keys) && At(mem, root, p, Rotated(t, d), Kid(t, !d).x)
      ensures forall i :: i in mem && i !in Ids(t) && i !in PathIds(p) ==> mem[i] == old(mem)[i]
    {
      hide Rep;
      hide Ids;
      hide PathRep;
      hide PathIds;
      hide SetChild;
      hide Child;
      hide At;
      hide Rotated;
      ghost var mem0 := mem;
      RotateStart(mem, root, p, t, node, d);
      TurnLinks(node, d);
      TurnedAt(mem0, mem, old(root), root, p, t, d);
    }

    /** The writes of a rotation. */
    method TurnLinks(node: nat, d: bool)
      requires node in mem && var parent, child := mem[node].parent, Child(mem[node], !d);
        && child in mem && child != node && (parent != NULL ==> parent in mem && parent != node && parent != child)
        && var mid := Child(mem[child], d);
           mid != NULL ==> mid in mem && mid != node && mid != child && mid != parent
      modifies this`root, this`mem
      ensures mem.Keys == old(mem.Keys)
      ensures var m := old(mem); var parent, child := m[node].parent, Child(m[node], !d); var mid := Child(m[child], d);
        && mem[node] == SetChild(m[node], !d, mid).(parent := child)
        && mem[child] == SetChild(m[child], d, node).(parent := parent)
        && (mid != NULL ==> mem[mid] == m[mid].(parent := node))
        && (if parent != NULL
            then root == old(root) && mem[parent] == SetChild(m[parent], m[parent].right == node, child)
            else root == child)
        && forall i ::
             i in m && i != node && i != child && (mid == NULL || i != mid) && (parent == NULL || i != parent) ==>
             mem[i] == m[i]
    {
      hide SetChild;
      hide Child;
      var parent := mem[node].parent;
      var child := Child(mem[node], !d);
      var mid := Child(mem[child], d);
      mem := mem[node := SetChild(mem[node], !d, mid)];
      if mid != NULL {
        mem := mem[mid := mem[mid].(parent := node)];
      }
      mem := mem[child := SetChild(mem[child], d, node).(parent := parent)];
      if parent != NULL {
        mem := mem[parent := SetChild(mem[parent], mem[parent].right == node, child)];
      } else {
        root := child;
      }
      mem := mem[node := mem[node].(parent := child)];
    }

    /** rb_balance with a red uncle: parent and uncle become black, the grandparent red. */
    method Recolour(node: nat, parent: nat, grandparent: nat, uncle: nat, ghost p: Path, ghost t: Tree)
      requires At(mem, root, p, t, node) && p.Step? && p.up.Step? && IsRed(p.up.o)
      requires parent == p.x && grandparent == p.up.x && uncle == p.up.o.x && parent in mem && grandparent in mem
               && uncle in mem
      modifies this`mem
      ensures At(mem, root, p.up.up, Recoloured(p, t), grandparent) && mem.Keys == old(mem.Keys)
    {
      hide At;
      ghost var pt := Make(p.x, p.red, p.d, t, p.o);
      Ascend(mem, root, p, t, node);
      Paint(mem, root, p.up, pt, parent, false);
      mem := mem[parent := mem[parent].(red := false)];
      ghost var pt' := pt.(red := false);
      Ascend(mem, root, p.up, pt', parent);
      ghost var gt := Make(p.up.x, p.up.red, p.up.d, pt', p.up.o);
      Descend(mem, root, p.up.up, gt, grandparent, !p.up.d);
      ghost var gp := Step(gt.x, gt.red, !p.up.d, pt', p.up.up);
      PtrAt(mem, root, gp, p.up.o, Child(mem[grandparent], !p.up.d));
      Paint(mem, root, gp, p.up.o, uncle, false);
      mem := mem[uncle := mem[uncle].(red := false)];
      Ascend(mem, root, gp, p.up.o.(red := false), uncle);
      Paint(mem, root, p.up.up, Make(gp.x, gp.red, gp.d, p.up.o.(red := false), pt'), grandparent, true);
      mem := mem[grandparent := mem[grandparent].(red := true)];
    }

    /** rb_balance's rotation of the parent, for a node on the inner side. */
    method Inner(node: nat, parent: nat, dir: bool, ghost p: Path, ghost t: Tree) returns (node': nat)
      requires At(mem, root, p, t, node) && t.Node? && p.Step? && p.up.Step? && parent == p.x && dir == !p.up.d == p.d
      modifies this`root, this`mem
      ensures var g := p.up.d;
              At(mem, root, Step(t.x, t.red, g, Kid(t, !g), p.up), Make(p.x, p.red, g, p.o, Kid(t, g)), node')
      ensures mem.Keys == old(mem.Keys)
    {
      hide At;
      ghost var a := Make(p.x, p.red, p.d, t, p.o);
      Ascend(mem, root, p, t, node);
      RotateNode(parent, !dir, p.up, a);
      Descend(mem, root, p.up, Rotated(a, !dir), t.x, !dir);
      PtrAt(mem, root, Step(t.x, t.red, !dir, Kid(t, dir), p.up), Make(p.x, p.red, !dir, p.o, Kid(t, !dir)),
            Child(mem[t.x], !dir));
      node' := parent;
    }

    /** rb_balance's recolouring and rotation of the grandparent, for a node on the outer side. */
    method Outer(node: nat, parent: nat, grandparent: nat, dir: bool, ghost p: Path, ghost t: Tree)
      requires At(mem, root, p, t, node) && p.Step? && p.up.Step? && parent == p.x && grandparent == p.up.x
               && dir == !p.d && p.d == p.up.d
      requires parent in mem && grandparent in mem
      modifies this`root, this`mem
      ensures At(mem, root, Step(p.x, false, p.d, Make(p.up.x, true, p.d, p.o, p.up.o), p.up.up), t, node)
      ensures mem.Keys == old(mem.Keys)
    {
      hide At;
      ghost var pt := Make(p.x, p.red, p.d, t, p.o);
      Ascend(mem, root, p, t, node);
      Paint(mem, root, p.up, pt, parent, false);
      mem := mem[parent := mem[parent].(red := false)];
      ghost var gt := Make(p.up.x, p.up.red, p.up.d, pt.(red := false), p.up.o);
      Ascend(mem, root, p.up, pt.(red := false), parent);
      Paint(mem, root, p.up.up, gt, grandparent, true);
      mem := mem[grandparent := mem[grandparent].(red := true)];
      RotateNode(grandparent, dir, p.up.up, gt.(red := true));
      ghost var r := Rotated(gt.(red := true), dir);
      Descend(mem, root, p.up.up, r, p.x, p.d);
      SamePtr(old(mem), old(root), p, mem, root, Step(p.x, false, p.d, Make(p.up.x, true, p.d, p.o, p.up.o), p.up.up),
              t, node, Child(mem[p.x], p.d));
    }

    /** rb_balance: node is black or red and may break the rule that red nodes have black children. */
    method Balance(node0: nat, ghost p0: Path, ghost t0: Tree, ghost b0: nat) returns (ghost t': Tree)
      requires At(mem, root, p0, t0, node0) && t0.Node? && RbtPath(p0, b0)
      requires Rbt(t0.(red := true), b0)
      modifies this`root, this`mem
      ensures At(mem, root, Top, t', root) && Balanced(t')
      ensures Inorder(t') == Inorder(Plug(p0, t0)) && mem.Keys == old(mem.Keys)
    {
      hide At;
      hide Plug;
      hide Inorder;
      hide Rbt;
      hide RbtPath;
      ghost var p, t, b := p0, t0.(red := true), b0;
      var node := node0;
      Paint(mem, root, p, t0, node, true);
      SamePlug(p0, t0, true);
      mem := mem[node := mem[node].(red := true)];
      AtFacts(mem, root, p, t, node);
      while mem[node].parent != NULL && mem[mem[node].parent].red
        invariant At(mem, root, p, t, node) && AtFact(mem, p, t, node) && IsRed(t) && Rbt(t, b) && RbtPath(p, b)
        invariant Inorder(Plug(p, t)) == Inorder(Plug(p0, t0)) && mem.Keys == old(mem.Keys)
        decreases Length(p)
      {
        RedParent(mem, root, p, t, node, b);
        var parent := mem[node].parent;
        var grandparent := mem[parent].parent;
        var dir := mem[grandparent].left == parent;
        var uncle := Child(mem[grandparent], dir);
        if uncle != NULL && mem[uncle].red {
          RecolouredInorder(p, t);
          RecolouredRbt(p, t, b);
          Recolour(node, parent, grandparent, uncle, p, t);
          p, t, b := p.up.up, Recoloured(p, t), b + 1;
          node := grandparent;
        } else {
          if Child(mem[parent], dir) == node {
            InnerInorder(p, t);
            InnerRbt(p, t, b);
            node := Inner(node, parent, dir, p, t);
            p, t := Step(t.x, true, p.up.d, Kid(t, !p.up.d), p.up), Make(p.x, true, p.up.d, p.o, Kid(t, p.up.d));
            RedParent(mem, root, p, t, node, b);
            parent := mem[node].parent;
          }
          OuterInorder(p, t);
          OuterRbt(p, t, b);
          Outer(node, parent, grandparent, dir, p, t);
          p := Step(p.x, false, p.d, Make(p.up.x, true, p.d, p.o, p.up.o), p.up.up);
        }
        AtFacts(mem, root, p, t, node);
      }
      ghost var h := PlugRbt(p, t, b);
      Whole(mem, root, p, t, node);
      t' := Plug(p, t);
      RootNode(mem, root, p, t);
      Paint(mem, root, Top, t', root, false);
      SameIds(t', false);
      BlackRoot(t', h);
      t' := t'.(red := false);
      mem := mem[root := mem[root].(red := false)];
    }

    /** rb_node_init, the linking of a new leaf as insert_vma does it, and rb_balance. The new
        node comes right before or right after its parent in order. */
    method Insert(parent: nat, dir: bool, node: nat) returns (ghost i: nat)
      requires Valid() && node != NULL && node !in Ids(tree)
      requires if parent == NULL then tree.Leaf?
               else parent in Ids(tree) && parent in mem && Child(mem[parent], dir) == NULL
      modifies this
      ensures Valid() && mem.Keys == old(mem.Keys) + {node} && Ids(tree) == old(Ids(tree)) + {node}
      ensures i <= |old(Inorder(tree))| && Inorder(tree) == old(Inorder(tree)[..i] + [node] + Inorder(tree)[i..])
      ensures parent != NULL ==> if dir then i > 0 && old(Inorder(tree))[i - 1] == parent
                                 else i < |old(Inorder(tree))| && old(Inorder(tree))[i] == parent
    {
      hide At;
      hide RbtPath;
      hide Plug;
      hide Before;
      hide After;
      hide Inorder;
      hide PathIds;
      hide Ids;
      ghost var t := Node(node, false, Leaf, Leaf);
      OneNode(node);
      ghost var p := LeafPath(mem, root, tree, parent, dir);
      i := |Before(p)|;
      PlugInorder(p, Leaf);
      PlugInorder(p, t);
      PlugIds(p, Leaf);
      Link(parent, dir, node, p);
      tree := Balance(node, p, t, 0);
      InsertedIds(tree, p, node);
    }

    /** A new leaf under an empty place. */
    method Link(parent: nat, dir: bool, node: nat, ghost p: Path)
      requires At(mem, root, p, Leaf, NULL) && node != NULL && node !in PathIds(p) && Ptr(p) == parent
               && (p.Step? ==> p.d == dir)
      modifies this`root, this`mem
      ensures At(mem, root, p, Node(node, false, Leaf, Leaf), node) && mem.Keys == old(mem.Keys) + {node}
    {
      hide At;
      ghost var mem0 := mem;
      AttachedAt(mem, root, p, node);
      mem := mem[node := RbNode(NULL, NULL, NULL, false)];
      if parent == NULL {
        root := node;
      } else {
        mem := mem[parent := SetChild(mem[parent], dir, node)];
        mem := mem[node := mem[node].(parent := parent)];
        assert mem == mem0[node := RbNode(parent, NULL, NULL, false)][parent := SetChild(mem0[parent], dir, node)];
      }
    }

    /** get_outermost: the first or last node of the subtree at node. */
    method Outermost(node: nat, dir: bool, ghost p: Path, ghost t: Tree) returns (r: nat)
      requires At(mem, root, p, t, node)
      ensures if t.Leaf? then r == NULL else Inorder(t) != [] && r == if dir then Inorder(t)[|Inorder(t)| - 1]
              else Inorder(t)[0]
      ensures t.Node? && dir ==> r == MaxTree(t).x
    {
      hide At;
      hide Inorder;
      NodeNotNull(mem, root, p, t, node);
      if node == NULL {
        return NULL;
      }
      r := node;
      EdgeIs(t, dir);
      ghost var q, s := p, t;
      Descend(mem, root, q, s, r, dir);
      while Child(mem[r], dir) != NULL
        invariant r in mem && s.Node? && At(mem, root, q, s, r)
                  && At(mem, root, Step(s.x, s.red, dir, Kid(s, !dir), q), Kid(s, dir), Child(mem[r], dir))
        invariant Edge(s, dir) == Edge(t, dir)
        decreases s
      {
        NodeNotNull(mem, root, Step(s.x, s.red, dir, Kid(s, !dir), q), Kid(s, dir), Child(mem[r], dir));
        r := Child(mem[r], dir);
        q, s := Step(s.x, s.red, dir, Kid(s, !dir), q), Kid(s, dir);
        Descend(mem, root, q, s, r, dir);
      }
      NodeNotNull(mem, root, Step(s.x, s.red, dir, Kid(s, !dir), q), Kid(s, dir), NULL);
      PtrAt(mem, root, q, s, r);
    }

    /** get_closest, which rb_next and rb_prev use: the neighbour in order, or NULL at the end. */
    method Closest(node: nat, dir: bool) returns (r: nat, ghost k: nat)
      requires At(mem, root, Top, tree, root) && (node != NULL ==> node in Ids(tree))
      ensures node == NULL ==> r == NULL
      ensures node != NULL ==> k < |Inorder(tree)| && Inorder(tree)[k] == node
      ensures node != NULL && dir ==> r == if k + 1 < |Inorder(tree)| then Inorder(tree)[k + 1] else NULL
      ensures node != NULL && !dir ==> r == if k > 0 then Inorder(tree)[k - 1] else NULL
    {
      k := 0;
      if node == NULL {
        return NULL, 0;
      }
      hide At;
      ghost var p, t := Seek(mem, root, Top, tree, root, node);
      k := Rank(p, t);
      RankIs(p, t);
      PlugInorder(p, t);
      Descend(mem, root, p, t, node, dir);
      ghost var q := Step(t.x, t.red, dir, Kid(t, !dir), p);
      NodeNotNull(mem, root, q, Kid(t, dir), Child(mem[node], dir));
      if Child(mem[node], dir) != NULL {
        r := Outermost(Child(mem[node], dir), !dir, q, Kid(t, dir));
        return;
      }
      r := Climb(node, dir, p, t, k);
    }

    /** get_closest, the way up. */
    method Climb(node0: nat, dir: bool, ghost p0: Path, ghost t0: Tree, ghost k: nat) returns (r: nat)
      requires At(mem, root, p0, t0, node0) && t0.Node?
      requires if dir then |Before(p0)| + |Inorder(t0)| == k + 1 else |Before(p0)| == k
      ensures var s := Inorder(Plug(p0, t0));
              k < |s| && r == if dir then if k + 1 < |s| then s[k + 1] else NULL else if k > 0 then s[k - 1] else NULL
    {
      hide At;
      hide Inorder;
      hide Plug;
      var node := node0;
      ghost var p, t := p0, t0;
      AtFacts(mem, root, p, t, node);
      UpperSide(mem, root, p, t, node, dir);
      while mem[node].parent != NULL && Child(mem[mem[node].parent], dir) == node
        invariant At(mem, root, p, t, node) && AtFact(mem, p, t, node) && Plug(p, t) == Plug(p0, t0)
        invariant p.Step? ==> (Child(mem[p.x], dir) == node <==> p.d == dir)
        invariant if dir then |Before(p)| + |Inorder(t)| == k + 1 else |Before(p)| == k
        decreases Length(p)
      {
        Ascend(mem, root, p, t, node);
        UpOrder(p, t);
        node := mem[node].parent;
        p, t := p.up, Make(p.x, p.red, p.d, t, p.o);
        AtFacts(mem, root, p, t, node);
        UpperSide(mem, root, p, t, node, dir);
      }
      r := mem[node].parent;
      if p.Step? { UpOrder(p, t); }
      PlugInorder(p, t);
      EdgeIs(t, dir);
    }

    /** do_remove's end: child takes node's place under parent, and node is cleared. */
    method Relink(node: nat, child: nat, parent: nat, ghost d: bool)
      requires node in mem && (parent != NULL ==> parent in mem && (mem[parent].right == node <==> d))
               && (child != NULL ==> child in mem)
      requires node != parent && node != child && (parent != NULL ==> parent != child)
      modifies this`root, this`mem
      ensures mem.Keys == old(mem.Keys) && mem[node] == CLEARED && root == if parent == NULL then child else old(root)
      ensures parent != NULL ==> mem[parent] == SetChild(old(mem)[parent], d, child)
      ensures child != NULL ==> mem[child] == old(mem)[child].(parent := parent)
      ensures forall i ::
                i in mem && i != node && (parent == NULL || i != parent) && (child == NULL || i != child) ==>
                    mem[i] == old(mem)[i]
    {
      hide SetChild;
      if parent != NULL {
        mem := mem[parent := SetChild(mem[parent], mem[parent].right == node, child)];
      } else {
        root := child;
      }
      if child != NULL {
        mem := mem[child := mem[child].(parent := parent)];
      }
      mem := mem[node := CLEARED];
    }

    /** do_remove of a node with at most one child. */
    method Splice(node: nat, parent: nat, ghost p: Path, ghost t: Tree)
      requires At(mem, root, p, t, node) && t.Node? && (t.left.Leaf? || t.right.Leaf?) && parent == Ptr(p)
      modifies this`root, this`mem
      ensures At(mem, root, p, Removed(t), if Removed(t).Node? then Removed(t).x else NULL)
      ensures node in mem && mem[node] == CLEARED && mem.Keys == old(mem.Keys)
    {
      hide At;
      ghost var mem0 := mem;
      AtFacts(mem, root, p, t, node);
      RemoveStart(mem, root, p, t, node);
      UpperSide(mem, root, p, t, node, true);
      var childDir := mem[node].left == NULL;
      var child := Child(mem[node], childDir);
      SpliceStart(mem, root, p, t, node, childDir);
      Relink(node, child, parent, p.Step? && p.d);
      Spliced(mem0, mem, old(root), root, p, t, childDir);
    }

    /** do_remove: child gets the children of node. */
    method Adopt(node: nat, child: nat)
      requires node in mem && child in mem && node != child
      requires var l, r := mem[node].left, mem[node].right;
               && (l != NULL ==> l in mem && l != node && l != child && l != r)
               && (r != NULL ==> r in mem && r != node && r != child)
      modifies this`mem
      ensures mem.Keys == old(mem.Keys)
      ensures var l, r := old(mem)[node].left, old(mem)[node].right;
              && mem[child] == old(mem)[child].(left := l, right := r)
              && (l != NULL ==> mem[l] == old(mem)[l].(parent := child))
              && (r != NULL ==> mem[r] == old(mem)[r].(parent := child))
              && forall i ::
                   i in mem && i != child && (l == NULL || i != l) && (r == NULL || i != r) ==> mem[i] == old(mem)[i]
    {
      mem := mem[child := mem[child].(left := mem[node].left)];
      if mem[node].left != NULL {
        mem := mem[mem[node].left := mem[mem[node].left].(parent := child)];
      }
      mem := mem[child := mem[child].(right := mem[node].right)];
      if mem[node].right != NULL {
        mem := mem[mem[node].right := mem[mem[node].right].(parent := child)];
      }
    }

    /** do_remove of a node with two children: its cleared predecessor takes its place. */
    method TakePlace(node: nat, child: nat, parent: nat, ghost p: Path, ghost t: Tree)
      requires At(mem, root, p, t, node) && t.Node? && parent == Ptr(p)
      requires child in mem && child != NULL && mem[child] == CLEARED && child !in Ids(t) && child !in PathIds(p)
      modifies this`root, this`mem
      ensures At(mem, root, p, Node(child, false, t.left, t.right), child)
      ensures node in mem && mem[node] == CLEARED && mem.Keys == old(mem.Keys)
    {
      hide At;
      hide SetChild;
      hide Ids;
      hide PathIds;
      ghost var mem0 := mem;
      AtFacts(mem, root, p, t, node);
      UpperSide(mem, root, p, t, node, true);
      PlaceStart(mem, root, p, t, node);
      Adopt(node, child);
      Relink(node, child, parent, p.Step? && p.d);
      TakesPlaceAt(mem0, mem, old(root), root, p, t, child);
    }

    /** do_remove */
    method DoRemove(node: nat, ghost p: Path, ghost t: Tree)
      requires At(mem, root, p, t, node) && t.Node?
      modifies this`root, this`mem
      ensures At(mem, root, p, Removed(t), if Removed(t).Node? then Removed(t).x else NULL)
      ensures node in mem && mem[node] == CLEARED && mem.Keys == old(mem.Keys)
      decreases t.left.Node? && t.right.Node?
    {
      hide At;
      AtFacts(mem, root, p, t, node);
      RemoveStart(mem, root, p, t, node);
      var parent := mem[node].parent;
      if mem[node].left != NULL && mem[node].right != NULL {
        ghost var q := Step(t.x, t.red, false, t.right, p);
        Descend(mem, root, p, t, node, false);
        var child := Outermost(mem[node].left, true, q, t.left);
        SpineDown(mem, root, q, t.left, mem[node].left);
        MaxOutside(mem, root, p, t, node);
        DoRemove(child, Spine(q, t.left), MaxTree(t.left));
        ghost var ptr := SpineUp(mem, root, q, t.left, if Removed(MaxTree(t.left)).Node?
                                 then Removed(MaxTree(t.left)).x else NULL);
        Ascend(mem, root, q, RemoveMax(t.left), ptr);
        TakePlace(node, child, parent, p, Node(t.x, t.red, RemoveMax(t.left), t.right));
      } else {
        Splice(node, parent, p, t);
      }
    }

    /** rb_remove up to its recolouring: exactly this node leaves the order, and the links of
        the others stay consistent. */
    method Remove(node: nat) returns (ghost k: nat)
      requires At(mem, root, Top, tree, root) && node in Ids(tree)
      modifies this
      ensures At(mem, root, Top, tree, root) && mem.Keys == old(mem.Keys) && node in mem && mem[node] == CLEARED
      ensures k < |old(Inorder(tree))| && old(Inorder(tree))[k] == node
      ensures Inorder(tree) == old(Inorder(tree)[..k] + Inorder(tree)[k + 1..])
    {
      hide At;
      ghost var p, t := Seek(mem, root, Top, tree, root, node);
      hide Plug;
      hide Inorder;
      k := Rank(p, t);
      RankIs(p, t);
      RemovedOrder(p, t);
      DoRemove(node, p, t);
      Whole(mem, root, p, Removed(t), if Removed(t).Node? then Removed(t).x else NULL);
      tree := Plug(p, Removed(t));
    }

    /** rb_first and rb_last */
    method End(dir: bool) returns (r: nat)
      requires At(mem, root, Top, tree, root)
      ensures if tree.Leaf? then r == NULL else Inorder(tree) != [] && r == if dir
              then Inorder(tree)[|Inorder(tree)| - 1] else Inorder(tree)[0]
    {
      r := Outermost(root, dir, Top, tree);
    }
  }
}
