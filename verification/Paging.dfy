/** Four-level page tables as values: what they translate, what makes them well formed, and
    how one change of an entry, a table or a reference count acts on the translation.

    Addresses are page numbers. A table entry of level 1 is a PTE, of level 2 a PDE, of level 3
    a PDPTE and of level 4 a PML4E; an entry of level n spans 512^(n-1) pages. */
module Paging {
  import opened Common
  import opened Orders
  import opened Buddy

  type Bytes = seq<bv8>

  /** The permission bits in PAGE_UMASK besides PAGE_PRESENT. */
  datatype Perm = Perm(write: bool, user: bool, noExec: bool)

  datatype Pte = Pte(present: bool, huge: bool, frame: nat, perm: Perm)

  const ZERO_ENTRY: Pte := Pte(false, false, 0, Perm(false, false, false))

  /** Position of a table: address space, level of its entries, first page it covers. */
  datatype Home = Home(root: nat, level: nat, base: nat)

  /** tb: frames that hold page tables; own: allocated blocks with their reference counts;
      held: references the kernel holds outside any table entry; up: the entry that points
      to a table. */
  datatype Mem = Mem(tb: map<nat, seq<Pte>>, home: map<nat, Home>, up: map<nat, (nat, nat)>,
                     own: map<nat, Own>, held: map<nat, nat>, data: seq<Bytes>)

  function Span(level: nat): (s: nat)
    ensures s > 0
  {
    if level <= 1 then 1
    else if level == 2 then 512
    else if level == 3 then 262144
    else if level == 4 then 134217728
    else 68719476736
  }

  function Index(level: nat, v: nat): (i: nat)
    ensures i < 512
  {
    if level <= 1 then v % 512
    else if level == 2 then (v / 512) % 512
    else if level == 3 then (v / 262144) % 512
    else (v / 134217728) % 512
  }

  predicate Covers(h: Home, v: nat) {
    h.base <= v < h.base + Span(h.level + 1)
  }

  /** A present entry that points to a table of the next level rather than to a page. */
  predicate IsTable(level: nat, e: Pte) {
    e.present && level >= 2 && !(level == 2 && e.huge)
  }

  const USER_PAGES: nat := 34359738368   // USER_LIM / PAGE_SIZE

  // ---- Translation --------------------------------------------------------------------

  /** A translated page: its 4K frame, its permissions, the block the entry points to, and its size. */
  datatype Spot = Spot(frame: nat, perm: Perm, block: nat, huge: bool)

  datatype PageView = PageView(bytes: Bytes, perm: Perm)

  function Find(tb: map<nat, seq<Pte>>, t: nat, level: nat, v: nat): Option<Spot>
    decreases level
  {
    if level == 0 || t !in tb || |tb[t]| != 512 then None
    else
      var e := tb[t][Index(level, v)];
      if !e.present then None
      else if IsTable(level, e) then Find(tb, e.frame, level - 1, v)
      else Some(Spot(if level == 2 then e.frame + v % 512 else e.frame, e.perm, e.frame, level == 2))
  }

  function View(m: Mem, root: nat, v: nat): Option<PageView> {
    match Find(m.tb, root, 4, v)
    case None => None
    case Some(s) => if s.frame < |m.data| then Some(PageView(m.data[s.frame], s.perm)) else None
  }

  /** Page v is mapped, and its entry is the only reference to the block behind it. */
  ghost predicate Private(m: Mem, root: nat, v: nat) {
    match Find(m.tb, root, 4, v)
    case None => false
    case Some(s) => s.block in m.own && m.own[s.block].ref == 1
  }

  // ---- Well-formed page tables ----------------------------------------------------------

  function Held(m: Mem, f: nat): nat { if f in m.held then m.held[f] else 0 }

  /** What entries that point to tables allow, so that the last entry on the way to a page decides. */
  const ALL: Perm := Perm(true, true, false)

  /** The entries that point to frame f. */
  function Refs(tb: map<nat, seq<Pte>>, f: nat): set<(nat, nat)> {
    set t, i | t in tb && 0 <= i < |tb[t]| && tb[t][i].present && tb[t][i].frame == f :: (t, i)
  }

  ghost predicate Apart(own: map<nat, Own>, f: nat, g: nat) {
    f in own && g in own && f < g ==> f + Pow2(own[f].order) <= g
  }

  ghost predicate OwnOk(m: Mem) {
    && (forall f :: f in m.own ==> f + Pow2(m.own[f].order) <= |m.data|)
    && (forall f, g {:trigger Apart(m.own, f, g)} :: Apart(m.own, f, g))
  }

  ghost predicate Shaped(m: Mem) {
    forall t :: t in m.tb ==> t in m.home && |m.tb[t]| == 512 && 1 <= m.home[t].level <= 4
  }

  ghost predicate IsRoot(m: Mem, q: nat) {
    q in m.tb && q in m.home && m.home[q].level == 4
  }

  ghost predicate TableOk(m: Mem, t: nat)
    requires Shaped(m) && t in m.tb
  {
    && t in m.own && m.own[t].order == 0
    && m.home[t].base % Span(m.home[t].level + 1) == 0
    && m.home[t].base + Span(m.home[t].level + 1) <= Span(5) && IsRoot(m, m.home[t].root)
    && (m.home[t].level == 4 ==> m.home[t].root == t && m.home[t].base == 0)
    && (m.home[t].level < 4 ==> Held(m, t) == 0 && t in m.up && ParentOk(m, t, m.up[t].0, m.up[t].1))
  }

  ghost predicate ParentOk(m: Mem, t: nat, p: nat, i: nat)
    requires Shaped(m)
  {
    p in m.tb && i < 512 && IsTable(m.home[p].level, m.tb[p][i]) && m.tb[p][i].frame == t
  }

  ghost predicate SlotOk(m: Mem, t: nat, i: nat)
    requires Shaped(m) && t in m.tb && i < 512
  {
    var e, h := m.tb[t][i], m.home[t];
    e.present ==>
      if IsTable(h.level, e) then
        && e.frame in m.tb && e.frame in m.up && m.up[e.frame] == (t, i)
        && m.home[e.frame] == Home(h.root, h.level - 1, h.base + i * Span(h.level)) && e.perm == ALL
      else
        && e.frame in m.own && e.frame !in m.tb
        && m.own[e.frame].order == if h.level == 2 then HUGE else 0
  }

  /** pp_ref counts the entries that point to the frame and the references held elsewhere. */
  ghost predicate RefOk(m: Mem, f: nat)
    requires f in m.own
  {
    m.own[f].ref == |Refs(m.tb, f)| + Held(m, f)
  }

  ghost predicate MInv(m: Mem) {
    && OwnOk(m) && Shaped(m)
    && (forall t {:trigger TableOk(m, t)} :: t in m.tb ==> TableOk(m, t))
    && (forall t, i: nat {:trigger SlotOk(m, t, i)} :: t in m.tb && i < 512 ==> SlotOk(m, t, i))
    && (forall f {:trigger RefOk(m, f)} :: f in m.own ==> RefOk(m, f))
    && (forall f :: f in m.held && m.held[f] > 0 ==> f in m.own)
  }

  // ---- Index arithmetic -----------------------------------------------------------------

  lemma IndexIs(level: nat, k: nat, i: nat, r: nat)
    requires 1 <= level <= 4 && i < 512 && r < Span(level)
    ensures Index(level, k * Span(level + 1) + i * Span(level) + r) == i
  {
    var s := Span(level);
    var v := k * Span(level + 1) + i * s + r;
    assert Span(level + 1) == 512 * s;
    assert k * (512 * s) == s * (512 * k) && i * s == s * i;
    assert v == s * (512 * k + i) + r by { assert s * (512 * k + i) == s * (512 * k) + s * i; }
    DivUnique(v, s, 512 * k + i, r);
    assert Index(level, v) == (512 * k + i) % 512;
  }

  /** The pages under entry i of a table are the pages of the table with index i. */
  lemma ChildCovers(level: nat, base: nat, i: nat, v: nat)
    requires 1 <= level <= 4 && base % Span(level + 1) == 0 && i < 512
    ensures base + i * Span(level) <= v < base + i * Span(level) + Span(level) <==>
              base <= v < base + Span(level + 1) && Index(level, v) == i
    ensures (base + i * Span(level)) % Span(level) == 0
    ensures i * Span(level) + Span(level) <= Span(level + 1)
  {
    var s, k := Span(level), base / Span(level + 1);
    assert base == k * Span(level + 1) && Span(level + 1) == 512 * s;
    MulMono(i, 511, s);
    if base <= v < base + Span(level + 1) {
      var j, r := (v - base) / s, (v - base) % s;
      assert v - base == s * j + r;
      if j >= 512 {
        MulMono(512, j, s);
        assert false;
      }
      IndexIs(level, k, j, r);
      if j < i { MulMono(j + 1, i, s); } else if i < j { MulMono(i + 1, j, s); }
    }
    assert base + i * s == s * (512 * k + i) + 0 by {
      assert k * (512 * s) == s * (512 * k) && s * (512 * k + i) == s * (512 * k) + s * i;
    }
    ModUnique(base + i * s, s, 512 * k + i);
  }

  lemma ModUnique(x: nat, m: nat, q: nat)
    requires m > 0 && x == m * q
    ensures x % m == 0
  {
    DivUnique(x, m, q, 0);
    assert x == m * (x / m) + x % m;
  }

  lemma SlotOfChild(m: Mem, t: nat, i: nat, v: nat)
    requires MInv(m) && t in m.tb && i < 512 && IsTable(m.home[t].level, m.tb[t][i])
    ensures SlotOk(m, t, i)
    ensures Covers(m.home[m.tb[t][i].frame], v) <==> Covers(m.home[t], v) && Index(m.home[t].level, v) == i
  {
    assert TableOk(m, t) && SlotOk(m, t, i);
    ChildCovers(m.home[t].level, m.home[t].base, i, v);
  }

  // ---- The path to a page ---------------------------------------------------------------

  /** A table that covers v is on the walk from the root of its address space to v. */
  lemma {:induction false} FindPath(m: Mem, t: nat, v: nat)
    requires MInv(m) && t in m.tb && Covers(m.home[t], v)
    ensures Find(m.tb, m.home[t].root, 4, v) == Find(m.tb, t, m.home[t].level, v)
    decreases 4 - m.home[t].level
  {
    assert TableOk(m, t);
    if m.home[t].level < 4 {
      var (p, i) := m.up[t];
      assert TableOk(m, p) && SlotOk(m, p, i);
      SlotOfChild(m, p, i, v);
      FindPath(m, p, v);
    }
  }

  /** Entry (t, i) is on the walk to v. */
  ghost predicate SlotCovers(m: Mem, t: nat, i: nat, v: nat) {
    t in m.home && Covers(m.home[t], v) && Index(m.home[t].level, v) == i
  }

  /** The walk to v reads nothing but the entries for v in the tables that cover v. */
  ghost predicate SameFor(m: Mem, tb': map<nat, seq<Pte>>, q: nat, v: nat) {
    forall t :: t in m.tb && t in m.home && m.home[t].root == q && Covers(m.home[t], v) ==>
      t in tb' && |tb'[t]| == |m.tb[t]| == 512
        && tb'[t][Index(m.home[t].level, v)] == m.tb[t][Index(m.home[t].level, v)]
  }

  lemma {:induction false} FindFrameAt(m: Mem, tb': map<nat, seq<Pte>>, t: nat, v: nat)
    requires MInv(m) && t in m.tb && Covers(m.home[t], v) && SameFor(m, tb', m.home[t].root, v)
    ensures Find(tb', t, m.home[t].level, v) == Find(m.tb, t, m.home[t].level, v)
    decreases m.home[t].level
  {
    assert TableOk(m, t);
    var i := Index(m.home[t].level, v);
    if IsTable(m.home[t].level, m.tb[t][i]) {
      SlotOfChild(m, t, i, v);
      FindFrameAt(m, tb', m.tb[t][i].frame, v);
    }
  }

  lemma FindFrame(m: Mem, tb': map<nat, seq<Pte>>, q: nat, v: nat)
    requires MInv(m) && IsRoot(m, q) && v < Span(5) && SameFor(m, tb', q, v)
    ensures Find(tb', q, 4, v) == Find(m.tb, q, 4, v)
  {
    assert TableOk(m, q);
    FindFrameAt(m, tb', q, v);
  }

  // ---- Changing one leaf entry ------------------------------------------------------------

  lemma RefsUpdate(tb: map<nat, seq<Pte>>, t: nat, i: nat, e: Pte, f: nat)
    requires t in tb && i < |tb[t]|
    ensures var r := Refs(tb[t := tb[t][i := e]], f);
            && (e.present && e.frame == f ==> r == Refs(tb, f) + {(t, i)})
            && (!(e.present && e.frame == f) ==> r == Refs(tb, f) - {(t, i)})
            && ((t, i) in Refs(tb, f) <==> tb[t][i].present && tb[t][i].frame == f)
  {
  }

  function Gain(held: map<nat, nat>, e: Pte): map<nat, nat> {
    if e.present then held[e.frame := (if e.frame in held then held[e.frame] else 0) + 1] else held
  }

  function Spend(held: map<nat, nat>, e: Pte): map<nat, nat> {
    if e.present && e.frame in held && held[e.frame] > 0 then held[e.frame := held[e.frame] - 1] else held
  }

  function SetEntry(tb: map<nat, seq<Pte>>, t: nat, i: nat, e: Pte): map<nat, seq<Pte>>
    requires t in tb && i < |tb[t]|
  {
    tb[t := tb[t][i := e]]
  }

  /** Entry (t, i) becomes e: the kernel keeps the reference the old entry stood for, and the
      new entry takes over a reference the kernel holds. */
  function Swap(m: Mem, t: nat, i: nat, e: Pte): Mem
    requires t in m.tb && i < |m.tb[t]|
  {
    m.(tb := SetEntry(m.tb, t, i, e), held := Spend(Gain(m.held, m.tb[t][i]), e))
  }

  ghost predicate LeafOk(m: Mem, level: nat, e: Pte) {
    !IsTable(level, e) &&
    (e.present ==> e.frame in m.own && e.frame !in m.tb && m.own[e.frame].order == if level == 2 then HUGE else 0)
  }

  ghost predicate CanSwap(m: Mem, t: nat, i: nat, e: Pte) {
    && MInv(m) && t in m.tb && i < 512
    && !IsTable(m.home[t].level, m.tb[t][i]) && LeafOk(m, m.home[t].level, e)
    && (e.present ==> Held(m, e.frame) > 0 || (m.tb[t][i].present && m.tb[t][i].frame == e.frame))
  }

  lemma SwapRefs(m: Mem, t: nat, i: nat, e: Pte, f: nat)
    requires CanSwap(m, t, i, e) && f in m.own
    ensures RefOk(Swap(m, t, i, e), f)
  {
    RefsUpdate(m.tb, t, i, e, f);
    assert RefOk(m, f);
  }

  lemma SwapSlots(m: Mem, t: nat, i: nat, e: Pte, x: nat, j: nat)
    requires CanSwap(m, t, i, e) && x in m.tb && j < 512
    ensures Shaped(Swap(m, t, i, e)) && SlotOk(Swap(m, t, i, e), x, j)
  {
    assert SlotOk(m, x, j);
  }

  lemma SwapTables(m: Mem, t: nat, i: nat, e: Pte, x: nat)
    requires CanSwap(m, t, i, e) && x in m.tb
    ensures Shaped(Swap(m, t, i, e)) && TableOk(Swap(m, t, i, e), x)
  {
    assert TableOk(m, x) && SlotOk(m, t, i);
  }

  lemma SwapInv(m: Mem, t: nat, i: nat, e: Pte)
    requires CanSwap(m, t, i, e)
    ensures MInv(Swap(m, t, i, e))
  {
    var m' := Swap(m, t, i, e);
    SwapTables(m, t, i, e, t);
    assert SlotOk(m, t, i);
    assert forall f :: f in m'.held && m'.held[f] > 0 ==> f in m.own;
    forall x | x in m'.tb ensures TableOk(m', x) { SwapTables(m, t, i, e, x); }
    forall x, j: nat | x in m'.tb && j < 512 ensures SlotOk(m', x, j) { SwapSlots(m, t, i, e, x, j); }
    forall f | f in m'.own ensures RefOk(m', f) { SwapRefs(m, t, i, e, f); }
  }

  /** The translation after a leaf entry changes: new under the entry, the same elsewhere. */
  lemma SwapFind(m: Mem, t: nat, i: nat, e: Pte, q: nat, v: nat)
    requires CanSwap(m, t, i, e) && IsRoot(m, q) && v < Span(5)
    ensures var r := Find(SetEntry(m.tb, t, i, e), q, 4, v);
            if q == m.home[t].root && SlotCovers(m, t, i, v) then
              r == if !e.present then None
                else Some(Spot(if m.home[t].level == 2 then e.frame + v % 512
                               else e.frame, e.perm, e.frame, m.home[t].level == 2))
            else r == Find(m.tb, q, 4, v)
  {
    var m' := Swap(m, t, i, e);
    if q == m.home[t].root && SlotCovers(m, t, i, v) {
      SwapInv(m, t, i, e);
      FindPath(m', t, v);
    } else {
      FindFrame(m, m'.tb, q, v);
    }
  }

  // ---- Attaching and detaching a table ----------------------------------------------------

  /** A zeroed frame, read as a table. */
  function ZeroTable(): (r: seq<Pte>)
    ensures |r| == 512 && forall j :: 0 <= j < 512 ==> r[j] == ZERO_ENTRY
  {
    seq(512, _ => ZERO_ENTRY)
  }

  /** PAGE_PRESENT | PAGE_WRITE | PAGE_USER */
  function TableEntry(f: nat): Pte { Pte(true, false, f, Perm(true, true, false)) }

  ghost predicate CanAddTable(m: Mem, t: nat, i: nat, f: nat) {
    && MInv(m) && t in m.tb && i < 512 && m.home[t].level >= 2 && !m.tb[t][i].present
    && f in m.own && m.own[f] == Own(0, 1) && f !in m.tb && Held(m, f) == 1
  }

  ghost function AddTable(m: Mem, t: nat, i: nat, f: nat): Mem
    requires t in m.tb && i < |m.tb[t]| && t in m.home && m.home[t].level >= 2
  {
    var h := m.home[t];
    m.(tb := SetEntry(m.tb, t, i, TableEntry(f))[f := ZeroTable()],
       home := m.home[f := Home(h.root, h.level - 1, h.base + i * Span(h.level))],
       up := m.up[f := (t, i)],
       held := m.held[f := 0])
  }

  lemma ZeroTableRefs(tb: map<nat, seq<Pte>>, f: nat, g: nat)
    requires f !in tb
    ensures Refs(tb[f := ZeroTable()], g) == Refs(tb, g)
  {
    forall x, j | (x, j) in Refs(tb[f := ZeroTable()], g) ensures (x, j) in Refs(tb, g) { assert x != f; }
    forall x, j | (x, j) in Refs(tb, g) ensures (x, j) in Refs(tb[f := ZeroTable()], g) { assert x != f; }
  }

  lemma AddTableRefs(m: Mem, t: nat, i: nat, f: nat, g: nat)
    requires CanAddTable(m, t, i, f) && g in m.own
    ensures Refs(m.tb, f) == {}
    ensures RefOk(AddTable(m, t, i, f), g)
  {
    assert RefOk(m, g) && RefOk(m, f) && |m.tb[t]| == 512;
    assert Refs(m.tb, f) == {};
    hide MInv;
    RefsUpdate(m.tb, t, i, TableEntry(f), g);
    var tb1 := SetEntry(m.tb, t, i, TableEntry(f));
    ZeroTableRefs(tb1, f, g);
    hide ZeroTable;
    hide Refs;
    if g == f { assert (t, i) !in Refs(m.tb, g); } else { assert Refs(tb1, g) == Refs(m.tb, g); }
  }

  lemma AddTableSlot(m: Mem, t: nat, i: nat, f: nat, x: nat, j: nat)
    requires CanAddTable(m, t, i, f) && (x in m.tb || x == f) && j < 512 && Refs(m.tb, f) == {}
    ensures Shaped(AddTable(m, t, i, f)) && SlotOk(AddTable(m, t, i, f), x, j)
  {
    if x != f {
      assert SlotOk(m, x, j);
      assert m.tb[x][j].present && m.tb[x][j].frame == f ==> (x, j) in Refs(m.tb, f);
    }
  }

  lemma AddTableTable(m: Mem, t: nat, i: nat, f: nat, x: nat)
    requires CanAddTable(m, t, i, f) && x in m.tb
    ensures Shaped(AddTable(m, t, i, f)) && TableOk(AddTable(m, t, i, f), x)
  {
    assert TableOk(m, x);
  }

  lemma AddTableNew(m: Mem, t: nat, i: nat, f: nat)
    requires CanAddTable(m, t, i, f)
    ensures Shaped(AddTable(m, t, i, f)) && TableOk(AddTable(m, t, i, f), f)
  {
    assert TableOk(m, t);
    ChildCovers(m.home[t].level, m.home[t].base, i, 0);
  }

  lemma AddTableInv(m: Mem, t: nat, i: nat, f: nat)
    requires CanAddTable(m, t, i, f)
    ensures MInv(AddTable(m, t, i, f))
  {
    var m' := AddTable(m, t, i, f);
    AddTableRefs(m, t, i, f, f);
    AddTableNew(m, t, i, f);
    forall x | x in m'.tb ensures TableOk(m', x) { if x != f { AddTableTable(m, t, i, f, x); } }
    forall x, j: nat | x in m'.tb && j < 512 ensures SlotOk(m', x, j) { AddTableSlot(m, t, i, f, x, j); }
    forall g | g in m'.own ensures RefOk(m', g) { AddTableRefs(m, t, i, f, g); }
  }

  /** An empty table translates nothing, so attaching it changes no translation. */
  lemma AddTableFind(m: Mem, t: nat, i: nat, f: nat, q: nat, v: nat)
    requires CanAddTable(m, t, i, f) && IsRoot(m, q) && v < Span(5)
    ensures Find(AddTable(m, t, i, f).tb, q, 4, v) == Find(m.tb, q, 4, v)
  {
    var m' := AddTable(m, t, i, f);
    if q == m.home[t].root && SlotCovers(m, t, i, v) {
      AddTableInv(m, t, i, f);
      FindPath(m', t, v);
      FindPath(m, t, v);
    } else {
      FindFrame(m, m'.tb, q, v);
    }
  }

  ghost predicate EmptyTable(tb: map<nat, seq<Pte>>, c: nat) {
    c in tb && forall j :: 0 <= j < |tb[c]| ==> !tb[c][j].present
  }

  ghost predicate CanDropTable(m: Mem, t: nat, i: nat) {
    MInv(m) && t in m.tb && i < 512 && IsTable(m.home[t].level, m.tb[t][i]) && EmptyTable(m.tb, m.tb[t][i].frame)
  }

  ghost function DropTable(m: Mem, t: nat, i: nat): Mem
    requires t in m.tb && i < |m.tb[t]|
  {
    var c := m.tb[t][i].frame;
    m.(tb := SetEntry(m.tb, t, i, ZERO_ENTRY) - {c}, held := m.held[c := Held(m, c) + 1])
  }

  lemma DropTableTable(m: Mem, t: nat, i: nat, x: nat)
    requires CanDropTable(m, t, i) && x in m.tb && x != m.tb[t][i].frame
    ensures Shaped(DropTable(m, t, i)) && x in DropTable(m, t, i).tb && TableOk(DropTable(m, t, i), x)
  {
    assert SlotOk(m, t, i) && TableOk(m, x);
    if m.home[x].level < 4 { assert SlotOk(m, m.up[x].0, m.up[x].1); }
  }

  lemma DropTableSlot(m: Mem, t: nat, i: nat, x: nat, j: nat)
    requires CanDropTable(m, t, i) && x in m.tb && x != m.tb[t][i].frame && j < 512
    ensures Shaped(DropTable(m, t, i)) && x in DropTable(m, t, i).tb && SlotOk(DropTable(m, t, i), x, j)
  {
    assert SlotOk(m, t, i) && SlotOk(m, x, j);
  }

  lemma DropTableRefs(m: Mem, t: nat, i: nat, g: nat)
    requires CanDropTable(m, t, i) && g in m.own
    ensures RefOk(DropTable(m, t, i), g)
  {
    assert RefOk(m, g) && SlotOk(m, t, i);
    var tb1 := SetEntry(m.tb, t, i, ZERO_ENTRY);
    RefsUpdate(m.tb, t, i, ZERO_ENTRY, g);
    assert Refs(tb1 - {m.tb[t][i].frame}, g) == Refs(tb1, g);
  }

  lemma DropTableInv(m: Mem, t: nat, i: nat)
    requires CanDropTable(m, t, i)
    ensures MInv(DropTable(m, t, i)) && m.tb[t][i].frame in m.own && t != m.tb[t][i].frame
  {
    var m' := DropTable(m, t, i);
    assert SlotOk(m, t, i) && TableOk(m, m.tb[t][i].frame);
    forall x | x in m'.tb ensures Shaped(m') && TableOk(m', x) { DropTableTable(m, t, i, x); }
    forall x, j: nat | x in m'.tb && j < 512 ensures SlotOk(m', x, j) { DropTableSlot(m, t, i, x, j); }
    forall g | g in m'.own ensures RefOk(m', g) { DropTableRefs(m, t, i, g); }
  }

  lemma DropTableFind(m: Mem, t: nat, i: nat, q: nat, v: nat)
    requires CanDropTable(m, t, i) && IsRoot(m, q) && v < Span(5)
    ensures Find(DropTable(m, t, i).tb, q, 4, v) == Find(m.tb, q, 4, v)
  {
    var m' := DropTable(m, t, i);
    DropTableInv(m, t, i);
    assert SlotOk(m, t, i) && TableOk(m, m.tb[t][i].frame);
    if q == m.home[t].root && SlotCovers(m, t, i, v) {
      FindPath(m', t, v);
      FindPath(m, t, v);
    } else {
      SlotOfChild(m, t, i, v);
      FindFrame(m, m'.tb, q, v);
    }
  }

  // ---- Blocks, references and contents ------------------------------------------------------

  /** Every entry points into an allocated block. */
  lemma RefsOwned(m: Mem, f: nat)
    requires MInv(m) && f !in m.own
    ensures Refs(m.tb, f) == {} && f !in m.tb && Held(m, f) == 0
  {
    forall t | t in m.tb ensures t in m.own { assert TableOk(m, t); }
    forall t, i | t in m.tb && 0 <= i < 512 && m.tb[t][i].present ensures m.tb[t][i].frame in m.own {
      assert SlotOk(m, t, i);
    }
  }

  /** m' differs from m in allocated blocks, references and contents only. */
  ghost predicate SameTables(m: Mem, m': Mem) {
    m'.tb == m.tb && m'.home == m.home && m'.up == m.up
  }

  ghost predicate KeepsUsed(m: Mem, m': Mem) {
    forall f :: f in m.own && (Refs(m.tb, f) != {} || f in m.tb) ==> f in m'.own && m'.own[f].order == m.own[f].order
  }

  /** Reference counts and blocks may change in step as long as no used block goes. */
  lemma RebaseInv(m: Mem, m': Mem)
    requires MInv(m) && SameTables(m, m') && OwnOk(m') && KeepsUsed(m, m')
    requires forall f :: f in m'.own ==> RefOk(m', f)
    requires forall f :: f in m'.held && m'.held[f] > 0 ==> f in m'.own
    requires forall t :: t in m.tb && m.home[t].level < 4 ==> Held(m', t) == 0
    ensures MInv(m')
  {
    forall t | t in m'.tb ensures Shaped(m') && TableOk(m', t) { assert TableOk(m, t); }
    forall t, i: nat | t in m'.tb && i < 512 ensures SlotOk(m', t, i) {
      assert SlotOk(m, t, i);
      assert m.tb[t][i].present ==> (t, i) in Refs(m.tb, m.tb[t][i].frame);
    }
  }

  lemma AllocInv(m: Mem, f: nat, k: nat, data': seq<Bytes>)
    requires MInv(m) && f !in m.own && |data'| == |m.data|
    requires OwnOk(m.(own := m.own[f := Own(k, 0)]))
    ensures MInv(m.(own := m.own[f := Own(k, 0)], data := data'))
  {
    var m' := m.(own := m.own[f := Own(k, 0)], data := data');
    RefsOwned(m, f);
    forall g | g in m'.own ensures RefOk(m', g) { if g != f { assert RefOk(m, g); } }
    forall t | t in m.tb && m.home[t].level < 4 ensures Held(m', t) == 0 { assert TableOk(m, t); }
    RebaseInv(m, m');
  }

  function Take(m: Mem, f: nat): Mem
    requires f in m.own
  {
    m.(own := m.own[f := m.own[f].(ref := m.own[f].ref + 1)], held := m.held[f := Held(m, f) + 1])
  }

  lemma TakeInv(m: Mem, f: nat)
    requires MInv(m) && f in m.own && f !in m.tb
    ensures MInv(Take(m, f))
  {
    var m' := Take(m, f);
    assert forall g, h :: Apart(m.own, g, h) ==> Apart(m'.own, g, h);
    forall g | g in m'.own ensures RefOk(m', g) { assert RefOk(m, g); }
    forall t | t in m.tb && m.home[t].level < 4 ensures Held(m', t) == 0 { assert TableOk(m, t); }
    RebaseInv(m, m');
  }

  function DropRef(own: map<nat, Own>, f: nat): map<nat, Own>
    requires f in own && own[f].ref > 0
  {
    if own[f].ref == 1 then own - {f} else own[f := own[f].(ref := own[f].ref - 1)]
  }

  function Release(m: Mem, f: nat): Mem
    requires f in m.own && m.own[f].ref > 0 && Held(m, f) > 0
  {
    m.(own := DropRef(m.own, f), held := m.held[f := Held(m, f) - 1])
  }

  lemma ReleaseRefs(m: Mem, f: nat, g: nat)
    requires MInv(m) && f in m.own && Held(m, f) > 0 && m.own[f].ref > 0
    requires g in Release(m, f).own
    ensures RefOk(Release(m, f), g)
  {
    assert RefOk(m, g);
  }

  /** A block is given back exactly when no entry and no holder is left. */
  lemma ReleaseInv(m: Mem, f: nat)
    requires MInv(m) && f in m.own && f !in m.tb && Held(m, f) > 0
    ensures m.own[f].ref > 0 && MInv(Release(m, f))
    ensures f !in Release(m, f).own <==> Refs(m.tb, f) == {} && Held(m, f) == 1
  {
    assert RefOk(m, f);
    var m' := Release(m, f);
    forall g | g in m'.own ensures RefOk(m', g) { ReleaseRefs(m, f, g); }
    forall t | t in m.tb && m.home[t].level < 4 ensures Held(m', t) == 0 { assert TableOk(m, t); }
    ReleaseOwn(m, f);
    RebaseInv(m, m');
  }

  lemma ReleaseOwn(m: Mem, f: nat)
    requires MInv(m) && f in m.own && f !in m.tb && Held(m, f) > 0 && m.own[f].ref > 0
    ensures OwnOk(Release(m, f)) && KeepsUsed(m, Release(m, f))
  {
    assert RefOk(m, f);
    assert forall g, h :: Apart(m.own, g, h) ==> Apart(Release(m, f).own, g, h);
  }

  /** The leaf entry behind a translated page, and the block it maps. */
  lemma {:induction false} SpotBlock(m: Mem, t: nat, v: nat) returns (x: nat, i: nat)
    requires MInv(m) && t in m.tb && Covers(m.home[t], v) && Find(m.tb, t, m.home[t].level, v).Some?
    ensures x in m.tb && i < 512 && m.tb[x][i].present && !IsTable(m.home[x].level, m.tb[x][i])
    ensures m.home[x].root == m.home[t].root && SlotCovers(m, x, i, v) && SlotOk(m, x, i)
    ensures m.tb[x][i].frame in m.own
    ensures Find(m.tb, t, m.home[t].level, v).value ==
              Spot(if m.home[x].level == 2 then m.tb[x][i].frame + v % 512
                   else m.tb[x][i].frame, m.tb[x][i].perm, m.tb[x][i].frame, m.home[x].level == 2)
    decreases m.home[t].level
  {
    assert TableOk(m, t);
    x, i := t, Index(m.home[t].level, v);
    assert SlotOk(m, x, i);
    if IsTable(m.home[t].level, m.tb[t][i]) {
      SlotOfChild(m, t, i, v);
      x, i := SpotBlock(m, m.tb[t][i].frame, v);
    }
  }

  lemma Pow2Huge()
    ensures Pow2(HUGE) == 512
  {
    assert Pow2(3) == 8;
    assert Pow2(6) == 64;
  }

  /** Contents of frames outside the block at f, and of any block no entry maps, are not seen. */
  lemma UnseenData(m: Mem, data': seq<Bytes>, f: nat, n: nat, q: nat, v: nat)
    requires MInv(m) && IsRoot(m, q) && v < Span(5) && |data'| == |m.data|
    requires forall p :: 0 <= p < |m.data| && !(f <= p < f + n) ==> data'[p] == m.data[p]
    requires forall g :: g in m.own && Refs(m.tb, g) != {} ==> g + Pow2(m.own[g].order) <= f || f + n <= g
    ensures View(m.(data := data'), q, v) == View(m, q, v)
  {
    assert TableOk(m, q);
    if Find(m.tb, q, 4, v).Some? {
      var x, i := SpotBlock(m, q, v);
      var g := m.tb[x][i].frame;
      assert (x, i) in Refs(m.tb, g);
      Pow2Huge();
      assert Pow2(0) == 1;
    }
  }

  // ---- Rights along the path ------------------------------------------------------------

  /** What the processor lets a user do in page v: what every entry on the way allows. */
  function Effective(tb: map<nat, seq<Pte>>, t: nat, level: nat, v: nat): Perm
    decreases level
  {
    if level == 0 || t !in tb || |tb[t]| != 512 then Perm(false, false, true)
    else
      var e := tb[t][Index(level, v)];
      if !e.present then Perm(false, false, true)
      else if IsTable(level, e) then
        var p := Effective(tb, e.frame, level - 1, v);
        Perm(e.perm.write && p.write, e.perm.user && p.user, e.perm.noExec || p.noExec)
      else e.perm
  }

  /** It is the permissions of the last entry. */
  lemma {:induction false} LastEntryDecides(m: Mem, t: nat, v: nat)
    requires MInv(m) && t in m.tb && Covers(m.home[t], v) && Find(m.tb, t, m.home[t].level, v).Some?
    ensures Effective(m.tb, t, m.home[t].level, v) == Find(m.tb, t, m.home[t].level, v).value.perm
    decreases m.home[t].level
  {
    assert TableOk(m, t);
    var i := Index(m.home[t].level, v);
    if IsTable(m.home[t].level, m.tb[t][i]) {
      SlotOfChild(m, t, i, v);
      LastEntryDecides(m, m.tb[t][i].frame, v);
    }
  }
}
