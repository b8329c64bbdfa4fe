/** kernel/mem/walk.c over 64-bit addresses, for callbacks that only look: which pages a walk visits. */
module Walk {
  import Orders
  import opened Paging

  const WORD: nat := 0x1_0000_0000_0000_0000
  const HALF: nat := 0x8000_0000_0000            // USER_LIM
  const GAP: nat := 0xffff_0000_0000_0000        // what sign extension adds

  // ---- Addresses ----------------------------------------------------------------------------------

  /** sign_extend, for addresses with the upper bits equal to bit 47 or not yet extended. */
  function SignExtend(a: nat): nat
    requires a < WORD
  {
    if a < HALF then a else GAP + a % (2 * HALF)
  }

  predicate Canonical(a: nat) { a < HALF || WORD - HALF <= a < WORD }

  /** The number of the page at a canonical address; the two halves follow each other. */
  function PageOf(a: nat): nat { a % (2 * HALF) / 4096 }

  function Address(v: nat): nat { if v < 34359738368 then v * 4096 else GAP + v * 4096 }

  /** ptbl_end, pdir_end, pdpt_end and pml4_end. */
  function SlotLast(level: nat, a: nat): nat
    requires 1 <= level <= 4
  {
    a - a % (4096 * Span(level)) + 4096 * Span(level) - 1
  }

  const PAGES: nat := 68719476736   // pages in both halves

  /** The address with the gap closed. */
  function Flat(a: nat): nat { if a < HALF then a else if a >= GAP then a - GAP else 0 }

  lemma FlatIs(a: nat)
    requires Canonical(a)
    ensures Flat(a) == a % (2 * HALF) < 2 * HALF && PageOf(a) == Flat(a) / 4096 < PAGES
    ensures a == if Flat(a) < HALF then Flat(a) else GAP + Flat(a)
  {
  }

  /** Both halves begin at a multiple of every slot size. */
  lemma SlotFlat(level: nat, a: nat)
    requires Canonical(a) && 1 <= level <= 4
    ensures SlotLast(level, a) - a == SlotLast(level, Flat(a)) - Flat(a)
  {
    var z := 4096 * Span(level);
    if a >= HALF {
      ModShift(Flat(a), z, GAP / z);
      assert GAP == z * (GAP / z);
    }
  }

  lemma ModShift(x: nat, m: nat, q: nat)
    requires m > 0
    ensures (m * q + x) % m == x % m
  {
    var d, r := x / m, x % m;
    assert x == m * d + r;
    assert m * q + x == m * (q + d) + r by { assert m * (q + d) == m * q + m * d; }
    Orders.DivUnique(m * q + x, m, q + d, r);
    assert m * q + x == m * ((m * q + x) / m) + (m * q + x) % m;
  }

  /** The last page of the slot around page v. */
  function SlotEndPage(level: nat, v: nat): nat
    requires 1 <= level <= 4
  {
    v - v % Span(level) + Span(level)
  }

  lemma Divide(x: nat, m: nat, q: nat, r: nat)
    requires m > 0 && r < m && x == m * q + r
    ensures x / m == q && x % m == r
  {
    Orders.DivUnique(x, m, q, r);
    assert x == m * (x / m) + x % m;
  }

  lemma SlotOf1(x: nat)
    ensures var n := x - x % 4096 + 4096 - 1;
            && x <= n && (x < 2 * HALF ==> n < 2 * HALF) && (x < HALF ==> n < HALF) && (n + 1) % 4096 == 0
            && (n + 1) / 4096 == x / 4096 - x / 4096 % 1 + 1
  {
    var q, r := x / 4096, x % 4096;
    var d, m := r / 4096, r % 4096;
    assert x == 4096 * q + r && r == 4096 * d + m;
    assert x < 2 * HALF ==> q < 68719476736;
    assert x < HALF ==> q < 34359738368;
    Divide(x, 4096, 1 * q + d, m);
    Divide(1 * q + d, 1, q, d);
    Divide(4096 * q + 4096, 4096, 1 * q + 1, 0);
  }

  lemma SlotOf2(x: nat)
    ensures var n := x - x % 2097152 + 2097152 - 1;
            && x <= n && (x < 2 * HALF ==> n < 2 * HALF) && (x < HALF ==> n < HALF) && (n + 1) % 4096 == 0
            && (n + 1) / 4096 == x / 4096 - x / 4096 % 512 + 512
  {
    var q, r := x / 2097152, x % 2097152;
    var d, m := r / 4096, r % 4096;
    assert x == 2097152 * q + r && r == 4096 * d + m;
    assert x < 2 * HALF ==> q < 134217728;
    assert x < HALF ==> q < 67108864;
    Divide(x, 4096, 512 * q + d, m);
    Divide(512 * q + d, 512, q, d);
    Divide(2097152 * q + 2097152, 4096, 512 * q + 512, 0);
  }

  lemma SlotOf3(x: nat)
    ensures var n := x - x % 1073741824 + 1073741824 - 1;
            && x <= n && (x < 2 * HALF ==> n < 2 * HALF) && (x < HALF ==> n < HALF) && (n + 1) % 4096 == 0
            && (n + 1) / 4096 == x / 4096 - x / 4096 % 262144 + 262144
  {
    var q, r := x / 1073741824, x % 1073741824;
    var d, m := r / 4096, r % 4096;
    assert x == 1073741824 * q + r && r == 4096 * d + m;
    assert x < 2 * HALF ==> q < 262144;
    assert x < HALF ==> q < 131072;
    Divide(x, 4096, 262144 * q + d, m);
    Divide(262144 * q + d, 262144, q, d);
    Divide(1073741824 * q + 1073741824, 4096, 262144 * q + 262144, 0);
  }

  lemma SlotOf4(x: nat)
    ensures var n := x - x % 549755813888 + 549755813888 - 1;
            && x <= n && (x < 2 * HALF ==> n < 2 * HALF) && (x < HALF ==> n < HALF) && (n + 1) % 4096 == 0
            && (n + 1) / 4096 == x / 4096 - x / 4096 % 134217728 + 134217728
  {
    var q, r := x / 549755813888, x % 549755813888;
    var d, m := r / 4096, r % 4096;
    assert x == 549755813888 * q + r && r == 4096 * d + m;
    assert x < 2 * HALF ==> q < 512;
    assert x < HALF ==> q < 256;
    Divide(x, 4096, 134217728 * q + d, m);
    Divide(134217728 * q + d, 134217728, q, d);
    Divide(549755813888 * q + 549755813888, 4096, 134217728 * q + 134217728, 0);
  }

  lemma SlotPages(level: nat, x: nat)
    requires x < 2 * HALF && 1 <= level <= 4
    ensures var n := SlotLast(level, x);
            x <= n < 2 * HALF && (n + 1) % 4096 == 0 && (n + 1) / 4096 == SlotEndPage(level, x / 4096)
    ensures x < HALF ==> SlotLast(level, x) < HALF
  {
    match level {
      case 1 => SlotOf1(x);
      case 2 => SlotOf2(x);
      case 3 => SlotOf3(x);
      case 4 => SlotOf4(x);
    }
  }

  /** How a walker moves on: to the next slot, over the gap, or to the end. */
  lemma SlotStep(level: nat, a: nat)
    requires Canonical(a) && 1 <= level <= 4
    ensures var n := SlotLast(level, a);
            && a <= n && Canonical(n) && PageOf(n) + 1 == SlotEndPage(level, PageOf(a)) && (n + 1) % 4096 == 0
            && (n + 1 < WORD ==> Canonical(SignExtend(n + 1)) && PageOf(SignExtend(n + 1)) == PageOf(n) + 1)
            && (n + 1 == WORD ==> PageOf(n) + 1 == PAGES)
  {
    hide SlotLast;
    hide SlotEndPage;
    SlotFlat(level, a);
    FlatIs(a);
    SlotPages(level, Flat(a));
    NextPage(a, SlotLast(level, a), SlotLast(level, Flat(a)));
  }

  lemma NextFlat(n: nat, f: nat)
    requires Canonical(n) && Flat(n) == f && n + 1 < WORD
    ensures Canonical(SignExtend(n + 1)) && Flat(SignExtend(n + 1)) == f + 1
  {
    if n < HALF {
      assert n == f && (n + 1 == HALF ==> SignExtend(n + 1) == GAP + HALF);
    } else {
      assert n == GAP + f;
      UpperExtend(f + 1);
    }
  }

  lemma UpperExtend(g: nat)
    requires HALF <= g < 2 * HALF
    ensures GAP + g < WORD && SignExtend(GAP + g) == GAP + g
  {
    assert GAP + g == 2 * HALF * 65535 + g;
    Divide(GAP + g, 2 * HALF, 65535, g);
  }

  lemma NextPage(a: nat, n: nat, f: nat)
    requires Canonical(a) && n - a == f - Flat(a) && Flat(a) <= f < 2 * HALF && (f + 1) % 4096 == 0
             && (Flat(a) < HALF ==> f < HALF)
    ensures a <= n && Canonical(n) && PageOf(n) + 1 == (f + 1) / 4096 && (n + 1) % 4096 == 0
    ensures n + 1 < WORD ==> Canonical(SignExtend(n + 1)) && PageOf(SignExtend(n + 1)) == PageOf(n) + 1
    ensures n + 1 == WORD ==> PageOf(n) + 1 == PAGES
  {
    FlatIs(a);
    FlatIs(n);
    assert Flat(n) == f;
    PageBefore(f + 1);
    if n + 1 < WORD {
      NextFlat(n, f);
      FlatIs(SignExtend(n + 1));
    }
  }

  /** Addresses and page numbers are in the same order. */
  lemma SameOrder(a: nat, e: nat)
    requires Canonical(a) && Canonical(e)
    ensures a <= e ==> PageOf(a) <= PageOf(e)
    ensures a % 4096 == 0 && PageOf(a) <= PageOf(e) ==> a <= e
  {
    FlatIs(a);
    FlatIs(e);
  }

  // ---- Walks --------------------------------------------------------------------------------------------

  type Tables = map<nat, seq<Pte>>

  /** The tables below table t of the given level are there. */
  ghost predicate Complete(tb: Tables, t: nat, level: nat)
    decreases level
  {
    && t in tb && |tb[t]| == 512
    && (level > 1 ==> forall i :: 0 <= i < 512 && IsTable(level, tb[t][i]) ==> Complete(tb, tb[t][i].frame, level - 1))
  }

  /** Page v lies below a present PDE that is not a 2M page. */
  predicate Below(tb: Tables, t: nat, level: nat, v: nat)
    decreases level
  {
    level <= 1 ||
    (t in tb && |tb[t]| == 512
     && var e := tb[t][Index(level, v)]; IsTable(level, e) && Below(tb, e.frame, level - 1, v))
  }

  /** The pages of [lo, hi) that have a PTE, in order. */
  ghost function Pages(tb: Tables, t: nat, level: nat, lo: nat, hi: nat): seq<nat>
    decreases hi - lo
  {
    if lo >= hi then [] else (if Below(tb, t, level, lo) then [lo] else []) + Pages(tb, t, level, lo + 1, hi)
  }

  /** Pages is what it says: increasing, and exactly the pages of the range with a PTE. */
  lemma {:induction false} PagesAre(tb: Tables, t: nat, level: nat, lo: nat, hi: nat, v: nat)
    ensures v in Pages(tb, t, level, lo, hi) <==> lo <= v < hi && Below(tb, t, level, v)
    ensures forall i, j :: 0 <= i < j < |Pages(tb, t, level, lo, hi)| ==>
              Pages(tb, t, level, lo, hi)[i] < Pages(tb, t, level, lo, hi)[j]
    decreases hi - lo
  {
    if lo < hi {
      PagesAre(tb, t, level, lo + 1, hi, v);
      var r := Pages(tb, t, level, lo + 1, hi);
      forall i | 0 <= i < |r| ensures lo < r[i] { PagesAre(tb, t, level, lo + 1, hi, r[i]); }
    }
  }

  lemma {:induction false} PagesConcat(tb: Tables, t: nat, level: nat, lo: nat, mid: nat, hi: nat)
    requires lo <= mid <= hi
    ensures Pages(tb, t, level, lo, hi) == Pages(tb, t, level, lo, mid) + Pages(tb, t, level, mid, hi)
    decreases mid - lo
  {
    if lo < mid { PagesConcat(tb, t, level, lo + 1, mid, hi); }
  }

  /** The pages of one slot are those of the table under its entry. */
  lemma {:induction false} PagesInSlot(tb: Tables, t: nat, level: nat, lo: nat, hi: nat, i: nat)
    requires level >= 2 && t in tb && |tb[t]| == 512 && i < 512
             && forall v: nat :: lo <= v < hi ==> Index(level, v) == i
    ensures Pages(tb, t, level, lo, hi) == if IsTable(level, tb[t][i])
            then Pages(tb, tb[t][i].frame, level - 1, lo, hi) else []
    decreases hi - lo
  {
    if lo < hi {
      assert Index(level, lo) == i;
      PagesInSlot(tb, t, level, lo + 1, hi, i);
    }
  }

  lemma SameIndex(level: nat, v: nat, w: nat)
    requires 1 <= level <= 4 && v <= w < SlotEndPage(level, v)
    ensures Index(level, w) == Index(level, v) && SlotEndPage(level, w) == SlotEndPage(level, v)
  {
    var s := Span(level);
    var q, r := v / s, v % s;
    assert v == s * q + r;
    Orders.DivUnique(w, s, q, w - s * q);
    assert w == s * (w / s) + w % s;
    assert Index(level, w) == w / s % 512 && Index(level, v) == v / s % 512;
  }

  lemma AddressOf(a: nat)
    requires Canonical(a)
    ensures Address(PageOf(a)) == a - a % 4096
  {
    FlatIs(a);
  }

  ghost predicate Are(calls: seq<nat>, pages: seq<nat>) {
    |calls| == |pages| && forall i :: 0 <= i < |calls| ==> calls[i] == Address(pages[i])
  }

  /** last + 1 in 64 bits. */
  function NextWord(last: nat): (next: nat)
    ensures next < WORD
  {
    (last + 1) % WORD
  }

  lemma NextWordIs(last: nat)
    requires last < WORD
    ensures NextWord(last) == if last + 1 == WORD then 0 else last + 1
  {
  }

  /** One turn of a walker's loop goes from base to the end of the slot, or of the range. */
  lemma Turn(level: nat, base: nat, end: nat)
    requires 1 <= level <= 4 && Canonical(base) && Canonical(end) && base <= end
    ensures var last := SlotLast(level, base);
            var stop := if last <= end then last else end; var next := NextWord(last);
            && last < WORD && base <= stop && Canonical(stop) && PageOf(base) <= PageOf(stop) <= PageOf(end)
            && PageOf(stop) < SlotEndPage(level, PageOf(base))
            && (next == 0 ==> PageOf(stop) == PageOf(end))
            && (next != 0 ==> (next <= end <==> PageOf(stop) + 1 < PageOf(end) + 1))
            && (next != 0 && next <= end ==>
                  Canonical(SignExtend(next)) && PageOf(SignExtend(next)) == PageOf(stop) + 1
                  && SignExtend(next) <= end)
  {
    hide SlotLast;
    hide SlotEndPage;
    hide PageOf;
    hide SignExtend;
    hide NextWord;
    SlotStep(level, base);
    var last := SlotLast(level, base);
    NextWordIs(last);
    SameOrder(base, end);
    SameOrder(last, end);
    SameOrder(base, last);
    SameOrder(end, last);
    TurnNext(last, end);
  }

  lemma TurnNext(last: nat, end: nat)
    requires Canonical(last) && Canonical(end) && (last + 1) % 4096 == 0
    ensures last + 1 < WORD && last < end ==> PageOf(last) < PageOf(end)
    ensures last + 1 < WORD && end <= last ==> !(last + 1 <= end)
    ensures last + 1 == WORD ==> end <= last
    ensures last + 1 <= end ==> SignExtend(last + 1) <= end
  {
    FlatIs(last);
    FlatIs(end);
  }

  /** The entry for base in table t, as far as the walk reaches into its slot. */
  method Visit(tb: Tables, t: nat, level: nat, base: nat, stop: nat) returns (calls: seq<nat>)
    requires 1 <= level <= 4 && Complete(tb, t, level) && Canonical(base) && Canonical(stop) && base <= stop
    requires PageOf(base) <= PageOf(stop) < SlotEndPage(level, PageOf(base))
    ensures Are(calls, Pages(tb, t, level, PageOf(base), PageOf(stop) + 1))
    decreases level, 0
  {
    hide PageOf;
    hide Address;
    ghost var v, w := PageOf(base), PageOf(stop) + 1;
    if level == 1 {
      AddressOf(base);
      assert Pages(tb, t, level, v, v + 1) == [v] + Pages(tb, t, level, v + 1, v + 1);
      return [base - base % 4096];
    }
    var e := tb[t][Index(level, PageOf(base))];
    forall x: nat | v <= x < w ensures Index(level, x) == Index(level, v) { SameIndex(level, v, x); }
    PagesInSlot(tb, t, level, v, w, Index(level, v));
    calls := [];
    if IsTable(level, e) {
      calls := WalkRange(tb, e.frame, level - 1, base, stop);
    }
  }

  /** ptbl_walk_range, pdir_walk_range, pdpt_walk_range and pml4_walk_range, by level: the
      addresses with which pte_callback is called. */
  method WalkRange(tb: Tables, t: nat, level: nat, base0: nat, end0: nat) returns (calls: seq<nat>)
    requires 1 <= level <= 4 && Complete(tb, t, level) && Canonical(base0) && Canonical(end0) && base0 <= end0
    requires level < 4 ==> PageOf(end0) < SlotEndPage(level + 1, PageOf(base0))
    ensures Are(calls, Pages(tb, t, level, PageOf(base0), PageOf(end0) + 1))
    decreases level, 1
  {
    SignSame(base0);
    SignSame(end0);
    SameOrder(base0, end0);
    hide PageOf;
    hide SlotLast;
    hide SlotEndPage;
    hide Complete;
    hide Pages;
    hide Canonical;
    hide Are;
    hide SignExtend;
    hide NextWord;
    var base: nat, end: nat := SignExtend(base0), SignExtend(end0);
    calls := [];
    ghost var lo, hi, b := PageOf(base0), PageOf(end0) + 1, PageOf(base0);
    NoPages(tb, t, level, lo);
    while base <= end
      invariant base < WORD && lo <= b <= hi
      invariant b < hi ==> Canonical(SignExtend(base)) && PageOf(SignExtend(base)) == b && SignExtend(base) <= end
      invariant base <= end <==> b < hi
      invariant Are(calls, Pages(tb, t, level, lo, b))
      decreases hi - b
    {
      base := SignExtend(base);
      Turn(level, base, end);
      var last: nat := SlotLast(level, base);
      var next: nat := NextWord(last);
      var stop: nat := if last <= end then last else end;
      var more := Visit(tb, t, level, base, stop);
      Join(tb, t, level, lo, b, PageOf(stop) + 1, calls, more);
      calls := calls + more;
      b := PageOf(stop) + 1;
      if next == 0 {
        return;
      }
      base := next;
    }
  }

  lemma SignSame(a: nat)
    requires Canonical(a)
    ensures a < WORD && SignExtend(a) == a
  {
  }

  lemma NoPages(tb: Tables, t: nat, level: nat, lo: nat)
    ensures Are([], Pages(tb, t, level, lo, lo))
  {
  }

  lemma Join(tb: Tables, t: nat, level: nat, lo: nat, mid: nat, hi: nat, calls: seq<nat>, more: seq<nat>)
    requires lo <= mid <= hi && Are(calls, Pages(tb, t, level, lo, mid)) && Are(more, Pages(tb, t, level, mid, hi))
    ensures Are(calls + more, Pages(tb, t, level, lo, hi))
  {
    PagesConcat(tb, t, level, lo, mid, hi);
  }

  /** walk_page_range: the pages from that of base to that of the last byte before end; end 0
      stands for the top of the address space, so that the range from 0 to 0 is everything. */
  method WalkPageRange(tb: Tables, root: nat, base: nat, end: nat) returns (calls: seq<nat>)
    requires Complete(tb, root, 4) && Canonical(base) && end < WORD && Canonical((end + WORD - 1) % WORD)
    ensures Are(calls, Pages(tb, root, 4, PageOf(base), PageOf((end + WORD - 1) % WORD) + 1))
  {
    var up := (end + 4095) / 4096 * 4096 % WORD;
    var first, last := base - base % 4096, (up + WORD - 1) % WORD;
    RoundedEnd(end, last);
    RoundedBase(base, first);
    SameOrder(first, last);
    hide PageOf;
    hide Complete;
    calls := [];
    if first <= last {
      calls := WalkRange(tb, root, 4, first, last);
    }
  }

  lemma PageBefore(f: nat)
    requires f > 0 && f % 4096 == 0
    ensures (f - 1) / 4096 + 1 == f / 4096
  {
    var q := f / 4096;
    assert f == 4096 * q;
    Divide(f - 1, 4096, q - 1, 4095);
  }

  /** Between equal bounds there are no pages to walk, except from 0 to 0: the address before the end
      wraps around to the top, and the pages are all of them. */
  lemma EmptyWalk(base: nat)
    requires base < WORD && Canonical(base) && Canonical((base + WORD - 1) % WORD) && base % 4096 == 0
    ensures PageOf((base + WORD - 1) % WORD) + 1 == if base == 0 then PAGES else PageOf(base)
    ensures base == 0 ==> PageOf(base) == 0
  {
    if base != 0 {
      BeforeEnd(base);
      FlatIs(base);
      FlatIs(base - 1);
      var f := Flat(base);
      assert Flat(base - 1) == f - 1;
      assert f % 4096 == 0;
      PageBefore(f);
    }
  }

  lemma RoundedBase(base: nat, first: nat)
    requires Canonical(base) && first == base - base % 4096
    ensures Canonical(first) && PageOf(first) == PageOf(base) && first % 4096 == 0
  {
    FlatIs(base);
    FlatIs(first);
  }

  lemma RoundedEnd(end: nat, last: nat)
    requires end < WORD && Canonical((end + WORD - 1) % WORD)
    requires last == ((end + 4095) / 4096 * 4096 % WORD + WORD - 1) % WORD
    ensures Canonical(last) && PageOf(last) == PageOf((end + WORD - 1) % WORD)
  {
    RoundedLast(end, last);
    PageLast((end + WORD - 1) % WORD, last);
  }

  lemma PageLast(p: nat, last: nat)
    requires Canonical(p) && last == p - p % 4096 + 4095
    ensures Canonical(last) && PageOf(last) == PageOf(p)
  {
    FlatIs(p);
    FlatIs(last);
  }

  lemma RoundedLast(end: nat, last: nat)
    requires end < WORD && last == ((end + 4095) / 4096 * 4096 % WORD + WORD - 1) % WORD
    ensures var p := (end + WORD - 1) % WORD; last == p - p % 4096 + 4095
  {
    if end == 0 {
      assert last == WORD - 1;
    } else {
      BeforeEnd(end);
      var q, r := (end - 1) / 4096, (end - 1) % 4096;
      assert end - 1 == 4096 * q + r;
      Divide(end + 4095, 4096, q + 1, r);
      assert (end + 4095) / 4096 == q + 1;
      UpperEnd(q);
      assert last == 4096 * q + 4095;
    }
  }

  lemma BeforeEnd(end: nat)
    requires 0 < end < WORD
    ensures (end + WORD - 1) % WORD == end - 1
  {
  }

  lemma UpperEnd(q: nat)
    requires 4096 * q < WORD
    ensures ((q + 1) * 4096 % WORD + WORD - 1) % WORD == 4096 * q + 4095
  {
  }

  /** walk_user_pages hands on USER_LIM as the last address, not as the first one after the
      range: after the user half it visits the first page of the kernel half as well. */
  method WalkUserPages(tb: Tables, root: nat) returns (calls: seq<nat>)
    requires Complete(tb, root, 4)
    ensures Are(calls, Pages(tb, root, 4, 0, PAGES / 2 + 1))
  {
    hide Complete;
    calls := WalkRange(tb, root, 4, 0, SignExtend(HALF));
  }

  /** walk_all_pages */
  method WalkAllPages(tb: Tables, root: nat) returns (calls: seq<nat>)
    requires Complete(tb, root, 4)
    ensures Are(calls, Pages(tb, root, 4, 0, PAGES))
  {
    hide Complete;
    calls := WalkRange(tb, root, 4, 0, WORD - 1);
  }
}
