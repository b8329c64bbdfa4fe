/** Where add_vma puts a VMA: at the address asked for, or at the first free place on its way down
    from there and then from the end of the user half, in steps of the size. */
module Places {
  import opened Common
  import opened Paging
  import opened Areas

  /** The pages of a 64-bit address space. */
  const WORD_PAGES: nat := 0x10_0000_0000_0000

  datatype Placement =
    | At(base: nat)
    | Astray(base: nat) // past the end of the user half, after the address wrapped around
    | Nowhere
    | Never // the search does not end

  /** insert_vma takes a VMA of this size at b. */
  predicate Free(areas: seq<Area>, b: nat, size: nat) {
    forall a :: a in areas ==> a.end <= b || b + size <= a.base
  }

  /** An address that a loop from start down to low tries. */
  predicate Candidate(start: nat, size: nat, low: nat, b: nat)
    requires size > 0
  {
    low < b <= start && (start - b) % size == 0
  }

  predicate NoneIn(free: nat -> bool, start: nat, size: nat, low: nat)
    requires size > 0
  {
    forall c: nat :: low < c <= start && Candidate(start, size, low, c) ==> !free(c)
  }

  /** b is the first candidate that is free. */
  predicate FirstIn(free: nat -> bool, start: nat, size: nat, low: nat, b: nat)
    requires size > 0
  {
    Candidate(start, size, low, b) && free(b) && NoneIn(free, start, size, b)
  }

  /** The first free candidate: down from base, and then down from the end to base. */
  predicate First(free: nat -> bool, base: nat, size: nat, b: nat)
    requires 0 < size <= USER_PAGES
  {
    || (base > 0 && FirstIn(free, base, size, 0, b))
    || ((base > 0 ==> NoneIn(free, base, size, 0)) && FirstIn(free, USER_PAGES - size, size, base, b))
  }

  predicate NoneFree(free: nat -> bool, base: nat, size: nat)
    requires 0 < size <= USER_PAGES
  {
    (base > 0 ==> NoneIn(free, base, size, 0)) && NoneIn(free, USER_PAGES - size, size, base)
  }

  /** The search leaves the user half: its first loop finds nothing, and its last step is too long. */
  predicate Escapes(free: nat -> bool, base: nat, size: nat)
    requires 0 < size <= USER_PAGES
  {
    var start := if base > 0 then base else USER_PAGES - size;
    NoneIn(free, start, size, 0) && start % size != 0
  }

  function FreeIn(areas: seq<Area>, size: nat): nat -> bool { (b: nat) => Free(areas, b, size) }

  lemma MulGrows(n: int, d: int)
    requires n > 0 && d >= 1
    ensures n * d >= n
  {
  }

  lemma SmallMultiple(n: int, d: int)
    requires n > 0 && -n < n * d < n
    ensures d == 0
  {
    if d >= 1 {
      MulGrows(n, d);
      assert false;
    } else if d <= -1 {
      MulGrows(n, -d);
      assert false;
    }
  }

  lemma ModUnique(x: nat, n: nat, q: nat, r: nat)
    requires n > 0 && x == n * q + r && r < n
    ensures x % n == r
  {
    assert n * (x / n - q) == r - x % n;
    SmallMultiple(n, x / n - q);
  }

  /** Candidates are at least a step apart. */
  lemma OneStep(start: nat, size: nat, b: nat, c: nat)
    requires size > 0 && b <= start && (start - b) % size == 0 && (start - c) % size == 0 && b - size < c <= b
    ensures c == b
  {
    var x, y := start - b, start - c;
    assert size * (y / size - x / size) == y - x;
    SmallMultiple(size, y / size - x / size);
  }

  lemma StepDown(start: nat, size: nat, b: nat)
    requires size > 0 && b <= start && (start - b) % size == 0
    ensures b >= size ==> (start - (b - size)) % size == 0
    ensures b < size ==> b == start % size
  {
    var q := (start - b) / size;
    assert start - b == size * q;
    if b >= size {
      ModUnique(start - (b - size), size, q + 1, 0);
    } else {
      ModUnique(start, size, q, b);
    }
  }

  /** One turn of a loop at an address that is not free. */
  lemma ScanStep(free: nat -> bool, start: nat, size: nat, low: nat, b: nat)
    requires size > 0 && low < b <= start && (start - b) % size == 0 && NoneIn(free, start, size, b) && !free(b)
    ensures b >= size ==>
              && (start - (b - size)) % size == 0
              && NoneIn(free, start, size, if low < b - size then b - size else low)
    ensures b < size ==> b == start % size && NoneIn(free, start, size, low)
  {
    StepDown(start, size, b);
    forall c: nat | low < c <= start && b - size < c && (start - c) % size == 0 ensures !free(c) {
      if c <= b {
        OneStep(start, size, b, c);
      } else {
        assert Candidate(start, size, b, c);
      }
    }
  }

  lemma FreeBefore(areas: seq<Area>, b: nat, size: nat, k: nat)
    requires Free(areas, b, size) && (k < |areas| ==> b < areas[k].end)
    ensures k < |areas| ==> b + size <= areas[k].base
  {
    if k < |areas| { assert areas[k] in areas; }
  }

  lemma AboveFree(areas: seq<Area>, b: nat, size: nat)
    requires AreasOk(areas) && USER_PAGES <= b
    ensures Free(areas, b, size)
  {
  }

  /** A loop of add_vma: for (b = start; b > low; b -= size), with 64-bit addresses. */
  method Scan(areas: seq<Area>, start: nat, size: nat, low: nat) returns (found: bool, b: nat)
    requires AreasOk(areas) && size > 0 && low <= start && start + size <= USER_PAGES
    ensures found && b <= start ==> FirstIn(FreeIn(areas, size), start, size, low, b)
    ensures !found || b > start ==> NoneIn(FreeIn(areas, size), start, size, low)
    ensures found && b > start ==> low < start % size && b == WORD_PAGES - (size - start % size)
    ensures !found ==> start % size <= low
  {
    hide NoneIn;
    hide AreasOk;
    hide Free;
    ghost var free := FreeIn(areas, size);
    b := start;
    assert NoneIn(free, start, size, start) by { NoneAbove(free, start, size); }
    while b > low
      invariant b <= start ==> (start - b) % size == 0 && NoneIn(free, start, size, if low < b then b else low)
      invariant b > start ==>
                  && NoneIn(free, start, size, low) && low < start % size
                  && b == WORD_PAGES - (size - start % size)
      decreases b <= start, b
    {
      if Free(areas, b, size) {
        return true, b;
      }
      if b > start {
        AboveFree(areas, b, size);
        assert false;
      }
      ScanStep(free, start, size, low, b);
      b := if b >= size then b - size else b + WORD_PAGES - size;
    }
    StepDown(start, size, b);
    found := false;
  }

  lemma NoneAbove(free: nat -> bool, start: nat, size: nat)
    requires size > 0
    ensures NoneIn(free, start, size, start)
  {
  }

  /** add_vma goes wrong: it never ends, because a step of size 0 leads nowhere, or it leaves the
      user half. */
  predicate Strays(areas: seq<Area>, base: nat, size: nat)
    requires size <= USER_PAGES
  {
    if size == 0 then base > 0 && !Free(areas, base, 0) else Escapes(FreeIn(areas, size), base, size)
  }

  /** add_vma, up to the first attempt that succeeds; kmalloc is taken to find memory. */
  method FindPlace(areas: seq<Area>, base: nat, size: nat) returns (r: Placement)
    requires AreasOk(areas) && base + size < USER_PAGES
    ensures r.At? ==> 1 <= r.base && r.base + size <= USER_PAGES && Free(areas, r.base, size)
    ensures r.Astray? || r.Never? <==> Strays(areas, base, size)
    ensures r.Never? <==> size == 0 && Strays(areas, base, size)
    ensures r.Astray? ==> WORD_PAGES - size < r.base < WORD_PAGES
    ensures size == 0 && !r.Never? ==> r == At(if base > 0 then base else USER_PAGES)
    ensures r.At? && size > 0 ==> First(FreeIn(areas, size), base, size, r.base)
    ensures r.Nowhere? ==> size > 0 && NoneFree(FreeIn(areas, size), base, size)
  {
    hide NoneIn;
    hide AreasOk;
    var found, b;
    if base > 0 {
      if Free(areas, base, size) {
        FirstAtOnce(FreeIn(areas, size), base, size);
        if size > 0 { FirstNotNone(FreeIn(areas, size), base, size, 0, base); }
        return At(base);
      }
      if size == 0 {
        return Never;
      }
      found, b := Scan(areas, base, size, 0);
      if found && b <= base {
        FirstNotNone(FreeIn(areas, size), base, size, 0, b);
        return At(b);
      }
      if found {
        return Astray(b);
      }
      MultipleAtLeast(base, size);
    } else if size == 0 {
      AboveFree(areas, USER_PAGES, 0);
      return At(USER_PAGES);
    }
    found, b := Scan(areas, USER_PAGES - size, size, base);
    if found && b <= USER_PAGES - size {
      FirstNotNone(FreeIn(areas, size), USER_PAGES - size, size, base, b);
      return At(b);
    }
    return if found then Astray(b) else Nowhere;
  }

  lemma FirstNotNone(free: nat -> bool, start: nat, size: nat, low: nat, b: nat)
    requires size > 0 && FirstIn(free, start, size, low, b)
    ensures !NoneIn(free, start, size, low)
  {
  }

  lemma MultipleAtLeast(x: nat, n: nat)
    requires n > 0 && x > 0 && x % n == 0
    ensures x >= n
  {
    if x < n {
      ModUnique(x, n, 0, x);
      assert false;
    }
  }

  lemma FirstAtOnce(free: nat -> bool, base: nat, size: nat)
    requires free(base) && base > 0
    ensures size > 0 ==> FirstIn(free, base, size, 0, base)
  {
  }

  // ---- What the search finds and misses -----------------------------------------------------------

  /** A loop does not miss room for nearly two VMAs of the size. */
  lemma GapInLoop(free: nat -> bool, start: nat, size: nat, low: nat, gap: nat)
    requires size > 0 && low < gap && gap + size - 1 <= start && forall b: nat :: gap <= b < gap + size ==> free(b)
    ensures !NoneIn(free, start, size, low)
  {
    var c := gap + (start - gap) % size;
    ModUnique(start - c, size, (start - gap) / size, 0);
    assert Candidate(start, size, low, c) && free(c);
  }

  /** Nor does the search, unless it leaves the user half. */
  lemma WideGapFound(free: nat -> bool, base: nat, size: nat, gap: nat)
    requires 0 < size <= USER_PAGES && 0 < gap && gap + 2 * size - 1 <= USER_PAGES
    requires forall b: nat :: gap <= b < gap + size ==> free(b)
    ensures !NoneFree(free, base, size)
  {
    if gap > base {
      GapInLoop(free, USER_PAGES - size, size, base, gap);
    } else if base < gap + size {
      assert Candidate(base, size, 0, base);
    } else {
      GapInLoop(free, base, size, 0, gap);
    }
  }

  /** But it may miss room for one. */
  lemma NarrowGapMissed()
    ensures var areas := [Area(2, USER_PAGES - 3, Flags(true, false, false)),
                          Area(USER_PAGES - 1, USER_PAGES, Flags(true, false, false))];
            && AreasOk(areas) && Free(areas, USER_PAGES - 3, 2) && !Strays(areas, 4, 2)
            && NoneFree(FreeIn(areas, 2), 4, 2)
  {
    var areas := [Area(2, USER_PAGES - 3, Flags(true, false, false)),
                  Area(USER_PAGES - 1, USER_PAGES, Flags(true, false, false))];
    assert areas[0] in areas && areas[1] in areas;
    forall c: nat | 1 < c <= USER_PAGES - 2 && c != USER_PAGES - 3 ensures !Free(areas, c, 2) {}
  }

  /** Pages 1 to 3 are taken: a search for two pages from page 3 on leaves the user half. */
  lemma EscapeHappens()
    ensures var areas := [Area(1, 4, Flags(true, false, false))]; AreasOk(areas) && Strays(areas, 3, 2)
  {
    var areas := [Area(1, 4, Flags(true, false, false))];
    assert areas[0] in areas;
    forall c: nat | 0 < c <= 3 ensures !Free(areas, c, 2) {}
  }

  /** And a search for no page from page 2 on does not end. */
  lemma NeverHappens()
    ensures var areas := [Area(1, 4, Flags(true, false, false))]; AreasOk(areas) && Strays(areas, 2, 0)
  {
    var areas := [Area(1, 4, Flags(true, false, false))];
    assert areas[0] in areas;
  }
}
