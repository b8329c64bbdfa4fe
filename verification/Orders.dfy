/** Powers of two, the aligned block of a given order that holds a page, and the
    buddy of a block: the index arithmetic under the frame allocator. */
module Orders {

  function Pow2(k: nat): (r: nat)
    ensures r > 0
  {
    if k == 0 then 1 else 2 * Pow2(k - 1)
  }

  /** The low k bits of h are clear. */
  predicate Aligned(h: nat, k: nat)
    decreases k
  {
    k == 0 || (h % 2 == 0 && Aligned(h / 2, k - 1))
  }

  /** Head of the order-k aligned block that holds page p. */
  ghost function Down(p: nat, k: nat): (h: nat)
    ensures Aligned(h, k) && h <= p < h + Pow2(k)
  {
    DownExists(p, k);
    var h: nat :| Aligned(h, k) && h <= p < h + Pow2(k);
    h
  }

  lemma {:induction false} DownExists(p: nat, k: nat)
    ensures exists h: nat :: Aligned(h, k) && h <= p < h + Pow2(k)
    decreases k
  {
    if k == 0 {
      assert Aligned(p, 0);
    } else {
      DownExists(p / 2, k - 1);
      var g: nat :| Aligned(g, k - 1) && g <= p / 2 < g + Pow2(k - 1);
      assert Aligned(2 * g, k);
    }
  }

  lemma {:induction false} DownUnique(h: nat, p: nat, k: nat)
    requires Aligned(h, k) && h <= p < h + Pow2(k)
    ensures Down(p, k) == h
    decreases k
  {
    if k > 0 {
      var d := Down(p, k);
      DownUnique(h / 2, p / 2, k - 1);
      DownUnique(d / 2, p / 2, k - 1);
    }
  }

  lemma DownStep(p: nat, k: nat)
    ensures Down(p, k) == if k == 0 then p else 2 * Down(p / 2, k - 1)
  {
    if k > 0 {
      var g := Down(p / 2, k - 1);
      assert Aligned(2 * g, k);
      DownUnique(2 * g, p, k);
    }
  }

  /** `i ^ (1 << k)`: flips bit k of i. */
  function Flip(i: nat, k: nat): int {
    if (i / Pow2(k)) % 2 == 0 then i + Pow2(k) else i - Pow2(k)
  }

  /** The other half of the order-(k+1) block whose one half is the order-k block at i. */
  ghost function Mate(i: nat, k: nat): int {
    if Down(i, k) == Down(i, k + 1) then i + Pow2(k) else i - Pow2(k)
  }

  /** The order-k block of p is one of the two halves of its order-(k+1) block. */
  lemma {:induction false} DownHalf(p: nat, k: nat)
    ensures Down(p, k) == Down(p, k + 1) || Down(p, k) == Down(p, k + 1) + Pow2(k)
  {
    DownStep(p, k);
    DownStep(p, k + 1);
    if k == 0 { DownStep(p / 2, 0); } else { DownHalf(p / 2, k - 1); }
  }

  /** Rounding down to a small block first does not change the larger block. */
  lemma {:induction false} DownDown(p: nat, j: nat, k: nat)
    requires j <= k
    ensures Down(Down(p, j), k) == Down(p, k)
    decreases k
  {
    DownStep(p, j);
    if j > 0 {
      DownStep(p, k);
      DownStep(Down(p, j), k);
      DownDown(p / 2, j - 1, k - 1);
    }
  }

  /** For an aligned head, p lies in the block exactly when p rounds down to it. */
  lemma DownIff(p: nat, h: nat, k: nat)
    requires Down(h, k) == h
    ensures Down(p, k) == h <==> h <= p < h + Pow2(k)
  {
    if h <= p < h + Pow2(k) { DownUnique(h, p, k); }
  }

  /** Pages of one block share every larger block too. */
  lemma DownUp(p: nat, q: nat, j: nat, k: nat)
    requires j <= k && Down(p, j) == Down(q, j)
    ensures Down(p, k) == Down(q, k)
  {
    DownDown(p, j, k);
    DownDown(q, j, k);
  }

  lemma DownAligned(h: nat, j: nat, k: nat)
    requires j <= k && Down(h, k) == h
    ensures Down(h, j) == h
  {
    DownDown(h, j, k);
  }

  /** The upper half of an aligned block is an aligned block in the same parent. */
  lemma UpperHalf(h: nat, k: nat)
    requires Down(h, k + 1) == h
    ensures Down(h, k) == h
    ensures Down(h + Pow2(k), k) == h + Pow2(k)
    ensures Down(h + Pow2(k), k + 1) == h
  {
    DownAligned(h, k, k + 1);
    DownIff(h + Pow2(k), h, k + 1);
    DownHalf(h + Pow2(k), k);
  }

  /** Flipping bit k leads from a block to its buddy. */
  lemma {:induction false} FlipIsMate(i: nat, k: nat)
    ensures Flip(i, k) == Mate(i, k)
    ensures (i / Pow2(k)) % 2 == 0 <==> Down(i, k) == Down(i, k + 1)
  {
    DownStep(i, k);
    DownStep(i, k + 1);
    if k == 0 {
      DownStep(i / 2, 0);
    } else {
      FlipIsMate(i / 2, k - 1);
      DivHalf(i, Pow2(k - 1));
    }
  }

  lemma DivHalf(i: nat, m: nat)
    requires m > 0
    ensures i / (2 * m) == (i / 2) / m
  {
    var q, r := (i / 2) / m, (i / 2) % m;
    assert i / 2 == m * q + r;
    assert i == (2 * m) * q + (2 * r + i % 2);
    DivUnique(i, 2 * m, q, 2 * r + i % 2);
  }

  lemma DivUnique(x: nat, m: nat, q: nat, r: nat)
    requires r < m && x == m * q + r
    ensures x / m == q
  {
    var d := x / m - q;
    assert x == m * (x / m) + x % m;
    assert m * d == r - x % m;
    if d >= 1 {
      MulMono(1, d, m);
      assert false;
    }
    if d <= -1 {
      MulMono(d, -1, m);
      assert false;
    }
  }

  lemma MulMono(a: int, b: int, m: nat)
    requires a <= b
    ensures m * a <= m * b
  {
  }

  /** The buddy of an aligned block is the other half of its parent block. */
  lemma MateFacts(h: nat, k: nat)
    requires Down(h, k) == h
    ensures Mate(h, k) >= 0 && Down(Mate(h, k), k) == Mate(h, k)
    ensures Down(Mate(h, k), k + 1) == Down(h, k + 1)
    ensures Mate(h, k) > h ==> h == Down(h, k + 1) && Mate(h, k) == h + Pow2(k)
    ensures Mate(h, k) <= h ==> Mate(h, k) == Down(h, k + 1) && h == Mate(h, k) + Pow2(k)
    ensures Mate(Mate(h, k), k) == h
  {
    DownHalf(h, k);
    DownDown(h, k + 1, k + 1);
    UpperHalf(Down(h, k + 1), k);
  }

  /** Room for a whole block below a limit that is itself aligned. */
  lemma {:induction false} DownRoom(p: nat, n: nat, k: nat)
    requires p < n && Down(n, k) == n
    ensures Down(p, k) + Pow2(k) <= n
    decreases k
  {
    DownStep(p, k);
    DownStep(n, k);
    if k > 0 { DownRoom(p / 2, n / 2, k - 1); }
  }
}
