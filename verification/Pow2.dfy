/** Powers of two, alignment and buddies, bit by bit, as the frame allocator of mem/pmm.c uses them. */
module Pow2Blocks {
  import opened Arithmetic

  function Pow2(k: int): (r: int)
    requires k >= 0
    ensures r >= 1
  {
    if k == 0 then 1 else 2 * Pow2(k - 1)
  }

  /** The low k bits of p are zero: `p & ((1 << k) - 1) == 0`. */
  predicate Aligned(p: int, k: int)
    requires k >= 0
    decreases k
  {
    k == 0 || (p % 2 == 0 && Aligned(p / 2, k - 1))
  }

  /** `p ^ (1 << k)`: bit k is flipped. */
  function BuddyOf(p: int, k: int): int
    requires k >= 0
    decreases k
  {
    if k == 0 then (if p % 2 == 0 then p + 1 else p - 1) else 2 * BuddyOf(p / 2, k - 1) + p % 2
  }

  // Dividing by twice a number is halving and dividing by it.
  lemma Halved(p: int, m: int)
    requires p >= 0 && m >= 1
    ensures p / (2 * m) == p / 2 / m && p % (2 * m) == 2 * (p / 2 % m) + p % 2
  {
    var q, r := p / 2 / m, p / 2 % m;
    assert p / 2 == q * m + r;
    assert p == q * (2 * m) + (2 * r + p % 2);
    DivMod(q, 2 * r + p % 2, 2 * m);
  }

  /** Alignment by bits is divisibility. */
  lemma {:induction false} AlignedMeans(p: int, k: int)
    requires p >= 0 && k >= 0
    ensures Aligned(p, k) <==> p % Pow2(k) == 0
    decreases k
  {
    if k > 0 {
      AlignedMeans(p / 2, k - 1);
      Halved(p, Pow2(k - 1));
    }
  }

  /** The buddy is the neighbour of the same size: above a block at an even place, below one at an odd place. */
  lemma {:induction false} BuddyMeans(p: int, k: int)
    requires p >= 0 && k >= 0
    ensures BuddyOf(p, k) == if p / Pow2(k) % 2 == 0 then p + Pow2(k) else p - Pow2(k)
    decreases k
  {
    if k > 0 {
      BuddyMeans(p / 2, k - 1);
      Halved(p, Pow2(k - 1));
    }
  }

  /** A block of order k + 1 is two blocks of order k, each the buddy of the other. */
  lemma {:induction false} Halves(p: int, k: int)
    requires k >= 0 && Aligned(p, k + 1)
    ensures Aligned(p, k) && Aligned(p + Pow2(k), k)
    ensures BuddyOf(p, k) == p + Pow2(k) && BuddyOf(p + Pow2(k), k) == p
    decreases k
  {
    if k > 0 {
      Halves(p / 2, k - 1);
      var u := p + Pow2(k);
      assert u % 2 == 0 && u / 2 == p / 2 + Pow2(k - 1);
      assert Aligned(u, k) == Aligned(u / 2, k - 1) && Aligned(p, k) == Aligned(p / 2, k - 1);
      assert BuddyOf(u, k) == 2 * BuddyOf(u / 2, k - 1) && BuddyOf(p, k) == 2 * BuddyOf(p / 2, k - 1);
    }
  }

  // Doubling adds one zero bit at the bottom.
  lemma Doubled(h: int, k: int)
    requires k >= 1
    ensures Aligned(2 * h, k) == Aligned(h, k - 1) && BuddyOf(2 * h, k) == 2 * BuddyOf(h, k - 1)
  {
    assert (2 * h) % 2 == 0 && (2 * h) / 2 == h;
  }

  /** The converse: an aligned block and its buddy are the two halves of a block of the next order. */
  lemma {:induction false} Joins(p: int, k: int)
    requires k >= 0 && p >= 0 && Aligned(p, k)
    ensures var b := BuddyOf(p, k);
            var low := if b < p then b else p;
            && 0 <= low && Aligned(low, k + 1) && Aligned(b, k) && BuddyOf(b, k) == p
            && ((b == p + Pow2(k) && low == p) || (p == b + Pow2(k) && low == b))
    decreases k
  {
    if k > 0 {
      var h := p / 2;
      assert p == 2 * h;
      Joins(h, k - 1);
      var b := BuddyOf(h, k - 1);
      Doubled(h, k);
      Doubled(b, k);
      Doubled(if b < h then b else h, k + 1);
    }
  }

  /** A block that reaches into an aligned range of a smaller order covers all of that range. */
  lemma {:induction false} Nested(h: int, j: int, low: int, m: int, x: int)
    requires 0 <= m <= j && Aligned(h, j) && Aligned(low, m)
    requires h <= x < h + Pow2(j) && low <= x < low + Pow2(m)
    ensures h <= low && low + Pow2(m) <= h + Pow2(j)
    decreases m
  {
    if m > 0 { Nested(h / 2, j - 1, low / 2, m - 1, x / 2); }
  }

  lemma {:induction false} AlignedDown(p: int, j: int, k: int)
    requires 0 <= k <= j && Aligned(p, j)
    ensures Aligned(p, k)
    decreases k
  {
    if k > 0 { AlignedDown(p / 2, j - 1, k - 1); }
  }
}
