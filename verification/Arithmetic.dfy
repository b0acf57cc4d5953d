/** Facts about products and quotients by a variable. */
module Arithmetic {

  lemma DivMod(q: int, r: int, d: int)
    requires 0 <= q && 0 <= r < d
    ensures (q * d + r) / d == q && (q * d + r) % d == r
  {
    var x := q * d + r;
    assert x == (x / d) * d + x % d;
    assert (q - x / d) * d == x % d - r;
    SmallMultiple(q - x / d, d);
  }

  lemma SmallMultiple(k: int, d: int)
    requires -d < k * d < d
    ensures k == 0
  {
    if k > 0 { MulGe(k, d); }
    if k < 0 { MulGe(-k, d); }
  }

  lemma {:induction false} MulGe(k: int, d: int)
    requires k >= 1 && d > 0
    ensures k * d >= d
    decreases k
  {
    if k > 1 {
      MulGe(k - 1, d);
      assert k * d == (k - 1) * d + d;
    }
  }

  lemma MulMono(a: int, b: int, d: int)
    requires a <= b && d > 0
    ensures a * d <= b * d
    ensures a < b ==> a * d + d <= b * d
  {
    if a < b {
      MulGe(b - a, d);
      assert (b - a) * d == b * d - a * d;
    }
  }
}
