/** Division facts shared by the modules that index circular tables. */
module Arith {

  lemma MulBound(w: nat, k: int)
    ensures k >= 1 ==> w * k >= w
    ensures k <= -1 ==> w * k <= 0 - w
  {
    if k >= 1 { MulNonNeg(w, k - 1); } else if k <= -1 { MulNonNeg(w, -k - 1); }
  }

  lemma MulNonNeg(a: nat, b: nat)
    ensures a * b >= 0
  {
  }

  lemma Distribute(w: int, a: int, b: int)
    ensures w * (a + b) == w * a + w * b && (a + b) * w == a * w + b * w
  {
  }

  lemma DivMod(x: int, w: nat)
    requires w > 0
    ensures x == w * (x / w) + x % w && 0 <= x % w < w
  {
  }

  /** Quotient and remainder are unique. */
  lemma ModUnique(x: int, w: nat, q: int, r: nat)
    requires r < w && x == w * q + r
    ensures x % w == r && x / w == q
  {
    DivMod(x, w);
    MulBound(w, q - x / w);
    assert w * (q - x / w) == w * q - w * (x / w);
  }

  lemma ModShift(x: int, w: nat, k: int)
    requires w > 0
    ensures (x + w * k) % w == x % w
  {
    DivMod(x, w);
    assert w * (x / w + k) == w * (x / w) + w * k;
    ModUnique(x + w * k, w, x / w + k, x % w);
  }

  /** Numbers less than w apart have different remainders. */
  lemma DistinctSlots(p: nat, s: nat, w: nat)
    requires p < s < p + w
    ensures p % w != s % w
  {
    DivMod(p, w);
    DivMod(s, w);
    MulBound(w, s / w - p / w);
    assert w * (s / w - p / w) == w * (s / w) - w * (p / w);
  }
}
