/** Codes are compared most significant bit first but read from the stream least
    significant bit first; these are the facts about the reversal. */
module BitReverse {
  import opened Bits

  /** The low l bits of c in reverse order. */
  function Reverse(l: nat, c: nat): nat
  {
    if l == 0 then 0 else Reverse(l - 1, c / 2) + Pow2(l - 1) * (c % 2)
  }

  lemma {:induction false} ReverseBound(l: nat, c: nat)
    ensures Reverse(l, c) < Pow2(l)
    decreases l
  {
    if l > 0 { ReverseBound(l - 1, c / 2); }
  }

  /** Zeros appended to a code do not show in its reversal. */
  lemma {:induction false} ReverseAppend(l: nat, d: nat, c: nat)
    ensures Reverse(l + d, Shl(c, d)) == Reverse(l, c)
    decreases d
  {
    if d > 0 {
      ShlTwice(c, d);
      ReverseAppend(l, d - 1, c);
    }
  }

  /** The top bit of a reversal is the low bit of the code. */
  lemma {:induction false} ReverseTop(l: nat, c: nat)
    requires l > 0
    ensures Low(Reverse(l, c), l - 1) == Reverse(l - 1, c / 2)
    ensures Shr(Reverse(l, c), l - 1) == c % 2
  {
    hide Low, Shr, Pow2;
    ReverseBound(l - 1, c / 2);
    Assemble(Reverse(l - 1, c / 2), c % 2, l - 1);
  }

  /** The low j bits of a reversal are the reversal of the top j bits. */
  lemma {:induction false} ReversePrefix(l: nat, j: nat, c: nat)
    requires j <= l
    ensures Low(Reverse(l, c), j) == Reverse(j, Shr(c, l - j))
    decreases l
  {
    if j == l {
      hide Low, Pow2;
      ReverseBound(l, c);
      LowFits(Reverse(l, c), l);
    } else {
      hide Low, Pow2, Reverse;
      ReverseTop(l, c);
      LowLow(Reverse(l, c), j, l - 1);
      ReversePrefix(l - 1, j, c / 2);
    }
  }

  /** Codes of the same length that differ have different reversals. */
  lemma {:induction false} ReverseInjective(l: nat, a: nat, b: nat)
    requires a < Pow2(l) && b < Pow2(l) && Reverse(l, a) == Reverse(l, b)
    ensures a == b
    decreases l
  {
    if l > 0 {
      ReverseTop(l, a);
      ReverseTop(l, b);
      ReverseInjective(l - 1, a / 2, b / 2);
    }
  }

  lemma {:induction false} LowHalves(x: nat, k: nat)
    requires k > 0
    ensures Low(x, k) / 2 == Low(x / 2, k - 1) && Low(x, k) % 2 == x % 2
  {
    Halves(Low(x / 2, k - 1), x % 2);
  }

  /** The low bit of a reversal is the top bit of the code. */
  lemma {:induction false} ReverseLow(l: nat, x: nat)
    requires l > 0 && x < Pow2(l)
    ensures Reverse(l, x) == 2 * Reverse(l - 1, Low(x, l - 1)) + Shr(x, l - 1)
    decreases l
  {
    if l > 1 {
      ReverseLow(l - 1, x / 2);
      LowHalves(x, l - 1);
      DoubledProduct(l - 1, x % 2);
    }
  }

  /** Reversing twice gives the number back. */
  lemma {:induction false} ReverseReverse(l: nat, c: nat)
    requires c < Pow2(l)
    ensures Reverse(l, Reverse(l, c)) == c
    decreases l
  {
    if l > 0 {
      ReverseBound(l, c);
      ReverseTop(l, c);
      ReverseLow(l, Reverse(l, c));
      ReverseReverse(l - 1, c / 2);
    }
  }

  /** The backward increment of inflate_table.  The source's `incr` is the bit
      1 << (j - 1), or 0 once j is 0: the highest clear bit is set and everything
      above it is cleared. */
  method BackwardIncrement(len: nat, huff: nat, ghost c: nat) returns (r: nat)
    requires len > 0 && huff == Reverse(len, c)
    ensures r == Reverse(len, c + 1)
  {
    hide Reverse, Low, Shr, Pow2;
    var j := len;
    ghost var cj := c;
    ReverseBound(len, c);
    LowFits(huff, len);
    while j > 0 && Shr(huff, j - 1) % 2 == 1
      invariant 0 <= j <= len
      invariant Low(huff, j) == Reverse(j, cj)
      invariant Reverse(len, c + 1) == Reverse(j, cj + 1)
      decreases j
    {
      TestedBit(j, huff, cj);
      CarryOn(j, cj);
      j, cj := j - 1, cj / 2;
    }
    if j > 0 {
      TestedBit(j, huff, cj);
      CarryStops(j, cj);
      r := Low(huff, j - 1) + Pow2(j - 1);
    } else {
      EmptyReverse(cj + 1);
      r := 0;
    }
  }

  lemma {:induction false} EmptyReverse(c: nat)
    ensures Reverse(0, c) == 0
  {
  }

  /** The bit of huff that the increment tests is the low bit of the code. */
  lemma {:induction false} TestedBit(j: nat, huff: nat, cj: nat)
    requires j > 0 && Low(huff, j) == Reverse(j, cj)
    ensures Shr(huff, j - 1) % 2 == cj % 2
    ensures Low(huff, j - 1) == Reverse(j - 1, cj / 2)
  {
    hide Reverse, Pow2, Shr;
    ReverseTop(j, cj);
    LowLow(huff, j - 1, j);
    ShrLow(huff, j - 1, j);
    assert Low(Shr(huff, j - 1), 1) == Shr(huff, j - 1) % 2;
  }

  lemma {:induction false} CarryOn(j: nat, cj: nat)
    requires j > 0 && cj % 2 == 1
    ensures Reverse(j, cj + 1) == Reverse(j - 1, cj / 2 + 1)
  {
    assert (cj + 1) / 2 == cj / 2 + 1 && (cj + 1) % 2 == 0;
  }

  lemma {:induction false} CarryStops(j: nat, cj: nat)
    requires j > 0 && cj % 2 == 0
    ensures Reverse(j, cj + 1) == Reverse(j - 1, cj / 2) + Pow2(j - 1)
  {
    assert (cj + 1) / 2 == cj / 2 && (cj + 1) % 2 == 1;
  }
}
