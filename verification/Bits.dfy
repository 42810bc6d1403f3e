/** Machine words as natural numbers: powers of two stand for shifts and masks,
    and exclusive or is defined bit by bit. */
module Bits {
  import Arith

  type byte = x: nat | x < 256

  function Pow2(k: nat): (p: nat)
    ensures p >= 1
  {
    if k == 0 then 1 else 2 * Pow2(k - 1)
  }

  lemma {:induction false} Pow2Add(j: nat, k: nat)
    ensures Pow2(j + k) == Pow2(j) * Pow2(k)
    decreases j
  {
    if j > 0 {
      Pow2Add(j - 1, k);
      assert Pow2(j + k) == 2 * Pow2(j - 1 + k);
    }
  }

  lemma {:induction false} BytePowers()
    ensures Pow2(8) == 0x100 && Pow2(16) == 0x1_0000 && Pow2(24) == 0x100_0000 && Pow2(32) == 0x1_0000_0000
  {
    assert Pow2(8) == 0x100;
    Pow2Add(8, 8);
    Pow2Add(8, 16);
    Pow2Add(8, 24);
  }

  lemma {:induction false} Pow2Mono(j: nat, k: nat)
    requires j <= k
    ensures Pow2(j) <= Pow2(k)
    decreases k
  {
    if j < k { Pow2Mono(j, k - 1); }
  }

  /** x shifted left by k bits. */
  function Shl(x: nat, k: nat): nat { x * Pow2(k) }

  /** The low k bits of x: x masked with 2^k - 1. */
  function Low(x: nat, k: nat): nat
  {
    if k == 0 then 0 else x % 2 + 2 * Low(x / 2, k - 1)
  }

  lemma {:induction false} LowIsMod(x: nat, k: nat)
    ensures Low(x, k) == x % Pow2(k)
    decreases k
  {
    if k > 0 {
      LowIsMod(x / 2, k - 1);
      DoubleMod(x, Pow2(k - 1));
    }
  }

  lemma {:induction false} DoubleMod(x: nat, p: nat)
    requires p > 0
    ensures x % (2 * p) == x % 2 + 2 * (x / 2 % p)
  {
    var q := x / 2 / p;
    Arith.DivMod(x / 2, p);
    assert (2 * p) * q == 2 * (p * q);
    Arith.ModUnique(x, 2 * p, q, x % 2 + 2 * (x / 2 % p));
  }

  lemma {:induction false} LowBound(x: nat, k: nat)
    ensures Low(x, k) < Pow2(k)
    decreases k
  {
    if k > 0 { LowBound(x / 2, k - 1); }
  }

  /** A number that fits k bits is its own low k bits. */
  lemma {:induction false} LowFits(x: nat, k: nat)
    requires x < Pow2(k)
    ensures Low(x, k) == x
    decreases k
  {
    if k > 0 { LowFits(x / 2, k - 1); }
  }

  /** Keeping k bits and then fewer is keeping the fewer at once. */
  lemma {:induction false} LowLow(x: nat, j: nat, k: nat)
    requires j <= k
    ensures Low(Low(x, k), j) == Low(x, j)
    decreases j
  {
    if j > 0 { LowLow(x / 2, j - 1, k - 1); }
  }

  lemma {:induction false} ShlTwice(x: nat, s: nat)
    requires s > 0
    ensures Shl(x, s) == 2 * Shl(x, s - 1)
  {
  }

  lemma {:induction false} ShlFacts(a: nat, b: nat, j: nat, k: nat)
    ensures Shl(a + b, k) == Shl(a, k) + Shl(b, k)
    ensures Shl(Pow2(j), k) == Pow2(j + k) && Shl(0, k) == 0 && Shl(1, k) == Pow2(k)
  {
    Pow2Add(j, k);
  }

  /** Shifting moves the low j bits up. */
  lemma {:induction false} LowShl(x: nat, s: nat, j: nat)
    ensures Low(Shl(x, s), j + s) == Shl(Low(x, j), s)
    decreases s
  {
    if s > 0 {
      hide Shl, Low;
      LowShl(x, s - 1, j);
      ShlTwice(x, s);
      ShlTwice(Low(x, j), s);
      LowTwice(Shl(x, s - 1), j + s - 1);
    }
  }

  lemma {:induction false} LowTwice(y: nat, k: nat)
    ensures Low(2 * y, k + 1) == 2 * Low(y, k)
  {
    assert 2 * y / 2 == y && 2 * y % 2 == 0;
  }

  /** Bitwise exclusive or. */
  function Xor(a: nat, b: nat): nat
    decreases a + b
  {
    if a == 0 && b == 0 then 0
    else (if a % 2 == b % 2 then 0 else 1) + 2 * Xor(a / 2, b / 2)
  }

  lemma {:induction false} XorZero(b: nat)
    ensures Xor(0, b) == b
  {
    if b > 0 { XorZero(b / 2); }
  }

  lemma {:induction false} XorParts(a: nat, b: nat)
    ensures Xor(a, b) % 2 == (if a % 2 == b % 2 then 0 else 1)
    ensures Xor(a, b) / 2 == Xor(a / 2, b / 2)
  {
  }

  lemma {:induction false} XorLow(a: nat, b: nat, k: nat)
    ensures Low(Xor(a, b), k) == Xor(Low(a, k), Low(b, k))
    decreases k
  {
    hide Xor;
    if k == 0 {
      XorZero(0);
    } else {
      XorParts(a, b);
      XorParts(Low(a, k), Low(b, k));
      XorLow(a / 2, b / 2, k - 1);
    }
  }

  /** For a fixed left operand exclusive or is one-to-one. */
  lemma {:induction false} XorInjective(a: nat, b: nat, c: nat)
    requires Xor(a, b) == Xor(a, c)
    ensures b == c
    decreases a + b + c
  {
    if a > 0 || b > 0 || c > 0 {
      assert Xor(a, b) % 2 == Xor(a, c) % 2 && Xor(a, b) / 2 == Xor(a, c) / 2;
      XorInjective(a / 2, b / 2, c / 2);
    }
  }

  lemma {:induction false} XorComm(a: nat, b: nat)
    ensures Xor(a, b) == Xor(b, a)
    decreases a + b
  {
    if a > 0 || b > 0 { XorComm(a / 2, b / 2); }
  }

  lemma {:induction false} XorAssoc(a: nat, b: nat, c: nat)
    ensures Xor(Xor(a, b), c) == Xor(a, Xor(b, c))
    decreases a + b + c
  {
    if a > 0 || b > 0 || c > 0 {
      hide Xor;
      XorParts(a, b);
      XorParts(b, c);
      XorParts(Xor(a, b), c);
      XorParts(a, Xor(b, c));
      XorAssoc(a / 2, b / 2, c / 2);
      SameNumber(Xor(Xor(a, b), c), Xor(a, Xor(b, c)));
    }
  }

  lemma {:induction false} SameNumber(x: nat, y: nat)
    requires x % 2 == y % 2 && x / 2 == y / 2
    ensures x == y
  {
  }

  lemma {:induction false} XorSelf(a: nat)
    ensures Xor(a, a) == 0
  {
    if a > 0 { XorSelf(a / 2); }
  }

  /** Exchanging the middle of four mixed words. */
  lemma {:induction false} XorSwap(a: nat, b: nat, c: nat, d: nat)
    ensures Xor(Xor(a, b), Xor(c, d)) == Xor(Xor(a, c), Xor(b, d))
  {
    hide Xor;
    XorAssoc(a, b, Xor(c, d));
    XorAssoc(b, c, d);
    XorComm(b, c);
    XorAssoc(c, b, d);
    XorAssoc(a, c, Xor(b, d));
  }

  /** Mixing the same word in twice undoes it. */
  lemma {:induction false} XorCancel(a: nat, b: nat)
    ensures Xor(Xor(a, b), b) == a
  {
    XorAssoc(a, b, b);
    XorSelf(b);
    XorComm(a, 0);
    XorZero(a);
  }

  lemma {:induction false} XorBound(a: nat, b: nat, k: nat)
    requires a < Pow2(k) && b < Pow2(k)
    ensures Xor(a, b) < Pow2(k)
    decreases k
  {
    if k == 0 {
      XorZero(0);
    } else {
      XorBound(a / 2, b / 2, k - 1);
      XorParts(a, b);
    }
  }

  /** The low k bits a with the bits c above them. */
  function Join(a: nat, c: nat, k: nat): nat { a + Pow2(k) * c }

  lemma {:induction false} JoinHalf(a: nat, c: nat, k: nat)
    requires k > 0
    ensures Join(a, c, k) / 2 == Join(a / 2, c, k - 1) && Join(a, c, k) % 2 == a % 2
  {
    var P := Pow2(k - 1);
    assert 2 * P * c == 2 * (P * c);
  }

  /** Exclusive or works on the high and the low part of a number separately. */
  lemma {:induction false} XorJoin(a: nat, b: nat, c: nat, d: nat, k: nat)
    requires a < Pow2(k) && b < Pow2(k)
    ensures Xor(Join(a, c, k), Join(b, d, k)) == Join(Xor(a, b), Xor(c, d), k)
    decreases k
  {
    if k == 0 {
      XorZero(0);
    } else {
      hide Xor, Join;
      var x, y, z := Join(a, c, k), Join(b, d, k), Join(Xor(a, b), Xor(c, d), k);
      JoinHalf(a, c, k);
      JoinHalf(b, d, k);
      JoinHalf(Xor(a, b), Xor(c, d), k);
      XorJoin(a / 2, b / 2, c, d, k - 1);
      XorParts(x, y);
      XorParts(a, b);
      SameNumber(Xor(x, y), z);
    }
  }

  /** x shifted right by k bits. */
  function Shr(x: nat, k: nat): nat
  {
    if k == 0 then x else Shr(x / 2, k - 1)
  }

  lemma {:induction false} ShrAdd(x: nat, j: nat, k: nat)
    ensures Shr(Shr(x, j), k) == Shr(x, j + k)
    decreases j
  {
    if j > 0 { ShrAdd(x / 2, j - 1, k); }
  }

  /** A number is its low k bits and the bits above them. */
  lemma {:induction false} LowAndShr(x: nat, k: nat)
    ensures x == Low(x, k) + Pow2(k) * Shr(x, k)
    decreases k
  {
    if k > 0 {
      LowAndShr(x / 2, k - 1);
      DoubledProduct(k, Shr(x, k));
    }
  }

  lemma {:induction false} ShrLow(x: nat, j: nat, k: nat)
    requires j <= k
    ensures Shr(Low(x, k), j) == Low(Shr(x, j), k - j)
    decreases j
  {
    if j > 0 { ShrLow(x / 2, j - 1, k - 1); }
  }

  /** Low and high part determine the number. */
  lemma {:induction false} SameParts(x: nat, y: nat, k: nat)
    requires Low(x, k) == Low(y, k) && Shr(x, k) == Shr(y, k)
    ensures x == y
    decreases k
  {
    if k > 0 { SameParts(x / 2, y / 2, k - 1); }
  }

  /** Assembling a number from its parts. */
  lemma {:induction false} Assemble(a: nat, c: nat, k: nat)
    requires a < Pow2(k)
    ensures Low(a + Pow2(k) * c, k) == a && Shr(a + Pow2(k) * c, k) == c
    decreases k
  {
    if k > 0 {
      var h := a / 2 + Pow2(k - 1) * c;
      DoubledProduct(k, c);
      assert a + Pow2(k) * c == 2 * h + a % 2;
      Halves(h, a % 2);
      Assemble(a / 2, c, k - 1);
    }
  }

  lemma {:induction false} DoubledProduct(k: nat, c: nat)
    requires k > 0
    ensures Pow2(k) == 2 * Pow2(k - 1) && Pow2(k) * c == 2 * (Pow2(k - 1) * c)
  {
    var p := Pow2(k - 1);
    assert (2 * p) * c == 2 * (p * c);
  }

  lemma {:induction false} Halves(h: int, b: nat)
    requires b < 2
    ensures (2 * h + b) / 2 == h && (2 * h + b) % 2 == b
  {
  }

  lemma {:induction false} ShrMono(x: nat, y: nat, k: nat)
    requires x <= y
    ensures Shr(x, k) <= Shr(y, k)
    decreases k
  {
    if k > 0 { ShrMono(x / 2, y / 2, k - 1); }
  }

  lemma {:induction false} ShrBound(x: nat, j: nat, k: nat)
    requires x < Pow2(j + k)
    ensures Shr(x, j) < Pow2(k)
    decreases j
  {
    if j > 0 { ShrBound(x / 2, j - 1, k); }
  }
}
