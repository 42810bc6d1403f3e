/** The rolling three-byte hash of deflate.c. */
module RollingHash {
  import opened Bits
  import Arith

  /** The memory level of deflateInit2, which fixes the hash geometry. */
  type Level = l: nat | 1 <= l <= 9 witness 8

  function HashBits(l: Level): nat { l + 7 }

  /** A third of the key's bits, rounded up, so that a byte leaves after three steps. */
  function HashShift(l: Level): nat { (HashBits(l) + 2) / 3 }

  function HashSize(l: Level): nat { Pow2(HashBits(l)) }

  /** UPDATE_HASH: shift the key, mix in the next byte and mask. */
  function Update(l: Level, h: nat, c: byte): (k: nat)
  {
    Low(Xor(Shl(h, HashShift(l)), c), HashBits(l))
  }

  /** The key of the three bytes a, b, c. */
  function Hash3(l: Level, a: byte, b: byte, c: byte): (k: nat)
  {
    Update(l, Update(l, a, b), c)
  }

  /** h is a key that the next UPDATE_HASH turns into the key of a, b and that byte. */
  ghost predicate Primed(l: Level, h: nat, a: byte, b: byte)
  {
    forall c: byte :: Update(l, h, c) == Hash3(l, a, b, c)
  }

  /** Keys index `head` without leaving it. */
  lemma {:induction false} KeyInRange(l: Level, h: nat, c: byte)
    ensures Update(l, h, c) < HashSize(l)
  {
    hide Low, Xor;
    LowBound(Xor(Shl(h, HashShift(l)), c), HashBits(l));
  }

  /** Two keys that agree in their low j bits agree in hash_shift more bits
      after the same update. */
  lemma {:induction false} AgreeMore(l: Level, h: nat, g: nat, c: byte, j: nat, k: nat)
    requires Low(h, j) == Low(g, j)
    requires k <= HashBits(l) && k <= j + HashShift(l)
    ensures Low(Update(l, h, c), k) == Low(Update(l, g, c), k)
  {
    hide Low, Xor, Shl;
    var s := HashShift(l);
    LowLow(Xor(Shl(h, s), c), k, HashBits(l));
    LowLow(Xor(Shl(g, s), c), k, HashBits(l));
    XorLow(Shl(h, s), c, k);
    XorLow(Shl(g, s), c, k);
    LowShl(h, s, j);
    LowShl(g, s, j);
    LowLow(Shl(h, s), k, j + s);
    LowLow(Shl(g, s), k, j + s);
  }

  /** Three updates forget where the key started. */
  lemma {:induction false} StartForgotten(l: Level, h: nat, g: nat, a: byte, b: byte, c: byte)
    ensures Update(l, Update(l, Update(l, h, a), b), c) == Update(l, Update(l, Update(l, g, a), b), c)
  {
    hide Update, Pow2;
    var s, n := HashShift(l), HashBits(l);
    var j := if 2 * s < n then 2 * s else n;
    var h1, g1 := Update(l, h, a), Update(l, g, a);
    var h2, g2 := Update(l, h1, b), Update(l, g1, b);
    AgreeMore(l, h, g, a, 0, s);
    AgreeMore(l, h1, g1, b, s, j);
    AgreeMore(l, h2, g2, c, j, n);
    KeyIsLow(l, h2, c);
    KeyIsLow(l, g2, c);
  }

  lemma {:induction false} KeyIsLow(l: Level, h: nat, c: byte)
    ensures Low(Update(l, h, c), HashBits(l)) == Update(l, h, c)
  {
    hide Update, Low;
    KeyInRange(l, h, c);
    LowFits(Update(l, h, c), HashBits(l));
  }

  lemma {:induction false} FirstByteAlone(l: Level, a: byte)
    ensures Update(l, 0, a) == a
  {
    hide Low, Xor;
    XorZero(a);
    ByteFits(l, a);
  }

  lemma {:induction false} ByteFits(l: Level, a: byte)
    ensures Low(a, HashBits(l)) == a
  {
    hide Low;
    assert Pow2(8) == 256;
    Pow2Mono(8, HashBits(l));
    LowFits(a, HashBits(l));
  }

  /** After three updates the oldest byte no longer takes part in the key. */
  lemma {:induction false} OldestByteLeaves(l: Level, a: byte, b: byte, c: byte, d: byte)
    ensures Update(l, Hash3(l, a, b, c), d) == Hash3(l, b, c, d)
  {
    hide Update;
    StartForgotten(l, a, 0, b, c, d);
    FirstByteAlone(l, b);
  }

  /** Rolling the key forward over one byte keeps it primed. */
  lemma {:induction false} RollKeepsPrimed(l: Level, h: nat, a: byte, b: byte, c: byte)
    requires Primed(l, h, a, b)
    ensures Update(l, h, c) == Hash3(l, a, b, c)
    ensures Primed(l, Update(l, h, c), b, c)
  {
    hide Update, Hash3;
    forall d: byte ensures Update(l, Update(l, h, c), d) == Hash3(l, b, c, d) {
      OldestByteLeaves(l, a, b, c, d);
    }
  }

  /** fill_window's recomputation from the first two bytes primes the key. */
  lemma {:induction false} FreshKeyPrimed(l: Level, a: byte, b: byte)
    ensures Primed(l, Update(l, a, b), a, b)
  {
    hide Update;
  }

  /** Two strings with the same key and the same first two bytes agree on the
      third: this is why longest_match never compares it. */
  lemma {:induction false} ThirdByteEqual(l: Level, a: byte, b: byte, c: byte, d: byte)
    requires Hash3(l, a, b, c) == Hash3(l, a, b, d)
    ensures c == d
  {
    hide Low, Xor, Shl;
    var x, n := Shl(Update(l, a, b), HashShift(l)), HashBits(l);
    XorLow(x, c, n);
    XorLow(x, d, n);
    ByteFits(l, c);
    ByteFits(l, d);
    XorInjective(Low(x, n), c, d);
  }
}
