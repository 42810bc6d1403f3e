/** crc32.c.  The reference is the shift register fed one bit at a time; the
    tables, the bytewise and four-byte loops and the combination of two
    checksums are all compared with it. */
module Crc32 {
  import opened Bits
  import Arith

  const POLY: nat := 0xedb88320
  const ONES: nat := 0xffffffff

  type word = w: nat | w < 0x1_0000_0000

  // ---- the shift register ---------------------------------------------------

  /** One zero bit shifted in: multiplication by x modulo the polynomial. */
  function BitStep(c: nat): nat
  {
    if c % 2 == 1 then Xor(POLY, c / 2) else c / 2
  }

  /** k zero bits shifted in. */
  function Zeros(k: nat, c: nat): nat
  {
    if k == 0 then c else Zeros(k - 1, BitStep(c))
  }

  /** The k low bits of b shifted in, lowest first. */
  function FeedBits(c: nat, b: nat, k: nat): nat
    decreases k
  {
    if k == 0 then c else FeedBits(BitStep(Xor(c, b % 2)), b / 2, k - 1)
  }

  /** The register after the bytes of s, eight bits each. */
  function Register(c: nat, s: seq<byte>): nat
  {
    if |s| == 0 then c else FeedBits(Register(c, s[..|s| - 1]), s[|s| - 1], 8)
  }

  /** The checksum of s, continuing from the checksum of what came before. */
  function Crc(crc: nat, s: seq<byte>): nat { Xor(Register(Xor(crc, ONES), s), ONES) }

  lemma {:induction false} RegisterConcat(c: nat, a: seq<byte>, b: seq<byte>)
    ensures Register(c, a + b) == Register(Register(c, a), b)
    decreases |b|
  {
    hide FeedBits;
    if |b| == 0 {
      assert a + b == a;
    } else {
      assert (a + b)[..|a + b| - 1] == a + b[..|b| - 1];
      RegisterConcat(c, a, b[..|b| - 1]);
    }
  }

  /** A checksum can be continued: crc32 over pieces is crc32 over the whole. */
  lemma {:induction false} CrcContinues(crc: nat, a: seq<byte>, b: seq<byte>)
    ensures Crc(Crc(crc, a), b) == Crc(crc, a + b)
  {
    hide Xor, Register;
    XorCancel(Register(Xor(crc, ONES), a), ONES);
    RegisterConcat(Xor(crc, ONES), a, b);
  }

  // ---- linearity over GF(2) -------------------------------------------------

  lemma {:induction false} BitStepLinear(a: nat, b: nat)
    ensures BitStep(Xor(a, b)) == Xor(BitStep(a), BitStep(b))
  {
    hide Xor;
    var x, y := a / 2, b / 2;
    XorParts(a, b);
    if a % 2 == 1 && b % 2 == 1 {
      XorSwap(POLY, x, POLY, y);
      XorSelf(POLY);
      XorZero(Xor(x, y));
    } else if a % 2 == 1 {
      XorAssoc(POLY, x, y);
    } else if b % 2 == 1 {
      XorAssoc(POLY, x, y);
      XorComm(POLY, x);
      XorAssoc(x, POLY, y);
    }
  }

  lemma {:induction false} ZerosLinear(k: nat, a: nat, b: nat)
    ensures Zeros(k, Xor(a, b)) == Xor(Zeros(k, a), Zeros(k, b))
    decreases k
  {
    hide BitStep, Xor;
    if k > 0 {
      BitStepLinear(a, b);
      ZerosLinear(k - 1, BitStep(a), BitStep(b));
    }
  }

  lemma {:induction false} ZerosZero(k: nat)
    ensures Zeros(k, 0) == 0
    decreases k
  {
    if k > 0 { ZerosZero(k - 1); }
  }

  lemma {:induction false} ZerosAdd(j: nat, k: nat, c: nat)
    ensures Zeros(j + k, c) == Zeros(k, Zeros(j, c))
    decreases j
  {
    hide BitStep;
    if j > 0 { ZerosAdd(j - 1, k, BitStep(c)); }
  }

  lemma {:induction false} ZerosBound(k: nat, c: nat)
    requires c < Pow2(32)
    ensures Zeros(k, c) < Pow2(32)
    decreases k
  {
    hide Xor;
    if k > 0 {
      BytePowers();
      XorBound(POLY, c / 2, 32);
      ZerosBound(k - 1, BitStep(c));
    }
  }

  /** Bits shifted all the way down come out unchanged. */
  lemma {:induction false} ZerosShl(k: nat, x: nat)
    ensures Zeros(k, Shl(x, k)) == x
    decreases k
  {
    if k > 0 {
      hide Shl, BitStep;
      ShlDoubled(x, k);
      EvenStep(Shl(x, k - 1));
      ZerosShl(k - 1, x);
    } else {
      ShlNone(x);
    }
  }

  lemma {:induction false} ShlDoubled(x: nat, k: nat)
    requires k > 0
    ensures Shl(x, k) == 2 * Shl(x, k - 1)
  {
    DoubledProduct(k, x);
  }

  lemma {:induction false} ShlNone(x: nat)
    ensures Shl(x, 0) == x
  {
  }

  lemma {:induction false} EvenStep(y: nat)
    ensures BitStep(2 * y) == y
  {
  }

  /** A number is its low part mixed with its shifted high part. */
  lemma {:induction false} JoinIsMix(a: nat, c: nat, k: nat)
    requires a < Pow2(k)
    ensures Join(a, c, k) == Xor(a, Shl(c, k))
  {
    hide Xor;
    XorJoin(a, 0, 0, c, k);
    XorZero(c);
    XorComm(a, 0);
    XorZero(a);
    assert Join(a, 0, k) == a && Join(0, c, k) == Shl(c, k);
  }

  lemma {:induction false} FeedStep(c: nat, b: nat)
    ensures BitStep(Xor(c, b)) == Xor(BitStep(Xor(c, b % 2)), b / 2)
  {
    hide Xor;
    XorParts(c, b);
    XorParts(c, b % 2);
    XorComm(c / 2, 0);
    XorZero(c / 2);
    if (c + b) % 2 == 1 { XorAssoc(POLY, c / 2, b / 2); }
  }

  /** Feeding bits one at a time is mixing them all in first. */
  lemma {:induction false} FeedIsMix(c: nat, b: nat, k: nat)
    requires b < Pow2(k)
    ensures FeedBits(c, b, k) == Zeros(k, Xor(c, b))
    decreases k
  {
    hide BitStep, Xor;
    if k == 0 {
      XorComm(c, 0);
      XorZero(c);
    } else {
      FeedStep(c, b);
      FeedIsMix(BitStep(Xor(c, b % 2)), b / 2, k - 1);
    }
  }

  lemma {:induction false} FeedByte(c: nat, b: byte)
    ensures FeedBits(c, b, 8) == Zeros(8, Xor(c, b))
  {
    assert Pow2(8) == 256;
    FeedIsMix(c, b, 8);
  }

  /** The register is affine: what it held and what is fed act independently. */
  lemma {:induction false} RegisterAffine(c: nat, s: seq<byte>)
    ensures Register(c, s) == Xor(Zeros(8 * |s|, c), Register(0, s))
    decreases |s|
  {
    hide Xor, FeedBits, Zeros;
    if |s| == 0 {
      XorComm(c, 0);
      XorZero(c);
      ZerosNone(c);
    } else {
      var s', b, n := s[..|s| - 1], s[|s| - 1], 8 * (|s| - 1);
      RegisterAffine(c, s');
      FeedByte(Register(c, s'), b);
      FeedByte(Register(0, s'), b);
      XorAssoc(Zeros(n, c), Register(0, s'), b);
      ZerosLinear(8, Zeros(n, c), Xor(Register(0, s'), b));
      ZerosAdd(n, 8, c);
    }
  }

  lemma {:induction false} ZerosNone(c: nat)
    ensures Zeros(0, c) == c
  {
  }

  // ---- the tables -------------------------------------------------------------

  /** Byte reversal of a four-byte word. */
  function Rev(w: nat): nat
  {
    w / 0x100_0000 % 0x100 + w / 0x1_0000 % 0x100 * 0x100 + w / 0x100 % 0x100 * 0x1_0000 + w % 0x100 * 0x100_0000
  }

  /** One byte's worth of zeros is one lookup of the low byte. */
  lemma {:induction false} ZerosSplit(w: nat)
    ensures Zeros(8, w) == Xor(Zeros(8, w % 0x100), w / 0x100)
  {
    hide Xor, Zeros;
    BytePowers();
    JoinIsMix(w % 0x100, w / 0x100, 8);
    ZerosLinear(8, w % 0x100, Shl(w / 0x100, 8));
    ZerosShl(8, w / 0x100);
  }

  /** The entry for byte n of table k: one to four bytes of zeros behind n, and
      from table 4 on the same with its bytes reversed. */
  function Entry(k: nat, n: nat): nat
  {
    if k < 4 then Zeros(8 * (k + 1), n) else Rev(Zeros(8 * (k - 3), n))
  }

  ghost predicate TablesOk(t: array2<nat>)
    reads t
  {
    && t.Length0 == 8 && t.Length1 == 256
    && forall k, n :: 0 <= k < 8 && 0 <= n < 256 ==> t[k, n] == Entry(k, n)
  }

  /** make_crc_table's bit loop for one byte. */
  method FirstEntry(n: byte) returns (c: nat)
    ensures c == Entry(0, n)
  {
    hide Xor;
    c := n;
    var k := 0;
    while k < 8
      invariant 0 <= k <= 8 && Zeros(8 - k, c) == Zeros(8, n)
    {
      c := if c % 2 == 1 then Xor(POLY, c / 2) else c / 2;
      k := k + 1;
    }
  }

  /** A later table continues the entry of the one before by one byte of zeros. */
  lemma {:induction false} NextEntry(k: nat, n: byte, c: nat)
    requires 1 <= k < 4 && c == Entry(k - 1, n)
    ensures Xor(Entry(0, c % 0x100), c / 0x100) == Entry(k, n)
  {
    hide Xor, Zeros;
    ZerosSplit(c);
    ZerosAdd(8 * k, 8, n);
  }

  /** make_crc_table. */
  method MakeCrcTable() returns (t: array2<nat>)
    ensures fresh(t) && TablesOk(t)
  {
    hide Xor, Rev, Entry;
    t := new nat[8, 256];
    var n := 0;
    while n < 256
      invariant 0 <= n <= 256
      invariant forall i :: 0 <= i < n ==> t[0, i] == Entry(0, i)
    {
      t[0, n] := FirstEntry(n);
      n := n + 1;
    }
    n := 0;
    while n < 256
      invariant 0 <= n <= 256
      invariant forall i :: 0 <= i < 256 ==> t[0, i] == Entry(0, i)
      invariant forall k, i :: 0 <= k < 8 && 0 <= i < n ==> t[k, i] == Entry(k, i)
    {
      FillColumn(t, n);
      n := n + 1;
    }
  }

  lemma {:induction false} ReversedEntry(k: nat, n: nat)
    requires k < 4
    ensures Entry(k + 4, n) == Rev(Entry(k, n))
  {
    hide Zeros, Rev;
  }

  /** The inner loop that continues one byte's entry through the other tables. */
  method FillColumn(t: array2<nat>, n: byte)
    requires t.Length0 == 8 && t.Length1 == 256
    requires forall i :: 0 <= i < 256 ==> t[0, i] == Entry(0, i)
    modifies t
    ensures forall k :: 0 <= k < 8 ==> t[k, n] == Entry(k, n)
    ensures forall k, i :: 0 <= k < 8 && 0 <= i < 256 && i != n ==> t[k, i] == old(t[k, i])
  {
    hide Xor, Rev, Entry;
    var c := t[0, n];
    ReversedEntry(0, n);
    t[4, n] := Rev(c);
    var k := 1;
    while k < 4
      invariant 1 <= k <= 4 && c == Entry(k - 1, n)
      invariant forall j :: 0 <= j < k ==> t[j, n] == Entry(j, n)
      invariant forall j :: 4 <= j < k + 4 ==> t[j, n] == Entry(j, n)
      invariant forall j, i :: 0 <= j < 8 && 0 <= i < 256 && i != n ==> t[j, i] == old(t[j, i])
    {
      NextEntry(k, n, c);
      ReversedEntry(k, n);
      c := Xor(t[0, c % 0x100], c / 0x100);
      t[k, n] := c;
      t[k + 4, n] := Rev(c);
      k := k + 1;
    }
  }

  // ---- the byte and word loops --------------------------------------------------

  /** Mixing a byte in touches only the low byte. */
  lemma {:induction false} MixLowByte(c: nat, b: byte)
    ensures Xor(c, b) % 0x100 == Xor(c % 0x100, b) && Xor(c, b) / 0x100 == c / 0x100
    ensures Xor(c % 0x100, b) < 0x100
  {
    hide Xor;
    BytePowers();
    XorBound(c % 0x100, b, 8);
    XorJoin(c % 0x100, b, c / 0x100, 0, 8);
    XorComm(c / 0x100, 0);
    XorZero(c / 0x100);
  }

  lemma {:induction false} RegisterNext(c: nat, s: seq<byte>, i: nat)
    requires i < |s|
    ensures Register(c, s[..i + 1]) == Zeros(8, Xor(Register(c, s[..i]), s[i]))
  {
    hide FeedBits, Zeros, Xor;
    assert s[..i + 1][..i] == s[..i];
    FeedByte(Register(c, s[..i]), s[i]);
  }

  /** DO1: one byte through table 0. */
  lemma {:induction false} LookupByte(c: nat, b: byte)
    ensures Xor(Entry(0, Xor(c, b) % 0x100), c / 0x100) == Zeros(8, Xor(c, b))
  {
    hide Xor, Zeros;
    MixLowByte(c, b);
    ZerosSplit(Xor(c, b));
  }

  /** The four bytes of a word in little-endian order. */
  function Word4(b0: byte, b1: byte, b2: byte, b3: byte): nat
  {
    Join(b0, Join(b1, Join(b2, b3, 8), 8), 8)
  }

  /** A byte mixed in with more above it: the rest comes out mixed in. */
  lemma {:induction false} FeedJoined(c: nat, b: byte, rest: nat)
    ensures Zeros(8, Xor(c, Join(b, rest, 8))) == Xor(Zeros(8, Xor(c, b)), rest)
  {
    hide Xor, Zeros;
    BytePowers();
    JoinIsMix(b, rest, 8);
    XorAssoc(c, b, Shl(rest, 8));
    ZerosLinear(8, Xor(c, b), Shl(rest, 8));
    ZerosShl(8, rest);
  }

  /** Four bytes fed in turn are the word mixed in and 32 zeros. */
  lemma {:induction false} FeedWord(c: nat, b0: byte, b1: byte, b2: byte, b3: byte)
    ensures Zeros(8, Xor(Zeros(8, Xor(Zeros(8, Xor(Zeros(8, Xor(c, b0)), b1)), b2)), b3))
         == Zeros(32, Xor(c, Word4(b0, b1, b2, b3)))
  {
    hide Xor, Zeros, Join;
    var t2 := Join(b2, b3, 8);
    var t1 := Join(b1, t2, 8);
    var c0 := Zeros(8, Xor(c, b0));
    var c1 := Zeros(8, Xor(c0, b1));
    FeedJoined(c, b0, t1);
    FeedJoined(c0, b1, t2);
    FeedJoined(c1, b2, b3);
    ZerosAdd(8, 24, Xor(c, Word4(b0, b1, b2, b3)));
    ZerosAdd(8, 16, Xor(c0, t1));
    ZerosAdd(8, 8, Xor(c1, t2));
  }

  /** The lookups of DOLIT4. */
  function WordLookup(w: nat): nat
  {
    Xor(Xor(Xor(Entry(3, w % 0x100), Entry(2, w / 0x100 % 0x100)), Entry(1, w / 0x1_0000 % 0x100)), Entry(0, w / 0x100_0000))
  }

  lemma {:induction false} ZerosPeel(k: nat, w: nat)
    ensures Zeros(8 + k, w) == Xor(Zeros(8 + k, w % 0x100), Zeros(k, w / 0x100))
  {
    hide Xor, Zeros;
    ZerosSplit(w);
    ZerosAdd(8, k, w);
    ZerosAdd(8, k, w % 0x100);
    ZerosLinear(k, Zeros(8, w % 0x100), w / 0x100);
  }

  lemma {:induction false} LookupWord(w: word)
    ensures WordLookup(w) == Zeros(32, w)
  {
    hide Xor, Zeros;
    ZerosPeel(24, w);
    ZerosPeel(16, w / 0x100);
    ZerosPeel(8, w / 0x100 / 0x100);
    assert w / 0x100 / 0x100 == w / 0x1_0000 && w / 0x1_0000 / 0x100 == w / 0x100_0000;
    var e3, e2, e1, e0 := Entry(3, w % 0x100), Entry(2, w / 0x100 % 0x100), Entry(1, w / 0x1_0000 % 0x100), Entry(0, w / 0x100_0000);
    XorAssoc(e3, e2, Xor(e1, e0));
    XorAssoc(Xor(e3, e2), e1, e0);
  }

  lemma {:induction false} RegisterBound(c: word, s: seq<byte>)
    ensures Register(c, s) < 0x1_0000_0000
    decreases |s|
  {
    hide FeedBits, Zeros, Xor;
    if |s| > 0 {
      BytePowers();
      RegisterBound(c, s[..|s| - 1]);
      FeedByte(Register(c, s[..|s| - 1]), s[|s| - 1]);
      XorBound(Register(c, s[..|s| - 1]), s[|s| - 1], 32);
      ZerosBound(8, Xor(Register(c, s[..|s| - 1]), s[|s| - 1]));
    }
  }

  lemma {:induction false} Word4Bound(b0: byte, b1: byte, b2: byte, b3: byte)
    ensures Word4(b0, b1, b2, b3) == b0 + 0x100 * b1 + 0x1_0000 * b2 + 0x100_0000 * b3
  {
    BytePowers();
  }

  /** Four register steps are one word step. */
  lemma {:induction false} RegisterWord(c: word, s: seq<byte>, i: nat)
    requires i + 4 <= |s|
    ensures var x := Xor(Register(c, s[..i]), Word4(s[i], s[i + 1], s[i + 2], s[i + 3]));
      x < 0x1_0000_0000 && Register(c, s[..i + 4]) == WordLookup(x)
  {
    hide Xor, Zeros, Register, Word4, WordLookup;
    var d, w := Register(c, s[..i]), Word4(s[i], s[i + 1], s[i + 2], s[i + 3]);
    RegisterNext(c, s, i);
    RegisterNext(c, s, i + 1);
    RegisterNext(c, s, i + 2);
    RegisterNext(c, s, i + 3);
    FeedWord(d, s[i], s[i + 1], s[i + 2], s[i + 3]);
    RegisterBound(c, s[..i]);
    Word4Bound(s[i], s[i + 1], s[i + 2], s[i + 3]);
    BytePowers();
    XorBound(d, w, 32);
    LookupWord(Xor(d, w));
  }

  /** The bytewise step shared by crc32 and crc32_little. */
  method ByteStepLittle(t: array2<nat>, ghost c0: word, c: word, buf: seq<byte>, i: nat) returns (r: word)
    requires TablesOk(t) && i < |buf| && c == Register(c0, buf[..i])
    ensures r == Register(c0, buf[..i + 1])
  {
    hide Xor, Zeros, Register, Entry;
    LookupByte(c, buf[i]);
    RegisterNext(c0, buf, i);
    RegisterBound(c0, buf[..i + 1]);
    r := Xor(t[0, Xor(c, buf[i]) % 0x100], c / 0x100);
  }

  /** DOLIT4. */
  method DoLit4(t: array2<nat>, ghost c0: word, c: word, buf: seq<byte>, i: nat) returns (r: word)
    requires TablesOk(t) && i + 4 <= |buf| && c == Register(c0, buf[..i])
    ensures r == Register(c0, buf[..i + 4])
  {
    hide Xor, Zeros, Register, Entry, Word4;
    RegisterWord(c0, buf, i);
    RegisterBound(c0, buf[..i + 4]);
    var x := Xor(c, Word4(buf[i], buf[i + 1], buf[i + 2], buf[i + 3]));
    r := Xor(Xor(Xor(t[3, x % 0x100], t[2, x / 0x100 % 0x100]), t[1, x / 0x1_0000 % 0x100]), t[0, x / 0x100_0000]);
  }

  lemma {:induction false} ComplementBound(c: word)
    ensures Xor(c, ONES) < 0x1_0000_0000
  {
    hide Xor;
    BytePowers();
    XorBound(c, ONES, 32);
  }

  /** crc32_little: bytes up to a word boundary, then words, eight at a time while
      there are that many, then the remaining bytes. */
  method Crc32Little(t: array2<nat>, crc: word, buf: seq<byte>, addr: nat) returns (r: word)
    requires TablesOk(t)
    ensures r == Crc(crc, buf)
  {
    hide Xor, Register, Entry;
    ComplementBound(crc);
    ghost var c0 := Xor(crc, ONES);
    var c: word := Xor(crc, ONES);
    var i := 0;
    assert buf[..0] == [];
    EmptyRegister(c0);
    while i < |buf| && (addr + i) % 4 != 0
      invariant 0 <= i <= |buf| && c == Register(c0, buf[..i])
    {
      c := ByteStepLittle(t, c0, c, buf, i);
      i := i + 1;
    }
    while |buf| - i >= 32
      invariant 0 <= i <= |buf| && c == Register(c0, buf[..i])
    {
      ghost var i0 := i;
      for k := 0 to 8
        invariant i == i0 + 4 * k && c == Register(c0, buf[..i])
      {
        c := DoLit4(t, c0, c, buf, i);
        i := i + 4;
      }
    }
    while |buf| - i >= 4
      invariant 0 <= i <= |buf| && c == Register(c0, buf[..i])
    {
      c := DoLit4(t, c0, c, buf, i);
      i := i + 4;
    }
    while i < |buf|
      invariant 0 <= i <= |buf| && c == Register(c0, buf[..i])
    {
      c := ByteStepLittle(t, c0, c, buf, i);
      i := i + 1;
    }
    assert buf[..i] == buf;
    ComplementBound(c);
    r := Xor(c, ONES);
  }

  lemma {:induction false} EmptyRegister(c: nat)
    ensures Register(c, []) == c
  {
  }

  /** The plain loop of crc32: eight bytes at a time, then one at a time. */
  method Crc32Bytes(t: array2<nat>, crc: word, buf: seq<byte>) returns (r: word)
    requires TablesOk(t)
    ensures r == Crc(crc, buf)
  {
    hide Xor, Register, Entry;
    ComplementBound(crc);
    ghost var c0 := Xor(crc, ONES);
    var c: word := Xor(crc, ONES);
    var i := 0;
    assert buf[..0] == [];
    EmptyRegister(c0);
    while |buf| - i >= 8
      invariant 0 <= i <= |buf| && c == Register(c0, buf[..i])
    {
      ghost var i0 := i;
      for k := 0 to 8
        invariant i == i0 + k && c == Register(c0, buf[..i])
      {
        c := ByteStepLittle(t, c0, c, buf, i);
        i := i + 1;
      }
    }
    while i < |buf|
      invariant 0 <= i <= |buf| && c == Register(c0, buf[..i])
    {
      c := ByteStepLittle(t, c0, c, buf, i);
      i := i + 1;
    }
    assert buf[..i] == buf;
    ComplementBound(c);
    r := Xor(c, ONES);
  }

  // ---- big-endian hosts -----------------------------------------------------------

  /** A word as the sum of its bytes. */
  function Sum4(b0: nat, b1: nat, b2: nat, b3: nat): nat { b0 + 0x100 * b1 + 0x1_0000 * b2 + 0x100_0000 * b3 }

  lemma {:induction false} SumDigits(b0: byte, b1: byte, b2: byte, b3: byte)
    ensures var s := Sum4(b0, b1, b2, b3);
      && s % 0x100 == b0 && s / 0x100 % 0x100 == b1 && s / 0x1_0000 % 0x100 == b2 && s / 0x100_0000 == b3
      && s < 0x1_0000_0000
  {
    var s := Sum4(b0, b1, b2, b3);
    Arith.ModUnique(s, 0x100, b1 + 0x100 * b2 + 0x1_0000 * b3, b0);
    Arith.ModUnique(s, 0x1_0000, b2 + 0x100 * b3, b0 + 0x100 * b1);
    Arith.ModUnique(s, 0x100_0000, b3, b0 + 0x100 * b1 + 0x1_0000 * b2);
    Arith.ModUnique(s / 0x100, 0x100, b2 + 0x100 * b3, b1);
    Arith.ModUnique(s / 0x1_0000, 0x100, b3, b2);
  }

  lemma {:induction false} WordDigits(w: word)
    ensures Sum4(w % 0x100, w / 0x100 % 0x100, w / 0x1_0000 % 0x100, w / 0x100_0000) == w
  {
    assert w / 0x1_0000 == w / 0x100 / 0x100;
    assert w / 0x100_0000 == w / 0x1_0000 / 0x100;
  }

  lemma {:induction false} WordBytes(w: word)
    ensures Word4(w % 0x100, w / 0x100 % 0x100, w / 0x1_0000 % 0x100, w / 0x100_0000) == w
  {
    hide Word4;
    WordDigits(w);
    Word4Bound(w % 0x100, w / 0x100 % 0x100, w / 0x1_0000 % 0x100, w / 0x100_0000);
  }

  lemma {:induction false} RevWord4(b0: byte, b1: byte, b2: byte, b3: byte)
    ensures Rev(Word4(b0, b1, b2, b3)) == Word4(b3, b2, b1, b0)
  {
    hide Word4;
    Word4Bound(b0, b1, b2, b3);
    Word4Bound(b3, b2, b1, b0);
    SumDigits(b0, b1, b2, b3);
  }

  lemma {:induction false} XorWord4(a0: byte, a1: byte, a2: byte, a3: byte, b0: byte, b1: byte, b2: byte, b3: byte)
    ensures Xor(a0, b0) < 0x100 && Xor(a1, b1) < 0x100 && Xor(a2, b2) < 0x100 && Xor(a3, b3) < 0x100
    ensures Xor(Word4(a0, a1, a2, a3), Word4(b0, b1, b2, b3)) == Word4(Xor(a0, b0), Xor(a1, b1), Xor(a2, b2), Xor(a3, b3))
  {
    hide Xor, Join;
    BytePowers();
    XorBound(a0, b0, 8);
    XorBound(a1, b1, 8);
    XorBound(a2, b2, 8);
    XorBound(a3, b3, 8);
    XorJoin(a2, b2, a3, b3, 8);
    XorJoin(a1, b1, Join(a2, a3, 8), Join(b2, b3, 8), 8);
    XorJoin(a0, b0, Join(a1, Join(a2, a3, 8), 8), Join(b1, Join(b2, b3, 8), 8), 8);
  }

  /** Byte reversal is linear. */
  lemma {:induction false} RevLinear(a: word, b: word)
    ensures Rev(Xor(a, b)) == Xor(Rev(a), Rev(b))
  {
    hide Xor, Word4, Rev;
    var a0, a1, a2, a3 := a % 0x100, a / 0x100 % 0x100, a / 0x1_0000 % 0x100, a / 0x100_0000;
    var b0, b1, b2, b3 := b % 0x100, b / 0x100 % 0x100, b / 0x1_0000 % 0x100, b / 0x100_0000;
    WordBytes(a);
    WordBytes(b);
    XorWord4(a0, a1, a2, a3, b0, b1, b2, b3);
    XorWord4(a3, a2, a1, a0, b3, b2, b1, b0);
    RevWord4(a0, a1, a2, a3);
    RevWord4(b0, b1, b2, b3);
    RevWord4(Xor(a0, b0), Xor(a1, b1), Xor(a2, b2), Xor(a3, b3));
  }

  lemma {:induction false} RevParts(w: word)
    ensures Rev(w) < 0x1_0000_0000
    ensures Rev(w) % 0x100 == w / 0x100_0000 && Rev(w) / 0x100 % 0x100 == w / 0x1_0000 % 0x100
    ensures Rev(w) / 0x1_0000 % 0x100 == w / 0x100 % 0x100 && Rev(w) / 0x100_0000 == w % 0x100
  {
    SumDigits(w / 0x100_0000, w / 0x1_0000 % 0x100, w / 0x100 % 0x100, w % 0x100);
  }

  lemma {:induction false} DigitsShifted(b0: byte, b1: byte, b2: byte, b3: byte)
    ensures Sum4(b0, b1, b2, b3) / 0x100 == Sum4(b1, b2, b3, 0)
  {
    Arith.ModUnique(Sum4(b0, b1, b2, b3), 0x100, Sum4(b1, b2, b3, 0), b0);
  }

  lemma {:induction false} RevDigits(b0: byte, b1: byte, b2: byte, b3: byte)
    ensures Rev(Sum4(b0, b1, b2, b3)) == Sum4(b3, b2, b1, b0)
  {
    SumDigits(b0, b1, b2, b3);
  }

  lemma {:induction false} RevShifted(w: word)
    ensures Rev(w / 0x100) == Rev(w) * 0x100 % 0x1_0000_0000
  {
    hide Rev;
    var a0, a1, a2, a3 := w % 0x100, w / 0x100 % 0x100, w / 0x1_0000 % 0x100, w / 0x100_0000;
    WordDigits(w);
    DigitsShifted(a0, a1, a2, a3);
    RevDigits(a0, a1, a2, a3);
    RevDigits(a1, a2, a3, 0);
    SumDigits(0, a3, a2, a1);
    Arith.ModUnique(Rev(w) * 0x100, 0x1_0000_0000, a0, Sum4(0, a3, a2, a1));
  }

  lemma {:induction false} RevRev(w: word)
    ensures Rev(w) < 0x1_0000_0000 && Rev(Rev(w)) == w
  {
    hide Word4;
    var a0, a1, a2, a3 := w % 0x100, w / 0x100 % 0x100, w / 0x1_0000 % 0x100, w / 0x100_0000;
    RevParts(w);
    WordBytes(w);
    RevWord4(a0, a1, a2, a3);
    RevWord4(a3, a2, a1, a0);
  }

  lemma {:induction false} EntryBound(k: nat, n: byte)
    requires k < 8
    ensures Entry(k, n) < 0x1_0000_0000
  {
    hide Zeros, Rev;
    BytePowers();
    ZerosBound(8 * (k + 1), n);
    if k >= 4 {
      ZerosBound(8 * (k - 3), n);
      RevParts(Zeros(8 * (k - 3), n));
    }
  }

  /** A bytewise step on a reversed register. */
  lemma {:induction false} RevByteStep(d: word, b: byte)
    ensures Rev(d) / 0x100_0000 == d % 0x100 && Xor(d % 0x100, b) < 0x100
    ensures Rev(Zeros(8, Xor(d, b))) == Xor(Entry(4, Xor(d % 0x100, b)), Rev(d) * 0x100 % 0x1_0000_0000)
  {
    hide Xor, Rev, Zeros, Entry;
    RevParts(d);
    RevShifted(d);
    MixLowByte(d, b);
    LookupByte(d, b);
    ReversedEntry(0, Xor(d % 0x100, b));
    EntryBound(0, Xor(d % 0x100, b));
    RevLinear(Entry(0, Xor(d % 0x100, b)), d / 0x100);
  }

  lemma {:induction false} XorReverse4(a: nat, b: nat, c: nat, d: nat)
    ensures Xor(Xor(Xor(a, b), c), d) == Xor(Xor(Xor(d, c), b), a)
  {
    hide Xor;
    XorComm(Xor(Xor(a, b), c), d);
    XorComm(Xor(a, b), c);
    XorAssoc(d, c, Xor(a, b));
    XorComm(a, b);
    XorAssoc(Xor(d, c), b, a);
  }

  /** The lookups of DOBIG4. */
  function BigLookup(w: nat): nat
  {
    Xor(Xor(Xor(Entry(4, w % 0x100), Entry(5, w / 0x100 % 0x100)), Entry(6, w / 0x1_0000 % 0x100)), Entry(7, w / 0x100_0000))
  }

  /** A word step on a reversed register. */
  lemma {:induction false} RevWordStep(x: word)
    ensures BigLookup(Rev(x)) == Rev(WordLookup(x))
  {
    hide Xor, Rev, Entry;
    RevParts(x);
    var n3, n2, n1, n0 := x % 0x100, x / 0x100 % 0x100, x / 0x1_0000 % 0x100, x / 0x100_0000;
    ReversedEntry(0, n0);
    ReversedEntry(1, n1);
    ReversedEntry(2, n2);
    ReversedEntry(3, n3);
    EntryBound(0, n0);
    EntryBound(1, n1);
    EntryBound(2, n2);
    EntryBound(3, n3);
    RevLinear4(Entry(3, n3), Entry(2, n2), Entry(1, n1), Entry(0, n0));
    XorReverse4(Rev(Entry(3, n3)), Rev(Entry(2, n2)), Rev(Entry(1, n1)), Rev(Entry(0, n0)));
  }

  lemma {:induction false} RevLinear4(a: word, b: word, c: word, d: word)
    ensures Rev(Xor(Xor(Xor(a, b), c), d)) == Xor(Xor(Xor(Rev(a), Rev(b)), Rev(c)), Rev(d))
  {
    hide Xor, Rev;
    BytePowers();
    XorBound(a, b, 32);
    XorBound(Xor(a, b), c, 32);
    RevLinear(a, b);
    RevLinear(Xor(a, b), c);
    RevLinear(Xor(Xor(a, b), c), d);
  }

  /** The bytewise step of crc32_big. */
  method ByteStepBig(t: array2<nat>, ghost c0: word, ghost d: word, c: word, buf: seq<byte>, i: nat) returns (r: word)
    requires TablesOk(t) && i < |buf| && d == Register(c0, buf[..i]) && c == Rev(d)
    ensures r == Rev(Register(c0, buf[..i + 1]))
  {
    hide Xor, Zeros, Register, Entry, Rev;
    RevByteStep(d, buf[i]);
    RegisterNext(c0, buf, i);
    RegisterBound(c0, buf[..i + 1]);
    RevParts(Register(c0, buf[..i + 1]));
    r := Xor(t[4, Xor(c / 0x100_0000, buf[i])], c * 0x100 % 0x1_0000_0000);
  }

  /** DOBIG4; the word is loaded with its first byte on top. */
  method DoBig4(t: array2<nat>, ghost c0: word, ghost d: word, c: word, buf: seq<byte>, i: nat) returns (r: word)
    requires TablesOk(t) && i + 4 <= |buf| && d == Register(c0, buf[..i]) && c == Rev(d)
    ensures r == Rev(Register(c0, buf[..i + 4]))
  {
    hide Xor, Zeros, Register, Entry, Word4, Rev, WordLookup;
    ghost var w := Word4(buf[i], buf[i + 1], buf[i + 2], buf[i + 3]);
    RegisterWord(c0, buf, i);
    Word4Bound(buf[i], buf[i + 1], buf[i + 2], buf[i + 3]);
    RevWord4(buf[i], buf[i + 1], buf[i + 2], buf[i + 3]);
    RevLinear(d, w);
    RevWordStep(Xor(d, w));
    RevParts(Xor(d, w));
    RegisterBound(c0, buf[..i + 4]);
    RevParts(Register(c0, buf[..i + 4]));
    var x := Xor(c, Word4(buf[i + 3], buf[i + 2], buf[i + 1], buf[i]));
    r := Xor(Xor(Xor(t[4, x % 0x100], t[5, x / 0x100 % 0x100]), t[6, x / 0x1_0000 % 0x100]), t[7, x / 0x100_0000]);
  }

  /** Complementing commutes with byte reversal. */
  lemma {:induction false} RevComplement(c: word)
    ensures Xor(c, ONES) < 0x1_0000_0000 && Rev(c) < 0x1_0000_0000
    ensures Xor(Rev(c), ONES) == Rev(Xor(c, ONES))
  {
    hide Xor, Rev;
    ComplementBound(c);
    RevParts(c);
    RevLinear(c, ONES);
    RevWord4(0xff, 0xff, 0xff, 0xff);
    Word4Bound(0xff, 0xff, 0xff, 0xff);
  }

  /** crc32_big: the same walk with the register byte-reversed throughout. */
  method Crc32Big(t: array2<nat>, crc: word, buf: seq<byte>, addr: nat) returns (r: word)
    requires TablesOk(t)
    ensures r == Crc(crc, buf)
  {
    hide Xor, Register, Entry, Rev;
    RevComplement(crc);
    ghost var c0: word := Xor(crc, ONES);
    ghost var d: word := c0;
    ComplementBound(Rev(crc));
    var c: word := Xor(Rev(crc), ONES);
    var i := 0;
    assert buf[..0] == [];
    EmptyRegister(c0);
    while i < |buf| && (addr + i) % 4 != 0
      invariant 0 <= i <= |buf| && d == Register(c0, buf[..i]) && c == Rev(d)
    {
      c := ByteStepBig(t, c0, d, c, buf, i);
      i := i + 1;
      RegisterBound(c0, buf[..i]);
      d := Register(c0, buf[..i]);
    }
    while |buf| - i >= 32
      invariant 0 <= i <= |buf| && d == Register(c0, buf[..i]) && c == Rev(d)
    {
      ghost var i0 := i;
      for k := 0 to 8
        invariant i == i0 + 4 * k && d == Register(c0, buf[..i]) && c == Rev(d)
      {
        c := DoBig4(t, c0, d, c, buf, i);
        i := i + 4;
        RegisterBound(c0, buf[..i]);
        d := Register(c0, buf[..i]);
      }
    }
    while |buf| - i >= 4
      invariant 0 <= i <= |buf| && d == Register(c0, buf[..i]) && c == Rev(d)
    {
      c := DoBig4(t, c0, d, c, buf, i);
      i := i + 4;
      RegisterBound(c0, buf[..i]);
      d := Register(c0, buf[..i]);
    }
    while i < |buf|
      invariant 0 <= i <= |buf| && d == Register(c0, buf[..i]) && c == Rev(d)
    {
      c := ByteStepBig(t, c0, d, c, buf, i);
      i := i + 1;
      RegisterBound(c0, buf[..i]);
      d := Register(c0, buf[..i]);
    }
    assert buf[..i] == buf;
    RevComplement(d);
    ComplementBound(c);
    RevRev(Xor(d, ONES));
    r := Rev(Xor(c, ONES));
  }

  // ---- combining two checksums ------------------------------------------------------

  /** Row n of the matrix is the image of bit n under k zero bits. */
  ghost predicate Represents(m: seq<nat>, k: nat)
  {
    |m| == 32 && forall n :: 0 <= n < 32 ==> m[n] == Zeros(k, Pow2(n))
  }

  /** The lowest bit of a shifted vector is one matrix row. */
  lemma {:induction false} PeelBit(k: nat, vec: nat, i: nat)
    ensures Zeros(k, Shl(vec, i)) == Xor(if vec % 2 == 1 then Zeros(k, Pow2(i)) else 0, Zeros(k, Shl(vec / 2, i + 1)))
  {
    hide Xor, Zeros;
    var P, b := Pow2(i), if vec % 2 == 1 then Pow2(i) else 0;
    JoinIsMix(b, vec / 2, i + 1);
    assert Shl(vec, i) == Join(b, vec / 2, i + 1) by {
      assert Join(b, vec / 2, i + 1) == b + 2 * P * (vec / 2);
      assert 2 * P * (vec / 2) == (2 * (vec / 2)) * P;
      assert Shl(vec, i) == (vec % 2 + 2 * (vec / 2)) * P;
    }
    ZerosLinear(k, b, Shl(vec / 2, i + 1));
    ZerosZero(k);
  }

  /** gf2_matrix_times applies the operator the matrix represents. */
  method MatrixTimes(mat: array<nat>, vec: word, ghost k: nat) returns (sum: nat)
    requires Represents(mat[..], k)
    ensures sum == Zeros(k, vec)
  {
    hide Xor, Zeros, Shl, Pow2;
    sum := 0;
    var v: nat, i: nat := vec, 0;
    StartPeel(k, vec);
    while v != 0
      invariant 0 <= i <= 32 && v < Pow2(32 - i)
      invariant Zeros(k, vec) == Xor(sum, Zeros(k, Shl(v, i)))
    {
      PeelBit(k, v, i);
      HalfBound(v, 32 - i);
      XorAssoc(sum, if v % 2 == 1 then Zeros(k, Pow2(i)) else 0, Zeros(k, Shl(v / 2, i + 1)));
      XorComm(sum, 0);
      XorZero(sum);
      if v % 2 == 1 { sum := Xor(sum, mat[i]); }
      v := v / 2;
      i := i + 1;
    }
    EndPeel(k, sum, i);
  }

  lemma {:induction false} StartPeel(k: nat, vec: word)
    ensures vec < Pow2(32) && Zeros(k, vec) == Xor(0, Zeros(k, Shl(vec, 0)))
  {
    hide Xor, Zeros;
    BytePowers();
    XorZero(Zeros(k, vec));
  }

  lemma {:induction false} HalfBound(v: nat, j: nat)
    requires 0 < v < Pow2(j)
    ensures j > 0 && v / 2 < Pow2(j - 1)
  {
  }

  lemma {:induction false} EndPeel(k: nat, sum: nat, i: nat)
    ensures Xor(sum, Zeros(k, Shl(0, i))) == sum
  {
    hide Xor, Zeros;
    ZerosZero(k);
    XorComm(sum, 0);
    XorZero(sum);
  }

  lemma {:induction false} RowBound(k: nat, n: nat)
    requires n < 32
    ensures Zeros(k, Pow2(n)) < 0x1_0000_0000
  {
    hide Zeros, Pow2;
    BytePowers();
    Pow2Less(n, 32);
    ZerosBound(k, Pow2(n));
  }

  lemma {:induction false} Pow2Less(n: nat, k: nat)
    requires n < k
    ensures Pow2(n) < Pow2(k)
  {
    Pow2Mono(n, k - 1);
  }

  /** gf2_matrix_square doubles the number of zero bits. */
  method MatrixSquare(square: array<nat>, mat: array<nat>, ghost k: nat)
    requires square.Length == 32 && square != mat && Represents(mat[..], k)
    modifies square
    ensures Represents(square[..], 2 * k)
  {
    hide Xor, Zeros, Pow2;
    var n := 0;
    while n < 32
      invariant 0 <= n <= 32 && Represents(mat[..], k)
      invariant forall i :: 0 <= i < n ==> square[i] == Zeros(2 * k, Pow2(i))
    {
      RowBound(k, n);
      ZerosAdd(k, k, Pow2(n));
      square[n] := MatrixTimes(mat, mat[n], k);
      n := n + 1;
    }
  }

  /** The first matrix of crc32_combine_: one zero bit. */
  method OneZeroBit(odd: array<nat>)
    requires odd.Length == 32
    modifies odd
    ensures Represents(odd[..], 1)
  {
    hide Zeros, Pow2;
    odd[0] := 0xedb88320;
    var row := 1;
    FirstRow();
    for n := 1 to 32
      invariant row == Pow2(n - 1)
      invariant forall i :: 0 <= i < n ==> odd[i] == Zeros(1, Pow2(i))
    {
      NextRow(n);
      odd[n] := row;
      row := 2 * row;
    }
  }

  lemma {:induction false} FirstRow()
    ensures Zeros(1, Pow2(0)) == 0xedb88320 && Pow2(0) == 1
  {
    hide Xor;
    XorComm(POLY, 0);
    XorZero(POLY);
    assert BitStep(1) == Xor(POLY, 0);
  }

  lemma {:induction false} NextRow(n: nat)
    requires n > 0
    ensures Zeros(1, Pow2(n)) == Pow2(n - 1) && Pow2(n) == 2 * Pow2(n - 1)
  {
  }

  /** The zeros still to be applied when n bytes remain in units of p bytes. */
  function Remaining(p: nat, n: nat, c: nat): nat { Zeros(8 * (p * n), c) }

  lemma {:induction false} HalveCount(p: nat, n: nat)
    ensures p * n == 2 * p * (n / 2) + (if n % 2 == 1 then p else 0)
  {
    var q, b := n / 2, n % 2;
    assert p * (2 * q + b) == 2 * p * q + p * b;
  }

  lemma {:induction false} SpendBytes(all: nat, rest: nat, p: nat, c: nat)
    requires all == rest + p
    ensures Zeros(8 * all, c) == Zeros(8 * rest, Zeros(8 * p, c))
  {
    hide Zeros;
    ZerosAdd(8 * p, 8 * rest, c);
  }

  /** Spending the low bit of the count: the unit doubles. */
  lemma {:induction false} SpendBit(p: nat, n: nat, c: nat)
    ensures Remaining(p, n, c) == Remaining(2 * p, n / 2, if n % 2 == 1 then Zeros(8 * p, c) else c)
  {
    hide Zeros;
    HalveCount(p, n);
    if n % 2 == 1 { SpendBytes(p * n, 2 * p * (n / 2), p, c); }
  }

  /** One step of the doubling loop: build the next operator from the last one
      and apply it if the low bit of the count asks for it. */
  method SquareAndApply(next: array<nat>, last: array<nat>, ghost p: nat, n: nat, c: word) returns (r: word)
    requires next.Length == 32 && next != last && Represents(last[..], 4 * p)
    modifies next
    ensures Represents(next[..], 8 * p)
    ensures Remaining(p, n, c) == Remaining(2 * p, n / 2, r)
  {
    hide Zeros, Remaining, Xor;
    MatrixSquare(next, last, 4 * p);
    SpendBit(p, n, c);
    BytePowers();
    ZerosBound(8 * p, c);
    r := c;
    if n % 2 == 1 { r := MatrixTimes(next, c, 8 * p); }
  }

  lemma {:induction false} NothingRemains(p: nat, c: nat)
    ensures Remaining(p, 0, c) == c
  {
    assert p * 0 == 0;
  }

  /** crc32_combine_: the zeros operator for len2 bytes, by repeated squaring with
      the two matrices taking turns. */
  method Crc32Combine(crc1: word, crc2: word, len2: int) returns (r: nat)
    ensures len2 <= 0 ==> r == crc1
    ensures len2 > 0 ==> r == Xor(Zeros(8 * len2, crc1), crc2)
  {
    hide Zeros, Remaining, Xor, Represents;
    if len2 <= 0 { return crc1; }
    var even, odd := new nat[32], new nat[32];
    OneZeroBit(odd);
    MatrixSquare(even, odd, 1);
    MatrixSquare(odd, even, 2);
    var c, n := crc1, len2;
    ghost var p := 1;
    AllRemains(len2, crc1);
    while true
      invariant n > 0 && p >= 1 && Represents(odd[..], 4 * p)
      invariant Remaining(1, len2, crc1) == Remaining(p, n, c)
      decreases n
    {
      c := SquareAndApply(even, odd, p, n, c);
      n, p := n / 2, 2 * p;
      if n == 0 { break; }
      assert 8 * (p / 2) == 4 * p;
      c := SquareAndApply(odd, even, p, n, c);
      n, p := n / 2, 2 * p;
      if n == 0 { break; }
    }
    NothingRemains(p, c);
    r := Xor(c, crc2);
  }

  lemma {:induction false} AllRemains(n: nat, c: nat)
    ensures Remaining(1, n, c) == Zeros(8 * n, c)
  {
  }

  /** What crc32_combine_ computes from the checksums of two texts is the
      checksum of the two texts joined. */
  lemma {:induction false} CombineIsConcat(crc: nat, a: seq<byte>, b: seq<byte>)
    ensures Xor(Zeros(8 * |b|, Crc(crc, a)), Crc(0, b)) == Crc(crc, a + b)
  {
    hide Xor, Register, Zeros;
    var n, ra, rb := 8 * |b|, Register(Xor(crc, ONES), a), Register(0, b);
    RegisterConcat(Xor(crc, ONES), a, b);
    RegisterAffine(ra, b);
    XorZero(ONES);
    RegisterAffine(ONES, b);
    ZerosLinear(n, ra, ONES);
    CombineMixes(Zeros(n, ra), Zeros(n, ONES), rb);
  }

  /** crc32_combine on the checksums of two texts gives the checksum of both. */
  method CombineChecksums(crc: word, a: seq<byte>, b: seq<byte>, crc1: word, crc2: word) returns (r: nat)
    requires crc1 == Crc(crc, a) && crc2 == Crc(0, b)
    ensures r == Crc(crc, a + b)
  {
    hide Crc, Zeros, Xor;
    r := Crc32Combine(crc1, crc2, |b|);
    CombineIsConcat(crc, a, b);
    assert |b| == 0 ==> a + b == a;
  }

  lemma {:induction false} CombineMixes(x: nat, y: nat, z: nat)
    ensures Xor(Xor(x, y), Xor(Xor(y, z), ONES)) == Xor(Xor(x, z), ONES)
  {
    hide Xor;
    XorAssoc(y, z, ONES);
    XorAssoc(Xor(x, y), y, Xor(z, ONES));
    XorCancel(x, y);
    XorAssoc(x, z, ONES);
  }
}
