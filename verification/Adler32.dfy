/** adler32.c: the Adler-32 checksum with its modulo deferred over blocks of NMAX bytes. */
module Adler32 {
  import Arith
  import opened Bits

  const BASE: nat := 65521
  const NMAX: nat := 5552

  type u32 = x: nat | x < 0x1_0000_0000

  // ---- the checksum as section 2.2 of RFC 1950 defines it ----------------------------------

  /** The sum of the bytes, reduced at every byte. */
  function ModA(a: nat, s: seq<byte>): (r: nat)
    ensures r < BASE
  {
    if |s| == 0 then a % BASE else (ModA(a, s[..|s| - 1]) + s[|s| - 1]) % BASE
  }

  /** The sum of those sums, reduced at every byte. */
  function ModB(a: nat, b: nat, s: seq<byte>): (r: nat)
    ensures r < BASE
  {
    if |s| == 0 then b % BASE else (ModB(a, b, s[..|s| - 1]) + ModA(a, s)) % BASE
  }

  function Packed(a: nat, b: nat): nat { a + 0x1_0000 * b }

  /** The checksum of s, running on from the checksum adler. */
  function Adler(adler: u32, s: seq<byte>): (r: u32)
  {
    Packed(ModA(adler % 0x1_0000, s), ModB(adler % 0x1_0000, adler / 0x1_0000, s))
  }

  // ---- the sums without any modulo -----------------------------------------------------------

  function RawA(a: nat, s: seq<byte>): nat
  {
    if |s| == 0 then a else RawA(a, s[..|s| - 1]) + s[|s| - 1]
  }

  function RawB(a: nat, b: nat, s: seq<byte>): nat
  {
    if |s| == 0 then b else RawB(a, b, s[..|s| - 1]) + RawA(a, s)
  }

  lemma {:induction false} AddMod(x: nat, y: nat)
    ensures (x % BASE + y) % BASE == (x + y) % BASE
    ensures (x % BASE + y % BASE) % BASE == (x + y) % BASE
  {
    Arith.DivMod(x, BASE);
    Arith.DivMod(y, BASE);
    Arith.ModShift(x % BASE + y, BASE, x / BASE);
    Arith.ModShift(x % BASE + y % BASE, BASE, x / BASE + y / BASE);
  }

  /** Reducing at the end is reducing at every byte. */
  lemma {:induction false} Deferred(a: nat, b: nat, s: seq<byte>)
    ensures ModA(a, s) == RawA(a, s) % BASE && ModB(a, b, s) == RawB(a, b, s) % BASE
    decreases |s|
  {
    if |s| > 0 {
      var t := s[..|s| - 1];
      Deferred(a, b, t);
      AddMod(RawA(a, t), s[|s| - 1]);
      AddMod(RawB(a, b, t), RawA(a, s));
    }
  }

  lemma {:induction false} RawParts(a: nat, b: nat, s: seq<byte>, t: seq<byte>)
    ensures RawA(a, s + t) == RawA(RawA(a, s), t)
    ensures RawB(a, b, s + t) == RawB(RawA(a, s), RawB(a, b, s), t)
    decreases |t|
  {
    if |t| == 0 {
      assert s + t == s;
    } else {
      var t' := t[..|t| - 1];
      assert (s + t)[..|s + t| - 1] == s + t';
      RawParts(a, b, s, t');
    }
  }

  /** A checksum runs on: the halves may be reduced in between. */
  lemma {:induction false} ModParts(a: nat, b: nat, s: seq<byte>, t: seq<byte>)
    ensures ModA(a, s + t) == ModA(ModA(a, s), t)
    ensures ModB(a, b, s + t) == ModB(ModA(a, s), ModB(a, b, s), t)
    decreases |t|
  {
    if |t| == 0 {
      assert s + t == s;
    } else {
      var t' := t[..|t| - 1];
      assert (s + t)[..|s + t| - 1] == s + t';
      ModParts(a, b, s, t');
    }
  }

  lemma {:induction false} ModReduced(a: nat, b: nat, s: seq<byte>)
    ensures ModA(a % BASE, s) == ModA(a, s) && ModB(a % BASE, b % BASE, s) == ModB(a, b, s)
    decreases |s|
  {
    if |s| > 0 { ModReduced(a, b, s[..|s| - 1]); }
  }

  // ---- no overflow -----------------------------------------------------------------------------

  /** The largest value that the second sum can reach in n bytes. */
  function Worst(a: nat, b: nat, n: nat): nat
  {
    if n == 0 then b else Worst(a, b, n - 1) + a + 255 * n
  }

  lemma {:induction false} RawBound(a: nat, b: nat, s: seq<byte>)
    ensures a <= RawA(a, s) <= a + 255 * |s| && b <= RawB(a, b, s) <= Worst(a, b, |s|)
    decreases |s|
  {
    if |s| > 0 { RawBound(a, b, s[..|s| - 1]); }
  }

  lemma {:induction false} WorstIs(a: nat, b: nat, n: nat)
    ensures 2 * Worst(a, b, n) == 2 * b + 2 * (n * a) + 255 * (n * (n + 1))
  {
    if n > 0 {
      WorstIs(a, b, n - 1);
      assert n * a == (n - 1) * a + a;
      assert n * (n + 1) == (n - 1) * n + 2 * n;
    }
  }

  lemma {:induction false} WorstMono(a: nat, b: nat, a': nat, b': nat, n: nat, n': nat)
    requires a <= a' && b <= b' && n <= n'
    ensures Worst(a, b, n) <= Worst(a', b', n')
    decreases n'
  {
    if n' > n { WorstMono(a, b, a', b', n, n' - 1); }
    else if n > 0 { WorstMono(a, b, a', b', n - 1, n - 1); }
  }

  /** In a block of up to NMAX bytes the second sum stays a 32-bit number, even when the
      checksum it starts from has halves that are not reduced. */
  lemma {:induction false} NoOverflow(a: nat, b: nat, s: seq<byte>)
    requires a < 0x1_0000 && b < 0x1_0000 && |s| <= NMAX
    ensures RawA(a, s) < 0x1_0000_0000 && RawB(a, b, s) < 0x1_0000_0000
  {
    RawBound(a, b, s);
    WorstMono(a, b, 0xFFFF, 0xFFFF, |s|, NMAX);
    WorstIs(0xFFFF, 0xFFFF, NMAX);
  }

  function Ones(n: nat): (s: seq<byte>)
    ensures |s| == n
  {
    if n == 0 then [] else Ones(n - 1) + [255]
  }

  lemma {:induction false} OnesAreWorst(a: nat, b: nat, n: nat)
    ensures RawA(a, Ones(n)) == a + 255 * n && RawB(a, b, Ones(n)) == Worst(a, b, n)
  {
    if n > 0 {
      OnesAreWorst(a, b, n - 1);
      assert Ones(n)[..n - 1] == Ones(n - 1);
    }
  }

  /** NMAX is the largest number of bytes for which the modulo can be put off. */
  lemma {:induction false} NmaxIsTight(n: nat)
    ensures n <= NMAX <==> forall s: seq<byte> :: |s| == n ==> RawB(BASE - 1, BASE - 1, s) < 0x1_0000_0000
  {
    if n <= NMAX {
      forall s: seq<byte> | |s| == n ensures RawB(BASE - 1, BASE - 1, s) < 0x1_0000_0000 { NoOverflow(BASE - 1, BASE - 1, s); }
    } else {
      WorstMono(BASE - 1, BASE - 1, BASE - 1, BASE - 1, NMAX + 1, n);
      WorstIs(BASE - 1, BASE - 1, NMAX + 1);
      OnesAreWorst(BASE - 1, BASE - 1, n);
      assert |Ones(n)| == n;
    }
  }

  // ---- the modulo without division ----------------------------------------------------------------

  /** NO_DIVIDE: BASE << k, ..., BASE << 1, BASE are taken off, each at most once. */
  function Chain(a: nat, k: nat): nat
  {
    var a' := if a >= BASE * Pow2(k) then a - BASE * Pow2(k) else a;
    if k == 0 then a' else Chain(a', k - 1)
  }

  /** The chain is the remainder exactly as far as it reaches. */
  lemma {:induction false} ChainIsMod(a: nat, k: nat)
    ensures a < BASE * Pow2(k + 1) <==> Chain(a, k) == a % BASE
    decreases k
  {
    var p := BASE * Pow2(k);
    assert BASE * Pow2(k + 1) == 2 * p;
    var a' := if a >= p then a - p else a;
    if a >= p { Arith.ModShift(a', BASE, Pow2(k)); }
    if k == 0 {
      assert Pow2(0) == 1;
      Arith.DivMod(a, BASE);
      if a' < BASE { Arith.ModUnique(a', BASE, 0, a'); }
    } else {
      ChainIsMod(a', k - 1);
    }
  }

  lemma {:induction false} Powers()
    ensures Pow2(5) == 32 && Pow2(17) == 0x2_0000
  {
    assert Pow2(5) == 32;
    Pow2Add(5, 5);
    Pow2Add(10, 5);
    Pow2Add(15, 2);
  }

  function Less(x: nat, y: nat): nat { if x >= y then x - y else x }

  /** MOD and MOD4, with and without NO_DIVIDE. */
  method Mod(noDivide: bool, a: u32) returns (r: u32)
    ensures r == a % BASE
  {
    Powers();
    ChainIsMod(a, 16);
    r := if noDivide then Chain(a, 16) else a % BASE;
  }

  method Mod4(noDivide: bool, a: u32) returns (r: u32)
    requires a < BASE * 32
    ensures r == a % BASE
  {
    Powers();
    ChainIsMod(a, 4);
    r := if noDivide then Chain(a, 4) else a % BASE;
  }

  // ---- adler32 ------------------------------------------------------------------------------------

  lemma {:induction false} OneByte(a: nat, b: nat, c: byte)
    ensures RawA(a, [c]) == a + c && RawB(a, b, [c]) == b + a + c
  {
    assert [c][..0] == [];
  }

  /** DO1. */
  method Do1(buf: array<byte>, i: nat, a: u32, b: u32) returns (a': u32, b': u32)
    requires i < buf.Length && RawB(a, b, buf[i..i + 1]) < 0x1_0000_0000
    ensures a' == RawA(a, buf[i..i + 1]) && b' == RawB(a, b, buf[i..i + 1])
  {
    assert buf[i..i + 1] == [buf[i]];
    OneByte(a, b, buf[i]);
    a' := a + buf[i];
    b' := b + a';
  }

  /** DO2, DO4, DO8 and DO16: two of half the size. */
  method Do(buf: array<byte>, i: nat, n: nat, a: u32, b: u32) returns (a': u32, b': u32)
    requires n == 1 || n == 2 || n == 4 || n == 8 || n == 16
    requires i + n <= buf.Length && RawB(a, b, buf[i..i + n]) < 0x1_0000_0000
    ensures a' == RawA(a, buf[i..i + n]) && b' == RawB(a, b, buf[i..i + n])
    decreases n
  {
    hide RawA, RawB;
    if n == 1 {
      a', b' := Do1(buf, i, a, b);
    } else {
      var h := n / 2;
      ghost var s, t := buf[i..i + h], buf[i + h..i + n];
      assert buf[i..i + n] == s + t;
      RawParts(a, b, s, t);
      RawBound(RawA(a, s), RawB(a, b, s), t);
      a', b' := Do(buf, i, h, a, b);
      a', b' := Do(buf, i + h, h, a', b');
    }
  }

  /** DO16 inside a block that started at lo with the sums a0 and b0. */
  method Do16(buf: array<byte>, ghost lo: nat, i: nat, ghost a0: u32, ghost b0: u32, a: u32, b: u32) returns (a': u32, b': u32)
    requires lo <= i && i + 16 <= buf.Length && i + 16 - lo <= NMAX && a0 < 0x1_0000 && b0 < 0x1_0000
    requires a == RawA(a0, buf[lo..i]) && b == RawB(a0, b0, buf[lo..i])
    ensures a' == RawA(a0, buf[lo..i + 16]) && b' == RawB(a0, b0, buf[lo..i + 16])
  {
    assert buf[lo..i + 16] == buf[lo..i] + buf[i..i + 16];
    RawParts(a0, b0, buf[lo..i], buf[i..i + 16]);
    NoOverflow(a0, b0, buf[lo..i + 16]);
    a', b' := Do(buf, i, 16, a, b);
  }

  /** A block of NMAX bytes. */
  method Block(buf: array<byte>, lo: nat, a: u32, b: u32) returns (a': u32, b': u32)
    requires lo + NMAX <= buf.Length && a < 0x1_0000 && b < 0x1_0000
    ensures a' == RawA(a, buf[lo..lo + NMAX]) && b' == RawB(a, b, buf[lo..lo + NMAX])
  {
    hide RawA, RawB;
    var n, i := NMAX / 16, lo;
    a', b' := a, b;
    assert buf[lo..i] == [];
    RawNone(a, b);
    while n > 0
      invariant 0 <= n <= NMAX / 16 && i == lo + NMAX - 16 * n
      invariant a' == RawA(a, buf[lo..i]) && b' == RawB(a, b, buf[lo..i])
    {
      a', b' := Do16(buf, lo, i, a, b, a', b');
      i := i + 16;
      n := n - 1;
    }
  }

  lemma {:induction false} RawNone(a: nat, b: nat)
    ensures RawA(a, []) == a && RawB(a, b, []) == b
  {
  }

  /** The loop over single bytes. */
  method Bytes(buf: array<byte>, ghost lo: nat, from: nat, hi: nat, ghost a0: u32, ghost b0: u32, a: u32, b: u32) returns (a': u32, b': u32)
    requires lo <= from <= hi <= buf.Length && hi - lo <= NMAX && a0 < 0x1_0000 && b0 < 0x1_0000
    requires a == RawA(a0, buf[lo..from]) && b == RawB(a0, b0, buf[lo..from])
    ensures a' == RawA(a0, buf[lo..hi]) && b' == RawB(a0, b0, buf[lo..hi])
  {
    hide RawA, RawB;
    var i := from;
    a', b' := a, b;
    while i < hi
      invariant from <= i <= hi
      invariant a' == RawA(a0, buf[lo..i]) && b' == RawB(a0, b0, buf[lo..i])
    {
      assert buf[lo..i + 1] == buf[lo..i] + [buf[i]];
      RawParts(a0, b0, buf[lo..i], [buf[i]]);
      OneByte(a', b', buf[i]);
      NoOverflow(a0, b0, buf[lo..i + 1]);
      a' := a' + buf[i];
      b' := b' + a';
      i := i + 1;
    }
  }

  /** The remaining bytes, fewer than NMAX. */
  method Rest(buf: array<byte>, lo: nat, hi: nat, a: u32, b: u32) returns (a': u32, b': u32)
    requires lo <= hi <= buf.Length && hi - lo < NMAX && a < 0x1_0000 && b < 0x1_0000
    ensures a' == RawA(a, buf[lo..hi]) && b' == RawB(a, b, buf[lo..hi])
  {
    hide RawA, RawB;
    var i := lo;
    a', b' := a, b;
    assert buf[lo..i] == [];
    RawNone(a, b);
    while hi - i >= 16
      invariant lo <= i <= hi
      invariant a' == RawA(a, buf[lo..i]) && b' == RawB(a, b, buf[lo..i])
    {
      a', b' := Do16(buf, lo, i, a, b, a', b');
      i := i + 16;
    }
    a', b' := Bytes(buf, lo, i, hi, a, b, a', b');
  }

  /** Where a byte-at-a-time update leaves the second half unreduced; this needs a checksum
      whose second half is not reduced to begin with. */
  predicate Unreduced(adler: u32, c: byte)
  {
    adler / 0x1_0000 + (adler % 0x1_0000 + c) % BASE >= 2 * BASE
  }

  /** The path for a single byte. */
  method OneByteOnly(adler: u32, c: byte) returns (r: u32)
    ensures r == Adler(adler, [c]) <==> !Unreduced(adler, c)
    ensures r % 0x1_0000 % BASE == ModA(adler % 0x1_0000, [c])
    ensures r / 0x1_0000 % BASE == ModB(adler % 0x1_0000, adler / 0x1_0000, [c])
  {
    hide RawA, RawB, ModA, ModB;
    var a: u32, b: u32 := adler % 0x1_0000, adler / 0x1_0000;
    OneByte(a, b, c);
    Deferred(a, b, [c]);
    OneSum(a, b, c);
    a := a + c;
    if a >= BASE { a := a - BASE; }
    b := b + a;
    if b >= BASE { b := b - BASE; }
    r := a + 0x1_0000 * b;
    Unpacked(r, a, b);
    AdlerReduced(adler, [c]);
  }

  lemma {:induction false} Unpacked(r: nat, a: nat, b: nat)
    requires a < 0x1_0000 && r == a + 0x1_0000 * b
    ensures r % 0x1_0000 == a && r / 0x1_0000 == b
  {
  }

  lemma {:induction false} OneSum(a: nat, b: nat, c: byte)
    requires a < 0x1_0000 && b < 0x1_0000
    ensures var a' := Less(a + c, BASE);
      var b' := Less(b + a', BASE);
      a' == (a + c) % BASE && b' < 0x1_0000 && b' % BASE == (b + a + c) % BASE
      && (b' == (b + a + c) % BASE <==> b + a' < 2 * BASE)
  {
    var a' := Less(a + c, BASE);
    AddMod(a + c, b);
    assert a' == (a + c) % BASE;
    assert (b + a') % BASE == (b + a + c) % BASE;
    Arith.ModShift(b + a' - BASE, BASE, 1);
  }

  /** What the sums stand for after some blocks. */
  ghost predicate Running(adler: u32, s: seq<byte>, a: u32, b: u32)
  {
    a < 0x1_0000 && b < 0x1_0000
    && a % BASE == ModA(adler % 0x1_0000, s) && b % BASE == ModB(adler % 0x1_0000, adler / 0x1_0000, s)
  }

  lemma {:induction false} RunsOn(adler: u32, s: seq<byte>, a: u32, b: u32, t: seq<byte>)
    requires Running(adler, s, a, b)
    ensures RawA(a, t) % BASE == ModA(adler % 0x1_0000, s + t)
    ensures RawB(a, b, t) % BASE == ModB(adler % 0x1_0000, adler / 0x1_0000, s + t)
    ensures Running(adler, s + t, RawA(a, t) % BASE, RawB(a, b, t) % BASE)
  {
    hide RawA, RawB, ModA, ModB;
    Deferred(a, b, t);
    ModReduced(a, b, t);
    ModParts(adler % 0x1_0000, adler / 0x1_0000, s, t);
  }

  /** Fewer than 16 bytes. */
  method Short(noDivide: bool, adler: u32, buf: array<byte>, len: nat) returns (r: u32)
    requires len <= buf.Length && len < 16
    ensures r == Adler(adler, buf[..len])
  {
    hide RawA, RawB, ModA, ModB;
    var a: u32, b: u32 := adler % 0x1_0000, adler / 0x1_0000;
    assert buf[0..0] == [];
    RawNone(a, b);
    ghost var a0, b0 := a, b;
    a, b := Bytes(buf, 0, 0, len, a, b, a, b);
    assert buf[0..len] == buf[..len];
    RawBound(a0, b0, buf[..len]);
    WorstMono(a0, b0, 0xFFFF, 0xFFFF, len, 15);
    WorstIs(0xFFFF, 0xFFFF, 15);
    Deferred(a0, b0, buf[..len]);
    if a >= BASE { a := a - BASE; }
    b := Mod4(noDivide, b);
    r := a + 0x1_0000 * b;
  }

  /** adler32: except for the one case above it is the checksum that the standard defines. */
  method Adler32(noDivide: bool, adler: u32, buf: array?<byte>, len: nat) returns (r: u32)
    requires if buf == null then len != 1 else len <= buf.Length
    ensures buf == null ==> r == 1
    ensures buf != null ==> (r == Adler(adler, buf[..len]) <==> !(len == 1 && Unreduced(adler, buf[0])))
  {
    hide RawA, RawB, ModA, ModB, Unreduced;
    if len == 1 {
      assert buf[..len] == [buf[0]];
      r := OneByteOnly(adler, buf[0]);
      return;
    }
    if buf == null { return 1; }
    if len < 16 {
      r := Short(noDivide, adler, buf, len);
      return;
    }
    var a: u32, b: u32 := adler % 0x1_0000, adler / 0x1_0000;
    StartRunning(adler);
    var i := 0;
    assert buf[..0] == [];
    while len - i >= NMAX
      invariant 0 <= i <= len && Running(adler, buf[..i], a, b) && (i > 0 ==> a < BASE && b < BASE)
    {
      assert buf[..i + NMAX] == buf[..i] + buf[i..i + NMAX];
      RunsOn(adler, buf[..i], a, b, buf[i..i + NMAX]);
      NoOverflow(a, b, buf[i..i + NMAX]);
      a, b := Block(buf, i, a, b);
      a := Mod(noDivide, a);
      b := Mod(noDivide, b);
      i := i + NMAX;
    }
    if i < len {
      assert buf[..len] == buf[..i] + buf[i..len];
      RunsOn(adler, buf[..i], a, b, buf[i..len]);
      a, b := Rest(buf, i, len, a, b);
      a := Mod(noDivide, a);
      b := Mod(noDivide, b);
    }
    r := a + 0x1_0000 * b;
  }

  lemma {:induction false} StartRunning(adler: u32)
    ensures Running(adler, [], adler % 0x1_0000, adler / 0x1_0000)
  {
  }

  /** The excepted case does occur: a checksum with an unreduced half, and one byte. */
  lemma {:induction false} UnreducedExample()
    ensures Unreduced(0xFFFF_FFF0, 0)
    ensures forall adler: u32, c: byte :: Unreduced(adler, c) ==> adler / 0x1_0000 >= BASE
  {
  }

  // ---- adler32_combine_ ------------------------------------------------------------------------------

  predicate Reduced(adler: u32) { adler % 0x1_0000 < BASE && adler / 0x1_0000 < BASE }

  lemma {:induction false} AdlerReduced(adler: u32, s: seq<byte>)
    ensures Reduced(Adler(adler, s))
    ensures Adler(adler, s) % 0x1_0000 == ModA(adler % 0x1_0000, s)
    ensures Adler(adler, s) / 0x1_0000 == ModB(adler % 0x1_0000, adler / 0x1_0000, s)
  {
  }

  /** rem * sum1, reduced. */
  function Times(noDivide: bool, rem: nat, sum: nat): (r: nat)
    requires rem < BASE && sum < 0x1_0000
    ensures r == rem * sum % BASE < BASE
  {
    RemFits(rem, sum);
    if noDivide then Chain(rem * sum, 16) else rem * sum % BASE
  }

  lemma {:induction false} RemFits(rem: nat, sum: nat)
    requires rem < BASE && sum < 0x1_0000
    ensures 0 <= rem * sum < 0x1_0000_0000 && Chain(rem * sum, 16) == rem * sum % BASE
  {
    Product(rem, sum);
    Powers();
    ChainIsMod(rem * sum, 16);
  }

  /** a | (b << 16), where a has at most 17 bits. */
  function Merged(a: nat, b: nat): nat
  {
    if a < 0x1_0000 then Packed(a, b) else Packed(a - 0x1_0000, if b % 2 == 0 then b + 1 else b)
  }

  lemma {:induction false} MergedReduced(a: nat, b: nat)
    requires a < BASE && b < BASE
    ensures Merged(a, b) < 0x1_0000_0000 && Reduced(Merged(a, b)) && Merged(a, b) == Packed(a, b)
  {
    Unpacked(Packed(a, b), a, b);
  }

  /** adler32_combine_; the result is reduced if the arguments are. */
  function Combine(noDivide: bool, adler1: u32, adler2: u32, len2: nat): (r: nat)
    ensures Reduced(adler1) && Reduced(adler2) ==> r < 0x1_0000_0000 && Reduced(r)
  {
    var rem := len2 % BASE;
    var sum1 := adler1 % 0x1_0000;
    var s1 := sum1 + adler2 % 0x1_0000 + BASE - 1;
    var s2 := Times(noDivide, rem, sum1) + adler1 / 0x1_0000 + adler2 / 0x1_0000 + BASE - rem;
    Lessened(s1);
    Lessened(s2);
    var a, b := Less(Less(s1, BASE), BASE), Less(Less(s2, 2 * BASE), BASE);
    assert a < BASE && b < BASE ==> Merged(a, b) < 0x1_0000_0000 && Reduced(Merged(a, b)) by {
      if a < BASE && b < BASE { MergedReduced(a, b); }
    }
    Merged(a, b)
  }

  lemma {:induction false} Product(rem: nat, sum: nat)
    requires rem < BASE && sum < 0x1_0000
    ensures rem * sum <= BASE * 0xFFFF
  {
    assert rem * sum <= rem * 0xFFFF by { assert rem * (0xFFFF - sum) >= 0; }
  }

  /** Starting values come through both sums linearly. */
  lemma {:induction false} RawLinear(a: nat, b: nat, s: seq<byte>)
    ensures RawA(a, s) == a + RawA(0, s) && RawB(a, b, s) == b + |s| * a + RawB(0, 0, s)
    decreases |s|
  {
    if |s| > 0 {
      RawLinear(a, b, s[..|s| - 1]);
      assert |s| * a == (|s| - 1) * a + a;
    }
  }

  lemma {:induction false} FirstSum(a1: nat, x: nat)
    requires a1 < BASE
    ensures Less(Less(a1 + (1 + x) % BASE + BASE - 1, BASE), BASE) == (a1 + x) % BASE
  {
    Arith.DivMod(1 + x, BASE);
    var s1 := a1 + (1 + x) % BASE + BASE - 1;
    Arith.ModShift(a1 + x, BASE, 1 - (1 + x) / BASE);
    Lessened(s1);
  }

  lemma {:induction false} Lessened(s: nat)
    ensures s < 3 * BASE ==> Less(Less(s, BASE), BASE) == s % BASE
    ensures s < 4 * BASE ==> Less(Less(s, 2 * BASE), BASE) == s % BASE
  {
  }

  lemma {:induction false} SecondSum(a1: nat, b1: nat, y: nat, n: nat, rem: nat)
    requires a1 < BASE && b1 < BASE && rem == n % BASE
    ensures Less(Less(rem * a1 % BASE + b1 + (n + y) % BASE + BASE - rem, 2 * BASE), BASE) == (b1 + n * a1 + y) % BASE
  {
    hide Less;
    Arith.DivMod(n, BASE);
    var q := n / BASE;
    Spread(q, rem, a1);
    Arith.MulNonNeg(rem, a1);
    Arith.MulNonNeg(q, a1);
    SecondSumOf(rem * a1, n * a1, q * a1, b1, y, n, rem, q);
  }

  /** The same with p, m and t for the products. */
  lemma {:induction false} SecondSumOf(p: nat, m: nat, t: nat, b1: nat, y: nat, n: nat, rem: nat, q: nat)
    requires b1 < BASE && rem < BASE && n == BASE * q + rem && m == p + BASE * t
    ensures Less(Less(p % BASE + b1 + (n + y) % BASE + BASE - rem, 2 * BASE), BASE) == (b1 + m + y) % BASE
  {
    hide Less;
    Arith.DivMod(n + y, BASE);
    Arith.DivMod(p, BASE);
    var s2 := p % BASE + b1 + (n + y) % BASE + BASE - rem;
    Lessened(s2);
    Shifted(s2, b1 + m + y, 1 - p / BASE - t - (n + y) / BASE + q);
  }

  lemma {:induction false} Spread(q: nat, rem: nat, a: nat)
    ensures (BASE * q + rem) * a == rem * a + BASE * (q * a)
  {
  }

  lemma {:induction false} Shifted(s: nat, t: nat, k: int)
    requires s == t + BASE * k
    ensures s % BASE == t % BASE
  {
    Arith.ModShift(t, BASE, k);
  }

  /** Combine in terms of the sums x and y of the second piece, n bytes long. */
  lemma {:induction false} CombineIs(noDivide: bool, r1: u32, r2: u32, n: nat, x: nat, y: nat)
    requires Reduced(r1) && Reduced(r2) && r2 % 0x1_0000 == (1 + x) % BASE && r2 / 0x1_0000 == (n + y) % BASE
    ensures var a1, b1 := r1 % 0x1_0000, r1 / 0x1_0000;
      Combine(noDivide, r1, r2, n) == Packed((a1 + x) % BASE, (b1 + n * a1 + y) % BASE)
  {
    hide Less, Packed, Merged;
    var a1, b1 := r1 % 0x1_0000, r1 / 0x1_0000;
    FirstSum(a1, x);
    SecondSum(a1, b1, y, n, n % BASE);
    MergedReduced((a1 + x) % BASE, (b1 + n * a1 + y) % BASE);
  }

  /** The checksums of two pieces combine to the checksum of the whole. */
  lemma {:induction false} CombineIsWhole(noDivide: bool, adler: u32, s: seq<byte>, t: seq<byte>)
    ensures var r1, r2 := Adler(adler, s), Adler(1, t);
      Reduced(r1) && Reduced(r2) && Combine(noDivide, r1, r2, |t|) == Adler(adler, s + t)
  {
    hide RawA, RawB, ModA, ModB, Combine, Packed, Reduced;
    var a0, b0 := adler % 0x1_0000, adler / 0x1_0000;
    AdlerReduced(adler, s);
    AdlerReduced(1, t);
    var a1, b1 := ModA(a0, s), ModB(a0, b0, s);
    assert ModA(a0, s + t) == (a1 + RawA(0, t)) % BASE && ModB(a0, b0, s + t) == (b1 + |t| * a1 + RawB(0, 0, t)) % BASE by {
      ModParts(a0, b0, s, t);
      Deferred(a1, b1, t);
      RawLinear(a1, b1, t);
    }
    assert ModA(1, t) == (1 + RawA(0, t)) % BASE && ModB(1, 0, t) == (|t| + RawB(0, 0, t)) % BASE by {
      Deferred(1, 0, t);
      RawLinear(1, 0, t);
    }
    CombineIs(noDivide, Adler(adler, s), Adler(1, t), |t|, RawA(0, t), RawB(0, 0, t));
  }
}
