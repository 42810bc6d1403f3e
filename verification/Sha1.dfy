/** sha-1.c: the digest of FIPS PUB 180-1, block by block, with a circular schedule. */
module Sha1 {
  import Arith
  import opened Bits

  type word = x: nat | x < 0x1_0000_0000

  // ---- words (section 3) -----------------------------------------------------------------------

  function BitAnd(x: nat, y: nat): (r: nat)
    ensures r <= x
  {
    if x == 0 || y == 0 then 0 else (if x % 2 == 1 && y % 2 == 1 then 1 else 0) + 2 * BitAnd(x / 2, y / 2)
  }

  function And(x: word, y: word): word { BitAnd(x, y) }

  function Not(x: word): word { 0xFFFF_FFFF - x }

  function Or(x: word, y: word): word { Not(And(Not(x), Not(y))) }

  function Exor(x: word, y: word): word
  {
    BytePowers();
    XorBound(x, y, 32);
    Xor(x, y)
  }

  function Add(x: word, y: word): word { (x + y) % 0x1_0000_0000 }

  /** S(n, x), the circular left shift; what x << n loses comes back below. */
  function Rotate(n: nat, x: word): word
    requires 0 < n < 32
  {
    RotateFits(n, x);
    x % Pow2(32 - n) * Pow2(n) + x / Pow2(32 - n)
  }

  lemma {:induction false} RotateFits(n: nat, x: word)
    requires 0 < n < 32
    ensures 0 <= x % Pow2(32 - n) * Pow2(n) + x / Pow2(32 - n) < 0x1_0000_0000
  {
    hide Pow2;
    var p, q := Pow2(32 - n), Pow2(n);
    Pow2Add(32 - n, n);
    BytePowers();
    Arith.DivMod(x, p);
    Quotient(x, p, q);
    var d: nat := p - 1 - x % p;
    assert (x % p + 1 + d) * q == x % p * q + q + d * q;
    Arith.MulNonNeg(d, q);
  }

  lemma {:induction false} Quotient(x: nat, p: nat, q: nat)
    requires p > 0 && x < p * q
    ensures 0 <= x / p < q
  {
    Arith.DivMod(x, p);
    Arith.MulBound(p, x / p - q + 1);
    assert p * (x / p - q + 1) == p * (x / p) - p * q + p;
  }

  // ---- functions and constants (sections 5 and 6) ------------------------------------------------

  function F(t: nat, b: word, c: word, d: word): word
  {
    if t < 20 then Or(And(b, c), And(Not(b), d))
    else if t < 40 then Exor(Exor(b, c), d)
    else if t < 60 then Or(Or(And(b, c), And(b, d)), And(c, d))
    else Exor(Exor(b, c), d)
  }

  function K(t: nat): word
  {
    if t < 20 then 0x5a827999 else if t < 40 then 0x6ed9eba1 else if t < 60 then 0x8f1bbcdc else 0xca62c1d6
  }

  /** The five words of the digest, and the five work words. */
  datatype Five = Five(a: word, b: word, c: word, d: word, e: word)

  const Start: Five := Five(0x67452301, 0xefcdab89, 0x98badcfe, 0x10325476, 0xc3d2e1f0)

  // ---- the message digest (section 7) -------------------------------------------------------------

  function WordAt(s: seq<byte>, i: nat): word
    requires 4 * i + 4 <= |s|
  {
    var b3: nat, b2: nat, b1: nat, b0: nat := s[4 * i], s[4 * i + 1], s[4 * i + 2], s[4 * i + 3];
    b3 * 0x100_0000 + b2 * 0x1_0000 + b1 * 0x100 + b0
  }

  type block = s: seq<byte> | |s| == 64 witness seq(64, i => 0)

  /** W(t), of the schedule of 80 words. */
  function W(s: block, t: nat): word
  {
    if t < 16 then WordAt(s, t) else Rotate(1, Exor(Exor(Exor(W(s, t - 3), W(s, t - 8)), W(s, t - 14)), W(s, t - 16)))
  }

  function Round(v: Five, t: nat, w: word): Five
  {
    Five(Add(Add(Add(Add(Rotate(5, v.a), F(t, v.b, v.c, v.d)), v.e), w), K(t)), v.a, Rotate(30, v.b), v.c, v.d)
  }

  function Rounds(v: Five, s: block, n: nat): Five
  {
    if n == 0 then v else Round(Rounds(v, s, n - 1), n - 1, W(s, n - 1))
  }

  function Plus(u: Five, v: Five): Five
  {
    Five(Add(u.a, v.a), Add(u.b, v.b), Add(u.c, v.c), Add(u.d, v.d), Add(u.e, v.e))
  }

  const ROUNDS: nat := 80

  function Compress(v: Five, s: block): Five { Plus(v, Rounds(v, s, ROUNDS)) }

  function Digest(s: seq<byte>): Five
    requires |s| % 64 == 0
  {
    if |s| == 0 then Start else Compress(Digest(s[..|s| - 64]), s[|s| - 64..])
  }

  // ---- padding (section 4) ----------------------------------------------------------------------------

  function Zeros(n: nat): (s: seq<byte>)
    ensures |s| == n
  {
    seq(n, i => 0)
  }

  /** Zero bytes between the 1-bit and the length. */
  function Gap(n: nat): nat { if n % 64 < 56 then 55 - n % 64 else 119 - n % 64 }

  /** The low k bytes of x, highest first. */
  function BigEndian(x: nat, k: nat): (s: seq<byte>)
    ensures |s| == k
  {
    if k == 0 then [] else BigEndian(x / 256, k - 1) + [x % 256]
  }

  function Padded(s: seq<byte>): (r: seq<byte>)
    ensures |r| % 64 == 0 && |r| == |s| + 9 + Gap(|s|)
  {
    GapIsLeast(|s|, 0);
    s + [0x80] + Zeros(Gap(|s|)) + BigEndian(8 * |s|, 8)
  }

  /** Sixty-four divides the padded length, and no shorter gap would do. */
  lemma {:induction false} GapIsLeast(n: nat, g: nat)
    ensures (n + 1 + Gap(n) + 8) % 64 == 0
    ensures (n + 1 + g + 8) % 64 == 0 ==> Gap(n) <= g
  {
    Arith.DivMod(n, 64);
    var q := n / 64;
    if n % 64 < 56 { Arith.ModUnique(n + 9 + Gap(n), 64, q + 1, 0); } else { Arith.ModUnique(n + 9 + Gap(n), 64, q + 2, 0); }
    if g < Gap(n) {
      Arith.DivMod(n + 9 + g, 64);
      if n % 64 < 56 { Arith.ModUnique(n + 9 + g, 64, (n + 9 + g) / 64, (n + 9 + g) % 64); }
    }
  }

  /** What the digest is defined to be. */
  function Sha1Of(s: seq<byte>): (r: seq<byte>)
    ensures |r| == 20
  {
    var v := Digest(Padded(s));
    BigEndian(v.a, 4) + BigEndian(v.b, 4) + BigEndian(v.c, 4) + BigEndian(v.d, 4) + BigEndian(v.e, 4)
  }

  lemma {:induction false} BigEndianInjective(x: nat, y: nat, k: nat)
    requires x < Pow2(8 * k) && y < Pow2(8 * k) && BigEndian(x, k) == BigEndian(y, k)
    ensures x == y
    decreases k
  {
    if k > 0 {
      SameEnds(BigEndian(x / 256, k - 1), x % 256, BigEndian(y / 256, k - 1), y % 256);
      ByteLess(x, k);
      ByteLess(y, k);
      BigEndianInjective(x / 256, y / 256, k - 1);
      Arith.DivMod(x, 256);
      Arith.DivMod(y, 256);
    }
  }

  lemma {:induction false} SameEnds(a: seq<byte>, x: byte, b: seq<byte>, y: byte)
    requires |a| == |b| && a + [x] == b + [y]
    ensures a == b && x == y
  {
    assert (a + [x])[..|a|] == a && (b + [y])[..|b|] == b;
    assert (a + [x])[|a|] == x && (b + [y])[|b|] == y;
  }

  /** The bytes of a number without the last. */
  lemma {:induction false} ByteLess(x: nat, k: nat)
    requires k > 0 && x < Pow2(8 * k)
    ensures x / 256 < Pow2(8 * (k - 1))
  {
    hide Pow2;
    Pow2Add(8, 8 * (k - 1));
    BytePowers();
  }

  /** Padding loses nothing: messages shorter than 2^64 bits stay apart. */
  lemma {:induction false} PaddedInjective(s: seq<byte>, t: seq<byte>)
    requires 8 * |s| < Pow2(64) && 8 * |t| < Pow2(64) && Padded(s) == Padded(t)
    ensures s == t
  {
    hide BigEndian;
    var p, q := Padded(s), Padded(t);
    assert p[|p| - 8..] == BigEndian(8 * |s|, 8) && q[|q| - 8..] == BigEndian(8 * |t|, 8);
    BigEndianInjective(8 * |s|, 8 * |t|, 8);
    assert p[..|s|] == s && q[..|t|] == t;
  }

  // ---- the circular schedule ----------------------------------------------------------------------

  function Oldest(t: nat): nat { if t < 16 then 0 else t - 16 }

  /** Sixteen words stand for the last sixteen of the schedule. */
  ghost predicate Circular(w: seq<word>, s: block, t: nat)
  {
    |w| == 16 && forall i :: Oldest(t) <= i < Oldest(t) + 16 ==> w[i % 16] == W(s, i)
  }

  lemma {:induction false} Slots(t: nat)
    requires t >= 16
    ensures (t % 16 + 13) % 16 == (t - 3) % 16 && (t % 16 + 8) % 16 == (t - 8) % 16
    ensures (t % 16 + 2) % 16 == (t - 14) % 16 && t % 16 == (t - 16) % 16
  {
    Arith.DivMod(t, 16);
    var r, q := t % 16, t / 16;
    Arith.ModShift(r + 13, 16, q - 1);
    Arith.ModShift(r + 8, 16, q - 1);
    Arith.ModShift(r + 2, 16, q - 1);
    Arith.ModShift(t, 16, -1);
  }

  lemma {:induction false} CircularNext(w: seq<word>, s: block, t: nat, x: word)
    requires t >= 16 && Circular(w, s, t) && x == W(s, t)
    ensures Circular(w[t % 16 := x], s, t + 1)
  {
    hide W;
    forall i | t - 15 <= i < t + 1 ensures w[t % 16 := x][i % 16] == W(s, i) {
      if i < t { Arith.DistinctSlots(i, t, 16); }
    }
  }

  lemma {:induction false} ScheduleStep(w: seq<word>, s: block, t: nat)
    requires t >= 16 && Circular(w, s, t)
    ensures W(s, t) == Rotate(1, Exor(Exor(Exor(w[(t % 16 + 13) % 16], w[(t % 16 + 8) % 16]), w[(t % 16 + 2) % 16]), w[t % 16]))
  {
    hide Rotate, Exor;
    Slots(t);
  }

  // ---- the context -------------------------------------------------------------------------------

  class Context {
    var h: Five
    const m: array<byte>
    /** Bits so far, a 64-bit number, and bytes in m, an unsigned char. */
    var c: nat
    var count: nat

    /** What the context holds: data went in, whole blocks were digested. */
    ghost predicate Holds(data: seq<byte>)
      reads this`h, this`count, m
    {
      m.Length == 64 && Tail(data, count) && m[..count] == data[|data| - count..] && h == Digest(data[..|data| - count])
    }

    /** sha1_init. */
    constructor ()
      ensures Holds([]) && c == 0 && fresh(m)
    {
      h := Start;
      m := new byte[64](i => 0);
      c, count := 0, 0;
    }

    /** Twenty rounds of sha1_step. */
    method TwentyRounds(ghost s: block, w: array<word>, from: nat, v: Five) returns (r: Five)
      requires w.Length == 16 && from % 20 == 0 && Circular(w[..], s, from)
      modifies w
      ensures Circular(w[..], s, from + 20)
      ensures forall u :: v == Rounds(u, s, from) ==> r == Rounds(u, s, from + 20)
    {
      hide Exor, Rotate, W, Round, Circular;
      var t := from;
      r := v;
      while t < from + 20
        invariant from <= t <= from + 20 && Circular(w[..], s, t)
        invariant forall u :: v == Rounds(u, s, from) ==> r == Rounds(u, s, t)
      {
        var i := t % 16;
        ghost var was := w[..];
        if t >= 16 {
          ScheduleStep(was, s, t);
          w[i] := Rotate(1, Exor(Exor(Exor(w[(i + 13) % 16], w[(i + 8) % 16]), w[(i + 2) % 16]), w[i]));
          CircularNext(was, s, t, w[i]);
          assert w[..] == was[i := w[i]];
        } else {
          CircularEarly(was, s, t);
        }
        r := Round(r, t, w[i]);
        t := t + 1;
      }
    }

    /** sha1_step. */
    method Step()
      requires m.Length == 64
      modifies this`h, m
      ensures h == Compress(old(h), old(m[..])) && m[..] == Zeros(64)
    {
      hide Round, W, Add, WordAt, Circular;
      ghost var s: block := m[..];
      ghost var u := h;
      assert Rounds(u, s, 0) == u;
      var w := new word[16](i requires 0 <= i < 16 reads this, m => WordAt(m[..], i));
      CircularStart(w[..], s);
      var v := TwentyRounds(s, w, 0, h);
      v := TwentyRounds(s, w, 20, v);
      v := TwentyRounds(s, w, 40, v);
      v := TwentyRounds(s, w, 60, v);
      h := Plus(h, v);
      forall i | 0 <= i < 64 { m[i] := 0; }
    }

    /** Holds(data), but with `more` written behind it and not yet counted. */
    ghost predicate Filled(data: seq<byte>, more: seq<byte>)
      reads this`h, this`count, m
    {
      m.Length == 64 && Tail(data, count) && count + |more| <= 64 && m[..count + |more|] == data[|data| - count..] + more
      && h == Digest(data[..|data| - count])
    }

    /** What follows every write into m: the bytes are counted and a full block is digested. */
    method Advance(n: nat, ghost data: seq<byte>, ghost more: seq<byte>)
      requires Filled(data, more) && n == |more| && count + n > 0
      modifies this`h, this`count, m
      ensures Holds(data + more)
    {
      hide Digest, Compress, Tail;
      TailFits(data, count);
      ghost var p := data[..|data| - count];
      Joined(data, more, count, m[..count + n]);
      TailGrows(data, more, count);
      count := (count + n) % 64;
      if count == 0 {
        assert m[..] == m[..64];
        Blocks(p, m[..]);
        Step();
      }
    }

    /** PUTPAD. */
    method Put(x: byte, ghost data: seq<byte>)
      requires Holds(data)
      modifies this`h, this`count, m
      ensures Holds(data + [x])
    {
      hide Digest, Compress;
      ghost var t := m[..count];
      m[count] := x;
      assert m[..count + 1] == t + [x];
      Advance(1, data, [x]);
    }

    /** Zero bytes up to the place `to`. */
    method Fill(to: nat, ghost data: seq<byte>)
      requires Holds(data) && count <= to <= 64 && to > 0
      modifies this`h, this`count, m
      ensures Holds(data + Zeros(to - old(count)))
    {
      hide Digest, Compress;
      ghost var t := m[..count];
      forall i | count <= i < to { m[i] := 0; }
      assert m[..to] == t + Zeros(to - count);
      Advance(to - count, data, Zeros(to - count));
    }

    /** One turn of the loop: as much as the block takes. */
    method Take(input: seq<byte>, off: nat, ghost data: seq<byte>) returns (size: nat)
      requires Holds(data) && off < |input|
      modifies this`h, this`count, m
      ensures 0 < size && off + size <= |input| && Holds(data + input[off..off + size])
    {
      hide Digest, Compress;
      var gap := 64 - count;
      size := if gap < |input| - off then gap else |input| - off;
      ghost var t := m[..count];
      ghost var more := input[off..off + size];
      forall i | 0 <= i < size { m[count + i] := input[off + i]; }
      assert m[..count + size] == t + more;
      Advance(size, data, more);
    }

    /** sha1_loop: however the message is cut, the context holds all that went in. */
    method Loop(input: seq<byte>, ghost data: seq<byte>)
      requires Holds(data) && c < 0x1_0000_0000_0000_0000
      modifies this`h, this`count, this`c, m
      ensures Holds(data + input) && c == (old(c) + 8 * |input|) % 0x1_0000_0000_0000_0000
    {
      hide Holds;
      var off := 0;
      assert data + input[..0] == data;
      while off < |input|
        invariant off <= |input| && Holds(data + input[..off])
        invariant c == (old(c) + 8 * off) % 0x1_0000_0000_0000_0000
      {
        var size := Take(input, off, data + input[..off]);
        assert data + input[..off] + input[off..off + size] == data + input[..off + size];
        AddMod(old(c) + 8 * off, 8 * size);
        c := (c + 8 * size) % 0x1_0000_0000_0000_0000;
        off := off + size;
      }
      assert input[..off] == input;
    }

    /** sha1_pad: what was put in is padded as the standard says. */
    method Pad(ghost data: seq<byte>)
      requires Holds(data) && c == 8 * |data| % 0x1_0000_0000_0000_0000
      modifies this`h, this`count, m
      ensures h == Digest(Padded(data)) && count == 0
    {
      hide Holds, Digest, BigEndian, Zeros;
      PadGap(data);
      var len := BigEndian(c, 8);
      LowBytes(8 * |data|);
      ghost var d := data + [0x80] + Zeros(Gap(|data|));
      var i := 0;
      assert d + len[..0] == d;
      while i < 8
        invariant 0 <= i <= 8 && Holds(d + len[..i])
      {
        Put(len[i], d + len[..i]);
        assert d + len[..i + 1] == d + len[..i] + [len[i]];
        i := i + 1;
      }
      assert len[..8] == len;
      WholeBlocks(Padded(data));
    }

    lemma {:induction false} WholeBlocks(data: seq<byte>)
      requires Holds(data) && |data| % 64 == 0
      ensures h == Digest(data) && count == 0
    {
      hide Digest;
      assert data[..|data|] == data;
    }

    lemma CountOf(data: seq<byte>)
      requires Holds(data)
      ensures count == |data| % 64
    {
    }

    /** The 1-bit, and zero bytes as far as the length; a second block where it does not fit. */
    method PadGap(ghost data: seq<byte>)
      requires Holds(data)
      modifies this`h, this`count, m
      ensures Holds(data + [0x80] + Zeros(Gap(|data|)))
    {
      hide Holds, Zeros, Gap;
      Put(0x80, data);
      ghost var d := data + [0x80];
      CountOf(d);
      Fits(|data|);
      if 64 - count < 8 {
        ghost var k := 64 - count;
        Fill(64, d);
        CountOf(d + Zeros(k));
        WholeNext(|d|, k);
        Fill(56, d + Zeros(k));
        assert d + Zeros(k) + Zeros(56) == d + Zeros(k + 56) by { ZerosTwice(k, 56); }
      } else {
        Fill(56, d);
      }
    }

    /** sha1_result. */
    method Result(ghost data: seq<byte>) returns (digest: seq<byte>)
      requires Holds(data) && c == 8 * |data| % 0x1_0000_0000_0000_0000
      modifies this`h, this`count, m
      ensures digest == Sha1Of(data)
    {
      hide Digest, BigEndian, Padded;
      Pad(data);
      digest := BigEndian(h.a, 4) + BigEndian(h.b, 4) + BigEndian(h.c, 4) + BigEndian(h.d, 4) + BigEndian(h.e, 4);
    }
  }

  /** SHA1. */
  method Sha1(d: seq<byte>) returns (md: seq<byte>)
    ensures md == Sha1Of(d)
  {
    hide Sha1Of;
    var ctxt := new Context();
    assert [] + d == d;
    ctxt.Loop(d, []);
    md := ctxt.Result(d);
  }

  lemma {:induction false} AddMod(x: nat, y: nat)
    ensures (x % 0x1_0000_0000_0000_0000 + y) % 0x1_0000_0000_0000_0000 == (x + y) % 0x1_0000_0000_0000_0000
  {
    Arith.DivMod(x, 0x1_0000_0000_0000_0000);
    Arith.ModShift(x % 0x1_0000_0000_0000_0000 + y, 0x1_0000_0000_0000_0000, x / 0x1_0000_0000_0000_0000);
  }

  /** The last count bytes of data do not fill a block. */
  predicate Tail(data: seq<byte>, count: nat)
  {
    count <= |data| && count == |data| % 64 && (|data| - count) % 64 == 0
  }

  lemma {:induction false} TailIs(data: seq<byte>)
    ensures Tail(data, |data| % 64)
  {
    Arith.DivMod(|data|, 64);
    Arith.ModUnique(|data| - |data| % 64, 64, |data| / 64, 0);
  }

  lemma {:induction false} TailFits(data: seq<byte>, count: nat)
    requires Tail(data, count)
    ensures count <= |data| && (|data| - count) % 64 == 0
  {
  }

  lemma {:induction false} Joined(data: seq<byte>, more: seq<byte>, count: nat, s: seq<byte>)
    requires count <= |data| && s == data[|data| - count..] + more
    ensures data + more == data[..|data| - count] + s && (data + more)[..|data + more|] == data + more
    ensures (data + more)[..|data + more| - |s|] == data[..|data| - count] && (data + more)[|data + more| - |s|..] == s
  {
    assert data == data[..|data| - count] + data[|data| - count..];
  }

  lemma {:induction false} TailGrows(data: seq<byte>, more: seq<byte>, count: nat)
    requires Tail(data, count) && count + |more| <= 64
    ensures Tail(data + more, (count + |more|) % 64)
    ensures (count + |more|) % 64 == if count + |more| == 64 then 0 else count + |more|
  {
    TailIs(data + more);
    Arith.DivMod(|data|, 64);
    Arith.ModShift(count + |more|, 64, |data| / 64);
  }

  /** A message of whole blocks and one more. */
  lemma {:induction false} Blocks(p: seq<byte>, s: block)
    requires |p| % 64 == 0
    ensures |p + s| % 64 == 0 && Digest(p + s) == Compress(Digest(p), s)
  {
    hide Compress;
    Arith.ModShift(|p|, 64, 1);
    assert (p + s)[..|p|] == p && (p + s)[|p|..] == s;
  }

  lemma {:induction false} WholeNext(n: nat, k: nat)
    requires k == 64 - n % 64
    ensures (n + k) % 64 == 0
  {
    Arith.DivMod(n, 64);
    Arith.ModUnique(n + k, 64, n / 64 + 1, 0);
  }

  lemma {:induction false} ZerosTwice(a: nat, b: nat)
    ensures Zeros(a) + Zeros(b) == Zeros(a + b)
  {
  }

  /** Where the 1-bit leaves the count, and what is missing up to the length. */
  lemma {:induction false} Fits(n: nat)
    ensures var k := (n + 1) % 64; Gap(n) == if 64 - k < 8 then 64 - k + 56 else 56 - k
  {
  }

  /** The eight bytes of the counter are those of the length in bits. */
  lemma {:induction false} LowBytes(x: nat)
    ensures BigEndian(x % 0x1_0000_0000_0000_0000, 8) == BigEndian(x, 8)
  {
    Arith.DivMod(x, 0x1_0000_0000_0000_0000);
    assert Pow2(64) == 0x1_0000_0000_0000_0000 by { BytePowers(); Pow2Add(32, 32); }
    LowerBytes(x % 0x1_0000_0000_0000_0000, x / 0x1_0000_0000_0000_0000, 8);
  }

  lemma {:induction false} LowerBytes(x: nat, q: nat, k: nat)
    ensures BigEndian(x + Pow2(8 * k) * q, k) == BigEndian(x, k)
    decreases k
  {
    if k > 0 {
      hide Pow2;
      var p := Pow2(8 * (k - 1));
      UnitsAbove(q, k);
      Arith.MulNonNeg(p, q);
      ByteAdded(x, p * q);
      LowerBytes(x / 256, q, k - 1);
    }
  }

  lemma {:induction false} UnitsAbove(q: nat, k: nat)
    requires k > 0
    ensures Pow2(8 * k) * q == 256 * (Pow2(8 * (k - 1)) * q)
  {
    hide Pow2;
    Pow2Add(8, 8 * (k - 1));
    BytePowers();
    var p := Pow2(8 * (k - 1));
    assert (256 * p) * q == 256 * (p * q);
  }

  lemma {:induction false} ByteAdded(x: nat, n: nat)
    ensures (x + 256 * n) / 256 == x / 256 + n && (x + 256 * n) % 256 == x % 256
  {
  }

  lemma {:induction false} CircularStart(w: seq<word>, s: block)
    requires |w| == 16 && forall i :: 0 <= i < 16 ==> w[i] == WordAt(s, i)
    ensures Circular(w, s, 0)
  {
    forall i | 0 <= i < 16 ensures w[i % 16] == W(s, i) { }
  }

  lemma {:induction false} CircularEarly(w: seq<word>, s: block, t: nat)
    requires t < 16 && Circular(w, s, t)
    ensures Circular(w, s, t + 1) && w[t % 16] == W(s, t)
  {
  }
}