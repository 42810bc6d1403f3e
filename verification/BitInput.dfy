/** The bit accumulator of the decoders: what is held is always a stretch of the
    stream, wherever the input buffers are split. */
module BitInput {
  import Arith
  import opened Bits
  import opened InflateSpec

  lemma {:induction false} LowSplit(x: nat, a: nat, b: nat)
    ensures Low(x, a + b) == Low(x, a) + Shl(Low(Shr(x, a), b), a)
    decreases a
  {
    if a > 0 {
      hide Shl;
      LowSplit(x / 2, a - 1, b);
      ShlTwice(Low(Shr(x, a), b), a);
    } else {
      assert Pow2(0) == 1;
    }
  }

  /** Dropping whole bytes of the number drops whole bytes of the input. */
  lemma {:induction false} NumberFrom(s: seq<byte>, i: nat)
    requires i <= |s|
    ensures Shr(Number(s), 8 * i) == Number(s[i..])
    decreases i
  {
    if i > 0 {
      hide Shr, Low, Pow2;
      NumberFrom(s[1..], i - 1);
      assert s[1..][i - 1..] == s[i..];
      BytePowers();
      Assemble(s[0], Number(s[1..]), 8);
      ShrAdd(Number(s), 8, 8 * (i - 1));
    } else {
      assert s[0..] == s;
    }
  }

  lemma {:induction false} ByteAt(s: seq<byte>, i: nat)
    requires i < |s|
    ensures Low(Shr(Number(s), 8 * i), 8) == s[i]
  {
    hide Shr, Low, Pow2;
    NumberFrom(s, i);
    BytePowers();
    Assemble(s[i], Number(s[i..][1..]), 8);
  }

  /** Bytes spelled bit by bit are the bytes of the input. */
  lemma {:induction false} BytesAre(input: seq<byte>, w: nat, i: nat, n: nat)
    requires i + n <= |input|
    ensures Bytes(StreamOf(input, w), 8 * i, n) == input[i..i + n]
    decreases n
  {
    if n > 0 {
      hide Shr, Low, Number;
      BytesAre(input, w, i, n - 1);
      ByteAt(input, i + n - 1);
      assert input[i..i + n] == input[i..i + n - 1] + [input[i + n - 1]];
    }
  }

  /** The next byte goes on top of the bits held. */
  lemma {:induction false} PullExtends(input: seq<byte>, w: nat, p: nat, bits: nat, pos: nat)
    requires p + bits == 8 * pos && pos < |input|
    ensures var x := From(StreamOf(input, w), p);
      Low(x, bits) + Shl(input[pos], bits) == Low(x, bits + 8)
  {
    hide Shr, Low, Number, Shl;
    LowSplit(Shr(Number(input), p), bits, 8);
    ShrAdd(Number(input), p, bits);
    ByteAt(input, pos);
  }

  /** The bits dropped are those at the front. */
  lemma {:induction false} DropShifts(z: Stream, p: nat, bits: nat, n: nat)
    requires n <= bits
    ensures Shr(Low(From(z, p), bits), n) == Low(From(z, p + n), bits - n)
    ensures Low(Low(From(z, p), bits), n) == Peek(z, p, n)
  {
    hide Shr, Low;
    ShrLow(From(z, p), n, bits);
    ShrAdd(z.value, p, n);
    LowLow(From(z, p), n, bits);
  }

  function Concat(chunks: seq<seq<byte>>): seq<byte>
  {
    if |chunks| == 0 then [] else chunks[0] + Concat(chunks[1..])
  }

  lemma {:induction false} ConcatSnoc(chunks: seq<seq<byte>>, c: seq<byte>)
    ensures Concat(chunks + [c]) == Concat(chunks) + c
    decreases |chunks|
  {
    if |chunks| > 0 {
      assert (chunks + [c])[1..] == chunks[1..] + [c];
      ConcatSnoc(chunks[1..], c);
      assert chunks[0] + (Concat(chunks[1..]) + c) == chunks[0] + Concat(chunks[1..]) + c;
    } else {
      assert (chunks + [c])[1..] == [];
      assert c + [] == c;
    }
  }
}
