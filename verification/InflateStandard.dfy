/** When the decoding with a window is the decoding of the standard. */
module InflateStandard {
  import opened Bits
  import opened PrefixCode
  import opened InfTrees
  import opened InflateSpec
  import Lz77

  /** The same bits, for a decoder with a larger window or without limits. */
  ghost predicate SameBits(z: Stream, y: Stream)
  {
    z.value == y.value && z.total == y.total && z.window <= y.window
  }

  lemma {:induction false} StepSame(z: Stream, y: Stream, ll: seq<nat>, dl: seq<nat>, p: nat, out: seq<byte>)
    requires |ll| <= 288 && |dl| <= 32 && SameBits(z, y)
    ensures CodeStep(z, ll, dl, p, out).Far? || CodeStep(z, ll, dl, p, out) == CodeStep(y, ll, dl, p, out)
  {
    hide DecodeSymbol, Shr, Low, Lz77.CopyBack, LengthBase, LengthExtra, DistanceBase, DistanceExtra;
  }

  lemma {:induction false} CodesSame(z: Stream, y: Stream, ll: seq<nat>, dl: seq<nat>, p: nat, out: seq<byte>)
    requires |ll| <= 288 && |dl| <= 32 && SameBits(z, y)
    ensures !Codes(z, {}, ll, dl, p, out).Undefined?
    ensures Codes(z, {}, ll, dl, p, out) != TooFar ==> Codes(y, {}, ll, dl, p, out) == Codes(z, {}, ll, dl, p, out)
    decreases z.total - p
  {
    hide CodeStep, Lz77.CopyBack;
    StepSame(z, y, ll, dl, p, out);
    var step := CodeStep(z, ll, dl, p, out);
    if step.Emit? { CodesSame(z, y, ll, dl, step.p, step.out); }
  }

  /** Which matches are let through does not matter where none is out of reach. */
  lemma {:induction false} CodesFree(z: Stream, w: set<nat>, ll: seq<nat>, dl: seq<nat>, p: nat, out: seq<byte>)
    requires |ll| <= 288 && |dl| <= 32
    ensures Codes(z, {}, ll, dl, p, out) != TooFar ==> Codes(z, w, ll, dl, p, out) == Codes(z, {}, ll, dl, p, out)
    decreases z.total - p
  {
    hide CodeStep, Lz77.CopyBack;
    var step := CodeStep(z, ll, dl, p, out);
    if step.Emit? { CodesFree(z, w, ll, dl, step.p, step.out); }
  }

  lemma {:induction false} BytesSame(z: Stream, y: Stream, p: nat, n: nat)
    requires SameBits(z, y)
    ensures Bytes(z, p, n) == Bytes(y, p, n)
    decreases n
  {
    hide Low, Shr;
    if n > 0 { BytesSame(z, y, p, n - 1); }
  }

  lemma {:induction false} StoredSame(z: Stream, y: Stream, p: nat, out: seq<byte>)
    requires SameBits(z, y)
    ensures Stored(z, p, out) == Stored(y, p, out)
  {
    hide Low, Shr, Bytes;
    var q := Align(p);
    BytesSame(z, y, q + 32, Peek(z, q, 16));
  }

  lemma {:induction false} LengthCodeLengthsSame(z: Stream, y: Stream, p: nat, n: nat)
    requires SameBits(z, y) && n <= 19
    ensures LengthCodeLengths(z, p, n) == LengthCodeLengths(y, p, n)
    decreases n
  {
    hide Low, Shr;
    if n > 0 { LengthCodeLengthsSame(z, y, p, n - 1); }
  }

  lemma {:induction false} LensStepSame(z: Stream, y: Stream, cl: seq<nat>, total: nat, p: nat, got: seq<nat>)
    requires SameBits(z, y) && |cl| <= 19 && |got| < total && Small(got)
    ensures LensStep(z, cl, total, p, got) == LensStep(y, cl, total, p, got)
  {
    hide DecodeSymbol, Low, Shr, Repeat;
  }

  lemma {:induction false} ReadLensSame(z: Stream, y: Stream, cl: seq<nat>, total: nat, p: nat, got: seq<nat>)
    requires SameBits(z, y) && |cl| <= 19 && |got| <= total && Small(got)
    ensures ReadLens(z, cl, total, p, got) == ReadLens(y, cl, total, p, got)
    decreases total - |got|
  {
    hide LensStep;
    if |got| < total {
      LensStepSame(z, y, cl, total, p, got);
      var r := LensStep(z, cl, total, p, got);
      if r.Lens? { ReadLensSame(z, y, cl, total, r.p, r.lens); }
    }
  }

  lemma {:induction false} HeaderSame(z: Stream, y: Stream, p: nat)
    requires SameBits(z, y)
    ensures DynamicHeader(z, p) == DynamicHeader(y, p)
  {
    hide Low, Shr, Refused, ReadLens, LengthCodeLengths, LensOutcome;
    if p + 14 <= z.total {
      assert From(z, p + 10) == From(y, p + 10);
      LowBound(From(z, p + 10), 4);
      assert Pow2(4) == 16;
      BodySame(z, y, Peek(z, p, 5) + 257, Peek(z, p + 5, 5) + 1, Peek(z, p + 10, 4) + 4, p + 14);
    }
  }

  lemma {:induction false} BodySame(z: Stream, y: Stream, nlen: nat, ndist: nat, ncode: nat, p: nat)
    requires SameBits(z, y) && 257 <= nlen && 4 <= ncode <= 19
    ensures DynamicBody(z, nlen, ndist, ncode, p) == DynamicBody(y, nlen, ndist, ncode, p)
  {
    hide Refused, ReadLens, LengthCodeLengths, LensOutcome;
    LengthCodeLengthsSame(z, y, p, ncode);
    assert Small([]);
    ReadLensSame(z, y, LengthCodeLengths(z, p, ncode), nlen + ndist, p + 3 * ncode, []);
  }

  lemma {:induction false} BlockSame(z: Stream, y: Stream, t: nat, p: nat, out: seq<byte>)
    requires SameBits(z, y) && !y.limited
    ensures !BlockOfType(z, {}, t, p, out).Undefined?
    ensures var o := BlockOfType(z, {}, t, p, out); o == TooFar || o == NoRoom || o == BlockOfType(y, {}, t, p, out)
  {
    hide Codes, Stored, DynamicHeader, FixedLens, Repeat, Full;
    StoredSame(z, y, p, out);
    CodesSame(z, y, FixedLens(FIXED_LENGTHS), Repeat(5, FIXED_DISTANCES), p, out);
    HeaderSame(z, y, p);
    var h := DynamicHeader(z, p);
    if h.Header? { CodesSame(z, y, h.ll, h.dl, h.p, out); }
  }

  lemma {:induction false} BlockFree(z: Stream, w: set<nat>, t: nat, p: nat, out: seq<byte>)
    ensures BlockOfType(z, {}, t, p, out) != TooFar ==> BlockOfType(z, w, t, p, out) == BlockOfType(z, {}, t, p, out)
  {
    hide Codes, Stored, DynamicHeader, FixedLens, Repeat, Full;
    CodesFree(z, w, FixedLens(FIXED_LENGTHS), Repeat(5, FIXED_DISTANCES), p, out);
    var h := DynamicHeader(z, p);
    if h.Header? { CodesFree(z, w, h.ll, h.dl, h.p, out); }
  }

  lemma {:induction false} BlocksSame(z: Stream, y: Stream, p: nat, out: seq<byte>)
    requires SameBits(z, y) && !y.limited
    ensures !Blocks(z, {}, p, out).Undefined?
    ensures var o := Blocks(z, {}, p, out); o == TooFar || o == NoRoom || o == Blocks(y, {}, p, out)
    decreases z.total - p
  {
    hide BlockOfType, Low, Shr, Align;
    if p + 3 <= z.total {
      BlockSame(z, y, Peek(z, p + 1, 2), p + 3, out);
      var o := BlockOfType(z, {}, Peek(z, p + 1, 2), p + 3, out);
      if o.Done? { BlocksSame(z, y, o.p, o.out); }
    }
  }

  lemma {:induction false} BlocksFree(z: Stream, w: set<nat>, p: nat, out: seq<byte>)
    ensures Blocks(z, {}, p, out) != TooFar ==> Blocks(z, w, p, out) == Blocks(z, {}, p, out)
    decreases z.total - p
  {
    hide BlockOfType, Low, Shr, Align;
    if p + 3 <= z.total {
      BlockFree(z, w, Peek(z, p + 1, 2), p + 3, out);
      var o := BlockOfType(z, {}, Peek(z, p + 1, 2), p + 3, out);
      if o.Done? { BlocksFree(z, w, o.p, o.out); }
    }
  }

  /** The decoder with a window decodes as the standard says, unless a distance is out of
      reach or a table would be full. */
  lemma {:induction false} StandardOrNot(input: seq<byte>, window: nat)
    requires window <= LARGEST_WINDOW
    ensures var o := Inflate(input, window, {});
      !o.Undefined? && (o == TooFar || o == NoRoom || o == Standard(input))
  {
    hide Blocks, Number;
    BlocksSame(StreamOf(input, window), StandardStream(input), 0, []);
  }

  /** Without a distance out of reach it does not matter which would be let through. */
  lemma {:induction false} NoneBeyond(input: seq<byte>, window: nat, w: set<nat>)
    ensures Inflate(input, window, {}) != TooFar ==> Inflate(input, window, w) == Inflate(input, window, {})
  {
    hide Blocks, Number;
    BlocksFree(StreamOf(input, window), w, 0, []);
  }
}
