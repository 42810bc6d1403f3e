/** The meaning of a deflate stream (section 3.2 of RFC 1951), over the positions
    of its bits.  The stream is one number whose lowest bit is the first bit. */
module InflateSpec {
  import opened Bits
  import opened PrefixCode
  import opened InfTrees
  import Lz77

  /** `limited` says that codes whose tables would be full are turned down. */
  datatype Stream = Stream(value: nat, total: nat, window: nat, limited: bool)

  /** The number whose base 256 digits are the bytes. */
  function Number(s: seq<byte>): nat
  {
    if |s| == 0 then 0 else s[0] + 256 * Number(s[1..])
  }

  /** The stream of an input, for a decoder with a window of the given size. */
  function StreamOf(input: seq<byte>, window: nat): Stream
  {
    Stream(Number(input), 8 * |input|, window, true)
  }

  const LARGEST_WINDOW: nat := 32768

  /** The stream as the standard has it: no distance is beyond the window. */
  function StandardStream(input: seq<byte>): Stream
  {
    Stream(Number(input), 8 * |input|, LARGEST_WINDOW, false)
  }

  /** Everything from bit p on. */
  function From(z: Stream, p: nat): nat { Shr(z.value, p) }

  /** The n bits at p as a number. */
  function Peek(z: Stream, p: nat, n: nat): nat { Low(Shr(z.value, p), n) }

  /** What decoding comes to: the output and where the stream ends, or why there is none:
      the stream breaks the rules or ends too early, a distance that is out of reach is
      refused, a match that was let through behind n bytes of output reaches where nothing
      defined is to be found, or a table would be full. */
  datatype Outcome = Done(out: seq<byte>, p: nat) | Invalid | Truncated | TooFar | Undefined(n: nat) | NoRoom

  /** One literal/length code with all that belongs to it; Far is a match, ending at p,
      whose distance reaches before the first output byte or beyond the window. */
  datatype Step = Emit(out: seq<byte>, p: nat) | EndOfBlock(p: nat) | Stop(why: Outcome) | Far(dist: nat, len: nat, p: nat)

  /** Base and extra bits of the length symbols and the distance symbols. */
  function LengthBase(s: nat): (b: nat)
    requires 257 <= s < 286
    ensures 3 <= b <= 258
  {
    LBASE[s - 257]
  }

  function LengthExtra(s: nat): (e: nat)
    requires 257 <= s < 286
    ensures e <= 5
  {
    LEXT[s - 257] - 16
  }

  function DistanceBase(d: nat): (b: nat)
    requires d < 30
    ensures b >= 1
  {
    DBASE[d]
  }

  function DistanceExtra(d: nat): (e: nat)
    requires d < 30
    ensures e <= 13
  {
    DEXT[d] - 16
  }

  function NoSymbol(z: Stream, p: nat): Step
  {
    Stop(if p + 1 > z.total then Truncated else Invalid)
  }

  /** Copying a match, if the output and the window reach back far enough. */
  function MatchStep(z: Stream, out: seq<byte>, dist: nat, len: nat, p: nat): (r: Step)
    requires dist >= 1
    ensures r.Emit? ==> r.p == p && |r.out| == |out| + len
    ensures r.Emit? || r == Far(dist, len, p)
  {
    if dist > |out| || dist > z.window then Far(dist, len, p) else Emit(Lz77.CopyBack(out, dist, len), p)
  }

  /** A distance beyond the window, behind n bytes of output, that is still in the part of
      the window that the current lap has overwritten: there it finds what is one window
      size less far back. */
  predicate Wraps(window: nat, n: nat, dist: nat)
  {
    0 < window < dist <= n && dist - window <= n % window
  }

  /** The distance of a match of length len, and the match. */
  function DistanceStep(z: Stream, dl: seq<nat>, p: nat, out: seq<byte>, len: nat): (r: Step)
    requires |dl| <= 32
    ensures r.Emit? ==> p < r.p <= z.total && |r.out| == |out| + len
    ensures r.Far? ==> p < r.p <= z.total && r.dist >= 1 && r.len == len
    ensures r.Far? ==> r.dist > |out| || r.dist > z.window
    ensures r.Stop? ==> r.why == Invalid || r.why == Truncated
    ensures !r.EndOfBlock?
  {
    var d := DecodeSymbol(dl, From(z, p));
    if d < 0 then NoSymbol(z, p)
    else if p + dl[d] > z.total then Stop(Truncated)
    else if d >= 30 then Stop(Invalid)
    else
      var q, e := p + dl[d], DistanceExtra(d);
      if q + e > z.total then Stop(Truncated)
      else
        MatchStep(z, out, DistanceBase(d) + Peek(z, q, e), len, q + e)
  }

  /** A match after its length code: extra bits and distance. */
  function LengthStep(z: Stream, dl: seq<nat>, p: nat, out: seq<byte>, base: nat, extra: nat): (r: Step)
    requires |dl| <= 32
    ensures r.Emit? || r.Far? ==> p < r.p <= z.total
    ensures r.Far? ==> r.dist >= 1 && (r.dist > |out| || r.dist > z.window)
    ensures r.Stop? ==> r.why == Invalid || r.why == Truncated
    ensures !r.EndOfBlock?
  {
    if p + extra > z.total then Stop(Truncated)
    else DistanceStep(z, dl, p + extra, out, base + Peek(z, p, extra))
  }

  /** The next literal, match or end of block. */
  function CodeStep(z: Stream, ll: seq<nat>, dl: seq<nat>, p: nat, out: seq<byte>): (r: Step)
    requires |ll| <= 288 && |dl| <= 32
    ensures r.Emit? || r.Far? || r.EndOfBlock? ==> p < r.p <= z.total
    ensures r.Far? ==> r.dist >= 1 && (r.dist > |out| || r.dist > z.window)
    ensures r.Stop? ==> r.why == Invalid || r.why == Truncated
  {
    var s := DecodeSymbol(ll, From(z, p));
    if s < 0 then NoSymbol(z, p)
    else if p + ll[s] > z.total then Stop(Truncated)
    else if s < 256 then Emit(out + [s], p + ll[s])
    else if s == 256 then EndOfBlock(p + ll[s])
    else if s >= 286 then Stop(Invalid)
    else
      LengthStep(z, dl, p + ll[s], out, LengthBase(s), LengthExtra(s))
  }

  /** The compressed data of a block, up to its end code.  `wraps` are the ends of the
      matches out of reach that are not refused. */
  function Codes(z: Stream, wraps: set<nat>, ll: seq<nat>, dl: seq<nat>, p: nat, out: seq<byte>): (o: Outcome)
    requires |ll| <= 288 && |dl| <= 32
    ensures o.Done? ==> p < o.p <= z.total
    decreases z.total - p
  {
    match CodeStep(z, ll, dl, p, out)
    case Emit(out', q) => Codes(z, wraps, ll, dl, q, out')
    case EndOfBlock(q) => Done(out, q)
    case Stop(why) => why
    case Far(dist, len, q) =>
      if q !in wraps then TooFar
      else if Wraps(z.window, |out|, dist) then Codes(z, wraps, ll, dl, q, Lz77.CopyBack(out, dist - z.window, len))
      else Undefined(|out|)
  }

  // ---- stored blocks -----------------------------------------------------------------

  /** The first byte boundary at or after p. */
  function Align(p: nat): (q: nat)
    ensures p <= q < p + 8
  {
    p + (8 - p % 8) % 8
  }

  /** n bytes from bit p on. */
  function Bytes(z: Stream, p: nat, n: nat): (s: seq<byte>)
    ensures |s| == n
  {
    if n == 0 then []
    else
      var b := Peek(z, p + 8 * (n - 1), 8);
      LowBound(From(z, p + 8 * (n - 1)), 8);
      BytePowers();
      Bytes(z, p, n - 1) + [b]
  }

  /** n uncompressed bytes. */
  function Uncompressed(z: Stream, p: nat, n: nat, out: seq<byte>): Outcome
  {
    if p + 8 * n > z.total then Truncated else Done(out + Bytes(z, p, n), p + 8 * n)
  }

  function Stored(z: Stream, p: nat, out: seq<byte>): (o: Outcome)
    ensures if o.Done? then p < o.p <= z.total else o == Invalid || o == Truncated
  {
    var q := Align(p);
    if q + 32 > z.total then Truncated
    else if Peek(z, q, 16) + Peek(z, q + 16, 16) != 0xffff then Invalid
    else Uncompressed(z, q + 32, Peek(z, q, 16), out)
  }

  // ---- dynamic blocks ----------------------------------------------------------------

  const ORDER: seq<nat> := [16, 17, 18, 0, 8, 7, 9, 6, 10, 5, 11, 4, 12, 3, 13, 2, 14, 1, 15]

  function Zeros(n: nat): (s: seq<nat>)
    ensures |s| == n && forall i :: 0 <= i < n ==> s[i] == 0
  {
    if n == 0 then [] else Zeros(n - 1) + [0]
  }

  /** The first n code length code lengths, three bits each, in their peculiar order. */
  function LengthCodeLengths(z: Stream, p: nat, n: nat): (s: seq<nat>)
    requires n <= 19
    ensures |s| == 19 && forall i :: 0 <= i < 19 ==> s[i] <= 7
  {
    if n == 0 then Zeros(19)
    else
      var l := Peek(z, p + 3 * (n - 1), 3);
      LowBound(From(z, p + 3 * (n - 1)), 3);
      assert Pow2(3) == 8;
      LengthCodeLengths(z, p, n - 1)[ORDER[n - 1] := l]
  }

  function Repeat(l: nat, n: nat): (s: seq<nat>)
    ensures |s| == n && forall i :: 0 <= i < n ==> s[i] == l
  {
    if n == 0 then [] else Repeat(l, n - 1) + [l]
  }

  /** The code lengths that follow, or why they cannot be read. */
  datatype Lens = Lens(lens: seq<nat>, p: nat) | NoLens(why: Outcome)

  ghost predicate Small(lens: seq<nat>) { forall i :: 0 <= i < |lens| ==> lens[i] <= 15 }

  /** Repeating l n more times. */
  function RepeatLens(got: seq<nat>, total: nat, l: nat, n: nat, p: nat): (r: Lens)
    ensures r.Lens? ==> r.lens == got + Repeat(l, n) && r.p == p && |r.lens| <= total
    ensures r.NoLens? ==> r.why == Invalid || r.why == Truncated
  {
    if |got| + n > total then NoLens(Invalid) else Lens(got + Repeat(l, n), p)
  }

  /** What symbol s, its code ending at q, stands for: a length, or a repetition. */
  function LensFrom(z: Stream, total: nat, s: nat, q: nat, got: seq<nat>): (r: Lens)
    requires |got| < total && Small(got)
    ensures r.Lens? ==> q <= r.p <= z.total && |got| < |r.lens| <= total && Small(r.lens)
    ensures r.NoLens? ==> r.why == Invalid || r.why == Truncated
  {
    if s < 16 then
      if q > z.total then NoLens(Truncated) else Lens(got + [s], q)
    else if s == 16 then
      if q + 2 > z.total then NoLens(Truncated)
      else if |got| == 0 then NoLens(Invalid)
      else RepeatLens(got, total, got[|got| - 1], 3 + Peek(z, q, 2), q + 2)
    else if s == 17 then
      if q + 3 > z.total then NoLens(Truncated) else RepeatLens(got, total, 0, 3 + Peek(z, q, 3), q + 3)
    else
      if q + 7 > z.total then NoLens(Truncated) else RepeatLens(got, total, 0, 11 + Peek(z, q, 7), q + 7)
  }

  /** One code length symbol. */
  function LensStep(z: Stream, cl: seq<nat>, total: nat, p: nat, got: seq<nat>): (r: Lens)
    requires |cl| <= 19 && |got| < total && Small(got)
    ensures r.Lens? ==> p < r.p <= z.total && |got| < |r.lens| <= total && Small(r.lens)
    ensures r.NoLens? ==> r.why == Invalid || r.why == Truncated
  {
    var s := DecodeSymbol(cl, From(z, p));
    if s < 0 then NoLens(Invalid) else LensFrom(z, total, s, p + cl[s], got)
  }

  function ReadLens(z: Stream, cl: seq<nat>, total: nat, p: nat, got: seq<nat>): (r: Lens)
    requires |cl| <= 19 && |got| <= total && Small(got)
    ensures r.Lens? ==> p <= r.p && |r.lens| == total && Small(r.lens)
    ensures r.NoLens? ==> r.why == Invalid || r.why == Truncated
    decreases total - |got|
  {
    if |got| == total then Lens(got, p)
    else
      match LensStep(z, cl, total, p, got)
      case NoLens(why) => NoLens(why)
      case Lens(got', q) => ReadLens(z, cl, total, q, got')
  }

  /** The two codes of a dynamic block and where its data start, or why there are none. */
  datatype Header = Header(ll: seq<nat>, dl: seq<nat>, p: nat) | NoHeader(why: Outcome)

  ghost predicate GoodHeader(z: Stream, h: Header, p: nat)
  {
    match h
    case Header(ll, dl, q) => |ll| <= 288 && |dl| <= 32 && p < q
    case NoHeader(why) => why == Invalid || why == Truncated
  }

  /** The two codes that the lengths describe. */
  ghost function Coded(lens: seq<nat>, nlen: nat, p: nat): Header
    requires 257 <= nlen <= |lens|
  {
    if lens[256] == 0 || Refused(LENS, lens[..nlen]) || Refused(DISTS, lens[nlen..]) then NoHeader(Invalid)
    else Header(lens[..nlen], lens[nlen..], p)
  }

  ghost function LensOutcome(r: Lens, nlen: nat): Header
    requires r.Lens? ==> 257 <= nlen <= |r.lens|
  {
    match r
    case NoLens(why) => NoHeader(why)
    case Lens(lens, q) => Coded(lens, nlen, q)
  }

  /** A dynamic block after its three counts. */
  ghost function DynamicBody(z: Stream, nlen: nat, ndist: nat, ncode: nat, p: nat): (h: Header)
    requires 257 <= nlen && 4 <= ncode <= 19
    ensures GoodHeader(z, h, p)
  {
    if nlen > 286 || ndist > 30 then NoHeader(Invalid)
    else if p + 3 * ncode > z.total then NoHeader(Truncated)
    else
      var cl := LengthCodeLengths(z, p, ncode);
      if Refused(CODES, cl) then NoHeader(Invalid)
      else
        LensOutcome(ReadLens(z, cl, nlen + ndist, p + 3 * ncode, []), nlen)
  }

  ghost function DynamicHeader(z: Stream, p: nat): (h: Header)
    ensures GoodHeader(z, h, p)
  {
    if p + 14 > z.total then NoHeader(Truncated)
    else
      LowBound(From(z, p + 10), 4);
      assert Pow2(4) == 16;
      var ncode := Peek(z, p + 10, 4) + 4;
      DynamicBody(z, Peek(z, p, 5) + 257, Peek(z, p + 5, 5) + 1, ncode, p + 14)
  }

  /** The tables of the two codes would take all the entries provided for them. */
  ghost predicate Full(ll: seq<nat>, dl: seq<nat>)
  {
    Crowded(LENS, ll, 9) || Crowded(DISTS, dl, 6)
  }

  ghost function Dynamic(z: Stream, wraps: set<nat>, p: nat, out: seq<byte>): (o: Outcome)
    ensures o.Done? ==> p < o.p <= z.total
  {
    match DynamicHeader(z, p)
    case NoHeader(why) => why
    case Header(ll, dl, q) => if z.limited && Full(ll, dl) then NoRoom else Codes(z, wraps, ll, dl, q, out)
  }

  // ---- blocks ------------------------------------------------------------------------

  /** The fixed literal/length code lengths of section 3.2.6. */
  function FixedLens(n: nat): (s: seq<nat>)
    ensures |s| == n
    ensures forall i :: 0 <= i < n ==> s[i] == FixedLen(i)
  {
    if n == 0 then [] else FixedLens(n - 1) + [FixedLen(n - 1)]
  }

  function FixedLen(s: nat): nat
  {
    if s < 144 then 8 else if s < 256 then 9 else if s < 280 then 7 else 8
  }

  const FIXED_LENGTHS: nat := 288
  const FIXED_DISTANCES: nat := 32

  /** A block of type t, its data at p. */
  ghost function BlockOfType(z: Stream, wraps: set<nat>, t: nat, p: nat, out: seq<byte>): (o: Outcome)
    ensures o.Done? ==> p < o.p <= z.total
  {
    match t
    case 0 => Stored(z, p, out)
    case 1 => Codes(z, wraps, FixedLens(FIXED_LENGTHS), Repeat(5, FIXED_DISTANCES), p, out)
    case 2 => Dynamic(z, wraps, p, out)
    case _ => Invalid
  }

  /** All blocks from bit p on, after `out`; the result position is where the byte
      after the last block starts. */
  ghost function Blocks(z: Stream, wraps: set<nat>, p: nat, out: seq<byte>): Outcome
    decreases z.total - p
  {
    if p + 3 > z.total then Truncated
    else
      match BlockOfType(z, wraps, Peek(z, p + 1, 2), p + 3, out)
      case Done(out', q) => if Peek(z, p, 1) == 1 then Done(out', Align(q)) else Blocks(z, wraps, q, out')
      case why => why
  }

  /** The decoding of a whole input with a window of the given size. */
  ghost function Inflate(input: seq<byte>, window: nat, wraps: set<nat>): Outcome
  {
    Blocks(StreamOf(input, window), wraps, 0, [])
  }

  /** The section 3.2.3 decoding of a whole input. */
  ghost function Standard(input: seq<byte>): Outcome
  {
    Blocks(StandardStream(input), {}, 0, [])
  }
}
