/** A stream that inflateBack ends with Z_STREAM_END and the wrong bytes: a match reaches
    600 bytes back in a window of 512. */
module BeyondWindow {
  import opened Bits
  import opened BitReverse
  import opened BitInput
  import opened Canonical
  import opened SymbolSort
  import opened PrefixCode
  import opened InfTrees
  import opened InflateSpec
  import opened InflateStandard
  import opened BlockHeaders
  import opened InfBack
  import Lz77

  function Fill(b: byte, n: nat): (s: seq<byte>)
    ensures |s| == n && forall i :: 0 <= i < n ==> s[i] == b
  {
    seq(n, i => b)
  }

  /** What a stored block holds: 512 zeros, which the window forgets, and 200 ones. */
  function Data(): (s: seq<byte>)
    ensures |s| == 712
  {
    Fill(0, 512) + Fill(1, 200)
  }

  /** The header of that block, and a fixed block with a match of length 3 and distance 600,
      the end of the block, and some bytes that are not used. */
  const HEAD: seq<byte> := [0x00, 0xC8, 0x02, 0x37, 0xFD]
  const TAIL: seq<byte> := [0x03, 0xA6, 0x2B, 0, 0, 0, 0, 0, 0, 0, 0, 0]

  function Input(): (s: seq<byte>)
    ensures |s| == 729
  {
    HEAD + Data() + TAIL
  }

  ghost predicate Carries(z: Stream) { z.value == Number(Input()) && z.total == 8 * 729 }

  // ---- the stored block ------------------------------------------------------------------

  lemma {:induction false} TwoBytesOf(s: seq<byte>)
    requires |s| >= 2
    ensures var a: nat, b: nat := s[0], s[1]; Low(Number(s), 16) == a + 256 * b
  {
    hide Low;
    var a: nat, b: nat := s[0], s[1];
    BytePowers();
    assert Number(s) == s[0] + 256 * Number(s[1..]) && Number(s[1..]) == s[1] + 256 * Number(s[1..][1..]);
    var n := Number(s[1..][1..]);
    assert Number(s) == (a + 256 * b) + Pow2(16) * n;
    Assemble(a + 256 * b, n, 16);
  }

  lemma {:induction false} HeadBits(z: Stream)
    requires Carries(z)
    ensures Peek(z, 0, 1) == 0 && Peek(z, 1, 2) == 0 && Peek(z, 8, 16) == 712 && Peek(z, 24, 16) == 0xFD37
  {
    hide Low, Shr, Number;
    var s := Input();
    ByteAt(s, 0);
    assert Low(z.value, 8) == 0 by { assert Shr(z.value, 0) == z.value by { NumberFrom(s, 0); assert s[0..] == s; } }
    LowLow(z.value, 1, 8);
    ShrLow(z.value, 1, 8);
    LowLow(Shr(z.value, 1), 2, 7);
    Zero();
    NumberFrom(s, 0);
    assert s[0..] == s;
    NumberFrom(s, 1);
    TwoBytesOf(s[1..]);
    NumberFrom(s, 3);
    TwoBytesOf(s[3..]);
  }

  lemma {:induction false} Zero()
    ensures Low(0, 1) == 0 && Low(0, 2) == 0 && Shr(0, 1) == 0 && Low(0, 7) == 0
  {
  }

  lemma {:induction false} StoredIs(z: Stream)
    requires Carries(z)
    ensures Stored(z, 3, []) == Done(Data(), 8 * 717)
  {
    hide Low, Shr, Bytes, Number, Input, Data;
    HeadBits(z);
    BytesSame(z, StreamOf(Input(), z.window), 40, 712);
    BytesAre(Input(), z.window, 5, 712);
    assert Input()[5..5 + 712] == Data() by { Middle(); }
    assert [] + Data() == Data();
  }

  lemma {:induction false} Middle()
    ensures Input()[5..717] == Data() && Input()[717..] == TAIL
  {
  }

  // ---- the fixed block -------------------------------------------------------------------

  lemma {:induction false} TailNumber()
    ensures Number(TAIL) == 2860547
  {
    assert Number(TAIL[3..]) == 0 by { ZerosNumber(TAIL[3..]); }
    assert TAIL[1..][1..][1..] == TAIL[3..];
    assert Number(TAIL[1..][1..]) == 0x2B;
    assert Number(TAIL[1..]) == 0xA6 + 256 * 0x2B;
  }

  lemma {:induction false} ZerosNumber(s: seq<byte>)
    requires forall i :: 0 <= i < |s| ==> s[i] == 0
    ensures Number(s) == 0
    decreases |s|
  {
    if |s| > 0 { ZerosNumber(s[1..]); }
  }

  lemma {:induction false} TailBits(z: Stream)
    requires Carries(z)
    ensures From(z, 5736) == 2860547 && From(z, 5739) == 357568 && From(z, 5746) == 2793 && From(z, 5751) == 87
    ensures From(z, 5759) == 0
  {
    hide Number, Shr, Input;
    NumberFrom(Input(), 717);
    Middle();
    TailNumber();
    ShrAdd(z.value, 5736, 3);
    ShrAdd(z.value, 5739, 7);
    ShrAdd(z.value, 5746, 5);
    ShrAdd(z.value, 5751, 8);
    Shifts();
  }

  lemma {:induction false} Shifts()
    ensures Shr(2860547, 3) == 357568 && Shr(357568, 7) == 2793 && Shr(2793, 5) == 87 && Shr(87, 8) == 0
    ensures Low(2860547, 1) == 1 && Low(Shr(2860547, 1), 2) == 1
    ensures Low(357568, 7) == 64 && Low(2793, 5) == 9 && Low(87, 8) == 87 && Low(0, 7) == 0
  {
    assert Shr(2860547, 1) == 1430273 && Shr(1430273, 1) == 715136 && Shr(715136, 1) == 357568;
    assert Shr(357568, 4) == 22348 && Shr(22348, 3) == 2793;
    ShrAdd(357568, 4, 3);
    assert Shr(2793, 4) == 174 && Shr(174, 1) == 87;
    ShrAdd(2793, 4, 1);
    assert Shr(87, 4) == 5 && Shr(5, 4) == 0;
    ShrAdd(87, 4, 4);
    LowIsMod(357568, 7);
    LowIsMod(2793, 5);
    LowIsMod(87, 8);
    assert Pow2(5) == 32 && Pow2(7) == 128 && Pow2(8) == 256;
  }

  lemma {:induction false} FixedFirst()
    ensures RfcFirst(FixedLens(FIXED_LENGTHS), 7) == 0 && RfcFirst(Repeat(5, FIXED_DISTANCES), 5) == 0
  {
    hide Count, FixedLens, Repeat;
    NoShorter(FixedLens(FIXED_LENGTHS), 7) by {
      forall l | 1 <= l < 7 ensures Count(FixedLens(FIXED_LENGTHS), FIXED_LENGTHS, l) == 0 { CountFixed(FIXED_LENGTHS, l); }
    }
    NoShorter(Repeat(5, FIXED_DISTANCES), 5) by {
      forall l | 1 <= l < 5 ensures Count(Repeat(5, FIXED_DISTANCES), FIXED_DISTANCES, l) == 0 {
        CountRepeat(5, FIXED_DISTANCES, FIXED_DISTANCES, l);
      }
    }
  }

  lemma {:induction false} NoShorter(lens: seq<nat>, l: nat)
    requires forall m :: 1 <= m < l ==> Count(lens, |lens|, m) == 0
    ensures RfcFirst(lens, l) == 0
    decreases l
  {
    hide Count;
    if l > 1 { NoShorter(lens, l - 1); }
  }

  lemma {:induction false} FixedLengths()
    ensures var f := FixedLens(FIXED_LENGTHS); Lengths(f) && !OverSubscribed(f)
    ensures var f := Repeat(5, FIXED_DISTANCES); Lengths(f) && !OverSubscribed(f)
  {
    hide FixedLens, Repeat, KraftSum, Pow2;
    FixedLensComplete();
    FixedDistancesComplete();
  }

  /** Symbol s of a code is decoded where its code is. */
  lemma {:induction false} Decoded(lens: seq<nat>, s: nat, x: nat)
    requires Lengths(lens) && !OverSubscribed(lens) && s < |lens| && HasCode(lens, s, x)
    ensures DecodeSymbol(lens, x) == s
  {
    hide HasCode, OverSubscribed;
    var t := DecodeSymbol(lens, x);
    SymbolIsUnique(lens, s, t, x);
  }

  lemma {:induction false} Symbols()
    ensures DecodeSymbol(FixedLens(FIXED_LENGTHS), 357568) == 257 && DecodeSymbol(FixedLens(FIXED_LENGTHS), 0) == 256
    ensures DecodeSymbol(Repeat(5, FIXED_DISTANCES), 2793) == 18
  {
    hide FixedLens, Repeat, Low, Count, RfcFirst, OverSubscribed, Reverse;
    FixedLengths();
    FixedFirst();
    CountFixed(257, 7);
    CountFixed(256, 7);
    CountRepeat(5, FIXED_DISTANCES, 18, 5);
    Shifts();
    Reversals();
    Decoded(FixedLens(FIXED_LENGTHS), 257, 357568);
    Decoded(FixedLens(FIXED_LENGTHS), 256, 0);
    Decoded(Repeat(5, FIXED_DISTANCES), 18, 2793);
  }

  lemma {:induction false} Reversals()
    ensures Reverse(7, 1) == 64 && Reverse(7, 0) == 0 && Reverse(5, 18) == 9
  {
    ReverseNone(6);
    assert Pow2(3) == 8 && Pow2(4) == 16 && Pow2(6) == 64 by { assert Pow2(5) == 32; }
    hide Pow2;
    assert Reverse(3, 4) == 1;
    assert Reverse(4, 9) == 9;
  }

  lemma {:induction false} ReverseNone(l: nat)
    ensures Reverse(l, 0) == 0
    decreases l
  {
    if l > 0 { ReverseNone(l - 1); }
  }

  lemma {:induction false} FixedSteps(z: Stream, out: seq<byte>)
    requires Carries(z) && |out| >= 600
    ensures var ll, dl := FixedLens(FIXED_LENGTHS), Repeat(5, FIXED_DISTANCES);
      && CodeStep(z, ll, dl, 5739, out) == MatchStep(z, out, 600, 3, 5759)
      && CodeStep(z, ll, dl, 5759, out) == EndOfBlock(5766)
  {
    hide FixedLens, Repeat, CodeStep, MatchStep;
    MatchCode(z, out);
    EndCode(z, out);
  }

  lemma {:induction false} MatchCode(z: Stream, out: seq<byte>)
    requires Carries(z) && |out| >= 600
    ensures CodeStep(z, FixedLens(FIXED_LENGTHS), Repeat(5, FIXED_DISTANCES), 5739, out) == MatchStep(z, out, 600, 3, 5759)
  {
    hide FixedLens, Repeat, Low, Shr, DecodeSymbol, MatchStep, DistanceStep, LengthStep;
    TailBits(z);
    Symbols();
    MatchDistance(z, out);
    assert LengthStep(z, Repeat(5, FIXED_DISTANCES), 5746, out, 3, 0) == DistanceStep(z, Repeat(5, FIXED_DISTANCES), 5746, out, 3) by {
      NoExtra(z, out);
    }
  }

  /** The length code 257 has no extra bits. */
  lemma {:induction false} NoExtra(z: Stream, out: seq<byte>)
    requires Carries(z)
    ensures LengthStep(z, Repeat(5, FIXED_DISTANCES), 5746, out, 3, 0) == DistanceStep(z, Repeat(5, FIXED_DISTANCES), 5746, out, 3)
  {
    hide Repeat, Shr, DistanceStep;
    NoBits(From(z, 5746));
  }

  lemma {:induction false} MatchDistance(z: Stream, out: seq<byte>)
    requires Carries(z) && |out| >= 600
    ensures DistanceStep(z, Repeat(5, FIXED_DISTANCES), 5746, out, 3) == MatchStep(z, out, 600, 3, 5759)
  {
    hide Repeat, From, Peek, DecodeSymbol, MatchStep, FixedLens, Number;
    DistanceBits(z);
    Symbols();
    SymbolEighteen();
  }

  /** The distance code 18 is at bit 5746, and its eight extra bits behind it. */
  lemma {:induction false} DistanceBits(z: Stream)
    requires Carries(z)
    ensures From(z, 5746) == 2793 && Peek(z, 5751, 8) == 87
  {
    hide Low, Shr, Number;
    TailBits(z);
    Shifts();
  }

  lemma {:induction false} SymbolEighteen()
    ensures DistanceBase(18) == 513 && DistanceExtra(18) == 8
  {
  }

  lemma {:induction false} EndCode(z: Stream, out: seq<byte>)
    requires Carries(z)
    ensures CodeStep(z, FixedLens(FIXED_LENGTHS), Repeat(5, FIXED_DISTANCES), 5759, out) == EndOfBlock(5766)
  {
    hide FixedLens, Repeat, Low, Shr, DecodeSymbol, LengthStep;
    TailBits(z);
    Symbols();
  }

  lemma {:induction false} NoBits(x: nat)
    ensures Low(x, 0) == 0
  {
  }

  lemma {:induction false} Copies(d: nat, b: byte)
    requires (d == 88 && b == 1) || (d == 600 && b == 0)
    ensures Lz77.CopyBack(Data(), d, 3) == Data() + [b, b, b]
  {
    var o := Data();
    assert o[|o| - d] == b && o[|o| - d + 1] == b && o[|o| - d + 2] == b;
    hide Data;
    var o1 := o + [b];
    var o2 := o1 + [b];
    assert Lz77.CopyBack(o, d, 3) == Lz77.CopyBack(o1, d, 2) by { CopyOne(o, d, 3); }
    assert Lz77.CopyBack(o1, d, 2) == Lz77.CopyBack(o2, d, 1) by { CopyOne(o1, d, 2); }
    CopyOne(o2, d, 1);
    CopyNone(o2 + [b], d);
    assert o2 + [b] == o + [b, b, b];
  }

  // ---- what the stream comes to ----------------------------------------------------------

  lemma {:induction false} WholeIs(z: Stream, w: set<nat>)
    requires Carries(z)
    ensures Blocks(z, w, 0, []) == After(z, w, true, Codes(z, w, FixedLens(FIXED_LENGTHS), Repeat(5, FIXED_DISTANCES), 5739, Data()))
  {
    hide Codes, FixedLens, Repeat, Blocks, Data, Input, After;
    FirstIs(z, w);
    SecondIs(z, w);
  }

  lemma {:induction false} FirstIs(z: Stream, w: set<nat>)
    requires Carries(z)
    ensures Blocks(z, w, 0, []) == Blocks(z, w, 5736, Data())
  {
    hide Codes, Stored, FixedLens, Repeat, Peek, Blocks, Data, Input, Number;
    BlocksUnfold(z, w, 0, []);
    HeadBits(z);
    StoredIs(z);
  }

  lemma {:induction false} SecondIs(z: Stream, w: set<nat>)
    requires Carries(z)
    ensures Blocks(z, w, 5736, Data()) == After(z, w, true, Codes(z, w, FixedLens(FIXED_LENGTHS), Repeat(5, FIXED_DISTANCES), 5739, Data()))
  {
    hide Codes, Stored, FixedLens, Repeat, Low, Shr, Blocks, Data, Input, Number, After;
    BlocksUnfold(z, w, 5736, Data());
    TailBits(z);
    Shifts();
    ShrAdd(z.value, 5736, 1);
  }

  lemma {:induction false} BlockIs(z: Stream, w: set<nat>, out: seq<byte>)
    requires Carries(z) && |out| >= 600
    ensures Codes(z, w, FixedLens(FIXED_LENGTHS), Repeat(5, FIXED_DISTANCES), 5759, out) == Done(out, 5766)
  {
    hide FixedLens, Repeat, CodeStep;
    FixedSteps(z, out);
    CodesUnfold(z, w, FixedLens(FIXED_LENGTHS), Repeat(5, FIXED_DISTANCES), 5759, out);
  }

  /** The standard decoding copies zeros. */
  lemma {:induction false} StandardIs()
    ensures Standard(Input()) == Done(Data() + [0, 0, 0], 8 * 721)
  {
    hide FixedLens, Repeat, CodeStep, Codes, Blocks, Number, Lz77.CopyBack;
    var z := StandardStream(Input());
    WholeIs(z, {});
    FixedSteps(z, Data());
    CodesUnfold(z, {}, FixedLens(FIXED_LENGTHS), Repeat(5, FIXED_DISTANCES), 5739, Data());
    Copies(600, 0);
    BlockIs(z, {}, Data() + [0, 0, 0]);
  }

  /** With a window of 512 bytes the match is refused, or copies ones. */
  lemma {:induction false} WindowedIs(w: set<nat>)
    ensures Inflate(Input(), 512, w) == if 5759 in w then Done(Data() + [1, 1, 1], 8 * 721) else TooFar
  {
    hide FixedLens, Repeat, CodeStep, Codes, Blocks, Number, Lz77.CopyBack;
    var z := StreamOf(Input(), 512);
    WholeIs(z, w);
    FixedSteps(z, Data());
    CodesUnfold(z, w, FixedLens(FIXED_LENGTHS), Repeat(5, FIXED_DISTANCES), 5739, Data());
    Copies(88, 1);
    BlockIs(z, w, Data() + [1, 1, 1]);
  }

  // ---- what the decoder does --------------------------------------------------------------

  /** However the stream is handed over: if inflateBack says Z_STREAM_END, the output is wrong. */
  method AnyRun(s: Inflater, first: seq<byte>, chunks: seq<seq<byte>>) returns (r: Return)
    requires s.Valid() && s.wsize == 512 && first + Concat(chunks) == Input()
    modifies s, s.window, s.lens, s.work, s.codes, s.fixed
    ensures r == STREAM_END ==> Concat(s.sunk) == Data() + [1, 1, 1] && Standard(Input()) == Done(Data() + [0, 0, 0], 8 * 721)
    ensures Concat(s.sunk) == Data() + [1, 1, 1] ==> Concat(s.sunk) != Data() + [0, 0, 0]
  {
    hide Standard, Inflate, Concat;
    r := s.InflateBack(first, chunks);
    WindowedIs(s.taken);
    StandardIs();
    assert s.Consistent(s.taken);
    assert (Data() + [1, 1, 1])[712] != (Data() + [0, 0, 0])[712];
  }

  /** The decoder works on this stream, with a window of 512 bytes and all of the input at hand. */
  ghost predicate Working(s: Inflater)
    reads s
  {
    s.input == Input() && s.wsize == 512 && s.window.Length == 512 && s.later == [] && s.ArraysOk()
  }

  method FirstHeader(s: Inflater)
    requires Working(s) && s.InputOk() && s.OutOk() && s.bits == 0 && s.pos == 0 && s.out == []
    modifies s, s.lens, s.work, s.fixed
    ensures Working(s) && s.InputOk() && s.OutOk() && s.bits < 8 && s.P() == 3 && s.out == [] && s.mode == STORED
    ensures s.taken == old(s.taken) && s.refused == old(s.refused) && s.outFailed == old(s.outFailed)
  {
    hide Data, Input, Inflater.InputOk, Inflater.OutOk, Inflater.TablesOk, FixedLens, Repeat, Low, Shr, Number;
    ghost var z := s.Z();
    StreamIs(z);
    HeadBits(z);
    var ok := s.NextBlock();
  }

  /** The stored block. */
  method FirstBlock(s: Inflater) returns (ok: bool)
    requires Working(s) && s.InputOk() && s.OutOk() && s.bits == 0 && s.pos == 0 && s.out == []
    modifies s, s.window, s.lens, s.work, s.fixed
    ensures ok ==> Working(s) && s.InputOk() && s.OutOk() && s.bits == 0 && s.P() == 5736 && s.out == Data() && s.mode == TYPE
    ensures s.taken == old(s.taken) && s.refused == old(s.refused) && (ok ==> s.outFailed == old(s.outFailed)) && (!ok ==> s.outFailed)
  {
    hide Data, Input, Inflater.InputOk, Inflater.OutOk, Inflater.TablesOk, Stored, Peek, FixedLens, Repeat, Concat, Number;
    FirstHeader(s);
    StreamIs(s.Z());
    StoredIs(s.Z());
    ok := s.StoredMode();
  }

  /** The header of the fixed block. */
  method SecondHeader(s: Inflater)
    requires Working(s) && s.InputOk() && s.OutOk() && s.bits == 0 && s.P() == 5736 && s.out == Data()
    modifies s, s.lens, s.work, s.fixed
    ensures Working(s) && s.InputOk() && s.OutOk() && s.bits < 8 && s.P() == 5739 && s.out == Data()
    ensures s.mode == LEN && s.last && s.TablesOk() && s.ll == FixedLens(FIXED_LENGTHS) && s.dl == Repeat(5, FIXED_DISTANCES)
    ensures s.taken == old(s.taken) && s.refused == old(s.refused) && s.outFailed == old(s.outFailed)
  {
    hide Data, Input, Inflater.InputOk, Inflater.OutOk, Inflater.TablesOk, FixedLens, Repeat, Low, Shr;
    ghost var z := s.Z();
    StreamIs(z);
    TailBits(z);
    Shifts();
    ShrAdd(z.value, 5736, 1);
    var ok := s.NextBlock();
  }

  lemma {:induction false} Remaining(s: Inflater)
    requires Working(s) && s.InputOk()
    ensures |s.next| - s.at == 729 - s.pos && s.at <= |s.next|
  {
    hide Input;
    assert s.input[s.pos - s.at + |s.next|..] == [];
  }

  lemma {:induction false} LapIs(s: Inflater)
    requires Working(s) && s.OutOk() && s.left > 0 && 712 <= |s.out| < 1024
    ensures s.put == |s.out| - 512 && s.left == 1024 - |s.out| && s.whave == 512
  {
    s.OutBounds();
    s.PutIsRest();
  }

  lemma {:induction false} SomeLeft(s: Inflater)
    requires Working(s) && s.OutOk() && |s.out| == 712
    ensures s.left > 0
  {
  }

  lemma {:induction false} MatchPlan(z: Stream)
    requires z == StreamOf(Input(), 512)
    ensures CodeStep(z, FixedLens(FIXED_LENGTHS), Repeat(5, FIXED_DISTANCES), 5739, Data()) == Far(600, 3, 5759)
    ensures |Data()| == 712 && Lz77.CopyBack(Data(), 88, 3) == Data() + [1, 1, 1]
  {
    hide Input, FixedLens, Repeat, CodeStep, Lz77.CopyBack;
    StreamIs(z);
    FixedSteps(z, Data());
    Copies(88, 1);
  }

  /** One step of inflate_fast: the match is copied from 88 bytes back, whether `sane` is set or not. */
  method FastMatch(s: Inflater)
    requires Working(s) && s.InputOk() && s.OutOk() && s.bits < 8 && s.P() == 5739 && s.out == Data()
    requires s.mode == LEN && s.TablesOk() && s.ll == FixedLens(FIXED_LENGTHS) && s.dl == Repeat(5, FIXED_DISTANCES)
    modifies s.window, s`put, s`left, s`out, s`at, s`hold, s`bits, s`pos, s`mode, s`taken, s`refused, s`whave
    ensures Working(s) && s.InputOk() && s.OutOk() && s.bits <= 29 && s.P() == 5759 && s.mode == LEN
    ensures s.out == Data() + [1, 1, 1] && old(s.at) <= s.at && s.bits <= 7 + 8 * (s.at - old(s.at)) && s.left > 0
  {
    hide Data, Input, Inflater.InputOk, Inflater.OutOk, Inflater.TablesOk, FixedLens, Repeat, CodeStep, Lz77.CopyBack, Windowed;
    MatchPlan(s.Z());
    SomeLeft(s);
    s.NoteWritten();
    LapIs(s);
    Remaining(s);
    s.FastStep();
  }

  /** The next step meets the end of the block. */
  method FastEnd(s: Inflater)
    requires Working(s) && s.InputOk() && s.OutOk() && s.bits <= 29 && s.P() == 5759 && s.out == Data() + [1, 1, 1]
    requires s.mode == LEN && s.TablesOk() && s.ll == FixedLens(FIXED_LENGTHS) && s.dl == Repeat(5, FIXED_DISTANCES)
    requires s.bits <= 7 + 8 * s.at && s.left > 0
    modifies s.window, s`put, s`left, s`out, s`at, s`hold, s`bits, s`pos, s`mode, s`taken, s`refused
    ensures Working(s) && s.InputOk() && s.OutOk() && s.bits < 8 && s.P() == 5766 && s.mode == TYPE && s.out == Data() + [1, 1, 1]
  {
    hide Data, Input, Inflater.InputOk, Inflater.OutOk, Inflater.TablesOk, FixedLens, Repeat, CodeStep, Lz77.CopyBack, Windowed;
    StreamIs(s.Z());
    FixedSteps(s.Z(), Data() + [1, 1, 1]);
    LapIs(s);
    Remaining(s);
    s.FastStep();
    s.GiveBack();
  }

  /** The end of the last block, and of the run. */
  method Closing(s: Inflater) returns (r: Return)
    requires Working(s) && s.InputOk() && s.OutOk() && s.mode == TYPE && s.last && s.out == Data() + [1, 1, 1] && !s.outFailed
    modifies s
    ensures r == STREAM_END ==> s.mode == DONE && s.input == Input() && Concat(s.sunk) == Data() + [1, 1, 1]
    ensures r != STREAM_END ==> s.outFailed
  {
    hide Data, Input, Inflater.InputOk, Inflater.OutOk, Concat;
    s.ByteBits();
    s.mode := DONE;
    var ok := s.Finish();
    r := if ok then STREAM_END else BUF_ERROR;
  }

  method Opening(window: array<byte>) returns (s: Inflater)
    requires window.Length == 512
    ensures Working(s) && s.InputOk() && s.OutOk() && s.bits == 0 && s.pos == 0 && s.out == [] && !s.outFailed
    ensures fresh(s) && s.window == window && fresh(s.lens) && fresh(s.work) && fresh(s.codes) && fresh(s.fixed)
  {
    hide Data, Input, Inflater.InputOk, Inflater.OutOk, Inflater.TablesOk, Inflate, Concat;
    FixedWeights();
    s := new Inflater(9, window);
    s.Reset(Input(), []);
    NoChunks();
  }

  /** And it does say so: these are the turns of inflateBack for the stream in one piece,
      the fast decoder being used as soon as the match is reached. */
  method Reached(window: array<byte>) returns (s: Inflater, r: Return)
    requires window.Length == 512
    modifies window
    ensures r == STREAM_END ==> s.mode == DONE && s.input == Input() && Concat(s.sunk) == Data() + [1, 1, 1]
    ensures r != STREAM_END ==> s.outFailed
  {
    hide Data, Input, Inflater.InputOk, Inflater.OutOk, Inflater.TablesOk, Concat, FixedLens, Repeat;
    s := Opening(window);
    var ok := FirstBlock(s);
    if !ok { return s, BUF_ERROR; }
    SecondHeader(s);
    FastMatch(s);
    FastEnd(s);
    r := Closing(s);
  }

  lemma {:induction false} NoChunks()
    ensures Concat([]) == [] && Input() + [] == Input()
  {
  }

  lemma {:induction false} StreamIs(z: Stream)
    requires z == StreamOf(Input(), 512)
    ensures Carries(z)
  {
  }
}