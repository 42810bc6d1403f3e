/** A run of deflate after which a match comparison can look at a byte that was never written. */
module WindowRun {
  import opened Bits
  import opened RollingHash
  import opened WindowExtent
  import opened Deflate

  /** Two calls of deflate with a window of 512 bytes: 762 bytes, and one more.  The last fill
      of the first call finds no input but slides, and copies bytes down that were never
      written; the one byte of the second call leaves byte 508 in reach.  Only if the space for
      output runs out, the calls may not get that far. */
  method Unwritten(memLevel: Level, level: CompressionLevel, strategy: Strategy, first: seq<byte>, second: seq<byte>)
    returns (s: DeflateState, r1: CallResult, r2: CallResult)
    requires |first| == 762 && |second| == 1
    ensures s.wSize == 512 && s.text + s.nextIn == first + second
    ensures r1 == Ran(BlockDone) || r1 == Ran(NeedMore)
    ensures r2 == Ran(BlockDone) || r2 == Ran(NeedMore)
    ensures r1 == r2 == Ran(BlockDone) ==>
      s.End() == 251 && 508 !in s.ext.written && !Clean(s.ext, s.wSize, s.End(), WIN_INIT)
  {
    hide DeflateState.Valid, DeflateState.TracedAt, DeflateState.Drained, Clean, Fits, Settled, Rank;
    NineBits();
    s := new DeflateState(9, memLevel, level, strategy);
    FirstSettles();
    assert s.text + s.nextIn == [] && [] + first == first;
    r1 := s.Deflate(first, SyncFlush, Held);
    assert s.text + s.nextIn == first;
    SecondSettles();
    r2 := s.Deflate(second, SyncFlush, Held);
    if r1 == r2 == Ran(BlockDone) { Gap(s); }
  }

  /** The first call reads everything, zeroes 258 bytes behind it, and slides. */
  lemma {:induction false} FirstSettles()
    ensures Fits(Span(0, 762, 0, 512), 512) && Settled(Span(0, 762, 0, 512), 512) == Span(250, 0, 1020, 508)
  {
  }

  /** In the second call nothing is zeroed, because high_water has not moved. */
  lemma {:induction false} SecondSettles()
    ensures Fits(Span(250, 1, 1020, 508), 512) && Settled(Span(250, 1, 1020, 508), 512) == Span(251, 0, 1020, 508)
  {
  }

  lemma {:induction false} Gap(s: DeflateState)
    requires s.wSize == 512 && s.TracedAt(s.End()) && s.Spanned() == Span(251, 0, 1020, 508)
    ensures 508 !in s.ext.written && !Clean(s.ext, s.wSize, s.End(), WIN_INIT)
  {
    CleanIff(s.ext, 512, s.highWater, s.End(), WIN_INIT);
  }

  lemma {:induction false} NineBits()
    ensures Pow2(9) == 512
  {
    assert Pow2(5) == 32;
    Pow2Add(5, 4);
  }
}
