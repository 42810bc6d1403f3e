/** deflate.c: the sliding window, the match finder and the three compression
    loops that tally tokens.  `text` is everything read so far; index i of the
    window stands for text[base + i]. */
module Deflate {
  import opened WindowExtent
  import opened Bits
  import opened RollingHash
  import opened Lz77
  import opened HashChains

  const MIN_LOOKAHEAD: nat := MAX_MATCH + MIN_MATCH + 1
  const WIN_INIT: nat := MAX_MATCH
  const TOO_FAR: nat := 4096

  /** Where the data end in the window, how much input waits, high_water, and where the
      unwritten bytes below the middle begin. */
  datatype Span = Span(end: int, left: int, high: int, hole: int)

  /** A strstart from here on makes fill_window slide. */
  function Top(wSize: nat): int { 2 * wSize - MIN_LOOKAHEAD }

  /** The slide of a fill, with strstart at s. */
  function SlidSpan(a: Span, s: int, wSize: nat): Span
  {
    if s >= Top(wSize) then Span(a.end - wSize, a.left, a.high, a.high - wSize) else a
  }

  /** As much input as there is and fits is read. */
  function ReadSpan(a: Span, wSize: nat): Span
  {
    var end := Min(a.end + a.left, 2 * wSize);
    Span(end, a.end + a.left - end, a.high, Max(a.hole, end))
  }

  function TakenSpan(a: Span, s: int, wSize: nat): Span
  {
    if a.left == 0 then SlidSpan(a, s, wSize) else ReadSpan(SlidSpan(a, s, wSize), wSize)
  }

  /** The bytes behind the data are zeroed. */
  function ZeroedSpan(a: Span, wSize: nat): Span { a.(high := Max(a.high, Min(2 * wSize, a.end + WIN_INIT))) }

  /** A whole fill. */
  function NextSpan(a: Span, s: int, wSize: nat): Span
  {
    if a.left == 0 then SlidSpan(a, s, wSize) else ZeroedSpan(TakenSpan(a, s, wSize), wSize)
  }

  lemma {:induction false} TakenOnce(a: Span, s: int, s': int, wSize: nat)
    requires a.left > 0 && s' < Top(wSize)
    ensures TakenSpan(TakenSpan(a, s, wSize), s', wSize) == TakenSpan(a, s, wSize)
  {
  }

  /** There is input, and all of it fits in front of the point where a fill slides. */
  predicate Fits(a: Span, wSize: nat) { 0 < a.left && a.end + a.left <= Top(wSize) }

  /** Such input has been read. */
  function Filled(a: Span, wSize: nat): Span { NextSpan(a, 0, wSize) }

  /** Everything is passed over, and a last fill has found no more input. */
  function Settled(a: Span, wSize: nat): Span { NextSpan(Filled(a, wSize), Filled(a, wSize).end, wSize) }

  /** The fills of a call whose input fits: the first reads it all, and the others change
      nothing before everything is passed over. */
  lemma {:induction false} FillsOnce(a: Span, b: Span, s: nat, wSize: nat)
    requires Fits(a, wSize) && 512 <= wSize && s <= b.end <= b.high <= 2 * wSize && b.end <= b.hole
    requires b == a || b == Filled(a, wSize)
    ensures b == a ==> NextSpan(b, s, wSize) == Filled(a, wSize) && b.left > 0
    ensures b == Filled(a, wSize) ==> b.left == 0
    ensures b == Filled(a, wSize) && s < b.end ==> NextSpan(b, s, wSize) == b
    ensures b == Filled(a, wSize) && s == b.end ==> NextSpan(b, s, wSize) == Settled(a, wSize)
  {
  }

  datatype Option<T> = None | Some(value: T)

  datatype Config = Config(good: nat, lazy: nat, nice: nat, chain: nat, slow: bool)

  type CompressionLevel = n: nat | 1 <= n <= 9 witness 6

  /** configuration_table without the stored level. */
  function ConfigOf(level: CompressionLevel): (c: Config)
    ensures MIN_MATCH <= c.lazy <= MAX_MATCH && 4 <= c.chain
  {
    match level
    case 1 => Config(4, 4, 8, 4, false)
    case 2 => Config(4, 5, 16, 8, false)
    case 3 => Config(4, 6, 32, 32, false)
    case 4 => Config(4, 4, 16, 16, true)
    case 5 => Config(8, 16, 32, 32, true)
    case 6 => Config(8, 16, 128, 128, true)
    case 7 => Config(8, 32, 128, 256, true)
    case 8 => Config(32, 128, 258, 1024, true)
    case _ => Config(32, 258, 258, 4096, true)
  }

  datatype Strategy = DefaultStrategy | Filtered | HuffmanOnly | Fixed

  datatype Flush = NoFlush | PartialFlush | SyncFlush | FullFlush | Finish | BlockFlush

  /** The numbers of the flush values. */
  function Rank(f: Flush): nat
  {
    match f
    case NoFlush => 0
    case PartialFlush => 1
    case SyncFlush => 2
    case FullFlush => 3
    case Finish => 4
    case BlockFlush => 5
  }

  /** The output side of a call: no space at all, nothing pending from earlier calls, or
      pending output that can be written leaving space, or leaving none. */
  datatype Output = NoSpace | Clear | Held | Stuck

  /** What one call of deflate comes to: an error, pending output that is all there was
      space for, nothing to do, or the state its compression function returned. */
  datatype CallResult = StreamError | BufError | Waiting | Idle | Ran(state: BlockState)

  /** The results of the calls that take the input offered. */
  predicate Takes(r: CallResult) { r.Idle? || r.Ran? }

  datatype BlockState = NeedMore | BlockDone | FinishStarted | FinishDone

  /** What _tr_flush_block is given: the tallied tokens and, unless the start of
      the block has left the window, the bytes they stand for. */
  datatype Block = Block(tokens: seq<Token>, stored: Option<seq<byte>>, storedLen: nat, last: bool)

  function Flatten(bs: seq<Block>): seq<Token>
  {
    if |bs| == 0 then [] else Flatten(bs[..|bs| - 1]) + bs[|bs| - 1].tokens
  }

  /** The blocks decode to the first n bytes of text, block by block, and each
      stored copy is exactly what its tokens decode to. */
  ghost predicate BlocksDecode(bs: seq<Block>, text: seq<byte>, n: nat)
  {
    && n <= |text|
    && Expand(Flatten(bs)) == text[..n]
    && (|bs| > 0 ==>
          var b := bs[|bs| - 1];
          && b.storedLen <= n
          && BlocksDecode(bs[..|bs| - 1], text, n - b.storedLen)
          && (b.stored.Some? ==> b.stored.value == text[n - b.storedLen..n]))
  }

  lemma NoBlocks()
    ensures BlocksDecode([], [], 0)
  {
  }

  lemma {:induction false} BlocksDecodeGrow(bs: seq<Block>, text: seq<byte>, more: seq<byte>, n: nat)
    requires BlocksDecode(bs, text, n)
    ensures BlocksDecode(bs, text + more, n)
    decreases |bs|
  {
    assert (text + more)[..n] == text[..n];
    if |bs| > 0 {
      var b := bs[|bs| - 1];
      BlocksDecodeGrow(bs[..|bs| - 1], text, more, n - b.storedLen);
      assert (text + more)[n - b.storedLen..n] == text[n - b.storedLen..n];
    }
  }

  lemma BlocksDecodeSnoc(bs: seq<Block>, b: Block, text: seq<byte>, m: nat, n: nat)
    requires BlocksDecode(bs, text, m) && m <= n <= |text| && b.storedLen == n - m
    requires Expand(Flatten(bs) + b.tokens) == text[..n]
    requires b.stored.Some? ==> b.stored.value == text[m..n]
    ensures BlocksDecode(bs + [b], text, n) && Flatten(bs + [b]) == Flatten(bs) + b.tokens
  {
    assert (bs + [b])[..|bs + [b]| - 1] == bs;
  }

  /** One slot of d_buf and l_buf: distance 0 marks a literal, and a length is
      stored less MIN_MATCH so that it fits a byte. */
  function TokenOf(d: nat, c: byte): Token
  {
    if d == 0 then Literal(c) else Match(d, c + MIN_MATCH)
  }

  /** The tokens that trees.c reads back out of the two buffers. */
  function TokensOf(ds: seq<nat>, cs: seq<byte>): (ts: seq<Token>)
    requires |ds| == |cs|
    ensures |ts| == |ds| && forall i :: 0 <= i < |ts| ==> ts[i] == TokenOf(ds[i], cs[i])
  {
    seq(|ds|, i requires 0 <= i < |ds| => TokenOf(ds[i], cs[i]))
  }

  /** Input that is only moved from next_in to the window extends the text. */
  lemma TextExtends(t0: seq<byte>, n0: seq<byte>, t: seq<byte>, n: seq<byte>)
    requires t0 + n0 == t + n && |t0| <= |t|
    ensures t == t0 + t[|t0|..]
  {
    assert t[..|t0|] == (t + n)[..|t0|] == (t0 + n0)[..|t0|] == t0;
  }

  lemma RepeatsGrow(s: seq<byte>, more: seq<byte>, p: nat, d: int, n: nat)
    requires Repeats(s, p, d, n)
    ensures Repeats(s + more, p, d, n)
  {
  }

  lemma TableSizes(windowBits: nat, memLevel: Level)
    requires 9 <= windowBits <= 15
    ensures 512 <= Pow2(windowBits) <= 32768 && 128 <= Pow2(memLevel + 6)
  {
    Pow2Mono(9, windowBits);
    Pow2Mono(windowBits, 15);
    Pow2Mono(7, memLevel + 6);
    assert Pow2(9) == 512 && Pow2(15) == 32768 && Pow2(7) == 128;
  }

  /** Window indices below `end` hold the text from `base` on. */
  ghost predicate WindowHolds(w: seq<byte>, text: seq<byte>, base: nat, end: nat)
  {
    && end <= |w|
    && |text| == base + end
    && forall i :: 0 <= i < end ==> w[i] == text[base + i]
  }

  /** Equal keys and two equal bytes give three equal bytes. */
  lemma ThirdByteFollows(l: Level, w: seq<byte>, text: seq<byte>, base: nat, end: nat, cur: nat, s: nat)
    requires WindowHolds(w, text, base, end) && cur < s && s + 3 <= end
    requires KeyAt(l, text, base + cur) == KeyAt(l, text, base + s)
    requires w[cur] == w[s] && w[cur + 1] == w[s + 1]
    ensures Repeats(w, s, s - cur, MIN_MATCH)
  {
    hide Hash3;
    ThirdByteEqual(l, w[cur], w[cur + 1], w[cur + 2], w[s + 2]);
  }

  /** A repetition in the valid part of the window is one in the text. */
  lemma RepeatsInText(w: seq<byte>, text: seq<byte>, base: nat, end: nat, s: nat, d: int, n: nat)
    requires WindowHolds(w, text, base, end) && Repeats(w, s, d, n) && s + n <= end
    ensures Repeats(text, base + s, d, n)
  {
    forall i | base + s <= i < base + s + n ensures text[i] == text[i - d] {
      assert w[i - base] == w[i - base - d];
    }
  }

  class DeflateState {
    const wSize: nat
    const memLevel: Level
    const level: CompressionLevel
    const strategy: Strategy
    const window: array<byte>
    const head: array<nat>
    const prev: array<nat>
    const dBuf: array<nat>
    const lBuf: array<byte>

    var nextIn: seq<byte>
    var insH: nat
    var strStart: nat
    var lookahead: nat
    var blockStart: int
    var matchLength: nat
    var matchStart: int
    var prevLength: nat
    var prevMatch: int
    var matchAvailable: bool
    var highWater: nat
    var lastLit: nat
    var blocks: seq<Block>
    var finished: bool
    var lastFlush: int

    ghost var text: seq<byte>
    ghost var base: nat
    ghost var ins: set<nat>
    ghost var pending: seq<Token>
    ghost var ext: Extent

    function MaxDist(): nat
      requires wSize >= 512
    {
      wSize - MIN_LOOKAHEAD
    }

    function Cfg(): Config { ConfigOf(level) }

    ghost predicate Shape()
    {
      && 512 <= wSize <= 32768
      && window.Length == 2 * wSize
      && prev.Length == wSize
      && head.Length == HashSize(memLevel)
      && lBuf.Length == dBuf.Length >= 128
      && head != prev && head != dBuf && prev != dBuf && window != lBuf
    }

    ghost predicate Holds(end: nat)
      reads this`text, this`base, window
    {
      end <= window.Length && |text| == base + end && WindowHolds(window[..], text, base, end)
    }

    ghost predicate Chained(top: nat)
      reads this`text, this`base, this`ins, head, prev
    {
      ChainsOk(memLevel, head[..], prev[..], text, ins, base, base + top)
    }

    /** The next INSERT_STRING at p computes the key of the string at p. */
    ghost predicate PrimedAt(p: nat)
      requires Shape() && p + 1 < window.Length
      reads this`insH, window
    {
      Primed(memLevel, insH, window[p], window[p + 1])
    }

    /** Where the data end in the window. */
    function End(): nat
      reads this`strStart, this`lookahead
    {
      strStart + lookahead
    }

    /** Between fills high_water is not below the data. */
    ghost predicate TracedAt(end: nat)
      reads this`ext, this`highWater
    {
      Traced(ext, wSize, highWater, end) && end <= highWater
    }

    /** The window may be started afresh. */
    lemma RestartTraced(end: nat)
      requires TracedAt(end)
      ensures TracedAt(0)
    {
      TracedShrinks(ext, wSize, highWater, end);
    }

    // ---- the string dictionary ------------------------------------------

    /** INSERT_STRING(s, strstart, hash_head). */
    method InsertString(ghost end: nat) returns (hashHead: nat)
      requires Shape() && Holds(end) && Chained(strStart) && strStart + 3 <= end && PrimedAt(strStart)
      modifies this`insH, this`ins, head, prev
      ensures ins == old(ins) + {base + strStart}
      ensures Chained(strStart + 1) && PrimedAt(strStart + 1)
      ensures Candidate(memLevel, text, ins, base, strStart, KeyAt(memLevel, text, base + strStart), hashHead)
    {
      hide Hash3, HashSize, Update, ChainsOk, Primed;
      ghost var h0, p0 := head[..], prev[..];
      KeyInRange(memLevel, insH, window[strStart + 2]);
      RollKeepsPrimed(memLevel, insH, window[strStart], window[strStart + 1], window[strStart + 2]);
      insH := Update(memLevel, insH, window[strStart + 2]);
      assert insH == KeyAt(memLevel, text, base + strStart);
      InsertKeepsChains(memLevel, h0, p0, text, ins, base, strStart, insH);
      HeadIsCandidate(memLevel, h0, p0, text, ins, base, strStart, insH);
      hashHead := head[insH];
      prev[strStart % wSize] := hashHead;
      head[insH] := strStart;
      ins := ins + {base + strStart};
      assert head[..] == h0[insH := strStart];
      assert prev[..] == p0[strStart % wSize := hashHead];
    }

    // ---- the match finder -------------------------------------------------

    /** The n bytes at strstart repeat the ones at cur. */
    ghost predicate Same(cur: nat, n: nat)
      reads this`strStart, window
    {
      Repeats(window[..], strStart, strStart - cur, n)
    }

    lemma SameMore(cur: nat, n: nat)
      requires cur < strStart && strStart + n < window.Length && Same(cur, n) && window[cur + n] == window[strStart + n]
      ensures Same(cur, n + 1)
    {
      RepeatsMore(window[..], strStart, strStart - cur, n);
    }

    /** One line of the unrolled comparison: up to eight steps of
        `*++scan == *++match`, where n is scan - strstart. */
    method EightSteps(cur: nat, n0: nat) returns (n: nat, same: bool)
      requires Shape() && cur < strStart && strStart + n0 + 8 < window.Length
      requires Same(cur, n0 + 1)
      ensures n0 < n <= n0 + 8 && (same ==> n == n0 + 8)
      ensures Same(cur, if same then n + 1 else n)
      ensures !same ==> window[cur + n] != window[strStart + n]
    {
      hide Same;
      n, same := n0, true;
      while n < n0 + 8 && same
        invariant n0 <= n <= n0 + 8
        invariant Same(cur, if same then n + 1 else n)
        invariant !same ==> n > n0 && window[cur + n] != window[strStart + n]
      {
        n := n + 1;
        same := window[strStart + n] == window[cur + n];
        if same { SameMore(cur, n); }
      }
    }

    lemma SameFewer(cur: nat, n: nat, m: nat)
      requires Same(cur, n) && m <= n
      ensures Same(cur, m)
    {
      RepeatsFewer(window[..], strStart, strStart - cur, n, m);
    }

    /** The comparison loop of longest_match, which looks at the scan limit only
        every eighth step.  The first three bytes are known to be equal. */
    method MatchEnd(cur: nat) returns (len: nat)
      requires Shape() && cur < strStart && strStart + MAX_MATCH < window.Length
      requires Same(cur, MIN_MATCH)
      ensures MIN_MATCH <= len <= MAX_MATCH && Same(cur, len)
      ensures len < MAX_MATCH ==> window[cur + len] != window[strStart + len]
    {
      hide Repeats, Same;
      var n, same := 2, true;
      ghost var eights := 0;
      while same && n < MAX_MATCH
        invariant 2 <= n <= MAX_MATCH && (same ==> n == 2 + 8 * eights)
        invariant Same(cur, if same then n + 1 else n)
        invariant !same ==> n >= MIN_MATCH && window[cur + n] != window[strStart + n]
        decreases MAX_MATCH - n, same
      {
        n, same := EightSteps(cur, n);
        eights := eights + 1;
      }
      len := n;
      if same { SameFewer(cur, n + 1, n); }
    }

    /** cur is a string in the dictionary with the key of the string at strstart. */
    ghost predicate Linked(cur: nat)
      requires Shape()
      reads this`text, this`base, this`ins, this`strStart
    {
      && base + strStart + 3 <= |text|
      && cur != NIL
      && Candidate(memLevel, text, ins, base, strStart, KeyAt(memLevel, text, base + strStart), cur)
    }

    /** cur was found to match for the first len bytes, within reach. */
    ghost predicate Found(cur: int, len: nat)
      requires Shape()
      reads this`strStart, window
    {
      0 < cur < strStart && strStart - cur <= MaxDist() && Same(cur, len)
    }

    /** The four quick checks at a candidate and, when they pass, the full
        comparison; 0 stands for the source's `continue`. */
    method Compare(cur: nat, best: nat) returns (len: nat)
      requires Shape() && Holds(strStart + lookahead) && lookahead >= MIN_MATCH
      requires Linked(cur) && 1 <= best <= MAX_MATCH && strStart + MAX_MATCH < window.Length
      ensures len == 0 || MIN_MATCH <= len <= MAX_MATCH
      ensures len > 0 ==> Same(cur, len)
    {
      hide KeyAt, Repeats;
      if || window[cur + best] != window[strStart + best]
         || window[cur + best - 1] != window[strStart + best - 1]
         || window[cur] != window[strStart]
         || window[cur + 1] != window[strStart + 1] {
        return 0;
      }
      ThirdByteFollows(memLevel, window[..], text, base, strStart + lookahead, cur, strStart);
      len := MatchEnd(cur);
    }

    /** prev[cur & w_mask]: the next older string on the chain. */
    method Older(cur: nat) returns (next: nat)
      requires Shape() && Chained(strStart + 1) && Linked(cur) && strStart - cur <= MaxDist()
      ensures next == prev[cur % wSize]
      ensures next != NIL ==> next < cur && Linked(next)
    {
      hide KeyAt, ChainsOk;
      LinkIsCandidate(memLevel, head[..], prev[..], text, ins, base, base + strStart + 1, cur, KeyAt(memLevel, text, base + strStart));
      next := prev[cur % wSize];
    }

    lemma FoundFewer(cur: int, n: nat, m: nat)
      requires Shape() && Found(cur, n) && m <= n
      ensures Found(cur, m)
    {
    }

    /** longest_match: the longest true match on the chain that beats prev_length,
        cut to the lookahead.  match_start is written once, at the end. */
    method LongestMatch(hashHead: nat) returns (len: nat)
      requires Shape() && Holds(strStart + lookahead) && lookahead >= MIN_MATCH
      requires Chained(strStart + 1) && Linked(hashHead) && strStart - hashHead <= MaxDist()
      requires 1 <= prevLength <= MAX_MATCH && strStart + MAX_MATCH < window.Length
      modifies this`matchStart
      ensures len <= lookahead && len <= MAX_MATCH
      ensures len >= if prevLength <= lookahead then prevLength else lookahead
      ensures len > prevLength ==> Found(matchStart, len)
    {
      hide KeyAt, Repeats, ChainsOk;
      var chain := if prevLength >= Cfg().good then Cfg().chain / 4 else Cfg().chain;
      var nice := if Cfg().nice > lookahead then lookahead else Cfg().nice;
      var limit := if strStart > MaxDist() then strStart - MaxDist() else NIL;
      var best, start := prevLength, matchStart;
      var cur: nat := hashHead;
      while true
        invariant Linked(cur) && 0 < cur < strStart && strStart - cur <= MaxDist() && chain > 0
        invariant prevLength <= best <= MAX_MATCH
        invariant best > prevLength ==> Found(start, best)
        decreases cur
      {
        var n := Compare(cur, best);
        if n > best {
          start, best := cur, n;
          if n >= nice { break; }
        }
        var next := Older(cur);
        if next <= limit { break; }
        chain := chain - 1;
        if chain == 0 { break; }
        cur := next;
      }
      len := if best <= lookahead then best else lookahead;
      if best > prevLength { FoundFewer(start, best, len); }
      matchStart := start;
    }

    // ---- filling the window -----------------------------------------------

    /** One of the two loops of fill_window that slide a position table. */
    method SlideTable(t: array<nat>)
      requires Shape() && (t == head || t == prev)
      modifies t
      ensures t[..] == SlidTable(old(t[..]), wSize)
    {
      var n := t.Length;
      while n > 0
        invariant 0 <= n <= t.Length
        invariant forall i :: 0 <= i < n ==> t[i] == old(t[i])
        invariant forall i :: n <= i < t.Length ==> t[i] == Slid(old(t[i]), wSize)
      {
        n := n - 1;
        var m := t[n];
        t[n] := if m >= wSize then m - wSize else NIL;
      }
    }

    /** The upper half of the window is copied to the lower half. */
    method CopyUpperHalf()
      requires Shape() && Holds(strStart + lookahead) && strStart >= wSize
      modifies window
      ensures window[..] == old(window[wSize..]) + old(window[wSize..])
      ensures WindowHolds(window[..], text, base + wSize, strStart - wSize + lookahead)
    {
      ghost var w := window[..];
      forall i | 0 <= i < wSize { window[i] := window[wSize + i]; }
      assert window[..] == w[wSize..] + w[wSize..];
    }

    /** The upper half of the window moves to the lower half, and every position
        kept anywhere moves with it. */
    method SlideWindow()
      requires Shape() && Holds(strStart + lookahead) && Chained(strStart)
      requires strStart >= wSize + MaxDist() && (lookahead >= MIN_MATCH ==> PrimedAt(strStart))
      modifies this`matchStart, this`strStart, this`blockStart, this`base, window, head, prev
      ensures strStart == old(strStart) - wSize && matchStart == old(matchStart) - wSize
      ensures blockStart == old(blockStart) - wSize && base == old(base) + wSize
      ensures Holds(strStart + lookahead) && Chained(strStart)
      ensures lookahead >= MIN_MATCH ==> PrimedAt(strStart)
      ensures window[..] == old(window[wSize..]) + old(window[wSize..])
    {
      hide ChainsOk, Slid, HashSize, Primed, WindowHolds;
      ghost var h0, p0 := head[..], prev[..];
      SlideKeepsChains(memLevel, h0, p0, text, ins, base, base + strStart);
      CopyUpperHalf();
      assert lookahead >= MIN_MATCH ==> window[..][strStart - wSize] == old(window[..])[strStart] && window[..][strStart - wSize + 1] == old(window[..])[strStart + 1];
      matchStart := matchStart - wSize;
      strStart := strStart - wSize;
      blockStart := blockStart - wSize;
      base := base + wSize;
      assert head[..] == h0 && prev[..] == p0;
      SlideTable(head);
      assert prev[..] == p0;
      SlideTable(prev);
      assert head[..] == SlidTable(h0, wSize);
    }

    /** read_buf into the free space after the lookahead. */
    method ReadBuf(size: nat) returns (n: nat)
      requires Shape() && Holds(strStart + lookahead) && Chained(strStart)
      requires strStart + lookahead + size <= window.Length
      modifies this`nextIn, this`text, window
      ensures n == if |old(nextIn)| > size then size else |old(nextIn)|
      ensures text + nextIn == old(text + nextIn) && |text| == |old(text)| + n
      ensures Holds(strStart + lookahead + n) && Chained(strStart)
      ensures forall i :: 0 <= i < strStart + lookahead ==> window[i] == old(window[i])
    {
      hide ChainsOk;
      n := if |nextIn| > size then size else |nextIn|;
      var at := strStart + lookahead;
      ghost var h0, p0 := head[..], prev[..];
      ChainsGrow(memLevel, h0, p0, text, nextIn[..n], ins, base, base + strStart, base + strStart);
      forall i | 0 <= i < n { window[at + i] := nextIn[i]; }
      assert head[..] == h0 && prev[..] == p0;
      text := text + nextIn[..n];
      nextIn := nextIn[n..];
    }

    /** fill_window's recomputation of the running key. */
    method PrimeHash()
      requires Shape() && Holds(strStart + lookahead)
      modifies this`insH
      ensures lookahead >= MIN_MATCH ==> PrimedAt(strStart)
    {
      hide Update, Primed;
      if lookahead >= MIN_MATCH {
        FreshKeyPrimed(memLevel, window[strStart], window[strStart + 1]);
        insH := Update(memLevel, window[strStart], window[strStart + 1]);
      }
    }

    /** Everything that fill_window changes, seen from the text: positions keep
        the offset they stand for, and input only moves from next_in to the window. */
    twostate predicate Refilled()
      reads this
    {
      && base + strStart == old(base + strStart)
      && base + blockStart == old(base + blockStart)
      && base + matchStart == old(base + matchStart)
      && text + nextIn == old(text + nextIn)
      && |old(text)| <= |text|
      && lookahead >= old(lookahead)
      && (old(strStart) > 0 ==> strStart > 0)
    }

    ghost function Spanned(): Span
      reads this`strStart, this`lookahead, this`nextIn, this`highWater, this`ext
    {
      Span(End(), |nextIn|, highWater, ext.hole)
    }

    /** fill_window's condition for a slide. */
    predicate Slides()
      requires Shape()
      reads this`strStart
    {
      strStart >= wSize + MaxDist()
    }

    /** The slide and the read of one round of fill_window; false when it returns
        because there is no more input. */
    method RefillOnce() returns (read: bool)
      requires Shape() && Holds(strStart + lookahead) && Chained(strStart) && lookahead < MIN_LOOKAHEAD
      requires lookahead >= MIN_MATCH ==> PrimedAt(strStart)
      requires Traced(ext, wSize, highWater, End()) && (Slides() ==> End() <= highWater)
      modifies this`ext, this`nextIn, this`text, this`insH, this`matchStart, this`strStart, this`lookahead, this`blockStart, this`base
      modifies window, head, prev
      ensures Holds(strStart + lookahead) && Chained(strStart) && Refilled()
      ensures lookahead >= MIN_MATCH ==> PrimedAt(strStart)
      ensures strStart + MIN_LOOKAHEAD <= window.Length
      ensures Traced(ext, wSize, highWater, End()) && !Slides()
      ensures Spanned() == old(TakenSpan(Spanned(), strStart, wSize))
      ensures strStart == old(if Slides() then strStart - wSize else strStart)
      ensures read && lookahead >= MIN_LOOKAHEAD ==> nextIn == [] || End() == window.Length
      ensures if read then |nextIn| < |old(nextIn)| else nextIn == old(nextIn) == [] && End() <= old(End())
    {
      hide Holds, Chained, PrimedAt, Traced;
      MakeRoom();
      TracedHole(ext, wSize, highWater, End());
      if |nextIn| == 0 { return false; }
      ReadMore(window.Length - lookahead - strStart);
      read := true;
    }

    /** The slide, if strstart is far enough into the window. */
    method MakeRoom()
      requires Shape() && Holds(strStart + lookahead) && Chained(strStart) && lookahead < MIN_LOOKAHEAD
      requires lookahead >= MIN_MATCH ==> PrimedAt(strStart)
      requires Traced(ext, wSize, highWater, End()) && (Slides() ==> End() <= highWater)
      modifies this`ext, this`matchStart, this`strStart, this`blockStart, this`base, window, head, prev
      ensures Holds(strStart + lookahead) && Chained(strStart) && Refilled()
      ensures lookahead >= MIN_MATCH ==> PrimedAt(strStart)
      ensures Traced(ext, wSize, highWater, End()) && !Slides()
      ensures Spanned() == old(SlidSpan(Spanned(), strStart, wSize))
      ensures strStart == old(if Slides() then strStart - wSize else strStart)
    {
      hide ChainsOk, WindowHolds, Primed, Traced, Slide;
      TracedHole(ext, wSize, highWater, End());
      if strStart >= wSize + MaxDist() {
        SlideTraced(ext, wSize, highWater, End());
        SlideWindow();
        ext := Slide(ext, wSize, highWater);
      }
    }

    /** The read behind the lookahead, into at least two bytes of free space. */
    method ReadMore(more: nat)
      requires Shape() && Holds(strStart + lookahead) && Chained(strStart)
      requires lookahead >= MIN_MATCH ==> PrimedAt(strStart)
      requires Traced(ext, wSize, highWater, End()) && End() + more == window.Length && more >= 2 && nextIn != []
      modifies this`ext, this`nextIn, this`text, this`insH, this`lookahead, window
      ensures Holds(strStart + lookahead) && Chained(strStart) && Refilled()
      ensures lookahead >= MIN_MATCH ==> PrimedAt(strStart)
      ensures Traced(ext, wSize, highWater, End()) && Spanned() == old(ReadSpan(Spanned(), wSize))
      ensures |nextIn| < |old(nextIn)| && End() >= old(End())
      ensures nextIn == [] || End() == window.Length
    {
      hide ChainsOk, WindowHolds, Primed, Traced, Read;
      ReadTraced(ext, wSize, highWater, End(), if |nextIn| > more then more else |nextIn|);
      var n := ReadBuf(more);
      ext := Read(ext, End(), n);
      lookahead := lookahead + n;
      PrimeHash();
    }

    /** zmemzero on n bytes of the window, behind the data. */
    method ZeroBytes(from: nat, n: nat)
      requires Shape() && Holds(strStart + lookahead) && from == Max(highWater, End()) && from + n <= window.Length
      requires lookahead >= MIN_MATCH ==> PrimedAt(strStart)
      requires Traced(ext, wSize, highWater, End())
      modifies this`ext, window
      ensures Holds(strStart + lookahead)
      ensures lookahead >= MIN_MATCH ==> PrimedAt(strStart)
      ensures Traced(ext, wSize, from + n, End()) && ext.hole == old(ext.hole)
    {
      hide Primed, Traced, Zero;
      ZeroTraced(ext, wSize, highWater, End(), n);
      forall i | from <= i < from + n { window[i] := 0; }
      ext := Zero(ext, from, n);
    }

    /** The end of fill_window: bytes past the data that were never written are
        zeroed as far as a match comparison can look. */
    method ZeroTail()
      requires Shape() && Holds(strStart + lookahead)
      requires lookahead >= MIN_MATCH ==> PrimedAt(strStart)
      requires Traced(ext, wSize, highWater, End())
      modifies this`ext, this`highWater, window
      ensures Holds(strStart + lookahead)
      ensures lookahead >= MIN_MATCH ==> PrimedAt(strStart)
      ensures TracedAt(End()) && Spanned() == old(ZeroedSpan(Spanned(), wSize))
      ensures Clean(ext, wSize, End(), WIN_INIT) <==> wSize <= ext.hole || End() + WIN_INIT <= ext.hole
    {
      hide Traced, Holds, PrimedAt, Clean;
      TracedHole(ext, wSize, highWater, End());
      if highWater < window.Length {
        var curr := strStart + lookahead;
        if highWater < curr {
          var init := window.Length - curr;
          if init > WIN_INIT { init := WIN_INIT; }
          ZeroBytes(curr, init);
          highWater := curr + init;
        } else if highWater < curr + WIN_INIT {
          var init := curr + WIN_INIT - highWater;
          if init > window.Length - highWater { init := window.Length - highWater; }
          ZeroBytes(highWater, init);
          highWater := highWater + init;
        }
      }
      CleanIff(ext, wSize, highWater, End(), WIN_INIT);
    }

    /** fill_window.  After it has read input, all bytes that a match comparison can look at
        were written exactly unless the unwritten bytes that a slide copied down are
        neither overwritten nor out of reach. */
    method FillWindow()
      requires Shape() && Holds(strStart + lookahead) && Chained(strStart) && lookahead < MIN_LOOKAHEAD
      requires lookahead >= MIN_MATCH ==> PrimedAt(strStart)
      requires TracedAt(End())
      modifies this`ext, this`nextIn, this`text, this`insH, this`matchStart, this`strStart, this`lookahead, this`blockStart, this`base
      modifies this`highWater, window, head, prev
      ensures Holds(strStart + lookahead) && Chained(strStart) && Refilled()
      ensures lookahead >= MIN_MATCH ==> PrimedAt(strStart)
      ensures strStart + MIN_LOOKAHEAD <= window.Length
      ensures lookahead >= MIN_LOOKAHEAD || nextIn == []
      ensures TracedAt(End())
      ensures strStart == old(if Slides() then strStart - wSize else strStart)
      ensures Spanned() == old(NextSpan(Spanned(), strStart, wSize))
      ensures old(nextIn) != [] ==>
        (Clean(ext, wSize, End(), WIN_INIT) <==> var b := old(NextSpan(Spanned(), strStart, wSize)); wSize <= b.hole || b.end + WIN_INIT <= b.hole)
    {
      hide ChainsOk, WindowHolds, Primed, Traced, Clean, SlidSpan, ReadSpan, ZeroedSpan;
      var read := RefillAll();
      if !read { return; }
      ghost var h0, p0 := head[..], prev[..];
      ZeroTail();
      assert head[..] == h0 && prev[..] == p0;
    }

    /** The loop of fill_window; false when it returns without having read. */
    method RefillAll() returns (read: bool)
      requires Shape() && Holds(strStart + lookahead) && Chained(strStart) && lookahead < MIN_LOOKAHEAD
      requires lookahead >= MIN_MATCH ==> PrimedAt(strStart)
      requires TracedAt(End())
      modifies this`ext, this`nextIn, this`text, this`insH, this`matchStart, this`strStart, this`lookahead, this`blockStart, this`base
      modifies window, head, prev
      ensures Holds(strStart + lookahead) && Chained(strStart) && Refilled()
      ensures lookahead >= MIN_MATCH ==> PrimedAt(strStart)
      ensures strStart + MIN_LOOKAHEAD <= window.Length
      ensures lookahead >= MIN_LOOKAHEAD || nextIn == []
      ensures Traced(ext, wSize, highWater, End()) && Spanned() == old(TakenSpan(Spanned(), strStart, wSize))
      ensures strStart == old(if Slides() then strStart - wSize else strStart)
      ensures (read <==> old(nextIn) != []) && (!read ==> TracedAt(End()))
    {
      hide WindowHolds, Chained, PrimedAt, Traced, Clean, SlidSpan, ReadSpan, TakenSpan;
      TracedHole(ext, wSize, highWater, End());
      while true
        invariant Holds(strStart + lookahead) && Chained(strStart) && Refilled()
        invariant lookahead < MIN_LOOKAHEAD
        invariant lookahead >= MIN_MATCH ==> PrimedAt(strStart)
        invariant Traced(ext, wSize, highWater, End()) && (nextIn == [] || Slides() ==> End() <= highWater)
        invariant nextIn == [] ==> old(nextIn) == []
        invariant TakenSpan(Spanned(), strStart, wSize) == old(TakenSpan(Spanned(), strStart, wSize))
        invariant Slides() ==> strStart == old(strStart)
        invariant !Slides() ==> strStart == old(if Slides() then strStart - wSize else strStart)
        decreases |nextIn|
      {
        ghost var a, s := Spanned(), strStart;
        read := RefillOnce();
        if !read { return; }
        if lookahead >= MIN_LOOKAHEAD || |nextIn| == 0 { break; }
        TakenOnce(a, s, strStart, wSize);
      }
    }

    // ---- the token buffer ---------------------------------------------------

    /** d_buf and l_buf hold the pending tokens. */
    ghost predicate Buffered()
      reads this`lastLit, this`pending, dBuf, lBuf
    {
      && lastLit == |pending| < lBuf.Length == dBuf.Length
      && forall i :: 0 <= i < lastLit ==> pending[i] == TokenOf(dBuf[i], lBuf[i])
    }

    ghost function Tokens(): seq<Token>
      reads this`blocks, this`pending
    {
      Flatten(blocks) + pending
    }

    /** The flushed blocks and the pending tokens decode to the first n bytes of
        the text, and the flushed blocks alone to those before block_start. */
    ghost predicate Tallied(n: nat)
      requires Shape()
      reads this`blocks, this`pending, this`text, this`base, this`blockStart, this`lastLit, dBuf, lBuf
    {
      && Buffered()
      && 0 <= base + blockStart <= n <= |text|
      && BlocksDecode(blocks, text, base + blockStart)
      && Expand(Tokens()) == text[..n]
      && AllEncodable(Tokens(), MaxDist())
    }

    /** Both tally macros: store one slot and report a full buffer. */
    method Store(d: nat, c: byte)  returns (bflush: bool)
      requires Shape() && Buffered() && lastLit + 1 < lBuf.Length
      modifies this`lastLit, this`pending, dBuf, lBuf
      ensures Buffered() && pending == old(pending) + [TokenOf(d, c)]
      ensures bflush <==> lastLit == lBuf.Length - 1
    {
      dBuf[lastLit] := d;
      lBuf[lastLit] := c;
      pending := pending + [TokenOf(d, c)];
      lastLit := lastLit + 1;
      bflush := lastLit == lBuf.Length - 1;
    }

    /** _tr_tally_lit at the end of the covered text. */
    method TallyLit(c: byte, ghost n: nat) returns (bflush: bool)
      requires Shape() && Tallied(n) && lastLit + 1 < lBuf.Length
      requires n < |text| && c == text[n]
      modifies this`lastLit, this`pending, dBuf, lBuf
      ensures Tallied(n + 1) && lastLit < lBuf.Length && (bflush <==> lastLit == lBuf.Length - 1)
    {
      hide BlocksDecode, AllEncodable, Expand;
      LiteralCovers(Tokens(), text, n, MaxDist());
      ghost var t := Tokens();
      bflush := Store(0, c);
      assert Tokens() == t + [Literal(c)];
    }

    /** _tr_tally_dist for a true match. */
    method TallyDist(d: nat, len: nat, ghost n: nat) returns (bflush: bool)
      requires Shape() && Tallied(n) && lastLit + 1 < lBuf.Length
      requires Repeats(text, n, d, len) && MIN_MATCH <= len <= MAX_MATCH && d <= MaxDist()
      modifies this`lastLit, this`pending, dBuf, lBuf
      ensures Tallied(n + len) && lastLit < lBuf.Length && (bflush <==> lastLit == lBuf.Length - 1)
    {
      hide BlocksDecode, AllEncodable, Expand;
      MatchCovers(Tokens(), text, n, d, len, MaxDist());
      ghost var t := Tokens();
      bflush := Store(d, len - MIN_MATCH);
      assert Tokens() == t + [Match(d, len)];
    }

    /** FLUSH_BLOCK_ONLY.  How much output space flush_pending leaves is up to
        the caller of deflate, so whether it ran out is arbitrary. */
    method FlushBlockOnly(last: bool) returns (outFull: bool)
      requires Shape() && Holds(strStart + lookahead) && Tallied(base + strStart)
      modifies this`blocks, this`pending, this`lastLit, this`blockStart
      ensures Tallied(base + strStart) && blockStart == strStart && lastLit == 0
      ensures |blocks| == |old(blocks)| + 1 && blocks[..|old(blocks)|] == old(blocks)
      ensures blocks[|blocks| - 1].last == last
    {
      hide AllEncodable, Expand, Flatten;
      var stored := if blockStart >= 0 then Some(window[blockStart..strStart]) else None;
      ghost var b0 := base + blockStart;
      var tokens := TokensOf(dBuf[..lastLit], lBuf[..lastLit]);
      assert tokens == pending;
      var b := Block(tokens, stored, strStart - blockStart, last);
      BlocksDecodeSnoc(blocks, b, text, base + blockStart, base + strStart);
      blocks := blocks + [b];
      pending, lastLit := [], 0;
      blockStart := strStart;
      assert Tokens() == Flatten(blocks);
      outFull := *;
    }

    // ---- deflate_slow -------------------------------------------------------

    /** The window, the dictionary and the running key agree with the text. */
    ghost predicate Core()
      reads this`text, this`base, this`ins, this`insH, this`strStart, this`lookahead, window, head, prev
    {
      && Shape()
      && Holds(strStart + lookahead)
      && Chained(strStart)
      && (lookahead >= MIN_MATCH ==> PrimedAt(strStart))
    }

    /** The byte before strstart is not tallied while a match for it is weighed. */
    ghost function Held(): nat
      reads this`matchAvailable
    {
      if matchAvailable then 1 else 0
    }

    lemma CoreParts()
      requires Core()
      ensures Shape() && Holds(strStart + lookahead) && Chained(strStart) && (lookahead >= MIN_MATCH ==> PrimedAt(strStart))
    {
      hide Shape, Holds, Chained, PrimedAt;
    }

    lemma CoreOfParts()
      requires Shape() && Holds(strStart + lookahead) && Chained(strStart) && (lookahead >= MIN_MATCH ==> PrimedAt(strStart))
      ensures Core()
    {
      hide Shape, Holds, Chained, PrimedAt;
    }

    /** What deflate_slow keeps between steps: all text before strstart but the
        held byte is tallied, and a match carried over from the last step is a
        true match of the held byte's string. */
    ghost predicate SlowInv()
      reads this`text, this`base, this`ins, this`insH, this`strStart, this`lookahead, this`matchLength, this`matchStart, this`prevLength
      reads this`matchAvailable, this`blocks, this`pending, this`blockStart, this`lastLit, window, head, prev, dBuf, lBuf
    {
      && Core()
      && 2 <= matchLength <= MAX_MATCH
      && Held() <= strStart
      && Tallied(base + strStart - Held())
      && lastLit + 1 < lBuf.Length
      && (matchLength >= MIN_MATCH ==> matchAvailable && CarriedMatch(strStart - 1, matchStart, matchLength))
    }

    /** A match of the string at p with the string at q, in reach and in the text. */
    ghost predicate CarriedMatch(p: int, q: int, len: nat)
      requires Shape()
      reads this`text, this`base
    {
      0 <= base + p && 1 <= p - q <= MaxDist() && base + p + len <= |text| && Repeats(text, base + p, p - q, len)
    }

    /** The insertion at the top of both match loops: with fewer than three
        bytes ahead nothing is inserted and there is no candidate. */
    method InsertHere() returns (hashHead: nat)
      requires Core()
      modifies this`insH, this`ins, head, prev
      ensures Holds(strStart + lookahead) && Chained(strStart + 1)
      ensures lookahead > MIN_MATCH ==> PrimedAt(strStart + 1)
      ensures hashHead != NIL ==> lookahead >= MIN_MATCH && Linked(hashHead)
    {
      hide ChainsOk, Primed, KeyAt;
      hashHead := NIL;
      if lookahead >= MIN_MATCH {
        hashHead := InsertString(strStart + lookahead);
      } else {
        ChainsGrow(memLevel, head[..], prev[..], text, [], ins, base, base + strStart, base + strStart + 1);
        assert text + [] == text;
      }
    }

    /** longest_match, with its result stated about the text. */
    method TextMatch(hashHead: nat) returns (len: nat)
      requires Shape() && Holds(strStart + lookahead) && Chained(strStart + 1)
      requires lookahead >= MIN_MATCH && Linked(hashHead) && strStart - hashHead <= MaxDist()
      requires 1 <= prevLength <= MAX_MATCH && strStart + MIN_LOOKAHEAD <= window.Length
      modifies this`matchStart
      ensures len <= lookahead && len <= MAX_MATCH
      ensures len >= if prevLength <= lookahead then prevLength else lookahead
      ensures len > prevLength ==> 0 < matchStart && CarriedMatch(strStart, matchStart, len)
    {
      hide ChainsOk, Linked, Repeats, WindowHolds;
      len := LongestMatch(hashHead);
      if len > prevLength {
        RepeatsInText(window[..], text, base, strStart + lookahead, strStart, strStart - matchStart, len);
      }
    }

    /** The insertion and the search at the top of deflate_slow's loop. */
    method SearchSlow()
      requires Core() && 2 <= matchLength <= MAX_MATCH && strStart + MIN_LOOKAHEAD <= window.Length
      modifies this`insH, this`ins, this`matchStart, this`matchLength, this`prevLength, this`prevMatch, head, prev
      ensures Holds(strStart + lookahead) && Chained(strStart + 1)
      ensures lookahead > MIN_MATCH ==> PrimedAt(strStart + 1)
      ensures prevLength == old(matchLength) && prevMatch == old(matchStart)
      ensures 2 <= matchLength <= MAX_MATCH
      ensures matchLength > prevLength ==> CarriedMatch(strStart, matchStart, matchLength)
    {
      hide Core, Holds, Chained, PrimedAt, Linked, CarriedMatch;
      CoreParts();
      var hashHead := InsertHere();
      prevLength, prevMatch := matchLength, matchStart;
      matchLength := MIN_MATCH - 1;
      if hashHead != NIL && prevLength < Cfg().lazy && strStart - hashHead <= MaxDist() {
        matchLength := WorthyMatch(hashHead);
      }
    }

    /** A match that is short and far, or short under Z_FILTERED, is not worth it. */
    method WorthyMatch(hashHead: nat) returns (len: nat)
      requires Shape() && Holds(strStart + lookahead) && Chained(strStart + 1)
      requires lookahead >= MIN_MATCH && Linked(hashHead) && strStart - hashHead <= MaxDist()
      requires 2 <= prevLength <= MAX_MATCH && strStart + MIN_LOOKAHEAD <= window.Length
      modifies this`matchStart
      ensures 2 <= len <= MAX_MATCH
      ensures len > prevLength ==> CarriedMatch(strStart, matchStart, len)
    {
      hide Holds, Chained, Linked, CarriedMatch;
      len := TextMatch(hashHead);
      if len <= 5 && (strategy == Filtered || (len == MIN_MATCH && strStart - matchStart > TOO_FAR)) {
        len := MIN_MATCH - 1;
      }
    }

    /** The insertion loop after a match is tallied: every string up to the end
        of the match that still has three bytes of data enters the dictionary,
        and strstart ends up behind the match. */
    method InsertMatched(maxInsert: nat, ghost end: nat)
      requires Shape() && Holds(end) && Chained(strStart + 1) && 1 <= prevLength
      requires strStart + 1 + prevLength <= end && maxInsert + MIN_MATCH == end
      requires strStart + 4 <= end ==> PrimedAt(strStart + 1)
      modifies this`strStart, this`prevLength, this`insH, this`ins, head, prev
      ensures strStart == old(strStart + prevLength) + 1 && prevLength == 0
      ensures Chained(strStart)
      ensures strStart + 3 <= end ==> PrimedAt(strStart)
    {
      hide ChainsOk, WindowHolds, Primed, KeyAt, Candidate;
      while true
        invariant Holds(end) && Chained(strStart + 1) && 1 <= prevLength
        invariant strStart + prevLength == old(strStart + prevLength)
        invariant strStart + 4 <= end ==> PrimedAt(strStart + 1)
        decreases prevLength
      {
        strStart := strStart + 1;
        if strStart <= maxInsert {
          var _ := InsertString(end);
        } else {
          ChainsGrow(memLevel, head[..], prev[..], text, [], ins, base, base + strStart, base + strStart + 1);
          assert text + [] == text;
        }
        prevLength := prevLength - 1;
        if prevLength == 0 { break; }
      }
      strStart := strStart + 1;
    }

    /** The first branch of deflate_slow: the match carried over from the last
        step is tallied and passed over. */
    method EmitCarried() returns (bflush: bool)
      requires Shape() && Holds(strStart + lookahead) && Chained(strStart + 1)
      requires lookahead > MIN_MATCH ==> PrimedAt(strStart + 1)
      requires 1 <= strStart && Tallied(base + strStart - 1) && lastLit + 1 < lBuf.Length
      requires MIN_MATCH <= prevLength <= MAX_MATCH && CarriedMatch(strStart - 1, prevMatch, prevLength)
      modifies this`insH, this`ins, this`strStart, this`lookahead, this`matchLength, this`prevLength, this`matchAvailable
      modifies this`lastLit, this`pending, head, prev, dBuf, lBuf
      ensures Core() && Tallied(base + strStart)
      ensures !matchAvailable && matchLength == 2
      ensures bflush <==> lastLit == lBuf.Length - 1
      ensures lastLit < lBuf.Length && strStart == old(strStart - 1 + prevLength)
      ensures strStart + lookahead == old(strStart + lookahead)
    {
      hide ChainsOk, Primed, Tallied, WindowHolds, Repeats;
      bflush := TallyDist(strStart - 1 - prevMatch, prevLength, base + strStart - 1);
      PassOver();
    }

    /** The strings of the carried match enter the dictionary. */
    method PassOver()
      requires Shape() && Holds(strStart + lookahead) && Chained(strStart + 1)
      requires lookahead > MIN_MATCH ==> PrimedAt(strStart + 1)
      requires 1 <= strStart && MIN_MATCH <= prevLength && prevLength - 1 <= lookahead
      modifies this`insH, this`ins, this`strStart, this`lookahead, this`matchLength, this`prevLength, this`matchAvailable, head, prev
      ensures Core() && !matchAvailable && matchLength == 2
      ensures strStart == old(strStart - 1 + prevLength) && strStart + lookahead == old(strStart + lookahead)
    {
      hide ChainsOk, Primed, WindowHolds;
      var maxInsert := strStart + lookahead - MIN_MATCH;
      lookahead := lookahead - (prevLength - 1);
      prevLength := prevLength - 2;
      InsertMatched(maxInsert, maxInsert + MIN_MATCH);
      matchAvailable := false;
      matchLength := MIN_MATCH - 1;
    }

    /** The same, with the flush of the block that it may fill. */
    method EmitMatch() returns (outFull: bool)
      requires Searched() && matchAvailable
      requires MIN_MATCH <= prevLength <= MAX_MATCH && CarriedMatch(strStart - 1, prevMatch, prevLength)
      modifies this`insH, this`ins, this`strStart, this`lookahead, this`matchLength, this`prevLength, this`matchAvailable
      modifies this`lastLit, this`pending, this`blocks, this`blockStart, head, prev, dBuf, lBuf
      ensures SlowInv() && lookahead < old(lookahead) && End() == old(End())
      ensures old(blocks) <= blocks
    {
      hide ChainsOk, Primed, WindowHolds, Tallied, CarriedMatch;
      var bflush := EmitCarried();
      outFull := false;
      if bflush { outFull := FlushBlockOnly(false); }
    }

    /** A match found at strstart is still weighed at the next step. */
    ghost predicate Weighed()
      requires Shape()
      reads this`matchLength, this`matchStart, this`strStart, this`text, this`base
    {
      matchLength >= MIN_MATCH ==> CarriedMatch(strStart, matchStart, matchLength)
    }

    /** The state between deflate_slow's search and its decision. */
    ghost predicate Searched()
      reads this, window, head, prev, dBuf, lBuf
    {
      && Shape()
      && Holds(strStart + lookahead) && Chained(strStart + 1)
      && (lookahead > MIN_MATCH ==> PrimedAt(strStart + 1))
      && 2 <= matchLength <= MAX_MATCH
      && 0 < lookahead && Held() <= strStart
      && Tallied(base + strStart - Held()) && lastLit + 1 < lBuf.Length
    }

    lemma HeldByte()
      requires Shape() && Holds(strStart + lookahead) && 0 < strStart
      ensures window[strStart - 1] == text[base + strStart - 1]
    {
    }

    /** The second branch of deflate_slow: the held byte becomes a literal and
        the byte at strstart is held in its place. */
    method EmitHeld() returns (outFull: bool)
      requires Searched() && Weighed() && matchAvailable
      modifies this`strStart, this`lookahead, this`lastLit, this`pending, this`blocks, this`blockStart, dBuf, lBuf
      ensures SlowInv() && strStart == old(strStart) + 1 && lookahead == old(lookahead) - 1
      ensures old(blocks) <= blocks
    {
      hide ChainsOk, Primed, WindowHolds, Tallied, CarriedMatch;
      outFull := false;
      HeldByte();
      var bflush := TallyLit(window[strStart - 1], base + strStart - 1);
      if bflush { outFull := FlushBlockOnly(false); }
      strStart := strStart + 1;
      lookahead := lookahead - 1;
    }

    /** The third branch: nothing to compare with yet, hold the byte at strstart. */
    method HoldByte()
      requires Searched() && Weighed() && !matchAvailable
      modifies this`strStart, this`lookahead, this`matchAvailable
      ensures SlowInv() && strStart == old(strStart) + 1 && lookahead == old(lookahead) - 1
    {
      hide ChainsOk, Primed, WindowHolds, Tallied, CarriedMatch;
      matchAvailable := true;
      strStart := strStart + 1;
      lookahead := lookahead - 1;
    }

    /** Everything a compression function leaves alone or only adds to. */
    twostate predicate Consumed()
      reads this`text, this`nextIn, this`blocks, this`finished, this`lastFlush
    {
      && text + nextIn == old(text + nextIn)
      && |old(text)| <= |text|
      && old(blocks) <= blocks
      && finished == old(finished) && lastFlush == old(lastFlush)
    }

    /** All input is compressed and flushed. */
    ghost predicate Drained()
      reads this`text, this`base, this`strStart, this`lookahead, this`nextIn, this`matchAvailable
      reads this`blocks, this`pending, this`blockStart, this`lastLit, dBuf, lBuf
    {
      Shape() && nextIn == [] && lookahead == 0 && !matchAvailable && lastLit == 0 && blockStart == strStart && Tallied(|text|)
    }

    /** The search of deflate_slow's loop, and what it means for the decision. */
    method LookAround()
      requires SlowInv() && 0 < lookahead && strStart + MIN_LOOKAHEAD <= window.Length
      modifies this`insH, this`ins, this`matchStart, this`matchLength, this`prevLength, this`prevMatch, head, prev
      ensures Searched()
      ensures if prevLength >= MIN_MATCH && matchLength <= prevLength
        then matchAvailable && prevLength <= MAX_MATCH && CarriedMatch(strStart - 1, prevMatch, prevLength) else Weighed()
    {
      hide ChainsOk, Primed, WindowHolds, Tallied, CarriedMatch;
      SearchSlow();
    }

    /** One pass of deflate_slow's loop after the refill; true asks for a return
        because the output buffer is full. */
    method StepSlow() returns (outFull: bool)
      requires SlowInv() && 0 < lookahead && strStart + MIN_LOOKAHEAD <= window.Length
      modifies this`insH, this`ins, this`matchStart, this`matchLength, this`prevLength, this`prevMatch, this`matchAvailable
      modifies this`strStart, this`lookahead, this`lastLit, this`pending, this`blocks, this`blockStart, head, prev, dBuf, lBuf
      ensures SlowInv() && lookahead < old(lookahead) && End() == old(End())
      ensures old(blocks) <= blocks
    {
      hide SlowInv, Searched, Weighed, CarriedMatch;
      SlowRoom();
      LookAround();
      if prevLength >= MIN_MATCH && matchLength <= prevLength {
        outFull := EmitMatch();
      } else if matchAvailable {
        outFull := EmitHeld();
      } else {
        HoldByte();
        outFull := false;
      }
    }

    lemma SlowRoom()
      requires SlowInv()
      ensures Shape() && End() <= window.Length
    {
    }

    /** Refilling keeps what is tallied. */
    twostate lemma TallySurvivesRefill(n: nat)
      requires Shape() && old(Tallied(n)) && Refilled()
      requires unchanged(this`blocks, this`pending, this`lastLit, dBuf, lBuf)
      ensures Tallied(n)
    {
      hide AllEncodable, Expand, Flatten;
      TextExtends(old(text), old(nextIn), text, nextIn);
      BlocksDecodeGrow(blocks, old(text), text[|old(text)|..], base + blockStart);
      assert text[..n] == old(text)[..n];
    }

    twostate lemma CarriedSurvivesRefill(len: nat)
      requires Shape() && Refilled() && (len >= MIN_MATCH ==> old(CarriedMatch(strStart - 1, matchStart, len)))
      ensures len >= MIN_MATCH ==> CarriedMatch(strStart - 1, matchStart, len)
    {
      if len >= MIN_MATCH {
        TextExtends(old(text), old(nextIn), text, nextIn);
        RepeatsGrow(old(text), text[|old(text)|..], base + strStart - 1, strStart - 1 - matchStart, len);
      }
    }

    /** fill_window at the top of deflate_slow's loop. */
    method RefillSlow()
      requires SlowInv() && lookahead < MIN_LOOKAHEAD
      requires TracedAt(End())
      modifies this`ext, this`nextIn, this`text, this`insH, this`matchStart, this`strStart, this`lookahead, this`blockStart, this`base
      modifies this`highWater, window, head, prev
      ensures SlowInv() && Consumed() && TracedAt(End()) && blocks == old(blocks)
      ensures |nextIn| + lookahead == old(|nextIn| + lookahead)
      ensures strStart + MIN_LOOKAHEAD <= window.Length
      ensures lookahead >= MIN_LOOKAHEAD || nextIn == []
      ensures Spanned() == old(NextSpan(Spanned(), strStart, wSize))
    {
      hide Clean, TracedAt, WindowHolds, Chained, PrimedAt, Tallied, NextSpan, CarriedMatch, Core;
      CoreParts();
      FillWindow();
      assert |text + nextIn| == old(|text + nextIn|);
      assert unchanged(dBuf, lBuf);
      TallySurvivesRefill(base + strStart - Held());
      CarriedSurvivesRefill(matchLength);
      CoreOfParts();
    }

    /** The top of the loop of deflate_slow; not `go` when it returns to wait for input, or
        everything is passed over. */
    method TopSlow(flush: Flush, ghost a: Span) returns (go: bool)
      requires SlowInv() && TracedAt(End()) && (Fits(a, wSize) ==> Spanned() == a || Spanned() == Filled(a, wSize))
      modifies this`ext, this`nextIn, this`text, this`insH, this`matchStart, this`strStart, this`lookahead, this`blockStart, this`base
      modifies this`highWater, window, head, prev
      ensures SlowInv() && Consumed() && TracedAt(End()) && |nextIn| + lookahead == old(|nextIn| + lookahead)
      ensures go ==> lookahead > 0 && strStart + MIN_LOOKAHEAD <= window.Length
      ensures go && Fits(a, wSize) ==> Spanned() == a || Spanned() == Filled(a, wSize)
      ensures !go ==> flush == NoFlush || (lookahead == 0 && nextIn == [])
      ensures !go && flush != NoFlush && Fits(a, wSize) ==> Spanned() == Settled(a, wSize)
    {
      hide TracedAt, SlowInv, NextSpan, Settled, Filled, Fits;
      go := true;
      if lookahead < MIN_LOOKAHEAD {
        Fitting(a);
        RefillSlow();
        if lookahead < MIN_LOOKAHEAD && flush == NoFlush { return false; }
        if lookahead == 0 { return false; }
      }
      SlowRoom();
    }

    /** The loop of deflate_slow; false when it returns to wait for input or output space. */
    method SlowLoop(flush: Flush) returns (ended: bool)
      requires SlowInv() && TracedAt(End())
      modifies this, window, head, prev, dBuf, lBuf
      ensures SlowInv() && Consumed() && TracedAt(End())
      ensures ended ==> lookahead == 0 && nextIn == [] && flush != NoFlush
      ensures ended && old(Fits(Spanned(), wSize)) ==> Spanned() == old(Settled(Spanned(), wSize))
    {
      hide TracedAt, Drained, SlowInv, NextSpan, Settled, Filled, Fits, ChainsOk, Primed, WindowHolds, Tallied, Repeats;
      ghost var a := Spanned();
      while true
        invariant SlowInv() && Consumed() && TracedAt(End())
        invariant Fits(a, wSize) ==> Spanned() == a || Spanned() == Filled(a, wSize)
        decreases |nextIn| + lookahead
      {
        var go := TopSlow(flush, a);
        if !go { return flush != NoFlush; }
        var outFull := StepSlow();
        if outFull { return false; }
      }
    }

    /** deflate_slow: lazy matching.  It returns with everything tallied and
        flushed, or to wait for input, or because the output buffer is full. */
    method DeflateSlow(flush: Flush) returns (r: BlockState)
      requires SlowInv()
      requires TracedAt(End())
      modifies this, window, head, prev, dBuf, lBuf
      ensures SlowInv() && Consumed() && TracedAt(End())
      ensures r == BlockDone || r == FinishDone || r == FinishStarted ==> Drained()
      ensures r == BlockDone ==> flush != Finish && flush != NoFlush
      ensures r == FinishDone || r == FinishStarted ==> flush == Finish
      ensures r != NeedMore && old(Fits(Spanned(), wSize)) ==> Spanned() == old(Settled(Spanned(), wSize))
    {
      hide TracedAt, Drained, SlowInv, NextSpan, Settled, Filled, Fits, ChainsOk, Primed, WindowHolds, Tallied, Repeats;
      var ended := SlowLoop(flush);
      if !ended { return NeedMore; }
      var outFull := FinishSlow(flush == Finish);
      if outFull { return if flush == Finish then FinishStarted else NeedMore; }
      return if flush == Finish then FinishDone else BlockDone;
    }

    /** The end of deflate_slow: the held byte becomes a literal and the last
        block of the call is flushed. */
    method FinishSlow(last: bool) returns (outFull: bool)
      requires SlowInv() && lookahead == 0 && nextIn == []
      modifies this`matchAvailable, this`lastLit, this`pending, this`blocks, this`blockStart, dBuf, lBuf
      ensures SlowInv() && Drained() && old(blocks) <= blocks
    {
      hide ChainsOk, Primed, WindowHolds, BlocksDecode, AllEncodable, Expand, Repeats;
      if matchAvailable {
        HeldByte();
        var _ := TallyLit(window[strStart - 1], base + strStart - 1);
        matchAvailable := false;
      }
      outFull := FlushBlockOnly(last);
    }

    // ---- deflate_fast -------------------------------------------------------

    /** What deflate_fast keeps between steps: all text before strstart is
        tallied and no match is carried over. */
    ghost predicate FastInv()
      reads this`text, this`base, this`ins, this`insH, this`strStart, this`lookahead, this`matchLength, this`matchStart, this`prevLength
      reads this`matchAvailable, this`blocks, this`pending, this`blockStart, this`lastLit, window, head, prev, dBuf, lBuf
    {
      && Core()
      && prevLength == 2 && matchLength < MIN_MATCH && !matchAvailable
      && Tallied(base + strStart)
      && lastLit + 1 < lBuf.Length
    }

    /** The insertion loop of deflate_fast, which runs only when every string of
        the match still has three bytes of data. */
    method InsertMatchedFast(ghost end: nat)
      requires Shape() && Holds(end) && 1 <= matchLength && strStart + matchLength + 4 <= end
      requires Chained(strStart + 1) && PrimedAt(strStart + 1)
      modifies this`strStart, this`matchLength, this`insH, this`ins, head, prev
      ensures strStart == old(strStart + matchLength) + 1 && matchLength == 0
      ensures Chained(strStart) && PrimedAt(strStart)
    {
      hide ChainsOk, WindowHolds, Primed, KeyAt, Candidate;
      while true
        invariant Holds(end) && 1 <= matchLength && strStart + matchLength == old(strStart + matchLength)
        invariant Chained(strStart + 1) && PrimedAt(strStart + 1)
        decreases matchLength
      {
        strStart := strStart + 1;
        var _ := InsertString(end);
        matchLength := matchLength - 1;
        if matchLength == 0 { break; }
      }
      strStart := strStart + 1;
    }

    /** The other branch: the match is too long to insert, so the running key is
        recomputed behind it. */
    method SkipMatched()
      requires Shape() && Holds(strStart + matchLength + lookahead) && Chained(strStart + 1)
      requires 1 <= matchLength && strStart + matchLength + 1 < window.Length
      modifies this`strStart, this`matchLength, this`insH
      ensures strStart == old(strStart + matchLength) && matchLength == 0
      ensures Chained(strStart) && (lookahead >= MIN_MATCH ==> PrimedAt(strStart))
    {
      hide ChainsOk, Primed, Update;
      ChainsGrow(memLevel, head[..], prev[..], text, [], ins, base, base + strStart + 1, base + strStart + matchLength);
      assert text + [] == text;
      strStart := strStart + matchLength;
      matchLength := 0;
      FreshKeyPrimed(memLevel, window[strStart], window[strStart + 1]);
      insH := Update(memLevel, window[strStart], window[strStart + 1]);
    }

    /** The first branch of deflate_fast: the match at strstart is tallied and
        passed over. */
    method EmitFast() returns (bflush: bool)
      requires Shape() && Holds(strStart + lookahead) && Chained(strStart + 1)
      requires lookahead > MIN_MATCH ==> PrimedAt(strStart + 1)
      requires strStart + MIN_LOOKAHEAD <= window.Length
      requires Tallied(base + strStart) && lastLit + 1 < lBuf.Length
      requires MIN_MATCH <= matchLength <= MAX_MATCH && CarriedMatch(strStart, matchStart, matchLength)
      modifies this`insH, this`ins, this`strStart, this`lookahead, this`matchLength
      modifies this`lastLit, this`pending, head, prev, dBuf, lBuf
      ensures Core() && Tallied(base + strStart) && matchLength == 0
      ensures lastLit < lBuf.Length && (bflush <==> lastLit == lBuf.Length - 1)
      ensures strStart + lookahead == old(strStart + lookahead) && strStart > old(strStart)
    {
      hide ChainsOk, Primed, Tallied, WindowHolds, Repeats;
      bflush := TallyDist(strStart - matchStart, matchLength, base + strStart);
      PassOverFast();
    }

    /** Passing over the match, with or without entering its strings. */
    method PassOverFast()
      requires Shape() && Holds(strStart + lookahead) && Chained(strStart + 1)
      requires lookahead > MIN_MATCH ==> PrimedAt(strStart + 1)
      requires strStart + MIN_LOOKAHEAD <= window.Length
      requires MIN_MATCH <= matchLength <= MAX_MATCH && matchLength <= lookahead
      modifies this`insH, this`ins, this`strStart, this`lookahead, this`matchLength, head, prev
      ensures Core() && matchLength == 0
      ensures strStart + lookahead == old(strStart + lookahead) && strStart == old(strStart + matchLength)
    {
      hide Chained, PrimedAt, WindowHolds, Core;
      lookahead := lookahead - matchLength;
      if matchLength <= Cfg().lazy && lookahead >= MIN_MATCH {
        matchLength := matchLength - 1;
        InsertMatchedFast(strStart + matchLength + 1 + lookahead);
      } else {
        SkipMatched();
      }
      CoreOfParts();
    }

    lemma NextByte()
      requires Shape() && Holds(strStart + lookahead) && 0 < lookahead
      ensures window[strStart] == text[base + strStart]
    {
    }

    /** A literal at strstart. */
    method EmitByte() returns (bflush: bool)
      requires Shape() && Holds(strStart + lookahead) && 0 < lookahead
      requires Tallied(base + strStart) && lastLit + 1 < lBuf.Length
      modifies this`strStart, this`lookahead, this`lastLit, this`pending, dBuf, lBuf
      ensures Tallied(base + strStart) && Holds(strStart + lookahead)
      ensures strStart == old(strStart) + 1 && lookahead == old(lookahead) - 1
      ensures lastLit < lBuf.Length && (bflush <==> lastLit == lBuf.Length - 1)
    {
      hide WindowHolds, BlocksDecode, AllEncodable, Expand;
      NextByte();
      bflush := TallyLit(window[strStart], base + strStart);
      lookahead := lookahead - 1;
      strStart := strStart + 1;
    }

    lemma FastRoom()
      requires FastInv()
      ensures Shape() && End() <= window.Length
    {
    }

    /** The search of deflate_fast's loop. */
    method SearchFast()
      requires FastInv() && 0 < lookahead && strStart + MIN_LOOKAHEAD <= window.Length
      modifies this`insH, this`ins, this`matchStart, this`matchLength, head, prev
      ensures Shape() && Holds(strStart + lookahead) && Chained(strStart + 1)
      ensures lookahead > MIN_MATCH ==> PrimedAt(strStart + 1)
      ensures matchLength <= MAX_MATCH && Weighed() && Tallied(base + strStart)
    {
      hide ChainsOk, Primed, WindowHolds, Tallied, Repeats, Linked;
      var hashHead := InsertHere();
      if hashHead != NIL && strStart - hashHead <= MaxDist() { matchLength := TextMatch(hashHead); }
    }

    /** One pass of deflate_fast's loop after the refill. */
    method StepFast() returns (outFull: bool)
      requires FastInv() && 0 < lookahead && strStart + MIN_LOOKAHEAD <= window.Length
      modifies this`insH, this`ins, this`matchStart, this`matchLength
      modifies this`strStart, this`lookahead, this`lastLit, this`pending, this`blocks, this`blockStart, head, prev, dBuf, lBuf
      ensures FastInv() && lookahead < old(lookahead) && End() == old(End())
      ensures old(blocks) <= blocks
    {
      hide ChainsOk, Primed, WindowHolds, Tallied, CarriedMatch;
      SearchFast();
      var bflush;
      if matchLength >= MIN_MATCH { bflush := EmitFast(); } else { bflush := EmitByte(); }
      outFull := false;
      if bflush { outFull := FlushBlockOnly(false); }
    }

    /** fill_window where no match is carried over. */
    method RefillPlain()
      requires FastInv() && lookahead < MIN_LOOKAHEAD
      requires TracedAt(End())
      modifies this`ext, this`nextIn, this`text, this`insH, this`matchStart, this`strStart, this`lookahead, this`blockStart, this`base
      modifies this`highWater, window, head, prev
      ensures FastInv() && Consumed() && TracedAt(End()) && blocks == old(blocks)
      ensures |nextIn| + lookahead == old(|nextIn| + lookahead) && lookahead >= old(lookahead)
      ensures strStart + MIN_LOOKAHEAD <= window.Length
      ensures lookahead >= MIN_LOOKAHEAD || nextIn == []
      ensures Spanned() == old(NextSpan(Spanned(), strStart, wSize))
    {
      hide Clean, TracedAt, ChainsOk, Primed, WindowHolds, Tallied, NextSpan;
      FillWindow();
      assert |text + nextIn| == old(|text + nextIn|);
      assert unchanged(dBuf, lBuf);
      TallySurvivesRefill(base + strStart);
    }

    /** The end of deflate_fast: the last block of the call is flushed. */
    method FinishFast(last: bool) returns (outFull: bool)
      requires FastInv() && lookahead == 0 && nextIn == []
      modifies this`lastLit, this`pending, this`blocks, this`blockStart, dBuf, lBuf
      ensures FastInv() && Drained() && old(blocks) <= blocks
    {
      hide ChainsOk, Primed, WindowHolds, Tallied;
      outFull := FlushBlockOnly(last);
    }

    /** The top of the loop of deflate_fast; not `go` when it returns to wait for input, or
        everything is passed over. */
    method TopFast(flush: Flush, ghost a: Span) returns (go: bool)
      requires FastInv() && TracedAt(End()) && (Fits(a, wSize) ==> Spanned() == a || Spanned() == Filled(a, wSize))
      modifies this`ext, this`nextIn, this`text, this`insH, this`matchStart, this`strStart, this`lookahead, this`blockStart, this`base
      modifies this`highWater, window, head, prev
      ensures FastInv() && Consumed() && TracedAt(End()) && |nextIn| + lookahead == old(|nextIn| + lookahead)
      ensures go ==> lookahead > 0 && strStart + MIN_LOOKAHEAD <= window.Length
      ensures go && Fits(a, wSize) ==> Spanned() == a || Spanned() == Filled(a, wSize)
      ensures !go ==> flush == NoFlush || (lookahead == 0 && nextIn == [])
      ensures !go && flush != NoFlush && Fits(a, wSize) ==> Spanned() == Settled(a, wSize)
    {
      hide TracedAt, FastInv, NextSpan, Settled, Filled, Fits;
      go := true;
      if lookahead < MIN_LOOKAHEAD {
        Fitting(a);
        RefillPlain();
        if lookahead < MIN_LOOKAHEAD && flush == NoFlush { return false; }
        if lookahead == 0 { return false; }
      }
      FastRoom();
    }

    /** The loop of deflate_fast; false when it returns to wait for input or output space. */
    method FastLoop(flush: Flush) returns (ended: bool)
      requires FastInv() && TracedAt(End())
      modifies this, window, head, prev, dBuf, lBuf
      ensures FastInv() && Consumed() && TracedAt(End())
      ensures ended ==> lookahead == 0 && nextIn == [] && flush != NoFlush
      ensures ended && old(Fits(Spanned(), wSize)) ==> Spanned() == old(Settled(Spanned(), wSize))
    {
      hide TracedAt, Drained, FastInv, NextSpan, Settled, Filled, Fits, ChainsOk, Primed, WindowHolds, Tallied, Repeats;
      ghost var a := Spanned();
      while true
        invariant FastInv() && Consumed() && TracedAt(End())
        invariant Fits(a, wSize) ==> Spanned() == a || Spanned() == Filled(a, wSize)
        decreases |nextIn| + lookahead
      {
        var go := TopFast(flush, a);
        if !go { return flush != NoFlush; }
        var outFull := StepFast();
        if outFull { return false; }
      }
    }

    /** deflate_fast: greedy matching. */
    method DeflateFast(flush: Flush) returns (r: BlockState)
      requires FastInv()
      requires TracedAt(End())
      modifies this, window, head, prev, dBuf, lBuf
      ensures FastInv() && Consumed() && TracedAt(End())
      ensures r == BlockDone || r == FinishDone || r == FinishStarted ==> Drained()
      ensures r == BlockDone ==> flush != Finish && flush != NoFlush
      ensures r == FinishDone || r == FinishStarted ==> flush == Finish
      ensures r != NeedMore && old(Fits(Spanned(), wSize)) ==> Spanned() == old(Settled(Spanned(), wSize))
    {
      hide TracedAt, Drained, FastInv, NextSpan, Settled, Filled, Fits, ChainsOk, Primed, WindowHolds, Tallied, Repeats;
      var ended := FastLoop(flush);
      if !ended { return NeedMore; }
      var outFull := FinishFast(flush == Finish);
      if outFull { return if flush == Finish then FinishStarted else NeedMore; }
      return if flush == Finish then FinishDone else BlockDone;
    }

    // ---- deflate_huff -------------------------------------------------------

    /** What deflate_huff keeps: nothing is inserted and the running key is not
        kept up, so only the window and the tally are trusted. */
    ghost predicate HuffInv()
      reads this`text, this`base, this`ins, this`insH, this`strStart, this`lookahead, this`matchLength, this`matchStart, this`prevLength
      reads this`matchAvailable, this`blocks, this`pending, this`blockStart, this`lastLit, window, head, prev, dBuf, lBuf
    {
      && Shape() && Holds(strStart + lookahead) && Chained(strStart)
      && matchLength < MIN_MATCH && !matchAvailable
      && Tallied(base + strStart)
      && lastLit + 1 < lBuf.Length
    }

    /** What the next fill of a call whose input fits comes to. */
    lemma Fitting(a: Span)
      requires (SlowInv() || FastInv() || HuffInv()) && TracedAt(End())
      requires Fits(a, wSize) ==> Spanned() == a || Spanned() == Filled(a, wSize)
      ensures Fits(a, wSize) && nextIn != [] ==> NextSpan(Spanned(), strStart, wSize) == Filled(a, wSize)
      ensures Fits(a, wSize) && nextIn == [] && lookahead > 0 ==> NextSpan(Spanned(), strStart, wSize) == Filled(a, wSize)
      ensures Fits(a, wSize) && nextIn == [] && lookahead == 0 ==> NextSpan(Spanned(), strStart, wSize) == Settled(a, wSize)
    {
      hide NextSpan;
      TracedHole(ext, wSize, highWater, End());
      if Fits(a, wSize) { FillsOnce(a, Spanned(), strStart, wSize); }
    }

    /** fill_window is asked for input only when the lookahead is empty. */
    method RefillHuff()
      requires HuffInv() && lookahead == 0
      requires TracedAt(End())
      modifies this`ext, this`nextIn, this`text, this`insH, this`matchStart, this`strStart, this`lookahead, this`blockStart, this`base
      modifies this`highWater, window, head, prev
      ensures HuffInv() && Consumed() && TracedAt(End()) && blocks == old(blocks)
      ensures |nextIn| + lookahead == old(|nextIn| + lookahead)
      ensures lookahead == 0 ==> nextIn == []
      ensures strStart == old(if Slides() then strStart - wSize else strStart)
      ensures Spanned() == old(NextSpan(Spanned(), strStart, wSize))
    {
      hide Clean, TracedAt, ChainsOk, Primed, WindowHolds, Tallied, NextSpan;
      FillWindow();
      assert |text + nextIn| == old(|text + nextIn|);
      assert unchanged(dBuf, lBuf);
      TallySurvivesRefill(base + strStart);
    }

    /** A byte passed over by deflate_huff. */
    method StepHuff() returns (outFull: bool)
      requires HuffInv() && 0 < lookahead
      modifies this`matchLength, this`strStart, this`lookahead, this`lastLit, this`pending, this`blocks, this`blockStart, dBuf, lBuf
      ensures HuffInv() && lookahead < old(lookahead) && End() == old(End())
      ensures old(blocks) <= blocks
    {
      hide ChainsOk, WindowHolds, Tallied;
      matchLength := 0;
      ChainsGrow(memLevel, head[..], prev[..], text, [], ins, base, base + strStart, base + strStart + 1);
      assert text + [] == text;
      var bflush := EmitByte();
      outFull := false;
      if bflush { outFull := FlushBlockOnly(false); }
    }

    /** The end of deflate_huff: the last block of the call is flushed. */
    method FinishHuff(last: bool) returns (outFull: bool)
      requires HuffInv() && lookahead == 0 && nextIn == []
      modifies this`lastLit, this`pending, this`blocks, this`blockStart, dBuf, lBuf
      ensures HuffInv() && Drained() && old(blocks) <= blocks
    {
      hide ChainsOk, Primed, WindowHolds, Tallied;
      outFull := FlushBlockOnly(last);
    }

    /** The loop of deflate_huff; false when it returns to wait for input or output space. */
    method HuffLoop(flush: Flush) returns (ended: bool)
      requires HuffInv() && TracedAt(End())
      modifies this, window, head, prev, dBuf, lBuf
      ensures HuffInv() && Consumed() && TracedAt(End())
      ensures ended ==> lookahead == 0 && nextIn == [] && flush != NoFlush
      ensures ended && old(Fits(Spanned(), wSize)) ==> Spanned() == old(Settled(Spanned(), wSize))
    {
      hide TracedAt, Drained, HuffInv, NextSpan, Settled, Filled, Fits, ChainsOk, WindowHolds, Tallied;
      ghost var a := Spanned();
      while true
        invariant HuffInv() && Consumed() && TracedAt(End())
        invariant Fits(a, wSize) ==> Spanned() == a || Spanned() == Filled(a, wSize)
        decreases |nextIn| + lookahead
      {
        if lookahead == 0 {
          Fitting(a);
          RefillHuff();
          if lookahead == 0 {
            if flush == NoFlush { return false; }
            return true;
          }
        }
        var outFull := StepHuff();
        if outFull { return false; }
      }
    }

    /** deflate_huff: literals only. */
    method DeflateHuff(flush: Flush) returns (r: BlockState)
      requires HuffInv()
      requires TracedAt(End())
      modifies this, window, head, prev, dBuf, lBuf
      ensures HuffInv() && Consumed() && TracedAt(End())
      ensures r == BlockDone || r == FinishDone || r == FinishStarted ==> Drained()
      ensures r == BlockDone ==> flush != Finish && flush != NoFlush
      ensures r == FinishDone || r == FinishStarted ==> flush == Finish
      ensures r != NeedMore && old(Fits(Spanned(), wSize)) ==> Spanned() == old(Settled(Spanned(), wSize))
    {
      hide TracedAt, Drained, HuffInv, NextSpan, Settled, Filled, Fits, ChainsOk, WindowHolds, Tallied;
      var ended := HuffLoop(flush);
      if !ended { return NeedMore; }
      var outFull := FinishHuff(flush == Finish);
      if outFull { return if flush == Finish then FinishStarted else NeedMore; }
      return if flush == Finish then FinishDone else BlockDone;
    }

    // ---- deflate --------------------------------------------------------------

    /** The invariant of the compression function the configuration selects. */
    ghost predicate Valid()
      reads this`text, this`base, this`ins, this`insH, this`strStart, this`lookahead, this`matchLength, this`matchStart, this`prevLength
      reads this`matchAvailable, this`blocks, this`pending, this`blockStart, this`lastLit, window, head, prev, dBuf, lBuf
    {
      if strategy == HuffmanOnly then HuffInv() else if Cfg().slow then SlowInv() else FastInv()
    }

    lemma FreshIsValid()
      requires Shape() && forall i :: 0 <= i < head.Length ==> head[i] == NIL
      requires text == [] && base == 0 && ins == {} && pending == [] && blocks == []
      requires strStart == lookahead == lastLit == 0 && blockStart == 0
      requires matchLength == prevLength == 2 && !matchAvailable
      ensures Valid()
    {
      hide HashSize, CarriedMatch, Primed, BlocksDecode;
      EmptyChains(memLevel, head[..], prev[..], text, 0, 0);
      assert BlocksDecode(blocks, text, 0) by { NoBlocks(); }
    }

    /** deflateInit2 and lm_init. */
    constructor (windowBits: nat, memLevel: Level, level: CompressionLevel, strategy: Strategy)
      requires 9 <= windowBits <= 15
      ensures TracedAt(End()) && Valid() && fresh(window) && fresh(head) && fresh(prev) && fresh(dBuf) && fresh(lBuf)
      ensures text == [] && nextIn == [] && blocks == [] && !finished && lastFlush == Rank(NoFlush)
      ensures wSize == Pow2(windowBits) && wSize >= 512
      ensures this.level == level && this.strategy == strategy
      ensures strStart == 0 && lookahead == 0 && highWater == 0 && ext == Extent({}, wSize)
    {
      hide Pow2, ChainsOk, Primed, HashSize, ConfigOf, CarriedMatch;
      TableSizes(windowBits, memLevel);
      this.wSize, this.memLevel, this.level, this.strategy := Pow2(windowBits), memLevel, level, strategy;
      window := new byte[2 * Pow2(windowBits)];
      head := new nat[HashSize(memLevel)](_ => NIL);
      prev := new nat[Pow2(windowBits)];
      dBuf := new nat[Pow2(memLevel + 6)];
      lBuf := new byte[Pow2(memLevel + 6)];
      nextIn, insH, strStart, lookahead, blockStart := [], 0, 0, 0, 0;
      matchLength, matchStart, prevLength, prevMatch := MIN_MATCH - 1, 0, MIN_MATCH - 1, 0;
      matchAvailable, highWater, lastLit, blocks, finished, lastFlush := false, 0, 0, [], false, 0;
      text, base, ins, pending := [], 0, {}, [];
      ext := Extent({}, Pow2(windowBits));
      FreshTraced(Pow2(windowBits));
      new;
      FreshIsValid();
    }

    /** No match is carried over or weighed, in the way the selected function leaves it. */
    ghost predicate Quiet()
      reads this`matchLength, this`prevLength, this`matchAvailable, this`lastLit
    {
      && !matchAvailable && matchLength < MIN_MATCH && lastLit + 1 < lBuf.Length
      && (strategy != HuffmanOnly ==> if Cfg().slow then 2 <= matchLength else prevLength == 2)
    }

    lemma DrainedIsQuiet()
      requires Valid() && Drained()
      ensures Quiet() && Holds(End()) && base + strStart == |text|
    {
      hide ChainsOk, Primed, WindowHolds, Tallied, CarriedMatch;
    }

    lemma QuietIsValid()
      requires Shape() && Quiet() && lookahead == 0 && Holds(End()) && Chained(strStart) && Tallied(base + strStart)
      ensures Valid()
    {
      hide ChainsOk, Primed, WindowHolds, Tallied, CarriedMatch;
    }

    /** CLEAR_HASH, and the restart at the bottom of the window, after a full flush. */
    method ForgetHistory()
      requires Valid() && Drained()
      requires TracedAt(End())
      modifies this`strStart, this`blockStart, this`base, this`ins, head
      ensures Valid() && TracedAt(End()) && Drained() && strStart == 0
    {
      hide TracedAt, Valid, ChainsOk, BlocksDecode, AllEncodable, Expand;
      DrainedIsQuiet();
      RestartTraced(End());
      forall i | 0 <= i < head.Length { head[i] := NIL; }
      EmptyChains(memLevel, head[..], prev[..], text, base + strStart, base + strStart);
      base := base + strStart;
      strStart, blockStart, ins := 0, 0, {};
      QuietIsValid();
    }

    /** The call of the configured compression function. */
    method Dispatch(flush: Flush) returns (r: BlockState)
      requires Valid()
      requires TracedAt(End())
      modifies this, window, head, prev, dBuf, lBuf
      ensures Valid() && Consumed() && TracedAt(End())
      ensures r == BlockDone || r == FinishDone || r == FinishStarted ==> Drained()
      ensures r == BlockDone ==> flush != Finish && flush != NoFlush
      ensures r == FinishDone || r == FinishStarted ==> flush == Finish
      ensures r != NeedMore && old(Fits(Spanned(), wSize)) ==> Spanned() == old(Settled(Spanned(), wSize))
    {
      hide TracedAt, SlowInv, FastInv, HuffInv, Tallied;
      if strategy == HuffmanOnly { r := DeflateHuff(flush); }
      else if Cfg().slow { r := DeflateSlow(flush); }
      else { r := DeflateFast(flush); }
    }

    /** Where the window stands once the caller has offered more input. */
    ghost function Offering(data: seq<byte>): Span
      reads this`strStart, this`lookahead, this`nextIn, this`highWater, this`ext
    {
      Spanned().(left := |nextIn| + |data|)
    }

    /** A flush that asks for no more than the last one did, with nothing to write or read. */
    predicate Useless(data: seq<byte>, flush: Flush, output: Output)
      reads this`nextIn, this`lastFlush
    {
      output == Clear && nextIn + data == [] && Rank(flush) <= lastFlush && flush != Finish
    }

    /** The call of the compression function and what deflate does with its result: a
        completed full flush forgets the history. */
    method Run(flush: Flush) returns (b: BlockState)
      requires Valid() && !finished && TracedAt(End()) && lastFlush == Rank(flush)
      modifies this, window, head, prev, dBuf, lBuf
      ensures TracedAt(End()) && Valid()
      ensures text + nextIn == old(text + nextIn)
      ensures |old(text)| <= |text| && old(blocks) <= blocks
      ensures lastFlush == Rank(flush) || (lastFlush == -1 && b != FinishDone)
      ensures b != NeedMore ==> Drained()
      ensures b == FinishDone || b == FinishStarted ==> flush == Finish
      ensures b == BlockDone ==> flush != Finish
      ensures finished <==> b == FinishDone || b == FinishStarted
      ensures b != NeedMore && flush != FullFlush && old(Fits(Spanned(), wSize)) ==> Spanned() == old(Settled(Spanned(), wSize))
    {
      hide TracedAt, SlowInv, FastInv, HuffInv, Tallied, Valid, Rank, Fits, Settled, Drained;
      b := Dispatch(flush);
      if b == FinishStarted || b == FinishDone { MarkFinished(); }
      if b == BlockDone && flush == FullFlush { ForgetHistory(); }
      var spaceLeft: bool := *;
      if b != FinishDone && !spaceLeft { NoteFlush(-1); }
    }

    /** The part of deflate behind its checks: new input is offered, and the compression
        function runs if there is anything to do. */
    method Compress(data: seq<byte>, flush: Flush) returns (r: CallResult)
      requires Valid() && (finished ==> Drained() && data == [] && flush == Finish)
      requires TracedAt(End()) && lastFlush == Rank(flush)
      modifies this, window, head, prev, dBuf, lBuf
      ensures TracedAt(End())
      ensures Valid() && (finished ==> Drained() && flush == Finish) && Takes(r)
      ensures text + nextIn == old(text + nextIn) + data
      ensures |old(text)| <= |text| && old(blocks) <= blocks
      ensures lastFlush == Rank(flush) || (lastFlush == -1 && r.Ran? && r.state != FinishDone)
      ensures r == Idle <==> old(finished) || (flush == NoFlush && data == [] && old(nextIn == [] && lookahead == 0))
      ensures r.Ran? && r.state != NeedMore ==> Drained()
      ensures r == Ran(BlockDone) ==> flush != Finish
      ensures finished <==> old(finished) || r == Ran(FinishDone) || r == Ran(FinishStarted)
      ensures r.Ran? && r.state != NeedMore && flush != FullFlush && old(Fits(Offering(data), wSize)) ==>
        Spanned() == old(Settled(Offering(data), wSize))
    {
      hide TracedAt, SlowInv, FastInv, HuffInv, Tallied, Valid, Rank, Fits, Settled;
      Offer(data);
      if nextIn == [] && lookahead == 0 && (flush == NoFlush || finished) { return Idle; }
      var b := Run(flush);
      r := Ran(b);
    }

    /** One call of deflate. */
    method Deflate(data: seq<byte>, flush: Flush, output: Output) returns (r: CallResult)
      requires Valid() && (finished ==> Drained())
      requires TracedAt(End())
      modifies this, window, head, prev, dBuf, lBuf
      ensures TracedAt(End())
      ensures Valid() && (finished ==> Drained())
      ensures text + nextIn == old(text + nextIn) + (if Takes(r) then data else [])
      ensures |old(text)| <= |text| && old(blocks) <= blocks
      ensures !Takes(r) ==> text == old(text) && blocks == old(blocks)
      ensures r == StreamError <==> old(finished) && flush != Finish
      ensures r == BufError <==>
        && !(old(finished) && flush != Finish)
        && (output == NoSpace || old(Useless(data, flush, output)) || (output != Stuck && old(finished) && data != []))
      ensures r == Waiting <==> !(old(finished) && flush != Finish) && output == Stuck
      ensures r == StreamError || output == NoSpace ==> lastFlush == old(lastFlush)
      ensures r == Waiting ==> lastFlush == -1
      ensures r == Idle ==> lastFlush == Rank(flush) && (flush == NoFlush || old(finished))
      ensures r.Ran? ==> lastFlush == Rank(flush) || (r.state != FinishDone && lastFlush == -1)
      ensures r.Ran? && r.state != NeedMore ==> Drained()
      ensures r == Ran(BlockDone) ==> flush != Finish
      ensures r.Ran? && r.state != NeedMore && flush != FullFlush && old(Fits(Offering(data), wSize)) ==>
        Spanned() == old(Settled(Offering(data), wSize))
      ensures finished <==> old(finished) || r == Ran(FinishDone) || r == Ran(FinishStarted)
      ensures finished && !old(finished) ==> flush == Finish
    {
      hide TracedAt, SlowInv, FastInv, HuffInv, Tallied, Valid, Rank, Fits, Settled;
      if finished && flush != Finish { return StreamError; }
      if output == NoSpace { return BufError; }
      var oldFlush := lastFlush;
      NoteFlush(Rank(flush));
      if output == Stuck {
        NoteFlush(-1);
        return Waiting;
      }
      if output == Clear && nextIn + data == [] && Rank(flush) <= oldFlush && flush != Finish { return BufError; }
      if finished && data != [] { return BufError; }
      r := Compress(data, flush);
    }

    /** last_flush changes, and nothing else. */
    method NoteFlush(n: int)
      requires Valid() && TracedAt(End())
      modifies this`lastFlush
      ensures Valid() && TracedAt(End()) && lastFlush == n && (old(Drained()) ==> Drained())
    {
      hide Valid, Drained, TracedAt;
      lastFlush := n;
    }

    /** status becomes FINISH_STATE. */
    method MarkFinished()
      requires Valid() && Drained()
      modifies this`finished
      ensures Valid() && Drained() && finished
    {
      hide Valid, Drained, TracedAt;
      finished := true;
    }

    /** The caller puts more input behind next_in. */
    method Offer(data: seq<byte>)
      requires Valid()
      modifies this`nextIn
      ensures Valid() && text + nextIn == old(text + nextIn) + data
      ensures nextIn == old(nextIn) + data
      ensures data == [] && old(Drained()) ==> Drained()
    {
      hide Valid, Drained, TracedAt;
      assert nextIn + [] == nextIn;
      nextIn := nextIn + data;
    }
  }

  /** One call of deflate. */
  datatype Call = Call(data: seq<byte>, flush: Flush, output: Output)

  /** The input taken by a sequence of calls with these results. */
  function Offered(calls: seq<Call>, results: seq<CallResult>): seq<byte>
    requires |calls| == |results|
  {
    if |calls| == 0 then []
    else
      var n := |calls| - 1;
      Offered(calls[..n], results[..n]) + if Takes(results[n]) then calls[n].data else []
  }

  /** At any moment of a run the blocks handed to trees.c hold only encodable
      tokens within reach and decode, block by block, to the beginning of the
      input, and to all of it once drained. */
  ghost predicate FaithfulBlocks(bs: seq<Block>, offered: seq<byte>, maxDist: nat, drained: bool)
  {
    var n := |Expand(Flatten(bs))|;
    BlocksDecode(bs, offered, n) && AllEncodable(Flatten(bs), maxDist) && (drained ==> n == |offered|)
  }

  lemma ValidIsFaithful(s: DeflateState, offered: seq<byte>)
    requires s.Valid() && s.text + s.nextIn == offered
    ensures FaithfulBlocks(s.blocks, offered, s.MaxDist(), s.Drained())
  {
    hide AllEncodable, Expand, Flatten, ChainsOk, Primed, WindowHolds;
    BlocksDecodeGrow(s.blocks, s.text, s.nextIn, s.base + s.blockStart);
    EncodablePrefix(Flatten(s.blocks), s.pending, s.MaxDist());
  }

  /** The results that promise that everything offered is in the blocks. */
  predicate Completes(r: CallResult)
  {
    r == Ran(BlockDone) || r == Ran(FinishStarted) || r == Ran(FinishDone)
  }

  /** A whole run: any sequence of deflate calls on a fresh state, refused ones included. */
  method Session(windowBits: nat, memLevel: Level, level: CompressionLevel, strategy: Strategy, calls: seq<Call>)
    returns (blocks: seq<Block>, results: seq<CallResult>)
    requires 9 <= windowBits <= 15
    ensures |results| == |calls| && Pow2(windowBits) >= MIN_LOOKAHEAD
    ensures FaithfulBlocks(blocks, Offered(calls, results), Pow2(windowBits) - MIN_LOOKAHEAD,
                           |results| > 0 && Completes(results[|results| - 1]))
  {
    hide DeflateState.TracedAt, DeflateState.Valid, DeflateState.Drained, BlocksDecode, AllEncodable, Expand, Pow2, Takes;
    var s := new DeflateState(windowBits, memLevel, level, strategy);
    results := [];
    ghost var done := false;
    while |results| < |calls|
      invariant |results| <= |calls|
      invariant s.TracedAt(s.End())
      invariant s.Valid() && (s.finished || done ==> s.Drained())
      invariant fresh(s) && fresh(s.window) && fresh(s.head) && fresh(s.prev) && fresh(s.dBuf) && fresh(s.lBuf)
      invariant s.text + s.nextIn == Offered(calls[..|results|], results)
      invariant done == (|results| > 0 && Completes(results[|results| - 1]))
    {
      var n := |results|;
      var r := s.Deflate(calls[n].data, calls[n].flush, calls[n].output);
      assert calls[..n + 1][..n] == calls[..n] && (results + [r])[..n] == results;
      results := results + [r];
      done := Completes(r);
    }
    assert calls[..|results|] == calls;
    blocks := s.blocks;
    ValidIsFaithful(s, Offered(calls, results));
  }
}
