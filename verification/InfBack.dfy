/** infback.c and inffast.c: decoding a deflate stream with input and output
    call-backs and a circular window. */
module InfBack {
  import opened Bits
  import opened BitInput
  import opened InflateSpec
  import opened InfTrees
  import opened SymbolSort
  import opened PrefixCode
  import opened CodeTables
  import opened BlockHeaders
  import opened InflateStandard
  import opened Canonical
  import Arith
  import Lz77

  datatype Mode = TYPE | STORED | TABLE | LEN | DONE | BAD

  datatype Return = STREAM_END | DATA_ERROR | BUF_ERROR

  class Inflater {
    const wsize: nat
    const window: array<byte>

    // input: the buffer that in() handed over last, the first byte of it not yet
    // taken, the buffers in() will hand over, and the bit accumulator
    var next: seq<byte>
    var at: nat
    var later: seq<seq<byte>>
    var hold: nat
    var bits: nat
    ghost var input: seq<byte>
    ghost var pos: nat

    // output: the next window byte to write, the space behind it, and what out() received
    var put: nat
    var left: nat
    var whave: nat
    var sane: bool
    var sunk: seq<seq<byte>>
    ghost var out: seq<byte>
    ghost var outFailed: bool
    /** Where the matches beyond the window that were met end: those copied, and those refused. */
    ghost var taken: set<nat>
    ghost var refused: set<nat>

    // the block being decoded
    var mode: Mode
    var last: bool
    var lencode: Table
    var distcode: Table
    var nlen: nat
    var ndist: nat
    var ncode: nat
    var have: nat
    const lens: array<nat>
    const work: array<nat>
    const codes: array<Code>
    const fixed: array<Code>
    ghost var ll: seq<nat>
    ghost var dl: seq<nat>

    // ---- input ---------------------------------------------------------------------

    ghost function Z(): Stream reads this`input { StreamOf(input, wsize) }

    /** The stream position of the first bit held. */
    ghost function P(): int reads this`bits, this`pos { 8 * pos - bits }

    ghost predicate BufferOk()
      reads this`next, this`at, this`later, this`input, this`pos
    {
      Buffered(next, at, later, input, pos)
    }

    /** The accumulator holds the bits before the next byte. */
    ghost predicate HoldOk()
      reads this`hold, this`bits, this`input, this`pos
    {
      && bits <= 8 * pos && bits <= 32 && pos <= |input|
      && hold == Low(From(Z(), P()), bits)
    }

    ghost predicate InputOk()
      reads this`next, this`at, this`later, this`hold, this`bits, this`input, this`pos
    {
      BufferOk() && HoldOk()
    }

    /** in() hands over something until the input ends. */
    ghost predicate Fed() reads this`later { forall i :: 0 <= i < |later| ==> later[i] != [] }

    /** The PULL macro: assure that some input is available. */
    method Pull() returns (ok: bool)
      requires InputOk()
      modifies `next, `at, `later
      ensures old(later) == [] ==> later == []
      ensures InputOk() && (old(Fed()) ==> Fed())
      ensures ok ==> at < |next|
      ensures old(at < |next|) ==> ok && at == old(at) && next == old(next)
      ensures !ok && old(Fed()) ==> pos == |input|
    {
      hide Buffered, HoldOk;
      Bounds();
      ok := true;
      if at == |next| {
        BufferSwitched(next, later, input, pos);
        if later == [] { return false; }
        next, later, at := later[0], later[1..], 0;
        ok := next != [];
      }
    }

    /** The PULLBYTE macro. */
    method PullByte() returns (ok: bool)
      requires InputOk() && bits <= 24
      modifies `next, `at, `later, `hold, `bits, `pos
      ensures old(later) == [] ==> later == []
      ensures InputOk() && P() == old(P()) && (old(Fed()) ==> Fed())
      ensures ok ==> bits == old(bits) + 8 && pos == old(pos) + 1
      ensures !ok ==> bits == old(bits) && hold == old(hold) && pos == old(pos)
      ensures !ok && old(Fed()) ==> pos == |input|
    {
      hide Low, Shl, From, Buffered;
      ok := Pull();
      if ok {
        BufferTaken(next, at, later, input, pos);
        PullExtends(input, wsize, P(), bits, pos);
        hold := hold + Shl(next[at], bits);
        at, bits, pos := at + 1, bits + 8, pos + 1;
      }
    }

    lemma Bounds()
      requires InputOk()
      ensures at <= |next| && pos <= |input|
    {
    }

    /** The NEEDBITS macro. */
    method NeedBits(n: nat) returns (ok: bool)
      requires InputOk() && bits < n + 8
      requires n <= 25 || (n == 32 && bits % 8 == 0)
      modifies `next, `at, `later, `hold, `bits, `pos
      ensures old(later) == [] ==> later == []
      ensures InputOk() && P() == old(P()) && (old(Fed()) ==> Fed())
      ensures ok ==> n <= bits < n + 8 && P() + n <= Z().total
      ensures old(bits) >= n ==> ok && bits == old(bits)
      ensures !ok && old(Fed()) ==> P() + n > Z().total
    {
      hide InputOk, Fed;
      ok := true;
      ghost var whole := bits / 8;
      while bits < n
        invariant InputOk() && P() == old(P()) && (old(Fed()) ==> Fed())
        invariant old(later) == [] ==> later == []
        invariant bits < n + 8 && (n == 32 ==> bits == 8 * whole) && (old(bits) >= n ==> bits == old(bits))
        decreases |input| - pos
      {
        PositionBound();
        ok := PullByte();
        PositionBound();
        if !ok { return; }
        whole := whole + 1;
      }
      PositionBound();
    }

    lemma PositionBound()
      requires InputOk()
      ensures pos <= |input| && bits <= 32 && 0 <= P() && P() + bits == 8 * pos <= Z().total
    {
    }

    /** The BITS macro: the bits at the front. */
    method TheBits(n: nat) returns (x: nat)
      requires InputOk() && n <= bits
      ensures x == Peek(Z(), P(), n)
    {
      hide Low, From;
      DropShifts(Z(), P(), bits, n);
      x := Low(hold, n);
    }

    /** The DROPBITS macro. */
    method DropBits(n: nat)
      requires InputOk() && n <= bits
      modifies `hold, `bits
      ensures InputOk() && P() == old(P()) + n && bits == old(bits) - n && hold == Shr(old(hold), n)
    {
      hide Low, From;
      DropShifts(Z(), P(), bits, n);
      hold := Shr(hold, n);
      bits := bits - n;
    }

    /** The INITBITS macro: forget the bits held. */
    method InitBits()
      requires InputOk()
      modifies `hold, `bits
      ensures InputOk() && P() == old(P() + bits) && bits == 0
    {
      hide Buffered;
      hold, bits := 0, 0;
      assert Low(From(Z(), P()), 0) == 0;
    }

    /** The BYTEBITS macro. */
    method ByteBits()
      requires InputOk()
      modifies `hold, `bits
      ensures InputOk() && P() == Align(old(P())) && bits == old(bits) - old(bits) % 8
    {
      AlignOf(pos, bits);
      DropBits(bits % 8);
    }

    // ---- output --------------------------------------------------------------------

    ghost predicate OutOk()
      reads this`put, this`left, this`whave, this`sunk, this`out, window
    {
      Windowed(window[..], put, left, wsize, whave, sunk, out)
    }

    lemma OutBounds()
      requires OutOk()
      ensures window.Length == wsize == put + left && put <= |out| && whave <= wsize
      ensures whave == wsize <==> sunk != []
      ensures sunk == [] ==> |out| == put
      ensures sunk != [] ==> |out| >= put + wsize
    {
    }

    /** The ROOM macro: a full window is written out and filled from its start again. */
    method Room() returns (ok: bool)
      requires OutOk() && wsize > 0
      modifies `put, `left, `whave, `sunk, `outFailed
      ensures OutOk() && left > 0
      ensures ok ==> outFailed == old(outFailed)
      ensures !ok ==> outFailed
    {
      hide Windowed;
      OutBounds();
      ok := true;
      if left == 0 {
        WindowFlushed(window[..], wsize, whave, sunk, out);
        sunk := sunk + [window[..]];
        put, left, whave := 0, wsize, wsize;
        var failed: bool := *;
        if failed {
          outFailed := true;
          ok := false;
        }
      }
    }

    /** Writing one byte. */
    method PutByte(b: byte)
      requires OutOk() && left > 0
      modifies window, `put, `left, `out
      ensures OutOk() && out == old(out) + [b]
      ensures put == old(put) + 1 && left == old(left) - 1
    {
      hide Windowed;
      OutBounds();
      WindowWritten(window[..], put, left, wsize, whave, sunk, out, b);
      ghost var w := window[..];
      window[put] := b;
      assert window[..] == w[put := b];
      put, left, out := put + 1, left - 1, out + [b];
    }

    /** The byte `dist` back, through the window. */
    ghost predicate InReach(dist: nat) reads this`out { 1 <= dist <= |out| && dist <= wsize }

    /** Copying one byte from window position `from`.  A distance that reaches too
        far makes the fast decoder read where nothing was written, or outside the
        window; what it gets there is not known. */
    method CopyByte(from: int, ghost dist: nat, ghost reach: bool)
      requires OutOk() && left > 0
      requires reach ==> InReach(dist) && 0 <= from < wsize && (from == put - dist || from == put - dist + wsize)
      modifies window, `put, `left, `out
      ensures OutOk() && |out| == old(|out|) + 1 && put == old(put) + 1 && left == old(left) - 1
      ensures reach ==> out == old(out) + [old(out)[old(|out|) - dist]]
    {
      hide Windowed;
      OutBounds();
      var b: byte := *;
      if 0 <= from < wsize { b := window[from]; }
      if reach { WindowHolds(window[..], put, left, wsize, whave, sunk, out, dist, from); }
      PutByte(b);
    }

    /** One stretch of a match, of which `more` bytes follow. */
    method CopyPart(from0: int, copy0: nat, ghost dist: nat, ghost more: nat)
      requires OutOk() && wsize > 0 && InReach(dist) && copy0 <= left
      requires (from0 == put - dist || from0 == put - dist + wsize) && 0 <= from0 && from0 + copy0 <= wsize
      modifies window, `put, `left, `out
      ensures OutOk() && InReach(dist)
      ensures Lz77.CopyBack(out, dist, more) == Lz77.CopyBack(old(out), dist, more + copy0)
    {
      hide Windowed, Lz77.CopyBack, Concat;
      var from: int, copy: nat := from0, copy0;
      while copy > 0
        invariant OutOk() && InReach(dist) && copy <= left
        invariant from == put - dist || from == put - dist + wsize
        invariant 0 <= from && from + copy <= wsize
        invariant Lz77.CopyBack(out, dist, more + copy) == Lz77.CopyBack(old(out), dist, more + copy0)
        decreases copy
      {
        CopyOne(out, dist, more + copy);
        OutBounds();
        CopyByte(from, dist, true);
        OutBounds();
        from, copy := from + 1, copy - 1;
      }
    }

    /** The copy loop of inflateBack, which wraps around the window. */
    method CopyMatch(dist: nat, len: nat) returns (ok: bool)
      requires OutOk() && wsize > 0 && InReach(dist) && len > 0
      modifies window, `put, `left, `whave, `sunk, `out, `outFailed
      ensures OutOk()
      ensures ok ==> out == Lz77.CopyBack(old(out), dist, len) && outFailed == old(outFailed)
      ensures !ok ==> outFailed
    {
      hide Windowed, Lz77.CopyBack, Concat;
      var length: nat := len;
      while length != 0
        invariant OutOk() && InReach(dist) && outFailed == old(outFailed)
        invariant Lz77.CopyBack(out, dist, length) == Lz77.CopyBack(old(out), dist, len)
        decreases length
      {
        ok := Room();
        if !ok { return; }
        OutBounds();
        var from: int := put - dist;
        var copy: nat := wsize - dist;
        if copy < left {
          from, copy := put + copy, left - copy;
        } else {
          copy := left;
        }
        if copy > length { copy := length; }
        length := length - copy;
        CopyPart(from, copy, dist, length);
      }
      CopyNone(out, dist);
      ok := true;
    }

    // ---- stored blocks ---------------------------------------------------------------

    /** Copying one byte of a stored block. */
    method StoreByte()
      requires InputOk() && OutOk() && bits == 0 && at < |next| && left > 0
      modifies window, `put, `left, `out, `at, `pos
      ensures InputOk() && OutOk() && at == old(at) + 1 && pos == old(pos) + 1 && left == old(left) - 1
      ensures old(pos) < |input| && out == old(out) + [input[old(pos)]]
    {
      hide Buffered, Windowed, From, StreamOf;
      BufferTaken(next, at, later, input, pos);
      PutByte(next[at]);
      at, pos := at + 1, pos + 1;
    }

    /** Copying as much of a stored block as there is input and space for. */
    method StoreRun(copy: nat)
      requires InputOk() && OutOk() && bits == 0 && copy <= |next| - at && copy <= left
      modifies window, `put, `left, `out, `at, `pos
      ensures InputOk() && OutOk() && pos == old(pos) + copy
      ensures pos <= |input| && out == old(out) + input[old(pos)..pos]
    {
      hide Buffered, Windowed, HoldOk;
      ghost var pos0 := pos;
      Bounds();
      for i := 0 to copy
        invariant InputOk() && OutOk() && copy - i <= |next| - at && copy - i <= left
        invariant pos == pos0 + i && pos <= |input| && out == old(out) + input[pos0..pos]
      {
        StoreByte();
        assert input[pos0..pos] == input[pos0..pos - 1] + [input[pos - 1]];
      }
    }

    /** As many of the bytes as the buffer holds and the window has room for. */
    method CopyPiece(length: nat) returns (ok: bool, copy: nat)
      requires InputOk() && OutOk() && wsize > 0 && bits == 0 && length > 0
      modifies window, `put, `left, `whave, `sunk, `out, `outFailed, `next, `at, `later, `pos
      ensures old(later) == [] ==> later == []
      ensures InputOk() && OutOk() && (old(Fed()) ==> Fed())
      ensures ok ==> 0 < copy <= length && outFailed == old(outFailed)
      ensures ok ==> pos == old(pos) + copy <= |input| && out == old(out) + input[old(pos)..pos]
      ensures !ok && old(Fed()) ==> outFailed || old(pos) == |input|
    {
      hide InputOk, OutOk, Fed;
      copy := length;
      ok := Pull();
      if !ok { return; }
      ok := Room();
      if !ok { return; }
      OutBounds();
      if copy > |next| - at { copy := |next| - at; }
      if copy > left { copy := left; }
      StoreRun(copy);
    }

    /** The loop that copies a stored block from input to output. */
    method CopyStored(n: nat) returns (ok: bool)
      requires InputOk() && OutOk() && wsize > 0 && bits == 0
      modifies window, `put, `left, `whave, `sunk, `out, `outFailed, `next, `at, `later, `pos
      ensures old(later) == [] ==> later == []
      ensures InputOk() && OutOk() && (old(Fed()) ==> Fed())
      ensures ok ==> Uncompressed(Z(), old(P()), n, old(out)) == Done(out, P()) && outFailed == old(outFailed)
      ensures !ok && old(Fed()) ==> outFailed || Uncompressed(Z(), old(P()), n, old(out)) == Truncated
    {
      hide InputOk, OutOk, Bytes, StreamOf, Fed;
      var length: nat := n;
      ghost var pos0, out0 := pos, out;
      StoredWithin(input, wsize);
      Bounds();
      while length != 0
        invariant InputOk() && OutOk() && outFailed == old(outFailed) && (old(Fed()) ==> Fed())
        invariant old(later) == [] ==> later == []
        invariant pos + length == pos0 + n && pos0 <= pos <= |input| && out == out0 + input[pos0..pos]
        decreases length
      {
        ghost var pos1 := pos;
        var copy;
        ok, copy := CopyPiece(length);
        if !ok { return; }
        assert input[pos0..pos1] + input[pos1..pos] == input[pos0..pos];
        length := length - copy;
      }
      BytesAre(input, wsize, pos0, n);
      ok := true;
    }

    /** The STORED mode: the length and its complement, and the bytes. */
    method StoredMode() returns (ok: bool)
      requires InputOk() && OutOk() && wsize > 0 && bits < 8
      modifies window, `put, `left, `whave, `sunk, `out, `outFailed, `next, `at, `later, `pos, `hold, `bits, `mode
      ensures old(later) == [] ==> later == []
      ensures InputOk() && OutOk() && (old(Fed()) ==> Fed())
      ensures ok ==> bits == 0 && outFailed == old(outFailed) && (mode == TYPE || mode == BAD)
      ensures ok && mode == TYPE ==> Stored(Z(), old(P()), old(out)) == Done(out, P())
      ensures ok && mode == BAD ==> Stored(Z(), old(P()), old(out)) == Invalid
      ensures !ok && old(Fed()) ==> outFailed || Stored(Z(), old(P()), old(out)) == Truncated
    {
      hide InputOk, OutOk, Uncompressed, StreamOf, Fed, Low, Shr, Xor, Align, Peek;
      ByteBits();
      ok := NeedBits(32);
      if !ok { return; }
      ghost var q := P();
      StoredHeader();
      if Low(hold, 16) != Xor(Shr(hold, 16), 0xffff) {
        InitBits();
        mode := BAD;
        return;
      }
      var length := Low(hold, 16);
      InitBits();
      ok := CopyStored(length);
      mode := TYPE;
    }

    /** The 32 bits held are the length of a stored block and its complement. */
    lemma StoredHeader()
      requires InputOk() && bits == 32
      ensures Low(hold, 16) == Peek(Z(), P(), 16)
      ensures Low(hold, 16) == Xor(Shr(hold, 16), 0xffff) <==> Peek(Z(), P(), 16) + Peek(Z(), P() + 16, 16) == 0xffff
    {
      hide Low, Shr, Xor, Pow2;
      var x := From(Z(), P());
      LowLow(x, 16, 32);
      ShrLow(x, 16, 32);
      ShrAdd(Z().value, P(), 16);
      LowBound(Shr(x, 16), 16);
      BytePowers();
      XorOnes(Shr(hold, 16), 16);
    }

    // ---- decoding one code -----------------------------------------------------------

    /** What the whole stream from bit p on gives in table t. */
    ghost function Ahead(t: Table, p: nat): (Code, nat)
      requires Sound(t)
      reads this`input
    {
      Found(t, From(Z(), p))
    }

    lemma Holding()
      requires InputOk()
      ensures hold == Low(From(Z(), P()), bits) && 0 <= P() && P() + bits == 8 * pos <= Z().total
    {
    }

    /** With too few bits held for the entry they give, the code ahead is longer
        than what is held; with enough, the entry is the one of the code ahead. */
    lemma HeldEntry(t: Table, type_: CodeType, lens: seq<nat>)
      requires InputOk() && Good(t, type_, lens)
      ensures Sound(t) && 1 <= Ahead(t, P()).1 <= 15
      ensures Found(t, hold).1 > bits <==> Ahead(t, P()).1 > bits
      ensures Found(t, hold).1 <= bits ==>
        && Found(t, hold).1 == Ahead(t, P()).1
        && Found(t, hold).0.op == Ahead(t, P()).0.op && Found(t, hold).0.val == Ahead(t, P()).0.val
    {
      hide InputOk, Good, Found, From;
      Holding();
      FoundFor(t, type_, lens, From(Z(), P()));
      EnoughBits(t, type_, lens, From(Z(), P()), bits);
    }

    /** When the input is used up, what is held is all there is to decode. */
    lemma AtTheEnd(t: Table, type_: CodeType, lens: seq<nat>)
      requires InputOk() && Good(t, type_, lens) && pos == |input|
      ensures Sound(t)
      ensures Found(t, hold).1 > bits ==> P() + Ahead(t, P()).1 > Z().total
    {
      hide InputOk, Good, Found, From;
      HeldEntry(t, type_, lens);
      Holding();
      StoredWithin(input, wsize);
    }

    /** Decoding with just as many bytes pulled as the code needs. */
    method DecodeSlow(t: Table, literals: bool, ghost type_: CodeType, ghost lens: seq<nat>) returns (ok: bool, here: Code)
      requires InputOk() && bits < 8 && Good(t, type_, lens) && (literals || type_ == DISTS)
      modifies `next, `at, `later, `hold, `bits, `pos
      ensures InputOk() && Sound(t) && (old(Fed()) ==> Fed())
      ensures ok ==> bits < 8 && P() == old(P()) + Ahead(t, old(P())).1
      ensures ok ==> here.op == Ahead(t, old(P())).0.op && here.val == Ahead(t, old(P())).0.val
      ensures !ok && old(Fed()) ==> old(P()) + Ahead(t, old(P())).1 > Z().total
    {
      hide InputOk, Good, Found, Low, Shr, Fed, Pow2, Closed, StreamOf;
      ok := true;
      Holding();
      ghost var p: nat := P();
      HeldEntry(t, type_, lens);
      RootEntryFor(t, type_, lens, hold);
      here := At(t.entries, t.base, Low(hold, t.bits));
      while here.bits > bits
        invariant ok && InputOk() && P() == p && (old(Fed()) ==> Fed())
        invariant bits < 8 || bits < Ahead(t, p).1 + 8
        invariant Low(hold, t.bits) < Pow2(t.bits) && t.base + Pow2(t.bits) <= |t.entries|
        invariant here == At(t.entries, t.base, Low(hold, t.bits))
        decreases |input| - pos
      {
        HeldEntry(t, type_, lens);
        RootEntryFor(t, type_, lens, hold);
        LinkedEntryFor(t, type_, lens, hold);
        if pos == |input| { AtTheEnd(t, type_, lens); }
        Bounds();
        ok := PullByte();
        Bounds();
        if !ok { return; }
        RootEntryFor(t, type_, lens, hold);
        here := At(t.entries, t.base, Low(hold, t.bits));
      }
      RootEntryFor(t, type_, lens, hold);
      if (!literals || here.op != 0) && here.op / 16 % 16 == 0 {
        var link := here;
        ok, here := DecodeLinked(t, link, type_, lens);
      } else {
        HeldEntry(t, type_, lens);
        DropBits(here.bits);
      }
    }

    /** The root index does not change once enough bits are held for it. */
    lemma RootIndex(n: nat)
      requires InputOk() && n <= bits
      ensures 0 <= P() && Low(hold, n) == Low(From(Z(), P()), n)
    {
      hide InputOk, Low;
      Holding();
      LowLow(From(Z(), P()), n, bits);
    }

    /** The entry behind a link. */
    method DecodeLinked(t: Table, link: Code, ghost type_: CodeType, ghost lens: seq<nat>) returns (ok: bool, here: Code)
      requires InputOk() && Good(t, type_, lens) && Sound(t) && IsLink(link) && link.bits == t.bits <= bits
      requires Low(hold, t.bits) < Pow2(t.bits) && t.base + Pow2(t.bits) <= |t.entries|
      requires link == At(t.entries, t.base, Low(hold, t.bits))
      requires 0 <= P() && (bits < 8 || bits < Ahead(t, P()).1 + 8)
      modifies `next, `at, `later, `hold, `bits, `pos
      ensures InputOk() && (old(Fed()) ==> Fed())
      ensures ok ==> bits < 8 && P() == old(P()) + Ahead(t, old(P())).1
      ensures ok ==> here.op == Ahead(t, old(P())).0.op && here.val == Ahead(t, old(P())).0.val
      ensures !ok && old(Fed()) ==> old(P()) + Ahead(t, old(P())).1 > Z().total
    {
      hide InputOk, Good, Found, Low, Shr, Fed, Pow2, Closed, StreamOf, Sound, PlainOp;
      ok := true;
      Holding();
      ghost var p: nat := P();
      RootIndex(t.bits);
      HeldEntry(t, type_, lens);
      LinkedEntryFor(t, type_, lens, hold);
      here := At(t.entries, t.base + link.val, Low(Shr(hold, link.bits), link.op));
      while link.bits + here.bits > bits
        invariant ok && InputOk() && P() == p && (old(Fed()) ==> Fed()) && link.bits <= bits
        invariant bits < 8 || bits < Ahead(t, p).1 + 8
        invariant Found(t, hold) == (here, link.bits + here.bits)
        decreases |input| - pos
      {
        HeldEntry(t, type_, lens);
        if pos == |input| { AtTheEnd(t, type_, lens); }
        Bounds();
        ok := PullByte();
        Bounds();
        if !ok { return; }
        RootIndex(t.bits);
        LinkedEntryFor(t, type_, lens, hold);
        here := At(t.entries, t.base + link.val, Low(Shr(hold, link.bits), link.op));
      }
      HeldEntry(t, type_, lens);
      DropBits(link.bits);
      DropBits(here.bits);
    }

    // ---- the LEN mode, one code at a time ----------------------------------------------

    ghost predicate TablesOk()
      reads this`lencode, this`distcode, this`ll, this`dl
    {
      Good(lencode, LENS, ll) && Good(distcode, DISTS, dl) && |ll| <= 288 && |dl| <= 32
    }

    /** A base value and its extra bits. */
    method ExtraBits(base: nat, extra: nat) returns (ok: bool, v: nat)
      requires InputOk() && bits < 8 && extra <= 15
      modifies `next, `at, `later, `hold, `bits, `pos
      ensures InputOk() && (old(Fed()) ==> Fed())
      ensures ok ==> bits < 8 && 0 <= old(P()) && v == base + Peek(Z(), old(P()), extra)
      ensures ok ==> P() == old(P()) + extra <= Z().total
      ensures !ok && old(Fed()) ==> old(P()) + extra > Z().total
    {
      hide InputOk, Fed, StreamOf;
      ok, v := true, base;
      Holding();
      if extra != 0 {
        ok := NeedBits(extra);
        if !ok { return; }
        var x := TheBits(extra);
        v := v + x;
        DropBits(extra);
      }
    }

    /** A distance that reaches within both the output and the window. */
    lemma ReachTest(dist: nat)
      requires OutOk() && dist >= 1
      ensures left <= wsize
      ensures dist > wsize - (if whave < wsize then left else 0) <==> dist > |out| || dist > wsize
    {
    }

    /** The distance of a match. */
    method TakeDistance(ghost len: nat) returns (ok: bool, bad: bool, dist: nat)
      requires InputOk() && bits < 8 && Good(distcode, DISTS, dl) && |dl| <= 32
      modifies `next, `at, `later, `pos, `hold, `bits
      ensures InputOk() && 0 <= old(P()) && (old(Fed()) ==> Fed())
      ensures ok ==> bits < 8
      ensures ok && bad ==> DistanceStep(Z(), dl, old(P()), out, len) == Stop(Invalid)
      ensures ok && !bad ==> 0 <= P() && dist >= 1 && DistanceStep(Z(), dl, old(P()), out, len) == MatchStep(Z(), out, dist, len, P())
      ensures !ok && old(Fed()) ==> DistanceStep(Z(), dl, old(P()), out, len) == Stop(Truncated)
    {
      hide InputOk, Fed, StreamOf, Good, DistanceStep, MatchStep, Found, Peek, From, Bit4, Bit5, Bit6;
      Holding();
      DistanceMeans(Z(), distcode, dl, P(), out, len);
      var here;
      bad, dist := false, 0;
      ok, here := DecodeSlow(distcode, false, DISTS, dl);
      Holding();
      if !ok { return; }
      OpTests(here.op);
      bad := Bit6(here.op);
      if bad { return; }
      ok, dist := ExtraBits(here.val, here.op % 16);
      Holding();
    }

    /** The distance code of a match, and the copying. */
    method DistanceSlow(len: nat) returns (ok: bool)
      requires InputOk() && OutOk() && wsize > 0 && bits < 8 && Good(distcode, DISTS, dl) && |dl| <= 32 && len > 0 && mode == LEN
      modifies window, `put, `left, `whave, `sunk, `out, `outFailed, `next, `at, `later, `pos, `hold, `bits, `mode, `refused
      ensures InputOk() && OutOk() && 0 <= old(P()) && (old(Fed()) ==> Fed())
      ensures ok ==> bits < 8 && outFailed == old(outFailed)
      ensures ok ==> SlowDone(DistanceStep(Z(), dl, old(P()), old(out), len), mode, old(out), out, P(), old(refused), refused)
      ensures !ok ==> refused == old(refused)
      ensures !ok && old(Fed()) ==> outFailed || DistanceStep(Z(), dl, old(P()), old(out), len) == Stop(Truncated)
    {
      hide InputOk, OutOk, Fed, StreamOf, Good, DistanceStep, Lz77.CopyBack;
      var bad, dist;
      ok, bad, dist := TakeDistance(len);
      if !ok { return; }
      if bad { mode := BAD; return; }
      ReachTest(dist);
      StoredWithin(input, wsize);
      if dist > wsize - (if whave < wsize then left else 0) {
        mode := BAD;
        refused := refused + {P()};
        return;
      }
      ok := CopyMatch(dist, len);
    }

    /** The rest of a match whose length code has been read. */
    method MatchSlow(here: Code) returns (ok: bool)
      requires InputOk() && OutOk() && wsize > 0 && bits < 8 && Good(distcode, DISTS, dl) && |dl| <= 32 && mode == LEN
      requires 16 <= here.op <= 21 && 0 <= P() && here.val + Peek(Z(), P(), here.op - 16) > 0
      modifies window, `put, `left, `whave, `sunk, `out, `outFailed, `next, `at, `later, `pos, `hold, `bits, `mode, `refused
      ensures InputOk() && OutOk() && (old(Fed()) ==> Fed())
      ensures ok ==> bits < 8 && outFailed == old(outFailed)
      ensures ok ==> SlowDone(LengthStep(Z(), dl, old(P()), old(out), here.val, here.op - 16), mode, old(out), out, P(), old(refused), refused)
      ensures !ok ==> refused == old(refused)
      ensures !ok && old(Fed()) ==>
        outFailed || LengthStep(Z(), dl, old(P()), old(out), here.val, here.op - 16) == Stop(Truncated)
    {
      hide InputOk, OutOk, Fed, StreamOf, Good, DistanceStep, Peek, From, SlowDone;
      var length;
      ok, length := ExtraBits(here.val, here.op % 16);
      if !ok { return; }
      ok := DistanceSlow(length);
    }

    /** The next literal/length code. */
    method TakeCode() returns (ok: bool, here: Code)
      requires InputOk() && TablesOk() && bits < 8
      modifies `next, `at, `later, `pos, `hold, `bits
      ensures InputOk() && 0 <= old(P()) && (old(Fed()) ==> Fed())
      ensures ok ==> bits < 8 && 0 <= P() && CodeSays(CodeStep(Z(), ll, dl, old(P()), out), here, Z(), dl, out, P())
      ensures !ok && old(Fed()) ==> CodeStep(Z(), ll, dl, old(P()), out) == Stop(Truncated)
    {
      hide InputOk, Fed, StreamOf, Good, CodeStep, LengthStep, Found, Peek, From;
      Holding();
      LengthMeans(Z(), lencode, ll, dl, P(), out);
      ok, here := DecodeSlow(lencode, true, LENS, ll);
      Holding();
    }

    /** A literal. */
    method LiteralSlow(b: byte) returns (ok: bool)
      requires OutOk() && wsize > 0
      modifies window, `put, `left, `whave, `sunk, `out, `outFailed
      ensures OutOk() && (ok ==> out == old(out) + [b] && outFailed == old(outFailed)) && (!ok ==> outFailed)
    {
      hide OutOk;
      ok := Room();
      if ok { PutByte(b); }
    }

    /** One literal, match or end of block, pulling bytes as needed. */
    method LenSlow() returns (ok: bool)
      requires InputOk() && OutOk() && TablesOk() && wsize > 0 && bits < 8 && mode == LEN
      modifies window, `put, `left, `whave, `sunk, `out, `outFailed, `next, `at, `later, `pos, `hold, `bits, `mode, `refused
      ensures InputOk() && OutOk() && 0 <= old(P()) && (old(Fed()) ==> Fed())
      ensures ok ==> bits < 8 && outFailed == old(outFailed)
      ensures ok ==> SlowDone(CodeStep(Z(), ll, dl, old(P()), old(out)), mode, old(out), out, P(), old(refused), refused)
      ensures !ok ==> refused == old(refused)
      ensures !ok && old(Fed()) ==> outFailed || CodeStep(Z(), ll, dl, old(P()), old(out)) == Stop(Truncated)
    {
      hide SlowDone, InputOk, OutOk, Fed, StreamOf, Good, CodeStep, LengthStep, Found, Peek, From, Bit4, Bit5, Bit6;
      var here;
      ok, here := TakeCode();
      if !ok { return; }
      OpTests(here.op);
      if here.op == 0 {
        ok := LiteralSlow(here.val);
        if !ok { return; }
      } else if Bit5(here.op) {
        mode := TYPE;
      } else if Bit6(here.op) {
        mode := BAD;
      } else {
        ok := MatchSlow(here);
        return;
      }
      PlainSlow(CodeStep(Z(), ll, dl, old(P()), old(out)), mode, old(out), out, P(), refused);
    }

    // ---- inflate_fast --------------------------------------------------------------------

    /** Taking a byte that is known to be there. */
    method Fetch()
      requires InputOk() && bits <= 24 && at < |next|
      modifies `at, `hold, `bits, `pos
      ensures InputOk() && P() == old(P()) && bits == old(bits) + 8 && at == old(at) + 1
    {
      hide Low, Shl, From, Buffered;
      BufferTaken(next, at, later, input, pos);
      PullExtends(input, wsize, P(), bits, pos);
      hold := hold + Shl(next[at], bits);
      at, bits, pos := at + 1, bits + 8, pos + 1;
    }

    /** Assuring that the next code is held, without looking for the end of the input. */
    method Refill()
      requires InputOk() && bits <= 29 && at + 2 <= |next|
      modifies `at, `hold, `bits, `pos
      ensures InputOk() && P() == old(P()) && 15 <= bits <= 30
      ensures bits == old(bits) + 8 * (at - old(at)) && old(at) <= at <= old(at) + 2
    {
      hide InputOk;
      if bits < 15 {
        Fetch();
        Fetch();
      }
    }

    /** Decoding when enough bits are held for any code. */
    method DecodeFast(t: Table, ghost type_: CodeType, ghost lens: seq<nat>) returns (here: Code)
      requires InputOk() && Good(t, type_, lens) && 15 <= bits
      modifies `hold, `bits
      ensures InputOk() && Sound(t) && 0 <= old(P())
      ensures P() == old(P()) + Ahead(t, old(P())).1 && bits == old(bits) - Ahead(t, old(P())).1
      ensures 1 <= Ahead(t, old(P())).1 <= 15
      ensures here.op == Ahead(t, old(P())).0.op && here.val == Ahead(t, old(P())).0.val
    {
      hide InputOk, Good, Found, Low, Shr, Pow2, Closed, StreamOf;
      Holding();
      HeldEntry(t, type_, lens);
      RootEntryFor(t, type_, lens, hold);
      LinkedEntryFor(t, type_, lens, hold);
      here := At(t.entries, t.base, Low(hold, t.bits));
      DropBits(here.bits);
      if here.op != 0 && !Bit4(here.op) && !Bit6(here.op) {
        here := At(t.entries, t.base + here.val, Low(hold, here.op));
        DropBits(here.bits);
      }
    }

    /** Where a run of n bytes may be copied from to repeat what is `dist` back. */
    ghost predicate RunOk(from: int, n: nat, dist: nat, reach: bool)
      reads this`out, this`put, this`left
    {
      n <= left && (reach ==> InReach(dist) && 0 <= from <= wsize - n && (from == put - dist || from == put - dist + wsize))
    }

    /** Copying byte by byte. */
    method CopyRun(from0: int, n: nat, ghost dist: nat, ghost reach: bool)
      requires OutOk() && RunOk(from0, n, dist, reach)
      modifies window, `put, `left, `out
      ensures OutOk() && |out| == old(|out|) + n && put == old(put) + n && left == old(left) - n
      ensures reach ==> out == Lz77.CopyBack(old(out), dist, n)
    {
      hide OutOk, Lz77.CopyBack;
      var from, op: nat := from0, n;
      while op != 0
        invariant OutOk() && |out| + op == old(|out|) + n && put + op == old(put) + n && left - op == old(left) - n
        invariant RunOk(from, op, dist, reach)
        invariant reach ==> Lz77.CopyBack(out, dist, op) == Lz77.CopyBack(old(out), dist, n)
        decreases op
      {
        if reach { CopyOne(out, dist, op); }
        CopyByte(from, dist, reach);
        from, op := from + 1, op - 1;
      }
      if reach { CopyNone(out, dist); }
    }

    /** Copying three bytes at a time, and what remains. */
    method CopyThrees(from0: int, n: nat, ghost dist: nat, ghost reach: bool)
      requires OutOk() && RunOk(from0, n, dist, reach)
      modifies window, `put, `left, `out
      ensures OutOk() && |out| == old(|out|) + n && put == old(put) + n && left == old(left) - n
      ensures reach ==> out == Lz77.CopyBack(old(out), dist, n)
    {
      hide OutOk, Lz77.CopyBack;
      var from, len: nat := from0, n;
      while len > 2
        invariant OutOk() && |out| + len == old(|out|) + n && put + len == old(put) + n && left - len == old(left) - n
        invariant RunOk(from, len, dist, reach)
        invariant reach ==> Lz77.CopyBack(out, dist, len) == Lz77.CopyBack(old(out), dist, n)
        decreases len
      {
        CopyThree(from, len, dist, reach);
        from, len := from + 3, len - 3;
      }
      if len != 0 {
        if reach { CopyOne(out, dist, len); }
        CopyByte(from, dist, reach);
        if len > 1 {
          if reach { CopyOne(out, dist, len - 1); }
          CopyByte(from + 1, dist, reach);
        }
      }
      if reach { CopyNone(out, dist); }
    }

    method CopyThree(from: int, ghost len: nat, ghost dist: nat, ghost reach: bool)
      requires OutOk() && RunOk(from, len, dist, reach) && len >= 3
      modifies window, `put, `left, `out
      ensures OutOk() && |out| == old(|out|) + 3 && put == old(put) + 3 && left == old(left) - 3
      ensures RunOk(from + 3, len - 3, dist, reach)
      ensures reach ==> Lz77.CopyBack(out, dist, len - 3) == Lz77.CopyBack(old(out), dist, len)
    {
      hide OutOk, Lz77.CopyBack;
      if reach { CopyOne(out, dist, len); }
      CopyByte(from, dist, reach);
      if reach { CopyOne(out, dist, len - 1); }
      CopyByte(from + 1, dist, reach);
      if reach { CopyOne(out, dist, len - 2); }
      CopyByte(from + 2, dist, reach);
    }

    /** The match copy of inflate_fast: from the end of the window, where the lap
        before left it, or from the output just written.  It is refused only if it reaches
        beyond all that is in the window and the flag `sane` happens to be set; a distance
        beyond the window that is not refused finds what this lap wrote there. */
    method CopyFast(dist: nat, len: nat) returns (ok: bool)
      requires OutOk() && 3 <= len <= left && dist >= 1
      modifies window, `put, `left, `out
      ensures OutOk()
      ensures ok <==> !(sane && dist > old(put) + whave)
      ensures !ok ==> out == old(out)
      ensures old(InReach(dist)) ==> ok && out == Lz77.CopyBack(old(out), dist, len)
      ensures ok && wsize < dist <= old(put) + whave ==>
        old(InReach(dist - wsize)) && out == Lz77.CopyBack(old(out), dist - wsize, len)
      ensures ok ==> put == old(put) + len && left == old(left) - len
    {
      hide OutOk, Lz77.CopyBack;
      OutBounds();
      ok := true;
      ghost var d: nat := if wsize < dist <= put + whave then dist - wsize else dist;
      ghost var reach := InReach(d);
      var op := put;
      if dist > op {
        op := dist - op;
        if op > whave && sane { return false; }
        var from: int := wsize - op;
        if op < len {
          if reach { CopyTwice(out, d, op, len - op); }
          CopyRun(from, op, d, reach);
          OutBounds();
          CopyThrees(put - dist, len - op, d, reach);
        } else {
          CopyThrees(from, len, d, reach);
        }
      } else {
        CopyThrees(put - dist, len, d, reach);
      }
    }

    /** A base value and its extra bits, fetching at most two bytes. */
    method ExtraFast(base: nat, extra: nat) returns (v: nat)
      requires InputOk() && extra <= 13 && bits <= 29
      requires bits < extra ==> at < |next|
      requires bits + 8 < extra ==> at + 1 < |next|
      modifies `at, `hold, `bits, `pos
      ensures InputOk() && 0 <= old(P()) && v == base + Peek(Z(), old(P()), extra) && P() == old(P()) + extra
      ensures bits + extra == old(bits) + 8 * (at - old(at)) && bits <= 29
      ensures old(at) <= at && (old(bits) >= extra ==> at == old(at)) && (old(bits) + 8 >= extra ==> at <= old(at) + 1)
      ensures at <= old(at) + 2
    {
      hide InputOk, StreamOf;
      Holding();
      if bits < extra {
        Fetch();
        if bits < extra {
          Fetch();
        }
      }
      var x := TheBits(extra);
      v := base + x;
      DropBits(extra);
    }

    /** The next distance code, from the bytes at hand. */
    method FetchDistance(ghost len: nat) returns (here: Code)
      requires InputOk() && Good(distcode, DISTS, dl) && |dl| <= 32 && at + 2 <= |next| && bits <= 29
      modifies `at, `hold, `bits, `pos
      ensures InputOk() && 0 <= old(P()) < P() && bits <= 29
      ensures old(at) <= at <= old(at) + 2 && bits <= old(bits) + 8 * (at - old(at))
      ensures P() <= old(P()) + 15 && bits + (P() - old(P())) == old(bits) + 8 * (at - old(at))
      ensures DistanceSays(DistanceStep(Z(), dl, old(P()), out, len), here, Z(), out, len, P())
    {
      hide InputOk, StreamOf, Good, DistanceStep, MatchStep, Found, From, Peek;
      Holding();
      DistanceMeans(Z(), distcode, dl, P(), out, len);
      Refill();
      here := DecodeFast(distcode, DISTS, dl);
      Holding();
    }

    /** The distance of a match.  at0 is where the buffer stood when the step began:
        six bytes are enough for the whole step. */
    method ReadDistance(ghost len: nat, ghost at0: nat) returns (bad: bool, dist: nat)
      requires InputOk() && Good(distcode, DISTS, dl) && |dl| <= 32 && bits <= 29
      requires at0 + 6 <= |next| && at0 <= at <= at0 + 3 && 8 * (at - at0) <= bits + 20
      modifies `at, `hold, `bits, `pos
      ensures InputOk() && 0 <= old(P()) <= P() && bits <= 29 && at0 <= at <= at0 + 6
      ensures bits <= old(bits) + 8 * (at - old(at))
      ensures bad ==> DistanceStep(Z(), dl, old(P()), out, len) == Stop(Invalid)
      ensures !bad ==> dist >= 1 && DistanceStep(Z(), dl, old(P()), out, len) == MatchStep(Z(), out, dist, len, P())
    {
      hide InputOk, StreamOf, Good, DistanceStep, MatchStep, Peek, From, Bit4, Bit5, Bit6;
      var here := FetchDistance(len);
      Holding();
      OpTests(here.op);
      bad, dist := !Bit4(here.op), 0;
      if !bad {
        dist := ExtraFast(here.val, here.op % 16);
        Holding();
      }
    }

    /** The copying; a match out of reach is recorded. */
    method CopyRecorded(dist: nat, len: nat)
      requires InputOk() && OutOk() && 0 <= P() && dist >= 1 && 3 <= len <= left && mode == LEN
      modifies window, `put, `left, `out, `mode, `taken, `refused
      ensures InputOk() && OutOk() && (mode == LEN || mode == BAD) && (mode == LEN ==> left == old(left) - len)
      ensures FastDone(MatchStep(Z(), old(out), dist, len, P()), mode, old(out), out, P(),
                       old(put), whave, wsize, sane, old(taken), old(refused), taken, refused)
    {
      hide InputOk, OutOk, Lz77.CopyBack;
      StoredWithin(input, wsize);
      var ok := CopyFast(dist, len);
      if !ok { mode := BAD; }
      if !old(InReach(dist)) {
        if ok { taken := taken + {P()}; } else { refused := refused + {P()}; }
      }
    }

    /** The distance code of a match, and the copying. */
    method DistanceFast(len: nat, ghost at0: nat)
      requires InputOk() && OutOk() && Good(distcode, DISTS, dl) && |dl| <= 32 && mode == LEN
      requires 3 <= len <= 258 <= left && bits <= 29
      requires at0 + 6 <= |next| && at0 <= at <= at0 + 3 && 8 * (at - at0) <= bits + 20
      modifies window, `put, `left, `out, `at, `hold, `bits, `pos, `mode, `taken, `refused
      ensures InputOk() && OutOk() && 0 <= old(P()) <= P() && bits <= 29
      ensures at0 <= at <= at0 + 6 && bits <= old(bits) + 8 * (at - old(at))
      ensures mode == LEN ==> left >= old(left) - 258
      ensures mode == LEN || mode == BAD
      ensures FastDone(DistanceStep(Z(), dl, old(P()), old(out), len), mode, old(out), out, P(),
                       old(put), whave, wsize, sane, old(taken), old(refused), taken, refused)
    {
      hide InputOk, OutOk, StreamOf, Good, DistanceStep, From, MatchStep;
      var bad, dist := ReadDistance(len, at0);
      if bad { mode := BAD; return; }
      CopyRecorded(dist, len);
    }

    /** The rest of a match whose length code has been read. */
    method MatchFast(here: Code, ghost at0: nat)
      requires InputOk() && OutOk() && Good(distcode, DISTS, dl) && |dl| <= 32 && mode == LEN
      requires 258 <= left && bits <= 29 && 16 <= here.op <= 21 && 0 <= P()
      requires 3 <= here.val + Peek(Z(), P(), here.op - 16) <= 258
      requires at0 + 6 <= |next| && at0 <= at <= at0 + 2 && 8 * (at - at0) <= bits + 15
      modifies window, `put, `left, `out, `at, `hold, `bits, `pos, `mode, `taken, `refused
      ensures InputOk() && OutOk() && old(P()) <= P() && bits <= 29
      ensures at0 <= at <= at0 + 6 && bits <= old(bits) + 8 * (at - old(at))
      ensures mode == LEN ==> left >= old(left) - 258
      ensures mode == LEN || mode == BAD
      ensures FastDone(LengthStep(Z(), dl, old(P()), old(out), here.val, here.op - 16), mode, old(out), out, P(),
                       old(put), whave, wsize, sane, old(taken), old(refused), taken, refused)
    {
      hide InputOk, OutOk, StreamOf, Good, DistanceStep, From, Peek, FastDone;
      var len := ExtraFast(here.val, here.op % 16);
      Holding();
      DistanceFast(len, at0);
    }

    /** The next literal/length code, from the bytes at hand. */
    method FetchCode() returns (here: Code)
      requires InputOk() && TablesOk() && at + 2 <= |next| && bits <= 29
      modifies `at, `hold, `bits, `pos
      ensures InputOk() && 0 <= old(P()) < P() && bits <= 29
      ensures old(at) <= at <= old(at) + 2 && 8 * (at - old(at)) <= bits + 15 && bits <= old(bits) + 8 * (at - old(at))
      ensures CodeSays(CodeStep(Z(), ll, dl, old(P()), out), here, Z(), dl, out, P())
    {
      hide InputOk, StreamOf, Good, CodeStep, LengthStep, Found, From, Peek;
      Holding();
      LengthMeans(Z(), lencode, ll, dl, P(), out);
      Refill();
      here := DecodeFast(lencode, LENS, ll);
      Holding();
    }

    /** One iteration of the loop of inflate_fast: at most six bytes read and 258
        bytes written, and what the slow step does if the distance is in reach. */
    method FastStep()
      requires InputOk() && OutOk() && TablesOk() && mode == LEN
      requires at + 6 <= |next| && 258 <= left && bits <= 29
      modifies window, `put, `left, `out, `at, `hold, `bits, `pos, `mode, `taken, `refused
      ensures InputOk() && OutOk() && 0 <= old(P()) < P() && bits <= 29
      ensures old(at) <= at <= old(at) + 6 && bits <= old(bits) + 8 * (at - old(at))
      ensures mode == LEN ==> left >= old(left) - 258
      ensures FastDone(CodeStep(Z(), ll, dl, old(P()), old(out)), mode, old(out), out, P(),
                       old(put), whave, wsize, sane, old(taken), old(refused), taken, refused)
      ensures var step := CodeStep(Z(), ll, dl, old(P()), old(out));
        Arrived(step, mode, old(out), out, P()) <==> (step.Far? ==> sane && step.dist > old(put) + whave)
      ensures mode == LEN || mode == TYPE || mode == BAD
    {
      hide InputOk, OutOk, StreamOf, Good, CodeStep, LengthStep, Found, FastDone, From, Peek, Bit4, Bit5, Bit6;
      ghost var at0 := at;
      var here := FetchCode();
      OpTests(here.op);
      if here.op == 0 {
        PutByte(here.val);
      } else if Bit4(here.op) {
        MatchFast(here, at0);
        FastMatched(CodeStep(Z(), ll, dl, old(P()), old(out)), mode, old(out), out, P(), old(put), whave, wsize, sane,
                    old(taken), old(refused), taken, refused);
        return;
      } else if Bit5(here.op) {
        mode := TYPE;
      } else {
        mode := BAD;
      }
      PlainStep(CodeStep(Z(), ll, dl, old(P()), old(out)), mode, old(out), out, P(), old(put), whave, wsize, sane, taken, refused);
    }

    /** w lets through the matches beyond the window that were copied, and no refused one. */
    ghost predicate Consistent(w: set<nat>) reads this`taken, this`refused { taken <= w && refused !! w }

    /** The matches recorded were met before this point of the stream, each once. */
    ghost predicate Recorded()
      reads this`taken, this`refused, this`bits, this`pos, this`mode
    {
      taken !! refused && (mode == BAD || MetBy(taken, refused, P()))
    }

    /** What the block being decoded comes to, o, is what it comes to from here. */
    ghost predicate Expects(w: set<nat>, o: Outcome)
      reads this`mode, this`input, this`ll, this`dl, this`bits, this`pos, this`out
    {
      && |ll| <= 288 && |dl| <= 32 && P() >= 0
      && match mode
         case LEN => o == Codes(Z(), w, ll, dl, P(), out)
         case TYPE => o == Done(out, P())
         case BAD => o == Invalid || o == TooFar
         case _ => false
    }

    /** A match was let through that finds nothing defined; if `sane` is set that happens
        only within the first lap. */
    ghost predicate Loose(o: Outcome) reads this`sane { o.Undefined? && (sane ==> o.n <= wsize) }

    /** The block whose data started at p0, after out0, is decoded as it should be so far. */
    ghost predicate Tracks(p0: nat, out0: seq<byte>)
      reads this`mode, this`input, this`ll, this`dl, this`bits, this`pos, this`out, this`taken, this`refused, this`sane
    {
      && |ll| <= 288 && |dl| <= 32 && Recorded()
      && forall w: set<nat> :: Consistent(w) ==>
           var o := Codes(Z(), w, ll, dl, p0, out0);
           Loose(o) || Expects(w, o)
    }

    /** Giving back the bytes of the buffer that were taken too many. */
    method GiveBack()
      requires InputOk() && bits <= 7 + 8 * at
      modifies `at, `hold, `bits, `pos
      ensures InputOk() && P() == old(P()) && bits < 8
    {
      hide Buffered, Low, From;
      var len := bits / 8;
      LowLow(From(Z(), P()), bits - 8 * len, bits);
      BufferReturned(next, at, later, input, pos, len);
      at, bits, pos := at - len, bits - 8 * len, pos - len;
      hold := Low(hold, bits);
    }

    method GiveBackKeeps(ghost p0: nat, ghost out0: seq<byte>)
      requires InputOk() && bits <= 7 + 8 * at && Tracks(p0, out0)
      modifies `at, `hold, `bits, `pos
      ensures InputOk() && P() == old(P()) && bits < 8 && Tracks(p0, out0)
    {
      hide InputOk, Codes, StreamOf;
      GiveBack();
      forall w: set<nat> | Consistent(w)
        ensures var o := Codes(Z(), w, ll, dl, p0, out0); Loose(o) || Expects(w, o)
      {
        assert var o := Codes(Z(), w, ll, dl, p0, out0); Loose(o) || old(Expects(w, o));
      }
    }

    /** inflate_fast.  It leaves the block decoded as far as it got, the bits not
        used returned to the input. */
    method InflateFast(ghost p0: nat, ghost out0: seq<byte>)
      requires InputOk() && OutOk() && TablesOk() && mode == LEN && bits < 8
      requires at + 6 <= |next| && 258 <= left
      requires Tracks(p0, out0)
      modifies window, `put, `left, `out, `at, `hold, `bits, `pos, `mode, `taken, `refused
      ensures InputOk() && OutOk() && bits < 8 && (mode == LEN || mode == TYPE || mode == BAD)
      ensures Tracks(p0, out0) && old(taken) <= taken && old(refused) <= refused
      ensures old(P()) < P()
    {
      hide InputOk, OutOk, TablesOk, StreamOf, Tracks;
      ghost var at0, p1 := at, P();
      FastStepExpects(p0, out0);
      while mode == LEN && at + 6 <= |next| && 258 <= left
        invariant InputOk() && OutOk() && TablesOk() && bits <= 29 && (mode == LEN || mode == TYPE || mode == BAD)
        invariant at0 <= at && bits <= 7 + 8 * (at - at0) && p1 < P()
        invariant Tracks(p0, out0) && old(taken) <= taken && old(refused) <= refused
        decreases Z().total - P(), mode == LEN
      {
        FastStepExpects(p0, out0);
      }
      GiveBackKeeps(p0, out0);
    }

    /** One iteration keeps what is expected of the block. */
    method FastStepExpects(ghost p0: nat, ghost out0: seq<byte>)
      requires InputOk() && OutOk() && TablesOk() && mode == LEN
      requires at + 6 <= |next| && 258 <= left && bits <= 29
      requires Tracks(p0, out0)
      modifies window, `put, `left, `out, `at, `hold, `bits, `pos, `mode, `taken, `refused
      ensures InputOk() && OutOk() && bits <= 29 && (mode == LEN || mode == TYPE || mode == BAD)
      ensures old(at) <= at && bits <= old(bits) + 8 * (at - old(at))
      ensures Tracks(p0, out0) && old(taken) <= taken && old(refused) <= refused
      ensures 0 <= P() <= Z().total && old(P()) < P()
    {
      hide InputOk, OutOk, Good, StreamOf, CodeStep, Codes, Lz77.CopyBack, FastDone;
      Holding();
      StoredWithin(input, wsize);
      ghost var p, before, t0, r0, put0 := P(), out, taken, refused, put;
      OutBounds();
      PutIsRest();
      FastStep();
      Holding();
      ghost var step := CodeStep(Z(), ll, dl, p, before);
      FastRecords(step, mode, before, out, P(), put0, whave, wsize, sane, t0, r0, taken, refused, p);
      forall w: set<nat> | Consistent(w)
        ensures var o := Codes(Z(), w, ll, dl, p0, out0); Loose(o) || Expects(w, o)
      {
        CodesUnfold(Z(), w, ll, dl, p, before);
        FastFollows(step, mode, before, out, P(), put0, whave, wsize, sane, t0, r0, taken, refused, w);
      }
    }

    /** With space left, the next window byte to write tells how much output the current lap has. */
    lemma PutIsRest()
      requires OutOk() && left > 0
      ensures wsize > 0 && put == |out| % wsize
    {
      LapRest(|out|, put, wsize);
    }

    // ---- fixed blocks ----------------------------------------------------------------------

    ghost predicate ArraysOk()
    {
      var w: object := window;
      && w != lens && w != work && w != codes && w != fixed
      && lens.Length == 320 && work.Length == 288 && lens != work
      && codes.Length == ENOUGH_LENS + ENOUGH_DISTS && fixed.Length == 544
    }

    /** Setting a run of code lengths. */
    method SetLens(sym: nat, end: nat, l: nat)
      requires ArraysOk() && sym <= end <= 320
      modifies lens
      ensures forall i :: 0 <= i < 320 ==> lens[i] == if sym <= i < end then l else old(lens[i])
    {
      for i := sym to end
        invariant forall j :: 0 <= j < 320 ==> lens[j] == if sym <= j < i then l else old(lens[j])
      {
        lens[i] := l;
      }
    }

    /** fixedtables, building the tables. */
    method FixedTables()
      requires ArraysOk()
      modifies lens, work, fixed, `lencode, `distcode, `ll, `dl
      ensures TablesOk() && ll == FixedLens(FIXED_LENGTHS) && dl == Repeat(5, FIXED_DISTANCES)
    {
      hide FixedLens, Repeat, Crowded, EachOnce, Refused, TableFor, Good, KraftSum, Offset, Pow2;
      FixedWeights();
      SetLens(0, 144, 8);
      SetLens(144, 256, 9);
      SetLens(256, 280, 7);
      SetLens(280, 288, 8);
      ll := FixedLens(FIXED_LENGTHS);
      assert lens[..288] == ll;
      FixedLensComplete();
      CompleteIsAccepted(LENS, ll);
      assert ll[144] == 9;
      var r, used, root := InflateTable(LENS, lens[..288], fixed, 0, 9, work);
      lencode := Table(fixed[..used], 0, 9);
      BuiltIsGood(lencode, LENS, ll);
      SetLens(0, 32, 5);
      dl := Repeat(5, FIXED_DISTANCES);
      assert lens[..32] == dl;
      FixedDistancesComplete();
      CompleteIsAccepted(DISTS, dl);
      assert dl[0] == 5;
      var r', used', root' := InflateTable(DISTS, lens[..32], fixed, used, 5, work);
      distcode := Table(fixed[..used + used'], used, 5);
      BuiltIsGood(distcode, DISTS, dl);
    }

    // ---- dynamic blocks --------------------------------------------------------------------

    /** One count of a block header. */
    method TakeBits(n: nat) returns (x: nat)
      requires InputOk() && n <= bits
      modifies `hold, `bits
      ensures InputOk() && 0 <= old(P()) && x == Peek(Z(), old(P()), n) && x < Pow2(n)
      ensures P() == old(P()) + n && bits == old(bits) - n
    {
      hide InputOk, Low, StreamOf, Pow2;
      Holding();
      x := TheBits(n);
      LowBound(From(Z(), P()), n);
      DropBits(n);
    }

    /** The three counts of a dynamic block. */
    method ReadCounts() returns (ok: bool)
      requires InputOk() && bits < 8
      modifies `next, `at, `later, `hold, `bits, `pos, `nlen, `ndist, `ncode
      ensures InputOk() && 0 <= old(P()) && (old(Fed()) ==> Fed())
      ensures ok ==> bits < 8 && P() == old(P()) + 14 <= Z().total
      ensures ok ==> nlen == Peek(Z(), old(P()), 5) + 257 && ndist == Peek(Z(), old(P()) + 5, 5) + 1
      ensures ok ==> ncode == Peek(Z(), old(P()) + 10, 4) + 4 && ncode <= 19
      ensures !ok && old(Fed()) ==> old(P()) + 14 > Z().total
    {
      hide InputOk, Peek, From, StreamOf, Fed, Pow2;
      SmallPowers();
      Holding();
      ok := NeedBits(14);
      if !ok { return; }
      var x := TakeBits(5);
      nlen := x + 257;
      x := TakeBits(5);
      ndist := x + 1;
      x := TakeBits(4);
      ncode := x + 4;
    }

    /** Setting the next of the code length code lengths. */
    method SetNext(x: nat)
      requires ArraysOk() && have < 19
      modifies `have, lens
      ensures have == old(have) + 1 && lens[ORDER[old(have)]] == x
      ensures forall i :: 0 <= i < old(have) ==> lens[ORDER[i]] == old(lens[ORDER[i]])
    {
      OrderIsPermutation();
      lens[ORDER[have]] := x;
      have := have + 1;
    }

    /** Reading the next of them. */
    method ReadThree() returns (ok: bool)
      requires InputOk() && ArraysOk() && bits < 8 && have < 19
      modifies `next, `at, `later, `hold, `bits, `pos, `have, lens
      ensures InputOk() && 0 <= old(P()) && (old(Fed()) ==> Fed())
      ensures ok ==> bits < 8 && P() == old(P()) + 3 <= Z().total && have == old(have) + 1
      ensures ok ==> lens[ORDER[old(have)]] == Peek(Z(), old(P()), 3)
      ensures ok ==> forall i :: 0 <= i < old(have) ==> lens[ORDER[i]] == old(lens[ORDER[i]])
      ensures !ok && old(Fed()) ==> old(P()) + 3 > Z().total
    {
      hide InputOk, Peek, From, StreamOf, Fed, Pow2;
      OrderIsPermutation();
      Holding();
      ok := NeedBits(3);
      if ok {
        var x := TakeBits(3);
        SetNext(x);
      }
    }

    /** The code length code lengths. */
    method ReadLengthCodeLengths() returns (ok: bool)
      requires InputOk() && ArraysOk() && bits < 8 && ncode <= 19
      modifies `next, `at, `later, `hold, `bits, `pos, `have, lens
      ensures InputOk() && 0 <= old(P()) && (old(Fed()) ==> Fed())
      ensures ok ==> bits < 8 && P() == old(P()) + 3 * ncode <= Z().total
      ensures ok ==> lens[..19] == LengthCodeLengths(Z(), old(P()), ncode)
      ensures !ok && old(Fed()) ==> old(P()) + 3 * ncode > Z().total
    {
      hide InputOk, Peek, From, StreamOf, Fed, Pow2, LengthCodeLengths;
      OrderIsPermutation();
      Holding();
      ghost var p: nat, z := P(), Z();
      have := 0;
      while have < ncode
        invariant InputOk() && have <= ncode && bits < 8 && P() == p + 3 * have <= z.total && (old(Fed()) ==> Fed())
        invariant forall i :: 0 <= i < have ==> lens[ORDER[i]] == Peek(z, p + 3 * i, 3)
      {
        ok := ReadThree();
        if !ok { return; }
      }
      ZeroRest(z, p);
      ok := true;
    }

    /** The code length codes that are not given have no bits. */
    method ZeroRest(ghost z: Stream, ghost p: nat)
      requires ArraysOk() && have == ncode <= 19
      requires forall i :: 0 <= i < ncode ==> lens[ORDER[i]] == Peek(z, p + 3 * i, 3)
      modifies `have, lens
      ensures lens[..19] == LengthCodeLengths(z, p, ncode)
    {
      hide Peek, LengthCodeLengths;
      OrderIsPermutation();
      while have < 19
        invariant ncode <= have <= 19
        invariant forall i :: 0 <= i < have ==> lens[ORDER[i]] == if i < ncode then Peek(z, p + 3 * i, 3) else 0
      {
        SetNext(0);
      }
      forall k | 0 <= k < 19 ensures lens[k] == LengthCodeLengths(z, p, ncode)[k] {
        LengthCodeLengthsAt(z, p, ncode, INDEX[k]);
      }
    }

    /** The table for the code length code. */
    ghost predicate LengthTable(cl: seq<nat>)
      reads this`lencode
    {
      |cl| == 19 && Good(lencode, CODES, cl) && NoLinks(lencode.entries, lencode.base, lencode.bits)
    }

    /** The next code length symbol, its bits not yet dropped. */
    method PeekSymbol(ghost cl: seq<nat>) returns (ok: bool, here: Code)
      requires InputOk() && bits < 8 && LengthTable(cl)
      modifies `next, `at, `later, `hold, `bits, `pos
      ensures InputOk() && 0 <= P() == old(P()) && Sound(lencode) && (old(Fed()) ==> Fed())
      ensures ok ==> here.val == Ahead(lencode, P()).0.val && here.bits == Ahead(lencode, P()).1
      ensures ok ==> here.bits <= bits && (bits < 8 || bits < here.bits + 8)
      ensures !ok && old(Fed()) ==> P() + Ahead(lencode, P()).1 > Z().total
    {
      hide InputOk, Good, Found, Low, Shr, Fed, Pow2, Closed, StreamOf;
      Holding();
      ghost var t, p: nat := lencode, P();
      ok := true;
      HeldEntry(t, CODES, cl);
      RootEntryFor(t, CODES, cl, hold);
      here := At(lencode.entries, lencode.base, Low(hold, lencode.bits));
      while here.bits > bits
        invariant ok && InputOk() && P() == p && (old(Fed()) ==> Fed())
        invariant bits < 8 || bits < Ahead(t, p).1 + 8
        invariant Found(t, hold) == (here, here.bits)
        decreases |input| - pos
      {
        HeldEntry(t, CODES, cl);
        if pos == |input| { AtTheEnd(t, CODES, cl); }
        Bounds();
        ok := PullByte();
        Bounds();
        if !ok { return; }
        RootEntryFor(t, CODES, cl, hold);
        here := At(lencode.entries, lencode.base, Low(hold, lencode.bits));
      }
      HeldEntry(t, CODES, cl);
    }

    ghost function Got(): seq<nat>
      requires ArraysOk() && have <= 320
      reads lens, this`have
    {
      lens[..have]
    }

    /** Repeating a length, if there are not too many. */
    method FillLens(l: nat, copy: nat)
      requires ArraysOk() && have <= nlen + ndist <= 320
      modifies lens, `have, `mode
      ensures have <= nlen + ndist
      ensures match RepeatLens(old(Got()), nlen + ndist, l, copy, 0)
        case Lens(got, _) => mode == old(mode) && Got() == got
        case NoLens(why) => mode == BAD && why == Invalid
    {
      if have + copy > nlen + ndist { mode := BAD; return; }
      ghost var got := Got();
      for i := 0 to copy
        invariant have == |got| + i && have <= nlen + ndist && mode == old(mode)
        invariant Got() == got + Repeat(l, i)
      {
        ghost var g := Got();
        lens[have] := l;
        have := have + 1;
        assert Got() == g + [l];
        assert got + (Repeat(l, i) + [l]) == got + Repeat(l, i) + [l];
      }
    }

    /** The decoder is where the next code length symbol leads. */
    ghost predicate LensArrived(r: Lens)
      requires ArraysOk() && have <= 320
      reads lens, this`have, this`mode, this`bits, this`pos
    {
      match r
      case Lens(got, q) => mode == TABLE && Got() == got && P() == q
      case NoLens(why) => mode == BAD && why == Invalid
    }

    /** A repetition symbol, after its code: extra bits and the repeated length. */
    method RepeatSymbol(l: nat, extra: nat, base: nat)
      requires InputOk() && ArraysOk() && have <= nlen + ndist <= 320 && mode == TABLE && extra <= bits < extra + 8
      modifies `hold, `bits, lens, `have, `mode
      ensures InputOk() && have <= nlen + ndist && bits < 8 && 0 <= old(P()) <= P()
      ensures LensArrived(RepeatLens(old(Got()), nlen + ndist, l, base + Peek(Z(), old(P()), extra), old(P()) + extra))
    {
      hide InputOk, Peek, From, StreamOf, Got, Repeat;
      var x := TakeBits(extra);
      FillLens(l, base + x);
    }

    /** Assuring that a code of n bits and its extra bits are held, and dropping the code. */
    method StartRepeat(n: nat, extra: nat) returns (ok: bool)
      requires InputOk() && n <= 15 && extra <= 7 && n <= bits && bits < n + 8
      modifies `next, `at, `later, `hold, `bits, `pos
      ensures InputOk() && 0 <= old(P()) <= P() && (old(Fed()) ==> Fed())
      ensures ok ==> P() == old(P()) + n && extra <= bits < extra + 8 && old(P()) + n + extra <= Z().total
      ensures !ok && old(Fed()) ==> old(P()) + n + extra > Z().total
    {
      hide InputOk, StreamOf, Fed;
      Holding();
      ok := NeedBits(n + extra);
      if ok { DropBits(n); }
    }

    /** A length after its code of n bits. */
    method PutLength(n: nat, l: nat) returns (ok: bool)
      requires InputOk() && ArraysOk() && mode == TABLE && n <= 15 && n <= bits < n + 8 && have < nlen + ndist <= 320
      modifies `next, `at, `later, `hold, `bits, `pos, lens, `have
      ensures InputOk() && have <= nlen + ndist && 0 <= old(P()) <= P() && (old(Fed()) ==> Fed())
      ensures ok ==> bits < 8 && old(P()) + n <= Z().total && LensArrived(Lens(old(Got()) + [l], old(P()) + n))
      ensures !ok && old(Fed()) ==> old(P()) + n > Z().total
    {
      hide InputOk, StreamOf, Fed;
      ghost var g := Got();
      ok := StartRepeat(n, 0);
      if ok {
        lens[have] := l;
        have := have + 1;
        assert Got() == g + [l];
      }
    }

    /** A repetition of l after its code of n bits. */
    method RepeatThis(n: nat, l: nat, extra: nat, base: nat) returns (ok: bool)
      requires InputOk() && ArraysOk() && mode == TABLE && n <= 15 && n <= bits < n + 8 && have < nlen + ndist <= 320 && extra <= 7
      modifies `next, `at, `later, `hold, `bits, `pos, lens, `have, `mode
      ensures InputOk() && have <= nlen + ndist && 0 <= old(P()) <= P() && (old(Fed()) ==> Fed())
      ensures ok ==> bits < 8 && old(P()) + n + extra <= Z().total
      ensures ok ==> LensArrived(RepeatLens(old(Got()), nlen + ndist, l, base + Peek(Z(), old(P()) + n, extra), old(P()) + n + extra))
      ensures !ok && old(Fed()) ==> old(P()) + n + extra > Z().total
    {
      hide InputOk, Peek, StreamOf, Fed, RepeatLens, LensArrived, Got;
      ok := StartRepeat(n, extra);
      if ok { RepeatSymbol(l, extra, base); }
    }

    /** A repetition of the last length after its code of n bits. */
    method RepeatLast(n: nat) returns (ok: bool)
      requires InputOk() && ArraysOk() && mode == TABLE && n <= 15 && n <= bits < n + 8 && have < nlen + ndist <= 320
      modifies `next, `at, `later, `hold, `bits, `pos, lens, `have, `mode
      ensures InputOk() && have <= nlen + ndist && 0 <= old(P()) <= P() && (old(Fed()) ==> Fed())
      ensures ok ==> (mode == TABLE ==> bits < 8) && old(P()) + n + 2 <= Z().total
      ensures ok && |old(Got())| == 0 ==> LensArrived(NoLens(Invalid))
      ensures ok && |old(Got())| > 0 ==>
        LensArrived(RepeatLens(old(Got()), nlen + ndist, old(Got())[|old(Got())| - 1], 3 + Peek(Z(), old(P()) + n, 2), old(P()) + n + 2))
      ensures !ok && old(Fed()) ==> old(P()) + n + 2 > Z().total
    {
      hide InputOk, Peek, StreamOf, Fed, RepeatLens;
      ok := StartRepeat(n, 2);
      if ok {
        if have == 0 { mode := BAD; return; }
        RepeatSymbol(lens[have - 1], 2, 3);
      }
    }

    /** What a code length symbol stands for. */
    method ApplySymbol(here: Code) returns (ok: bool)
      requires InputOk() && ArraysOk() && mode == TABLE && here.bits <= 15 && here.bits <= bits < here.bits + 8
      requires have < nlen + ndist <= 320 && Small(Got())
      modifies `next, `at, `later, `hold, `bits, `pos, lens, `have, `mode
      ensures InputOk() && have <= nlen + ndist && 0 <= old(P()) <= P() && (old(Fed()) ==> Fed())
      ensures ok ==> (mode == TABLE ==> bits < 8)
      ensures ok ==> LensArrived(LensFrom(Z(), nlen + ndist, here.val, old(P()) + here.bits, old(Got())))
      ensures !ok && old(Fed()) ==> LensFrom(Z(), nlen + ndist, here.val, old(P()) + here.bits, old(Got())) == NoLens(Truncated)
    {
      hide InputOk, Peek, StreamOf, Fed, RepeatLens, LensArrived, Got, Small;
      if here.val < 16 {
        ok := PutLength(here.bits, here.val);
      } else if here.val == 16 {
        ok := RepeatLast(here.bits);
      } else if here.val == 17 {
        ok := RepeatThis(here.bits, 0, 3, 3);
      } else {
        ok := RepeatThis(here.bits, 0, 7, 11);
      }
    }

    /** One code length symbol and what it stands for. */
    method LengthSymbol(ghost cl: seq<nat>) returns (ok: bool)
      requires InputOk() && ArraysOk() && LengthTable(cl) && mode == TABLE && bits < 8
      requires have < nlen + ndist <= 320 && Small(Got())
      modifies `next, `at, `later, `hold, `bits, `pos, lens, `have, `mode
      ensures InputOk() && have <= nlen + ndist && 0 <= old(P()) <= P() && (old(Fed()) ==> Fed())
      ensures ok ==> (mode == TABLE ==> bits < 8)
      ensures ok && DecodeSymbol(cl, From(Z(), old(P()))) >= 0 ==>
        LensArrived(LensStep(Z(), cl, nlen + ndist, old(P()), old(Got())))
      ensures ok && DecodeSymbol(cl, From(Z(), old(P()))) < 0 ==> mode == TABLE && Got() == old(Got()) + [0]
      ensures !ok && old(Fed()) && DecodeSymbol(cl, From(Z(), old(P()))) >= 0 ==>
        LensStep(Z(), cl, nlen + ndist, old(P()), old(Got())) == NoLens(Truncated)
    {
      hide InputOk, Good, NoLinks, Found, Peek, From, StreamOf, Fed, DecodeSymbol, LensStep, RepeatLens;
      Holding();
      LensMeans(Z(), lencode, cl, nlen + ndist, P(), Got());
      HeldEntry(lencode, CODES, cl);
      var here;
      ok, here := PeekSymbol(cl);
      if !ok {
        Holding();
        return;
      }
      ok := ApplySymbol(here);
    }

    /** What reading the code lengths comes to, r, is what it comes to from here. */
    ghost predicate Reading(r: Lens, cl: seq<nat>)
      requires ArraysOk()
      reads lens, this`have, this`mode, this`bits, this`pos, this`input, this`nlen, this`ndist
    {
      && |cl| == 19 && P() >= 0 && have <= nlen + ndist <= 320 && (mode == TABLE ==> Small(Got()))
      && if DecodesNothing(cl) then mode == TABLE && r == NoLens(Invalid) && forall i :: 0 <= i < have ==> lens[i] == 0
         else if mode == TABLE then r == ReadLens(Z(), cl, nlen + ndist, P(), Got())
         else mode == BAD && r == NoLens(Invalid)
    }

    /** The loop that reads the literal/length and distance code lengths. */
    method ReadAllLens(ghost cl: seq<nat>, ghost r: Lens) returns (ok: bool)
      requires InputOk() && ArraysOk() && LengthTable(cl) && !Refused(CODES, cl) && mode == TABLE && bits < 8
      requires have == 0 && nlen + ndist <= 320 && Reading(r, cl)
      modifies `next, `at, `later, `hold, `bits, `pos, lens, `have, `mode
      ensures InputOk() && (old(Fed()) ==> Fed()) && old(P()) <= P()
      ensures ok ==> Reading(r, cl) && (mode == TABLE ==> bits < 8 && have == nlen + ndist)
      ensures !ok && old(Fed()) ==> r == NoLens(Truncated) || r == NoLens(Invalid)
    {
      hide InputOk, LengthTable, Refused, Reading, StreamOf, Fed;
      ok := true;
      while have < nlen + ndist && mode == TABLE
        invariant ok && InputOk() && LengthTable(cl) && (old(Fed()) ==> Fed()) && old(P()) <= P()
        invariant Reading(r, cl) && (mode == TABLE ==> bits < 8)
        decreases mode == TABLE, nlen + ndist - have
      {
        ok := ReadLength(cl, r);
        if !ok { return; }
      }
      ReadingBounds(r, cl);
    }

    lemma ReadingBounds(r: Lens, cl: seq<nat>)
      requires ArraysOk() && Reading(r, cl)
      ensures have <= nlen + ndist && (mode == TABLE || mode == BAD)
    {
    }

    /** Reading one code length symbol keeps what is expected of the code lengths. */
    method ReadLength(ghost cl: seq<nat>, ghost r: Lens) returns (ok: bool)
      requires InputOk() && ArraysOk() && LengthTable(cl) && !Refused(CODES, cl) && mode == TABLE && bits < 8
      requires Reading(r, cl) && have < nlen + ndist
      modifies `next, `at, `later, `hold, `bits, `pos, lens, `have, `mode
      ensures InputOk() && (old(Fed()) ==> Fed()) && old(P()) <= P()
      ensures ok ==> Reading(r, cl) && (mode == TABLE ==> bits < 8 && old(have) < have)
      ensures !ok && old(Fed()) ==> r == NoLens(Truncated) || r == NoLens(Invalid)
    {
      hide InputOk, Good, NoLinks, Refused, From, StreamOf, Fed, DecodeSymbol, LensStep, ReadLens, DecodesNothing;
      Holding();
      GoodIsSound(lencode, CODES, cl);
      CodeIsEmptyOrComplete(cl, From(Z(), P()));
      ReadLensUnfold(Z(), cl, nlen + ndist, P(), Got());
      ghost var g := Got();
      ok := LengthSymbol(cl);
      Holding();
      if ok && DecodesNothing(cl) { assert Got() == g + [0]; }
    }

    /** The table for the code length code, or BAD. */
    method BuildLengthTable()
      requires ArraysOk() && mode == TABLE && forall i :: 0 <= i < 19 ==> lens[i] <= 7
      modifies codes, work, `lencode, `mode
      ensures mode == TABLE || mode == BAD
      ensures mode == BAD <==> Refused(CODES, lens[..19])
      ensures mode == TABLE ==> LengthTable(lens[..19])
    {
      hide Refused, TableFor, Good, NoLinks;
      var r, used, root := InflateTable(CODES, lens[..19], codes, 0, 7, work);
      if r != 0 { mode := BAD; return; }
      lencode := Table(codes[..used], 0, root);
      BuiltIsGood(lencode, CODES, lens[..19]);
    }

    /** The lengths that make a dynamic block invalid. */
    ghost predicate BadLens(l: seq<nat>, n: nat)
      requires 257 <= n <= |l|
    {
      l[256] == 0 || Refused(LENS, l[..n]) || Refused(DISTS, l[n..])
    }

    /** The literal/length table. */
    method BuildLens(l: seq<nat>) returns (ok: bool, t: Table, used: nat)
      requires ArraysOk() && Lengths(l) && |l| <= 286
      modifies codes, work
      ensures ok <==> !Refused(LENS, l) && !Crowded(LENS, l, 9)
      ensures ok ==> Good(t, LENS, l) && used <= ENOUGH_LENS && t.entries == codes[..used] && t.base == 0
    {
      hide Refused, TableFor, Good, OneLevel, RootOnly, Crowded, EachOnce, ErrorTable, Offset, Pow2, NoLinks;
      var r, n, root := InflateTable(LENS, l, codes, 0, 9, work);
      ok, used, t := r == 0, n, Table([], 0, root);
      if ok {
        t := Table(codes[..n], 0, root);
        BuiltIsGood(t, LENS, l);
      }
    }

    /** The distance table, behind the entries used. */
    method BuildDists(l: seq<nat>, used: nat) returns (ok: bool, t: Table)
      requires ArraysOk() && Lengths(l) && |l| <= 30 && used <= ENOUGH_LENS
      modifies codes, work
      ensures ok <==> !Refused(DISTS, l) && !Crowded(DISTS, l, 6)
      ensures ok ==> Good(t, DISTS, l)
      ensures codes[..used] == old(codes[..used])
    {
      hide Refused, TableFor, Good, OneLevel, RootOnly, Crowded, EachOnce, ErrorTable, Offset, Pow2, NoLinks;
      var r, n, root := InflateTable(DISTS, l, codes, used, 6, work);
      ok, t := r == 0, Table([], 0, root);
      if ok {
        t := Table(codes[..used + n], used, root);
        BuiltIsGood(t, DISTS, l);
      }
    }

    /** The two tables of a dynamic block, or BAD.  A code whose table would need all the
        entries there are is turned down although it is valid. */
    method BuildTables()
      requires ArraysOk() && mode == TABLE && 257 <= nlen <= 286 && ndist <= 30 && have == nlen + ndist && Small(Got())
      modifies codes, work, `lencode, `distcode, `ll, `dl, `mode
      ensures mode == LEN || mode == BAD
      ensures mode == LEN ==> TablesOk() && ll == Got()[..nlen] && dl == Got()[nlen..] && !BadLens(Got(), nlen)
      ensures mode == LEN ==> !Full(Got()[..nlen], Got()[nlen..])
      ensures mode == BAD ==> BadLens(Got(), nlen) || Full(Got()[..nlen], Got()[nlen..])
    {
      hide Refused, Good, Small, Crowded;
      SmallParts(Got(), nlen);
      mode := BAD;
      if lens[256] == 0 { return; }
      ll, dl := lens[..nlen], lens[nlen..nlen + ndist];
      assert ll == Got()[..nlen] && dl == Got()[nlen..];
      var ok, t, used := BuildLens(lens[..nlen]);
      if !ok { return; }
      var ok', t' := BuildDists(lens[nlen..nlen + ndist], used);
      if !ok' { return; }
      lencode, distcode := t, t';
      mode := LEN;
    }

    /** The header h was read up to here, or found to be invalid or to need full tables. */
    ghost predicate HeaderDone(h: Header)
      reads this`mode, this`ll, this`dl, this`bits, this`pos, this`lencode, this`distcode
    {
      match mode
      case LEN => TablesOk() && bits < 8 && P() >= 0 && h == Header(ll, dl, P()) && !Full(ll, dl)
      case BAD => h == NoHeader(Invalid) || (h.Header? && Full(h.ll, h.dl))
      case _ => false
    }

    /** The TABLE mode once the length code has its table: the code lengths, and the
        two tables. */
    method CodesMode(ghost cl: seq<nat>, ghost r: Lens, ghost h: Header) returns (ok: bool)
      requires InputOk() && ArraysOk() && LengthTable(cl) && !Refused(CODES, cl) && mode == TABLE && bits < 8
      requires 257 <= nlen <= 286 && 1 <= ndist <= 30 && 0 <= P() && ReadsFrom(cl, r)
      requires (r.Lens? ==> |r.lens| == nlen + ndist) && (r.NoLens? ==> r.why == Invalid || r.why == Truncated) && h == LensOutcome(r, nlen)
      modifies `next, `at, `later, `hold, `bits, `pos, `have, lens, codes, work, `lencode, `distcode, `ll, `dl, `mode
      ensures InputOk() && (old(Fed()) ==> Fed()) && old(P()) <= P()
      ensures ok ==> HeaderDone(h)
      ensures !ok && old(Fed()) ==> h == NoHeader(Truncated) || h == NoHeader(Invalid)
    {
      hide InputOk, LengthTable, Refused, StreamOf, Fed, From, ReadLens, Coded, Full, Small, Reading, ReadsFrom, TablesOk;
      have := 0;
      StartReading(r, cl);
      ok := ReadAllLens(cl, r);
      if ok {
        Holding();
        EndReading(r, cl);
        if mode != BAD { BuildExpected(r, h); }
      }
    }

    /** Building the tables from the lengths read, or finding them invalid. */
    method BuildExpected(ghost r: Lens, ghost h: Header)
      requires ArraysOk() && mode == TABLE && bits < 8 && 0 <= P()
      requires 257 <= nlen <= 286 && 1 <= ndist <= 30 && have == nlen + ndist
      requires Small(Got()) && (r == Lens(Got(), P()) || (r == NoLens(Invalid) && lens[256] == 0))
      requires h == LensOutcome(r, nlen)
      modifies codes, work, `lencode, `distcode, `ll, `dl, `mode
      ensures HeaderDone(h)
    {
      hide Refused, StreamOf, Good, Full, Small;
      ghost var g := Got();
      BuildTables();
    }

    ghost predicate ReadsFrom(cl: seq<nat>, r: Lens)
      reads this`input, this`bits, this`pos, this`nlen, this`ndist
    {
      |cl| == 19 && Small([]) && P() >= 0 && r == ReadLens(Z(), cl, nlen + ndist, P(), [])
    }

    lemma StartReading(r: Lens, cl: seq<nat>)
      requires ArraysOk() && LengthTable(cl) && !Refused(CODES, cl) && mode == TABLE && have == 0 && ReadsFrom(cl, r)
      requires 0 < nlen + ndist <= 320
      ensures Reading(r, cl)
    {
      hide Refused, Good, ReadLens, NoLinks;
      assert Got() == [];
      GoodIsSound(lencode, CODES, cl);
      CodeIsEmptyOrComplete(cl, From(Z(), P()));
      ReadLensUnfold(Z(), cl, nlen + ndist, P(), []);
    }

    /** What is known when all code lengths are read. */
    lemma EndReading(r: Lens, cl: seq<nat>)
      requires ArraysOk() && Reading(r, cl) && 257 <= nlen && 1 <= ndist && (mode == TABLE ==> have == nlen + ndist)
      ensures mode == TABLE || mode == BAD
      ensures mode == BAD ==> r == NoLens(Invalid)
      ensures mode == TABLE ==> Small(Got()) && (r == Lens(Got(), P()) || (r == NoLens(Invalid) && lens[256] == 0))
    {
    }

    /** The counts of a dynamic block and the length code, up to its table. */
    method HeaderMode(ghost h: Header) returns (ok: bool, ghost cl: seq<nat>, ghost r: Lens)
      requires InputOk() && ArraysOk() && mode == TABLE && bits < 8 && 0 <= P() && h == DynamicHeader(Z(), P())
      modifies `next, `at, `later, `hold, `bits, `pos, `have, lens, codes, work, `lencode, `mode, `nlen, `ndist, `ncode
      ensures InputOk() && (old(Fed()) ==> Fed())
      ensures ok ==> mode == TABLE || (mode == BAD && h == NoHeader(Invalid))
      ensures ok && mode == TABLE ==> LengthTable(cl) && !Refused(CODES, cl) && bits < 8 && old(P()) < P()
      ensures ok && mode == TABLE ==> 257 <= nlen <= 286 && 1 <= ndist <= 30 && ReadsFrom(cl, r)
      ensures ok && mode == TABLE ==>
        (r.Lens? ==> |r.lens| == nlen + ndist) && (r.NoLens? ==> r.why == Invalid || r.why == Truncated) && h == LensOutcome(r, nlen)
      ensures !ok && old(Fed()) ==> h == NoHeader(Truncated) || h == NoHeader(Invalid)
    {
      hide InputOk, LengthTable, Refused, StreamOf, Fed, Good, From, ReadLens, Peek, LengthCodeLengths, LensOutcome;
      cl, r := [], NoLens(Invalid);
      ok := ReadCounts();
      if !ok { return; }
      if nlen > 286 || ndist > 30 { mode := BAD; return; }
      cl := LengthCodeLengths(Z(), P(), ncode);
      ok := ReadLengthCodeLengths();
      if !ok { return; }
      BuildLengthTable();
      if mode == BAD { return; }
      r := ReadLens(Z(), cl, nlen + ndist, P(), []);
    }

    /** The TABLE mode. */
    method TableMode(ghost h: Header) returns (ok: bool)
      requires InputOk() && ArraysOk() && mode == TABLE && bits < 8 && 0 <= P() && h == DynamicHeader(Z(), P())
      modifies `next, `at, `later, `hold, `bits, `pos, `have, lens, codes, work, `lencode, `distcode, `ll, `dl, `mode
      modifies `nlen, `ndist, `ncode
      ensures InputOk() && (old(Fed()) ==> Fed())
      ensures ok ==> HeaderDone(h) && (mode == LEN ==> old(P()) < P())
      ensures !ok && old(Fed()) ==> h == NoHeader(Truncated) || h == NoHeader(Invalid)
    {
      hide InputOk, LengthTable, Refused, StreamOf, Fed, ReadsFrom, DynamicHeader, LensOutcome;
      ghost var cl, r;
      ok, cl, r := HeaderMode(h);
      if !ok || mode == BAD { return; }
      ok := CodesMode(cl, r, h);
    }

    // ---- inflateBack -----------------------------------------------------------------------

    /** What the whole stream comes to. */
    ghost function Whole(w: set<nat>): Outcome reads this`input { Inflate(input, wsize, w) }

    /** Seen from the state of the decoder: finishing the block and decoding the blocks
        after it from here gives the whole. */
    ghost predicate Follows(w: set<nat>)
      reads this`mode, this`last, this`input, this`ll, this`dl, this`bits, this`pos, this`out, this`sane
    {
      && P() >= 0
      && (Loose(Whole(w)) ||
          if mode == BAD then Whole(w) == Invalid || Whole(w) == TooFar || Whole(w) == NoRoom
          else Whole(w) == Rest(Z(), w, mode, last, ll, dl, P(), out))
    }

    ghost predicate Agrees()
      reads this`mode, this`last, this`input, this`ll, this`dl, this`bits, this`pos, this`out, this`taken, this`refused, this`sane
    {
      P() >= 0 && Recorded() && forall w: set<nat> :: Consistent(w) ==> Follows(w)
    }

    lemma Disjoint()
      requires Agrees()
      ensures taken !! refused
    {
    }

    /** The stream ends too early or is invalid. */
    ghost predicate CutShort()
      reads this`input, this`taken, this`refused, this`sane
    {
      forall w: set<nat> :: Consistent(w) ==> Loose(Whole(w)) || Whole(w) == Truncated || Whole(w) == Invalid
    }

    /** What every mode finds. */
    ghost predicate Ready()
      reads this`next, this`at, this`later, this`hold, this`bits, this`input, this`pos
      reads this`put, this`left, this`whave, this`sunk, this`out, window
      reads this`mode, this`lencode, this`distcode, this`ll, this`dl
    {
      && InputOk() && OutOk() && ArraysOk() && wsize > 0
      && (mode == LEN ==> TablesOk()) && (mode == DONE ==> bits == 0) && (mode != BAD ==> bits < 8)
    }

    /** Dispatching on the block type. */
    method DispatchBlock(t: nat)
      requires ArraysOk()
      modifies `mode, lens, work, fixed, `lencode, `distcode, `ll, `dl
      ensures mode == if t == 0 then STORED else if t == 1 then LEN else if t == 2 then TABLE else BAD
      ensures mode == LEN ==> TablesOk() && ll == FixedLens(FIXED_LENGTHS) && dl == Repeat(5, FIXED_DISTANCES)
    {
      if t == 0 {
        mode := STORED;
      } else if t == 1 {
        FixedTables();
        mode := LEN;
      } else if t == 2 {
        mode := TABLE;
      } else {
        mode := BAD;
      }
    }

    /** The three bits in front of a block. */
    method NextBlock() returns (ok: bool)
      requires InputOk() && ArraysOk() && bits < 8 && P() >= 0
      modifies `next, `at, `later, `hold, `bits, `pos, `mode, `last, lens, work, fixed, `lencode, `distcode, `ll, `dl
      ensures old(later) == [] ==> later == []
      ensures InputOk() && 0 <= old(P()) && (old(Fed()) ==> Fed())
      ensures ok ==> bits < 8 && P() == old(P()) + 3 <= Z().total && (last <==> Peek(Z(), old(P()), 1) == 1)
      ensures ok ==> var t := Peek(Z(), old(P()) + 1, 2);
        && mode == (if t == 0 then STORED else if t == 1 then LEN else if t == 2 then TABLE else BAD)
        && (mode == LEN ==> TablesOk() && ll == FixedLens(FIXED_LENGTHS) && dl == Repeat(5, FIXED_DISTANCES))
      ensures !ok ==> mode == old(mode)
      ensures !ok && old(Fed()) ==> old(P()) + 3 > Z().total
    {
      hide InputOk, TablesOk, StreamOf, Fed, Peek, From, FixedLens, Repeat;
      Holding();
      ok := NeedBits(3);
      if !ok { return; }
      var x := TakeBits(1);
      last := x == 1;
      x := TakeBits(2);
      DispatchBlock(x);
    }

    /** The end of the stream, after the last block. */
    method EndStream()
      requires Ready() && mode == TYPE && last && Agrees()
      modifies `hold, `bits, `mode
      ensures Ready() && Agrees() && mode == DONE && (old(Fed()) ==> Fed())
    {
      hide InputOk, OutOk, TablesOk, StreamOf, Fed, Stored, Dynamic, Codes, Align, Blocks, Inflate, Peek, FixedLens, Repeat;
      Holding();
      ghost var p := P();
      ByteBits();
      mode := DONE;
      AlignForward(p);
      forall w: set<nat> | Consistent(w) ensures Follows(w) { assert old(Follows(w)); }
    }

    /** The TYPE mode: the next block, or the end of the stream. */
    method TypeMode() returns (ok: bool)
      requires Ready() && mode == TYPE && Agrees()
      modifies `next, `at, `later, `hold, `bits, `pos, `mode, `last, lens, work, fixed, `lencode, `distcode, `ll, `dl
      ensures old(Fed()) ==> Fed()
      ensures ok ==> Ready() && Agrees() && (old(P()) < P() || mode == DONE) && mode != TYPE
      ensures ok && old(last) ==> mode == DONE
      ensures ok && !old(last) ==> var t := Peek(Z(), old(P()) + 1, 2);
        mode == (if t == 0 then STORED else if t == 1 then LEN else if t == 2 then TABLE else BAD)
      ensures !ok && old(Fed()) ==> CutShort()
    {
      hide InputOk, OutOk, TablesOk, StreamOf, Fed, Stored, Dynamic, Codes, Align, Blocks, Inflate, Peek, FixedLens, Repeat;
      Holding();
      ghost var p, out0 := P(), out;
      if last {
        EndStream();
        ok := true;
        return;
      }
      ok := NextBlock();
      forall w: set<nat> | Consistent(w)
        ensures ok ==> Follows(w)
        ensures !ok && old(Fed()) ==> Loose(Whole(w)) || Whole(w) == Truncated
      {
        assert old(Follows(w));
        BlocksUnfold(Z(), w, p, out0);
      }
    }

    /** The LEN mode without inflate_fast keeps what is expected of the block. */
    method SlowStepExpects(ghost p0: nat, ghost out0: seq<byte>) returns (ok: bool)
      requires InputOk() && OutOk() && TablesOk() && wsize > 0 && bits < 8 && mode == LEN
      requires Tracks(p0, out0)
      modifies window, `put, `left, `whave, `sunk, `out, `outFailed, `next, `at, `later, `pos, `hold, `bits, `mode, `refused
      ensures InputOk() && OutOk() && 0 <= old(P()) && (old(Fed()) ==> Fed())
      ensures ok ==> bits < 8 && outFailed == old(outFailed) && (mode == LEN || mode == TYPE || mode == BAD)
      ensures ok ==> 0 <= P() && Tracks(p0, out0) && (mode == LEN || mode == TYPE ==> old(P()) < P())
      ensures old(refused) <= refused && (!ok ==> refused == old(refused))
      ensures !ok && old(Fed()) ==> outFailed || forall w: set<nat> :: Consistent(w) ==>
        Loose(Codes(Z(), w, ll, dl, p0, out0)) || Codes(Z(), w, ll, dl, p0, out0) == Truncated
    {
      hide InputOk, OutOk, Good, StreamOf, CodeStep, Codes, Fed, Lz77.CopyBack;
      Holding();
      StoredWithin(input, wsize);
      ghost var p, before := P(), out;
      ghost var t0, r0 := taken, refused;
      ok := LenSlow();
      Holding();
      ghost var step := CodeStep(Z(), ll, dl, p, before);
      SlowRecords(step, taken, r0, p);
      forall w: set<nat> | Consistent(w)
        ensures var o := Codes(Z(), w, ll, dl, p0, out0);
          if ok then Loose(o) || Expects(w, o) else old(Fed()) && !outFailed ==> Loose(o) || o == Truncated
      {
        CodesUnfold(Z(), w, ll, dl, p, before);
      }
    }

    /** Where inflate_fast may look for older output. */
    method NoteWritten()
      requires OutOk() && left > 0
      modifies `whave
      ensures OutOk()
    {
      if whave < wsize { whave := wsize - left; }
    }

    lemma LenReady()
      requires Ready() && mode == LEN
      ensures InputOk() && OutOk() && ArraysOk() && TablesOk() && wsize > 0 && bits < 8
    {
      hide InputOk, OutOk, ArraysOk, TablesOk;
    }

    lemma LenTables()
      requires TablesOk()
      ensures |ll| <= 288 && |dl| <= 32
    {
      hide Good;
    }

    lemma ReadyAgain()
      requires InputOk() && OutOk() && ArraysOk() && wsize > 0 && bits < 8 && mode != DONE && (mode == LEN ==> TablesOk())
      ensures Ready()
    {
      hide InputOk, OutOk, ArraysOk, TablesOk;
    }

    lemma TracksStart()
      requires mode == LEN && |ll| <= 288 && |dl| <= 32 && P() >= 0 && Recorded()
      ensures Tracks(P(), out)
    {
      hide Codes, StreamOf;
    }

    lemma TracksRecords(p0: nat, out0: seq<byte>)
      requires Tracks(p0, out0)
      ensures |ll| <= 288 && |dl| <= 32 && Recorded()
    {
      hide Recorded, Expects, Codes, StreamOf;
    }

    /** The whole stream follows from the block. */
    lemma BlockFollows(w: set<nat>, p0: nat, out0: seq<byte>)
      requires Tracks(p0, out0) && Consistent(w) && P() >= 0
      requires Loose(Whole(w)) || Whole(w) == Rest(Z(), w, LEN, last, ll, dl, p0, out0)
      ensures Follows(w)
    {
      hide Codes, Blocks, StreamOf, Inflate;
    }

    lemma BlockCut(w: set<nat>, p0: nat, out0: seq<byte>)
      requires |ll| <= 288 && |dl| <= 32
      requires Loose(Whole(w)) || Whole(w) == Rest(Z(), w, LEN, last, ll, dl, p0, out0)
      ensures Loose(Codes(Z(), w, ll, dl, p0, out0)) ==> Loose(Whole(w))
      ensures Codes(Z(), w, ll, dl, p0, out0) == Truncated ==> Loose(Whole(w)) || Whole(w) == Truncated
    {
      hide Codes, Blocks, StreamOf, Inflate;
    }

    /** inflate_fast when there is input and space enough, and one code at a time otherwise. */
    method FastOrSlow(ghost p0: nat, ghost out0: seq<byte>) returns (ok: bool)
      requires InputOk() && OutOk() && TablesOk() && wsize > 0 && bits < 8 && mode == LEN
      requires Tracks(p0, out0)
      modifies window, `put, `left, `whave, `sunk, `out, `outFailed, `next, `at, `later, `pos, `hold, `bits, `mode, `taken, `refused
      ensures InputOk() && OutOk() && 0 <= old(P()) && (old(Fed()) ==> Fed())
      ensures ok ==> bits < 8 && outFailed == old(outFailed) && (mode == LEN || mode == TYPE || mode == BAD)
      ensures ok ==> Tracks(p0, out0) && (old(P()) < P() || mode == BAD)
      ensures old(taken) <= taken && old(refused) <= refused && (!ok ==> taken == old(taken) && refused == old(refused))
      ensures !ok && old(Fed()) ==> outFailed || forall w: set<nat> :: Consistent(w) ==>
        Loose(Codes(Z(), w, ll, dl, p0, out0)) || Codes(Z(), w, ll, dl, p0, out0) == Truncated
    {
      hide InputOk, OutOk, TablesOk, StreamOf, Fed, Codes, Tracks;
      Holding();
      ok := true;
      if |next| - at >= 6 && left >= 258 {
        NoteWritten();
        InflateFast(p0, out0);
      } else {
        ok := SlowStepExpects(p0, out0);
      }
    }

    /** The LEN mode, for the whole stream. */
    method LenMode() returns (ok: bool)
      requires Ready() && mode == LEN && Agrees()
      modifies window, `put, `left, `whave, `sunk, `out, `outFailed, `next, `at, `later, `pos, `hold, `bits, `mode, `taken, `refused
      ensures old(Fed()) ==> Fed()
      ensures ok ==> Ready() && Agrees() && outFailed == old(outFailed)
      ensures ok ==> old(P()) < P() || mode == BAD
      ensures ok ==> mode == LEN || mode == TYPE || mode == BAD
      ensures taken !! refused
      ensures !ok && old(Fed()) ==> outFailed || CutShort()
    {
      hide InputOk, OutOk, TablesOk, StreamOf, Fed, Codes, Rest, Inflate, Ready, Tracks;
      LenReady();
      LenTables();
      Holding();
      TracksStart();
      ghost var p, out0 := P(), out;
      ok := FastOrSlow(p, out0);
      Holding();
      if ok { TracksRecords(p, out0); }
      forall w: set<nat> | Consistent(w)
        ensures ok ==> Follows(w)
        ensures !ok && old(Fed()) && !outFailed ==> Loose(Whole(w)) || Whole(w) == Truncated
      {
        assert old(Follows(w));
        if ok { BlockFollows(w, p, out0); } else { BlockCut(w, p, out0); }
      }
      if ok { ReadyAgain(); }
    }

    /** The STORED mode, for the whole stream. */
    method StoredTurn() returns (ok: bool)
      requires Ready() && mode == STORED && Agrees()
      modifies window, `put, `left, `whave, `sunk, `out, `outFailed, `next, `at, `later, `pos, `hold, `bits, `mode
      ensures old(Fed()) ==> Fed()
      ensures ok ==> Ready() && Agrees() && outFailed == old(outFailed)
      ensures ok ==> old(P()) < P() || mode == BAD
      ensures ok ==> mode == TYPE || mode == BAD
      ensures !ok && old(Fed()) ==> outFailed || CutShort()
    {
      hide InputOk, OutOk, Good, StreamOf, Fed, Codes, Blocks, Stored, Dynamic, Inflate;
      Holding();
      ok := StoredMode();
      Holding();
      forall w: set<nat> | Consistent(w)
        ensures ok ==> Follows(w)
        ensures !ok && old(Fed()) && !outFailed ==> Loose(Whole(w)) || Whole(w) == Truncated
      {
        assert old(Follows(w));
      }
    }

    /** The TABLE mode, for the whole stream. */
    method TableTurn() returns (ok: bool)
      requires Ready() && mode == TABLE && Agrees()
      modifies `next, `at, `later, `hold, `bits, `pos, `have, lens, codes, work, `lencode, `distcode, `ll, `dl, `mode
      modifies `nlen, `ndist, `ncode
      ensures old(Fed()) ==> Fed()
      ensures ok ==> Ready() && Agrees() && (old(P()) < P() || mode == BAD)
      ensures ok ==> mode == LEN || mode == BAD
      ensures !ok && old(Fed()) ==> CutShort()
    {
      hide InputOk, OutOk, Good, StreamOf, Fed, Codes, Blocks, Stored, DynamicHeader, Full, Inflate;
      Holding();
      StoredWithin(input, wsize);
      ghost var h := DynamicHeader(Z(), P());
      ok := TableMode(h);
      Holding();
      forall w: set<nat> | Consistent(w)
        ensures ok ==> Follows(w)
        ensures !ok && old(Fed()) ==> Loose(Whole(w)) || Whole(w) == Truncated || Whole(w) == Invalid
      {
        assert old(Follows(w));
      }
    }

    /** One turn of the mode switch. */
    method Turn() returns (ok: bool)
      requires Ready() && mode != DONE && mode != BAD && Agrees()
      modifies this`next, this`at, this`later, this`hold, this`bits, this`pos, this`mode, this`last, this`have
      modifies this`put, this`left, this`whave, this`sunk, this`out, this`outFailed, this`taken, this`refused
      modifies this`nlen, this`ndist, this`ncode, this`lencode, this`distcode, this`ll, this`dl
      modifies window, lens, work, codes, fixed
      ensures old(Fed()) ==> Fed()
      ensures ok ==> Ready() && Agrees() && outFailed == old(outFailed)
      ensures ok ==> old(P()) < P() || mode == DONE || mode == BAD
      ensures taken !! refused
      ensures !ok && old(Fed()) ==> outFailed || CutShort()
    {
      hide InputOk, OutOk, Good, StreamOf, Fed, Agrees, Ready, CutShort;
      Disjoint();
      assert mode == LEN || mode == TYPE || mode == STORED || mode == TABLE;
      if mode == TYPE {
        ok := TypeMode();
      } else if mode == STORED {
        ok := StoredTurn();
      } else if mode == TABLE {
        ok := TableTurn();
      } else {
        ok := LenMode();
      }
    }

    ghost predicate Valid()
    {
      window.Length == wsize && 0 < wsize <= LARGEST_WINDOW && ArraysOk()
    }

    /** Resetting the state for a new stream: `first` is what next_in and avail_in
        offer, and `chunks` what in() will hand over. */
    method Reset(first: seq<byte>, chunks: seq<seq<byte>>)
      requires Valid()
      modifies `next, `at, `later, `hold, `bits, `pos, `input, `put, `left, `whave, `sunk, `out, `mode, `last, `outFailed, `taken, `refused
      ensures Ready() && mode == TYPE && !last && P() == 0 && out == [] && sunk == []
      ensures input == first + Concat(chunks) && later == chunks && !outFailed && taken == {} && refused == {}
      ensures Agrees()
    {
      hide InputOk, OutOk, Good, Agrees, Ready;
      ResetMode();
      ResetOutput();
      ResetInput(first, chunks);
      StartReady();
      StartAgrees();
    }

    method ResetMode()
      modifies `mode, `last, `outFailed, `taken, `refused
      ensures mode == TYPE && !last && !outFailed && taken == {} && refused == {}
    {
      mode, last := TYPE, false;
      outFailed, taken, refused := false, {}, {};
    }

    lemma StartReady()
      requires InputOk() && OutOk() && ArraysOk() && wsize > 0 && mode == TYPE && bits == 0
      ensures Ready()
    {
    }

    lemma StartAgrees()
      requires mode == TYPE && !last && P() == 0 && out == [] && taken == {} && refused == {}
      ensures Agrees()
    {
      hide Blocks, StreamOf;
    }

    method ResetInput(first: seq<byte>, chunks: seq<seq<byte>>)
      modifies `next, `at, `later, `hold, `bits, `pos, `input
      ensures InputOk() && bits == 0 && pos == 0 && input == first + Concat(chunks) && later == chunks
    {
      hide Low, From, StreamOf, Buffered, Concat;
      BufferStarts(first, chunks);
      LowNone(From(StreamOf(first + Concat(chunks), wsize), 0));
      next, at, later := first, 0, chunks;
      input, pos := first + Concat(chunks), 0;
      hold, bits := 0, 0;
    }

    method ResetOutput()
      requires Valid()
      modifies `put, `left, `whave, `sunk, `out
      ensures OutOk() && out == [] && sunk == []
    {
      hide Windowed;
      WindowStarts(window[..], wsize);
      put, left, whave, sunk, out := 0, wsize, 0, [], [];
    }

    /** Writing out what is left in the window. */
    method Finish() returns (ok: bool)
      requires OutOk()
      modifies `sunk, `outFailed
      ensures Concat(sunk) == out
      ensures ok ==> outFailed == old(outFailed)
      ensures !ok ==> outFailed
    {
      hide Concat;
      ok := true;
      ConcatSnoc(sunk, window[..put]);
      if left < wsize {
        sunk := sunk + [window[..put]];
        var failed: bool := *;
        if failed {
          outFailed := true;
          ok := false;
        }
      }
    }

    /** What a result of inflateBack says about what the stream comes to. */
    ghost predicate Verdict(r: Return, o: Outcome, fed: bool)
      reads this`sunk, this`pos, this`outFailed, this`sane
    {
      Loose(o) ||
      match r
      case STREAM_END => o == Done(Concat(sunk), 8 * pos)
      case DATA_ERROR => o == Invalid || o == TooFar || o == NoRoom
      case BUF_ERROR => fed ==> outFailed || o == Truncated || o == Invalid
    }

    /** The loop over the modes; false when input or output space runs out. */
    method Modes() returns (ok: bool)
      requires Ready() && Agrees() && !outFailed
      modifies this, window, lens, work, codes, fixed
      ensures input == old(input) && sane == old(sane) && taken !! refused
      ensures ok ==> Ready() && Agrees() && (mode == DONE || mode == BAD)
      ensures !ok && old(Fed()) ==> outFailed || CutShort()
    {
      hide Ready, Agrees, CutShort;
      ReadyInput();
      Disjoint();
      while mode != DONE && mode != BAD
        invariant Ready() && Agrees() && (old(Fed()) ==> Fed()) && !outFailed
        invariant input == old(input) && sane == old(sane) && 0 <= P() <= Z().total && taken !! refused
        decreases mode != DONE && mode != BAD, Z().total - P()
      {
        ok := Turn();
        if !ok { return; }
        ReadyInput();
      }
      ok := true;
    }

    lemma ReadyInput()
      requires Ready()
      ensures 0 <= P() <= Z().total
    {
    }

    lemma DoneReady()
      requires Ready() && mode == DONE
      ensures OutOk() && bits == 0
    {
    }

    lemma DataVerdict(fed: bool)
      requires Agrees() && mode == BAD
      ensures forall w: set<nat> :: Consistent(w) ==> Verdict(DATA_ERROR, Inflate(input, wsize, w), fed)
    {
      hide Inflate, Recorded;
    }

    lemma CutVerdict(fed: bool)
      requires fed ==> outFailed || CutShort()
      ensures forall w: set<nat> :: Consistent(w) ==> Verdict(BUF_ERROR, Inflate(input, wsize, w), fed)
    {
      hide Inflate;
    }

    lemma DoneVerdict(fed: bool)
      requires Agrees() && mode == DONE && bits == 0 && Concat(sunk) == out
      ensures forall w: set<nat> :: Consistent(w) ==> Verdict(STREAM_END, Inflate(input, wsize, w), fed)
    {
      hide Inflate, Recorded, Concat;
    }

    /** Where nothing is out of reach, the decoding is that of the standard. */
    lemma Plainly(fed: bool)
      requires Verdict(STREAM_END, Inflate(input, wsize, taken), fed) && Valid()
      ensures Inflate(input, wsize, {}) == TooFar || Standard(input) == Done(Concat(sunk), 8 * pos)
    {
      hide Inflate, Standard, Concat;
      NoneBeyond(input, wsize, taken);
      StandardOrNot(input, wsize);
    }

    /** inflateBack.  Of the matches out of reach, those at `taken` are copied from one window
        size less far back and those at `refused` are refused.  With that the
        result is Z_STREAM_END only if the stream decodes, and then the buffers given to
        out() make up its decoding and the input up to the end of the stream is used; it is
        Z_DATA_ERROR only if the stream is invalid, a distance is refused, or a table would
        be full; and Z_BUF_ERROR only if out() failed or the stream ends early.  Nothing is
        promised only if a match at `taken` finds nothing defined where it copies from. */
    method InflateBack(first: seq<byte>, chunks: seq<seq<byte>>) returns (r: Return)
      requires Valid()
      modifies this, window, lens, work, codes, fixed
      ensures input == first + Concat(chunks) && taken !! refused && sane == old(sane)
      ensures forall w: set<nat> :: Consistent(w) ==>
        Verdict(r, Inflate(input, wsize, w), forall i :: 0 <= i < |chunks| ==> chunks[i] != [])
      ensures r == STREAM_END ==>
        Inflate(input, wsize, {}) == TooFar || Standard(input) == Done(Concat(sunk), 8 * pos)
    {
      hide InputOk, OutOk, Ready, Agrees, Verdict, CutShort, Inflate, Concat, Standard;
      ghost var fed0 := forall i :: 0 <= i < |chunks| ==> chunks[i] != [];
      Reset(first, chunks);
      ReadyInput();
      Disjoint();
      var going := Modes();
      if !going {
        CutVerdict(fed0);
        return BUF_ERROR;
      }
      if mode == BAD {
        DataVerdict(fed0);
        return DATA_ERROR;
      }
      DoneReady();
      var ok := Finish();
      DoneVerdict(fed0);
      if !ok {
        CutVerdict(fed0);
        return BUF_ERROR;
      }
      r := STREAM_END;
      Plainly(fed0);
    }

    /** inflateBackInit_: windowBits is 8 to 15. */
    constructor (windowBits: nat, window_: array<byte>)
      requires 8 <= windowBits <= 15 && window_.Length == Pow2(windowBits)
      ensures Valid() && window == window_ && wsize == Pow2(windowBits)
      ensures fresh(lens) && fresh(work) && fresh(codes) && fresh(fixed)
    {
      WindowSize(windowBits);
      window, wsize := window_, Pow2(windowBits);
      lens, work := new nat[320], new nat[288];
      codes, fixed := new Code[ENOUGH_LENS + ENOUGH_DISTS], new Code[544];
    }
  }

  lemma {:induction false} WindowSize(k: nat)
    requires k <= 15
    ensures 0 < Pow2(k) <= LARGEST_WINDOW
  {
    FixedWeights();
    Pow2Mono(k, 15);
  }

  /** The decoder is where the step of the specification leads. */
  ghost predicate Arrived(step: Step, mode: Mode, before: seq<byte>, out: seq<byte>, p: int)
  {
    match step
    case Emit(o, q) => mode == LEN && o == out && q == p
    case EndOfBlock(q) => mode == TYPE && before == out && q == p
    case Stop(why) => mode == BAD && why == Invalid
    case Far(dist, len, q) => mode == BAD && q == p && before == out
  }

  /** Where a match that is out of reach ends. */
  function Refusal(step: Step): set<nat> { if step.Far? then {step.p} else {} }

  /** Arrived, and a match out of reach is recorded as refused. */
  ghost predicate SlowDone(step: Step, mode: Mode, before: seq<byte>, out: seq<byte>, p: int, refused0: set<nat>, refused: set<nat>)
  {
    Arrived(step, mode, before, out, p) && refused == refused0 + Refusal(step)
  }

  lemma {:induction false} PlainSlow(step: Step, mode: Mode, before: seq<byte>, out: seq<byte>, p: int, refused: set<nat>)
    requires !step.Far? && Arrived(step, mode, before, out, p)
    ensures SlowDone(step, mode, before, out, p, refused, refused)
  {
  }

  /** The same for a fast step: a match out of reach is refused only if `sane` is set and it
      reaches beyond all that is in the window; otherwise, if it is still in the window, it
      is copied from one window size less far back. */
  ghost predicate Quick(step: Step, mode: Mode, before: seq<byte>, out: seq<byte>, p: int,
                        put: nat, whave: nat, wsize: nat, sane: bool)
  {
    match step
    case Far(dist, len, q) =>
      && q == p && mode == (if sane && dist > put + whave then BAD else LEN)
      && (mode == BAD ==> out == before)
      && (mode == LEN && wsize < dist <= put + whave ==>
            dist - wsize <= |before| && out == Lz77.CopyBack(before, dist - wsize, len))
    case _ => Arrived(step, mode, before, out, p)
  }

  /** Quick, and a match out of reach is recorded as copied or refused. */
  ghost predicate FastDone(step: Step, mode: Mode, before: seq<byte>, out: seq<byte>, p: int,
                           put: nat, whave: nat, wsize: nat, sane: bool,
                           taken0: set<nat>, refused0: set<nat>, taken: set<nat>, refused: set<nat>)
  {
    && Quick(step, mode, before, out, p, put, whave, wsize, sane)
    && taken == taken0 + (if mode == LEN then Refusal(step) else {})
    && refused == refused0 + (if mode == BAD then Refusal(step) else {})
  }

  lemma {:induction false} PlainStep(step: Step, mode: Mode, before: seq<byte>, out: seq<byte>, p: int,
                                     put: nat, whave: nat, wsize: nat, sane: bool, taken: set<nat>, refused: set<nat>)
    requires !step.Far? && Arrived(step, mode, before, out, p)
    ensures FastDone(step, mode, before, out, p, put, whave, wsize, sane, taken, refused, taken, refused)
    ensures Arrived(step, mode, before, out, p)
  {
  }

  /** What the entry `here` of a distance code ending at p says about the step. */
  ghost predicate DistanceSays(step: Step, here: Code, z: Stream, out: seq<byte>, len: nat, p: nat)
  {
    && PlainOp(here.op) && here.op != 0
    && (here.op >= 64 ==> step == Stop(Invalid))
    && (16 <= here.op <= 29 ==>
          && 1 <= here.val + Peek(z, p, here.op - 16)
          && step == if p + (here.op - 16) > z.total then Stop(Truncated)
                     else MatchStep(z, out, here.val + Peek(z, p, here.op - 16), len, p + (here.op - 16)))
  }

  /** What the entry `here` of a literal/length code ending at p says about the step. */
  ghost predicate CodeSays(step: Step, here: Code, z: Stream, dl: seq<nat>, out: seq<byte>, p: nat)
    requires |dl| <= 32
  {
    && PlainOp(here.op)
    && (here.op == 0 ==> here.val < 256 && step == Emit(out + [here.val], p))
    && (here.op == 96 ==> step == EndOfBlock(p))
    && (here.op == 64 || here.op == 73 || here.op == 195 ==> step == Stop(Invalid))
    && (16 <= here.op <= 29 ==>
          && here.op <= 21 && 3 <= here.val + Peek(z, p, here.op - 16) <= 258
          && step == LengthStep(z, dl, p, out, here.val, here.op - 16))
  }

  /** All these matches end by p. */
  ghost predicate MetBy(taken: set<nat>, refused: set<nat>, p: int)
  {
    (forall q :: q in taken ==> q <= p) && (forall q :: q in refused ==> q <= p)
  }

  lemma {:induction false} SlowRecords(step: Step, taken: set<nat>, refused0: set<nat>, p0: int)
    requires taken !! refused0 && MetBy(taken, refused0, p0) && (step.Far? ==> p0 < step.p)
    ensures taken !! refused0 + Refusal(step)
  {
    assert step.Far? ==> step.p !in taken;
  }

  /** Records of earlier matches stay apart from a later one. */
  lemma {:induction false} FastRecords(step: Step, mode: Mode, before: seq<byte>, out: seq<byte>, p: int,
                                       put: nat, whave: nat, wsize: nat, sane: bool,
                                       taken0: set<nat>, refused0: set<nat>, taken: set<nat>, refused: set<nat>, p0: int)
    requires FastDone(step, mode, before, out, p, put, whave, wsize, sane, taken0, refused0, taken, refused)
    requires taken0 !! refused0 && MetBy(taken0, refused0, p0) && p0 <= p && (step.Far? ==> p0 < step.p)
    ensures taken !! refused && taken0 <= taken && refused0 <= refused
    ensures mode != BAD ==> MetBy(taken, refused, p)
  {
    hide Lz77.CopyBack;
    assert step.Far? ==> step.p !in taken0 && step.p !in refused0;
  }

  /** What a fast step does to a match out of reach, for those that let through what was copied. */
  lemma {:induction false} FastFollows(step: Step, mode: Mode, before: seq<byte>, out: seq<byte>, p: int,
                                       put: nat, whave: nat, wsize: nat, sane: bool,
                                       taken0: set<nat>, refused0: set<nat>, taken: set<nat>, refused: set<nat>, w: set<nat>)
    requires FastDone(step, mode, before, out, p, put, whave, wsize, sane, taken0, refused0, taken, refused)
    requires taken <= w && refused !! w && wsize > 0 && put == |before| % wsize && (|before| > wsize ==> whave == wsize)
    requires step.Far? ==> step.dist > |before| || step.dist > wsize
    ensures step.Far? && step.p !in w ==> mode == BAD
    ensures step.Far? && step.p in w ==> mode == LEN && p == step.p
    ensures step.Far? && step.p in w && Wraps(wsize, |before|, step.dist) ==>
      out == Lz77.CopyBack(before, step.dist - wsize, step.len)
    ensures step.Far? && step.p in w && !Wraps(wsize, |before|, step.dist) && sane ==> |before| <= wsize
    ensures !step.Far? ==> Arrived(step, mode, before, out, p)
  {
    hide Lz77.CopyBack;
  }

  /** The fast step does what the slow step does if and only if the distance is in reach,
      or `sane` is set and it reaches beyond all that is in the window. */
  lemma {:induction false} FastMatched(step: Step, mode: Mode, before: seq<byte>, out: seq<byte>, p: int,
                                       put: nat, whave: nat, wsize: nat, sane: bool,
                                       taken0: set<nat>, refused0: set<nat>, taken: set<nat>, refused: set<nat>)
    requires FastDone(step, mode, before, out, p, put, whave, wsize, sane, taken0, refused0, taken, refused)
    ensures Arrived(step, mode, before, out, p) <==> (step.Far? ==> sane && step.dist > put + whave)
  {
  }

  /** The buffer is a stretch of the input, `at` is where byte `pos` of the input
      is in it, and what follows is still to come. */
  ghost predicate Buffered(next: seq<byte>, at: nat, later: seq<seq<byte>>, input: seq<byte>, pos: nat)
  {
    && at <= |next| && at <= pos && pos + (|next| - at) <= |input|
    && next == input[pos - at..pos - at + |next|]
    && Concat(later) == input[pos - at + |next|..]
  }

  lemma {:induction false} BufferStarts(first: seq<byte>, chunks: seq<seq<byte>>)
    ensures Buffered(first, 0, chunks, first + Concat(chunks), 0)
  {
    hide Concat;
    var s := first + Concat(chunks);
    assert s[0..|first|] == first && s[|first|..] == Concat(chunks);
  }

  lemma {:induction false} WindowStarts(w: seq<byte>, wsize: nat)
    requires |w| == wsize > 0
    ensures Windowed(w, 0, wsize, wsize, 0, [], [])
  {
    assert w[..0] == [];
  }

  lemma {:induction false} LowNone(x: nat)
    ensures Low(x, 0) == 0
  {
  }

  lemma {:induction false} BufferTaken(next: seq<byte>, at: nat, later: seq<seq<byte>>, input: seq<byte>, pos: nat)
    requires Buffered(next, at, later, input, pos) && at < |next|
    ensures pos < |input| && next[at] == input[pos] && Buffered(next, at + 1, later, input, pos + 1)
  {
  }

  lemma {:induction false} BufferReturned(next: seq<byte>, at: nat, later: seq<seq<byte>>, input: seq<byte>, pos: nat, n: nat)
    requires Buffered(next, at, later, input, pos) && n <= at
    ensures n <= pos && Buffered(next, at - n, later, input, pos - n)
  {
  }

  /** The whole, once the block comes to o. */
  ghost function After(z: Stream, w: set<nat>, last: bool, o: Outcome): Outcome
  {
    match o
    case Done(out, q) => if last then Done(out, Align(q)) else Blocks(z, w, q, out)
    case why => why
  }

  /** What the stream still comes to in each mode. */
  ghost function Rest(z: Stream, w: set<nat>, mode: Mode, last: bool, ll: seq<nat>, dl: seq<nat>, p: nat, out: seq<byte>): Outcome
  {
    match mode
    case TYPE => After(z, w, last, Done(out, p))
    case STORED => After(z, w, last, Stored(z, p, out))
    case TABLE => After(z, w, last, Dynamic(z, w, p, out))
    case LEN => if |ll| <= 288 && |dl| <= 32 then After(z, w, last, Codes(z, w, ll, dl, p, out)) else Invalid
    case DONE => Done(out, p)
    case BAD => Invalid
  }

  /** The blocks from p on, by the type of the first. */
  lemma {:induction false} BlocksUnfold(z: Stream, w: set<nat>, p: nat, out: seq<byte>)
    ensures p + 3 > z.total ==> Blocks(z, w, p, out) == Truncated
    ensures p + 3 <= z.total ==>
      Blocks(z, w, p, out) == After(z, w, Peek(z, p, 1) == 1, BlockOfType(z, w, Peek(z, p + 1, 2), p + 3, out))
  {
    hide Stored, Codes, Dynamic, Peek, FixedLens, Repeat;
  }

  lemma {:induction false} AlignForward(p: nat)
    ensures Align(p) >= p
  {
  }

  ghost predicate DecodesNothing(cl: seq<nat>) { Offset(cl, MAXBITS + 1) == 0 }

  lemma {:induction false} SmallParts(l: seq<nat>, n: nat)
    requires Small(l) && n <= |l|
    ensures Lengths(l[..n]) && Lengths(l[n..])
  {
  }

  /** The lengths of the code length code that are let through. */
  lemma {:induction false} CodeIsEmptyOrComplete(cl: seq<nat>, x: nat)
    requires Lengths(cl) && !Refused(CODES, cl)
    ensures DecodesNothing(cl) <==> DecodeSymbol(cl, x) < 0
  {
    hide Offset, KraftSum, Pow2, DecodeSymbol;
    if DecodesNothing(cl) { EmptyDecodes(cl, x); } else { CompleteDecodes(cl, x); }
  }

  lemma {:induction false} ReadLensUnfold(z: Stream, cl: seq<nat>, total: nat, p: nat, got: seq<nat>)
    requires |cl| <= 19 && |got| < total && Small(got)
    ensures ReadLens(z, cl, total, p, got) ==
      match LensStep(z, cl, total, p, got)
      case NoLens(why) => NoLens(why)
      case Lens(got', q) => ReadLens(z, cl, total, q, got')
  {
    hide LensStep;
  }

  lemma {:induction false} CodesUnfold(z: Stream, w: set<nat>, ll: seq<nat>, dl: seq<nat>, p: nat, out: seq<byte>)
    requires |ll| <= 288 && |dl| <= 32
    ensures Codes(z, w, ll, dl, p, out) ==
      match CodeStep(z, ll, dl, p, out)
      case Emit(out', q) => Codes(z, w, ll, dl, q, out')
      case EndOfBlock(q) => Done(out, q)
      case Stop(why) => why
      case Far(dist, len, q) =>
        if q !in w then TooFar
        else if Wraps(z.window, |out|, dist) then Codes(z, w, ll, dl, q, Lz77.CopyBack(out, dist - z.window, len))
        else Undefined(|out|)
  {
    hide CodeStep, Lz77.CopyBack;
  }

  lemma {:induction false} BufferSwitched(next: seq<byte>, later: seq<seq<byte>>, input: seq<byte>, pos: nat)
    requires Buffered(next, |next|, later, input, pos)
    ensures pos <= |input|
    ensures |later| > 0 ==> Buffered(later[0], 0, later[1..], input, pos)
    ensures |later| == 0 ==> pos == |input|
  {
    if |later| > 0 {
      var c := later[0];
      assert Concat(later) == c + Concat(later[1..]);
      assert input[pos..][..|c|] == c;
      assert input[pos..][|c|..] == Concat(later[1..]);
    }
  }

  /** The window w holds the latest output: before `put` the bytes since it was
      last written out, and from there on, if it ever was, the ones before those. */
  ghost predicate Windowed(w: seq<byte>, put: nat, left: nat, wsize: nat, whave: nat, sunk: seq<seq<byte>>, out: seq<byte>)
  {
    && |w| == wsize == put + left && put <= |out| && whave <= wsize
    && out == Concat(sunk) + w[..put] && LapsOk(|out|, put, wsize)
    && (whave == wsize <==> sunk != [])
    && (sunk != [] ==> |out| >= put + wsize && out[|out| - wsize..|out| - put] == w[put..])
    && (sunk == [] ==> |out| == put)
  }

  /** Whole windows were written out before the current lap. */
  ghost predicate LapsOk(n: nat, put: nat, wsize: nat)
  {
    put <= n && (wsize > 0 ==> (n - put) % wsize == 0)
  }

  lemma {:induction false} LapEnds(n: nat, wsize: nat)
    requires LapsOk(n, wsize, wsize)
    ensures LapsOk(n, 0, wsize)
  {
    if wsize > 0 { Arith.ModShift(n - wsize, wsize, 1); }
  }

  lemma {:induction false} LapRest(n: nat, put: nat, wsize: nat)
    requires LapsOk(n, put, wsize) && put < wsize
    ensures put == n % wsize
  {
    Arith.DivMod(n - put, wsize);
    Arith.ModUnique(n, wsize, (n - put) / wsize, put);
  }

  lemma {:induction false} LapGrows(n: nat, put: nat, wsize: nat)
    requires LapsOk(n, put, wsize)
    ensures LapsOk(n + 1, put + 1, wsize)
  {
  }

  lemma {:induction false} WindowFlushed(w: seq<byte>, wsize: nat, whave: nat, sunk: seq<seq<byte>>, out: seq<byte>)
    requires Windowed(w, wsize, 0, wsize, whave, sunk, out)
    ensures Windowed(w, 0, wsize, wsize, wsize, sunk + [w], out)
  {
    hide Concat, LapsOk;
    LapEnds(|out|, wsize);
    ConcatSnoc(sunk, w);
    assert w[..wsize] == w && w[0..] == w && w[..0] == [];
    assert out + [] == out;
    assert out[|out| - wsize..] == w;
  }

  lemma {:induction false} WindowWritten(w: seq<byte>, put: nat, left: nat, wsize: nat, whave: nat, sunk: seq<seq<byte>>, out: seq<byte>, b: byte)
    requires Windowed(w, put, left, wsize, whave, sunk, out) && left > 0
    requires whave < wsize || sunk != []
    ensures Windowed(w[put := b], put + 1, left - 1, wsize, whave, sunk, out + [b])
  {
    hide Concat, LapsOk;
    LapGrows(|out|, put, wsize);
    var w', o' := w[put := b], out + [b];
    assert w'[..put + 1] == w[..put] + [b];
    assert Concat(sunk) + (w[..put] + [b]) == Concat(sunk) + w[..put] + [b];
    if sunk != [] {
      assert w'[put + 1..] == w[put..][1..];
      assert o'[|o'| - wsize..|o'| - (put + 1)] == out[|out| - wsize..|out| - put][1..];
    }
  }

  lemma {:induction false} WindowHolds(w: seq<byte>, put: nat, left: nat, wsize: nat, whave: nat, sunk: seq<seq<byte>>, out: seq<byte>, dist: nat, from: int)
    requires Windowed(w, put, left, wsize, whave, sunk, out) && 1 <= dist <= |out| && dist <= wsize
    requires (from == put - dist || from == put - dist + wsize) && 0 <= from < wsize
    ensures w[from] == out[|out| - dist]
  {
    hide Concat, LapsOk;
    if from < put {
      WindowFront(w, put, Concat(sunk), out, from);
    } else {
      WindowBack(w, put, wsize, out, from);
    }
  }

  lemma {:induction false} WindowFront(w: seq<byte>, put: nat, c: seq<byte>, out: seq<byte>, i: nat)
    requires i < put <= |w| && out == c + w[..put]
    ensures w[i] == out[|out| - put + i]
  {
    assert out[|c| + i] == w[..put][i];
  }

  lemma {:induction false} WindowBack(w: seq<byte>, put: nat, wsize: nat, out: seq<byte>, i: nat)
    requires put <= i < wsize == |w| && |out| >= wsize && out[|out| - wsize..|out| - put] == w[put..]
    ensures w[i] == out[|out| - wsize - put + i]
  {
    assert w[put..][i - put] == out[|out| - wsize..|out| - put][i - put];
  }

  lemma {:induction false} CopyOne(out: seq<byte>, d: nat, n: nat)
    requires 1 <= d <= |out| && n > 0
    ensures Lz77.CopyBack(out, d, n) == Lz77.CopyBack(out + [out[|out| - d]], d, n - 1)
  {
  }

  lemma {:induction false} CopyTwice(out: seq<byte>, d: nat, m: nat, n: nat)
    requires 1 <= d <= |out|
    ensures Lz77.CopyBack(Lz77.CopyBack(out, d, m), d, n) == Lz77.CopyBack(out, d, m + n)
    decreases m
  {
    if m > 0 { CopyTwice(out + [out[|out| - d]], d, m - 1, n); }
  }

  lemma {:induction false} CopyNone(out: seq<byte>, d: nat)
    requires 1 <= d <= |out|
    ensures Lz77.CopyBack(out, d, 0) == out
  {
  }

  /** Exclusive or with all ones is the complement. */
  lemma {:induction false} XorOnes(x: nat, k: nat)
    requires x < Pow2(k)
    ensures Xor(x, Pow2(k) - 1) == Pow2(k) - 1 - x
    decreases k
  {
    if k > 0 {
      var m: nat := Pow2(k) - 1;
      XorOnes(x / 2, k - 1);
      XorParts(x, m);
      assert m / 2 == Pow2(k - 1) - 1 && m % 2 == 1;
      hide Xor;
      SameNumber(Xor(x, m), m - x);
    } else {
      XorZero(0);
    }
  }

  lemma {:induction false} StoredWithin(input: seq<byte>, w: nat)
    ensures StreamOf(input, w).total == 8 * |input| && StreamOf(input, w).window == w && StreamOf(input, w).limited
  {
  }

  lemma {:induction false} AlignOf(pos: nat, bits: nat)
    requires bits <= 8 * pos
    ensures Align(8 * pos - bits) == 8 * pos - bits + bits % 8
  {
  }
}
