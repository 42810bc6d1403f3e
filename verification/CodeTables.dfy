/** Looking symbols up when only part of the stream is held. */
module CodeTables {
  import opened Bits
  import opened SymbolSort
  import opened PrefixCode
  import opened InfTrees
  import opened InflateSpec

  /** A table inside a larger array of entries, and its index bits. */
  datatype Table = Table(entries: seq<Code>, base: nat, bits: nat)

  ghost predicate Good(t: Table, type_: CodeType, lens: seq<nat>)
  {
    Lengths(lens) && !OverSubscribed(lens) && TableFor(t.entries, t.base, t.bits, type_, lens)
  }

  ghost predicate Sound(t: Table) { Closed(t.entries, t.base, t.bits) }

  lemma {:induction false} GoodIsSound(t: Table, type_: CodeType, lens: seq<nat>)
    requires Good(t, type_, lens)
    ensures Sound(t) && |lens| <= SymbolLimit(type_) && Lengths(lens)
  {
  }

  /** The entry and the number of bits that the table gives for x. */
  ghost function Found(t: Table, x: nat): (Code, nat)
    requires Sound(t)
  {
    Lookup(t.entries, t.base, t.bits, x)
  }

  ghost predicate IsFound(r: (Code, nat), type_: CodeType, lens: seq<nat>, x: nat)
    requires |lens| <= SymbolLimit(type_)
  {
    EntryFor(r, type_, lens, x)
  }

  lemma {:induction false} FoundFor(t: Table, type_: CodeType, lens: seq<nat>, x: nat)
    requires Good(t, type_, lens)
    ensures Sound(t) && |lens| <= SymbolLimit(type_) && IsFound(Found(t, x), type_, lens, x)
    ensures 1 <= Found(t, x).1 <= 15
  {
    hide Closed, Lookup, Low, SymbolOp, SymbolVal;
    assert EntryFor(Lookup(t.entries, t.base, t.bits, x), type_, lens, x);
  }

  /** Whether x or only its low b bits are looked up makes no difference as soon
      as one of them gives a code of at most b bits. */
  lemma {:induction false} EnoughBits(t: Table, type_: CodeType, lens: seq<nat>, x: nat, b: nat)
    requires Good(t, type_, lens)
    ensures Sound(t)
    ensures Found(t, Low(x, b)).1 <= b || Found(t, x).1 <= b ==>
      && Found(t, Low(x, b)).0.op == Found(t, x).0.op && Found(t, Low(x, b)).0.val == Found(t, x).0.val
      && Found(t, Low(x, b)).1 == Found(t, x).1
  {
    hide Closed, Lookup, Low, SymbolOp, SymbolVal, HasCode, OverSubscribed, TableFor;
    var y := Low(x, b);
    FoundFor(t, type_, lens, x);
    FoundFor(t, type_, lens, y);
    var s, u := DecodeSymbol(lens, x), DecodeSymbol(lens, y);
    if Found(t, x).1 <= b {
      LowLow(x, 1, b);
      if s >= 0 {
        CodeInLow(lens, s, x, b);
        SymbolIsUnique(lens, s, u, y);
      } else {
        assert DecodeSymbol(lens, y) == -1;
      }
    } else if Found(t, y).1 <= b {
      LowLow(x, 1, b);
      if u >= 0 {
        CodeInLow(lens, u, x, b);
        SymbolIsUnique(lens, s, u, x);
      } else {
        assert DecodeSymbol(lens, x) == -1;
      }
    }
  }

  // ---- what the operations of the entries mean -----------------------------------

  lemma {:induction false} LengthOps(s: nat)
    requires s < 288
    ensures s < 256 ==> SymbolOp(LENS, s) == 0 && SymbolVal(LENS, s) == s
    ensures s == 256 ==> SymbolOp(LENS, s) == 96
    ensures 257 <= s < 286 ==> SymbolOp(LENS, s) == 16 + LengthExtra(s) && SymbolVal(LENS, s) == LengthBase(s)
    ensures s >= 286 ==> SymbolOp(LENS, s) == 73 || SymbolOp(LENS, s) == 195
  {
    if 257 <= s < 286 { ExtraInRange(s); }
  }

  lemma {:induction false} ExtraInRange(s: nat)
    requires 257 <= s < 286
    ensures 16 <= LEXT[s - 257] <= 21
  {
  }

  lemma {:induction false} DistanceOps(d: nat)
    requires d < 32
    ensures d < 30 ==> SymbolOp(DISTS, d) == 16 + DistanceExtra(d) && SymbolVal(DISTS, d) == DistanceBase(d)
    ensures d >= 30 ==> SymbolOp(DISTS, d) == 64
  {
    if d < 30 { assert 16 <= DEXT[d]; }
  }

  /** No match is longer than 258 bytes. */
  lemma {:induction false} MatchBound(s: nat, x: nat)
    requires 257 <= s < 286
    ensures 3 <= LengthBase(s) + Low(x, LengthExtra(s)) <= 258
  {
    LowBound(x, LengthExtra(s));
    SmallPowers();
    hide Low, Pow2;
    ExtraInRange(s);
    assert LBASE[s - 257] + Pow2(LEXT[s - 257] - 16) <= 259;
  }

  lemma {:induction false} SmallPowers()
    ensures Pow2(0) == 1 && Pow2(1) == 2 && Pow2(2) == 4 && Pow2(3) == 8 && Pow2(4) == 16 && Pow2(5) == 32
  {
  }

  /** The bit tests of the decoders on an entry's operation. */
  predicate Bit4(op: nat) { op / 16 % 2 == 1 }
  predicate Bit5(op: nat) { op / 32 % 2 == 1 }
  predicate Bit6(op: nat) { op / 64 % 2 == 1 }

  /** What an operation of a found entry can be. */
  lemma {:induction false} OpTests(op: nat)
    requires op == 0 || (16 <= op <= 29) || op == 64 || op == 73 || op == 96 || op == 195
    ensures op / 16 % 16 == 0 <==> op == 0
    ensures Bit4(op) <==> 16 <= op <= 29
    ensures 16 <= op <= 29 ==> op % 16 == op - 16
    ensures Bit5(op) <==> op == 96
    ensures Bit6(op) <==> op >= 64
  {
  }

  ghost predicate PlainOp(op: nat)
  {
    op == 0 || (16 <= op <= 29) || op == 64 || op == 73 || op == 96 || op == 195
  }

  lemma {:induction false} FoundOp(t: Table, type_: CodeType, lens: seq<nat>, x: nat)
    requires Good(t, type_, lens)
    ensures Sound(t) && PlainOp(Found(t, x).0.op) && (type_ == DISTS ==> Found(t, x).0.op != 0)
  {
    hide Closed, Lookup, Low, SymbolOp, SymbolVal, DecodeSymbol, TableFor;
    FoundFor(t, type_, lens, x);
    var s := DecodeSymbol(lens, x);
    if s >= 0 {
      match type_
      case CODES => CodesOp(s);
      case LENS => LengthOps(s); 
      case DISTS => DistanceOps(s);
    }
  }

  lemma {:induction false} CodesOp(s: nat)
    requires s < 19
    ensures SymbolOp(CODES, s) == 0 && SymbolVal(CODES, s) == s
  {
  }

  /** The root entry for y, as the decoders test it. */
  lemma {:induction false} RootEntryFor(t: Table, type_: CodeType, lens: seq<nat>, y: nat)
    requires Good(t, type_, lens)
    ensures Sound(t) && Low(y, t.bits) < Pow2(t.bits) && t.base + Pow2(t.bits) <= |t.entries|
    ensures var e := At(t.entries, t.base, Low(y, t.bits));
      && (IsLink(e) <==> e.op != 0 && e.op / 16 % 16 == 0)
      && (IsLink(e) <==> e.op != 0 && !Bit4(e.op) && !Bit6(e.op))
      && (type_ == DISTS ==> e.op != 0)
      && (!IsLink(e) ==> Found(t, y) == (e, e.bits))
      && (IsLink(e) ==> e.bits == t.bits)
  {
    hide Low, SymbolOp, SymbolVal, DecodeSymbol, TableFor;
    LowBound(y, t.bits);
    FoundOp(t, type_, lens, y);
    var e := At(t.entries, t.base, Low(y, t.bits));
    if !IsLink(e) { OpTests(e.op); }
  }

  /** The entry behind a link. */
  lemma {:induction false} LinkedEntryFor(t: Table, type_: CodeType, lens: seq<nat>, y: nat)
    requires Good(t, type_, lens)
    ensures Sound(t) && Low(y, t.bits) < Pow2(t.bits) && t.base + Pow2(t.bits) <= |t.entries|
    ensures var e := At(t.entries, t.base, Low(y, t.bits));
      IsLink(e) ==>
        && t.base + e.val + Low(Shr(y, e.bits), e.op) < |t.entries|
        && var f := At(t.entries, t.base + e.val, Low(Shr(y, e.bits), e.op));
           Found(t, y) == (f, e.bits + f.bits) && PlainOp(f.op)
  {
    hide Low, SymbolOp, SymbolVal, DecodeSymbol, TableFor;
    LowBound(y, t.bits);
    FoundOp(t, type_, lens, y);
    var e := At(t.entries, t.base, Low(y, t.bits));
    if IsLink(e) { LowBound(Shr(y, e.bits), e.op); }
  }

  // ---- one step of the specification, from the table's entries ---------------------

  /** A literal/length entry: what the step of the stream comes to. */
  lemma {:induction false} LengthMeans(z: Stream, t: Table, ll: seq<nat>, dl: seq<nat>, p: nat, out: seq<byte>)
    requires Good(t, LENS, ll) && |ll| <= 288 && |dl| <= 32
    ensures Sound(t)
    ensures var (e, n) := Found(t, From(z, p));
      var step, op := CodeStep(z, ll, dl, p, out), e.op;
      && PlainOp(op)
      && (p + n > z.total ==> step == Stop(Truncated))
      && (p + n <= z.total && op == 0 ==> e.val < 256 && step == Emit(out + [e.val], p + n))
      && (p + n <= z.total && op == 96 ==> step == EndOfBlock(p + n))
      && (p + n <= z.total && (op == 64 || op == 73 || op == 195) ==> step == Stop(Invalid))
      && (p + n <= z.total && 16 <= op <= 29 ==>
            && op <= 21 && 3 <= e.val + Peek(z, p + n, op - 16) <= 258
            && step == LengthStep(z, dl, p + n, out, e.val, op - 16))
  {
    hide Good, SymbolOp, SymbolVal, DecodeSymbol, LengthStep, LengthBase, LengthExtra, Found;
    FoundFor(t, LENS, ll, From(z, p));
    FoundOp(t, LENS, ll, From(z, p));
    var s := DecodeSymbol(ll, From(z, p));
    if s >= 0 {
      LengthOps(s);
      if 257 <= s < 286 { MatchBound(s, From(z, p + ll[s])); }
    }
  }

  /** A distance entry likewise. */
  lemma {:induction false} DistanceMeans(z: Stream, t: Table, dl: seq<nat>, p: nat, out: seq<byte>, len: nat)
    requires Good(t, DISTS, dl) && |dl| <= 32
    ensures Sound(t)
    ensures var (e, n) := Found(t, From(z, p));
      var step, op := DistanceStep(z, dl, p, out, len), e.op;
      && PlainOp(op) && op != 0
      && (p + n > z.total ==> step == Stop(Truncated))
      && (p + n <= z.total && (op == 64 || op == 73 || op == 195 || op == 96) ==> step == Stop(Invalid))
      && (p + n <= z.total && 16 <= op <= 29 ==>
            && 1 <= e.val + Peek(z, p + n, op - 16)
            && step == if p + n + (op - 16) > z.total then Stop(Truncated)
                       else MatchStep(z, out, e.val + Peek(z, p + n, op - 16), len, p + n + (op - 16)))
  {
    hide Good, SymbolOp, SymbolVal, DecodeSymbol, DistanceBase, DistanceExtra, Found;
    FoundFor(t, DISTS, dl, From(z, p));
    FoundOp(t, DISTS, dl, From(z, p));
    var s := DecodeSymbol(dl, From(z, p));
    if s >= 0 { DistanceOps(s); }
  }

  /** A code length entry likewise. */
  lemma {:induction false} LensMeans(z: Stream, t: Table, cl: seq<nat>, total: nat, p: nat, got: seq<nat>)
    requires Good(t, CODES, cl) && |cl| <= 19 && |got| < total && Small(got)
    ensures Sound(t)
    ensures var (e, n) := Found(t, From(z, p));
      if DecodeSymbol(cl, From(z, p)) < 0 then e.val == 0 && n == 1 && LensStep(z, cl, total, p, got) == NoLens(Invalid)
      else LensStep(z, cl, total, p, got) == LensFrom(z, total, e.val, p + n, got)
  {
    hide Good, DecodeSymbol, LensFrom, Found;
    FoundFor(t, CODES, cl, From(z, p));
    var s := DecodeSymbol(cl, From(z, p));
    if s >= 0 { CodesOp(s); }
  }
}
