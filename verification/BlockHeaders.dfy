/** Facts about the headers of fixed and dynamic blocks: the order of the code
    length code lengths, empty codes, and the completeness of the fixed codes. */
module BlockHeaders {
  import opened Bits
  import opened Canonical
  import opened SymbolSort
  import opened PrefixCode
  import opened InfTrees
  import opened InflateSpec
  import opened CodeTables

  /** Where each code length symbol stands in ORDER. */
  const INDEX: seq<nat> := [3, 17, 15, 13, 11, 9, 7, 5, 4, 6, 8, 10, 12, 14, 16, 18, 0, 1, 2]

  lemma {:induction false} OrderIsPermutation()
    ensures forall i :: 0 <= i < 19 ==> ORDER[i] < 19 && INDEX[ORDER[i]] == i
    ensures forall k :: 0 <= k < 19 ==> INDEX[k] < 19 && ORDER[INDEX[k]] == k
  {
  }

  lemma {:induction false} OrderApart(i: nat, j: nat)
    requires i < 19 && j < 19
    ensures ORDER[i] < 19 && (ORDER[i] == ORDER[j] <==> i == j)
  {
    OrderIsPermutation();
  }

  /** The i-th length read is the length of symbol ORDER[i]. */
  lemma {:induction false} LengthCodeLengthsAt(z: Stream, p: nat, n: nat, i: nat)
    requires n <= 19 && i < 19
    ensures ORDER[i] < 19 && LengthCodeLengths(z, p, n)[ORDER[i]] == if i < n then Peek(z, p + 3 * i, 3) else 0
    decreases n
  {
    hide Peek;
    if n > 0 {
      OrderApart(i, n - 1);
      LengthCodeLengthsAt(z, p, n - 1, i);
    } else {
      OrderApart(i, i);
    }
  }

  /** No bit string begins with a code of an empty code. */
  lemma {:induction false} EmptyDecodes(lens: seq<nat>, x: nat)
    requires Lengths(lens) && Offset(lens, MAXBITS + 1) == 0
    ensures DecodeSymbol(lens, x) == -1
  {
    hide Position, Offset;
    var s := DecodeSymbol(lens, x);
    if s >= 0 { PlaceBounds(lens, s); }
  }

  lemma {:induction false} EmptyOffset(lens: seq<nat>, l: nat)
    requires l <= MAXBITS && Offset(lens, MAXBITS + 1) == 0
    ensures Offset(lens, l + 1) == 0 && (1 <= l ==> Count(lens, |lens|, l) == 0)
  {
    hide Count;
    OffsetMono(lens, l + 1, MAXBITS + 1);
  }

  lemma {:induction false} EmptyKraft(lens: seq<nat>, l: nat)
    requires l <= MAXBITS && Offset(lens, MAXBITS + 1) == 0
    ensures KraftSum(lens, l) == 0
    decreases l
  {
    hide Count, Offset;
    if l > 0 {
      EmptyOffset(lens, l);
      EmptyKraft(lens, l - 1);
    }
  }

  /** A table is good for the lengths it was built from. */
  lemma {:induction false} BuiltIsGood(t: Table, type_: CodeType, lens: seq<nat>)
    requires TableFor(t.entries, t.base, t.bits, type_, lens) && Lengths(lens) && !Refused(type_, lens)
    ensures Good(t, type_, lens)
  {
    hide Offset, KraftSum, Pow2;
    if Offset(lens, MAXBITS + 1) == 0 { EmptyKraft(lens, MAXBITS); }
  }

  lemma {:induction false} CompleteIsAccepted(type_: CodeType, lens: seq<nat>)
    requires KraftSum(lens, MAXBITS) == Pow2(MAXBITS)
    ensures !Refused(type_, lens) && (Lengths(lens) ==> Offset(lens, MAXBITS + 1) > 0)
  {
    hide KraftSum;
    if Lengths(lens) && Offset(lens, MAXBITS + 1) == 0 { EmptyKraft(lens, MAXBITS); }
  }

  // ---- the fixed codes -----------------------------------------------------------------

  function Clamp(n: nat, lo: nat, hi: nat): nat
    requires lo <= hi
  {
    if n <= lo then 0 else if n <= hi then n - lo else hi - lo
  }

  lemma {:induction false} CountFixed(n: nat, l: nat)
    requires n <= FIXED_LENGTHS
    ensures Count(FixedLens(FIXED_LENGTHS), n, l) ==
      if l == 7 then Clamp(n, 256, 280)
      else if l == 8 then Clamp(n, 0, 144) + Clamp(n, 280, 288)
      else if l == 9 then Clamp(n, 144, 256)
      else 0
    decreases n
  {
    hide FixedLens;
    if n > 0 { CountFixed(n - 1, l); }
  }

  lemma {:induction false} CountRepeat(l: nat, m: nat, n: nat, k: nat)
    requires n <= m
    ensures Count(Repeat(l, m), n, k) == if k == l then n else 0
    decreases n
  {
    hide Repeat;
    if n > 0 { CountRepeat(l, m, n - 1, k); }
  }

  lemma {:induction false} KraftStep(lens: seq<nat>, l: nat)
    requires l > 0
    ensures KraftSum(lens, l) == KraftSum(lens, l - 1) + Count(lens, |lens|, l) * Weight(l)
  {
  }

  /** The code space is not taken up by lengths that do not occur. */
  lemma {:induction false} KraftSame(lens: seq<nat>, l: nat, m: nat)
    requires l <= m && forall k :: l < k <= m ==> Count(lens, |lens|, k) == 0
    ensures KraftSum(lens, m) == KraftSum(lens, l)
    decreases m
  {
    hide Count;
    if l < m { KraftSame(lens, l, m - 1); }
  }

  /** The fixed literal/length code is complete. */
  lemma {:induction false} FixedLensComplete()
    ensures KraftSum(FixedLens(FIXED_LENGTHS), MAXBITS) == Pow2(MAXBITS)
  {
    hide KraftSum, FixedLens, Count, Pow2, Weight;
    var f := FixedLens(FIXED_LENGTHS);
    forall l: nat ensures Count(f, |f|, l) == if l == 7 then 24 else if l == 8 then 152 else if l == 9 then 112 else 0 {
      CountFixed(FIXED_LENGTHS, l);
    }
    KraftNone(f);
    KraftSame(f, 0, 6);
    KraftStep(f, 7);
    KraftStep(f, 8);
    KraftStep(f, 9);
    KraftSame(f, 9, MAXBITS);
    FixedWeights();
  }

  lemma {:induction false} KraftNone(lens: seq<nat>)
    ensures KraftSum(lens, 0) == 0
  {
  }

  lemma {:induction false} FixedWeights()
    ensures Weight(5) == 1024 && Weight(7) == 256 && Weight(8) == 128 && Weight(9) == 64 && Pow2(MAXBITS) == 32768
    ensures Pow2(9) == 512 && Pow2(5) == 32
  {
    assert Pow2(5) == 32;
    assert Pow2(10) == 1024 by { Pow2Add(5, 5); }
    assert Pow2(9) == 512;
    Pow2Add(10, 5);
  }

  /** So is the fixed distance code. */
  lemma {:induction false} FixedDistancesComplete()
    ensures KraftSum(Repeat(5, FIXED_DISTANCES), MAXBITS) == Pow2(MAXBITS)
  {
    hide KraftSum, Repeat, Count, Pow2, Weight;
    var f := Repeat(5, FIXED_DISTANCES);
    forall l: nat ensures Count(f, |f|, l) == if l == 5 then 32 else 0 {
      CountRepeat(5, FIXED_DISTANCES, FIXED_DISTANCES, l);
    }
    KraftNone(f);
    KraftSame(f, 0, 4);
    KraftStep(f, 5);
    KraftSame(f, 5, MAXBITS);
    FixedWeights();
  }
}
