/** The prefix code that a list of code lengths describes (section 3.2.2 of
    RFC 1951): which symbol a bit string begins with, that there is at most one
    unless the lengths are over-subscribed, and exactly one when they are complete. */
module PrefixCode {
  import opened Bits
  import opened BitReverse
  import opened Canonical
  import opened SymbolSort

  // ---- code space ------------------------------------------------------------------

  /** The code space taken by the lengths up to l, out of 2^15. */
  function KraftSum(lens: seq<nat>, l: nat): nat
  {
    if l == 0 then 0 else KraftSum(lens, l - 1) + Count(lens, |lens|, l) * Weight(l)
  }

  ghost predicate OverSubscribed(lens: seq<nat>) { KraftSum(lens, MAXBITS) > Pow2(MAXBITS) }

  ghost predicate Incomplete(lens: seq<nat>) { KraftSum(lens, MAXBITS) < Pow2(MAXBITS) }

  lemma {:induction false} KraftMono(lens: seq<nat>, l: nat, m: nat)
    requires l <= m
    ensures KraftSum(lens, l) <= KraftSum(lens, m)
    decreases m
  {
    hide Weight;
    if l < m {
      KraftMono(lens, l, m - 1);
      NonNegative(Count(lens, |lens|, m), Weight(m));
    }
  }

  lemma {:induction false} NonNegative(a: nat, b: nat)
    ensures a * b >= 0
  {
  }

  lemma {:induction false} KraftIsStart(lens: seq<nat>, work: seq<nat>, ls: seq<nat>, l: nat)
    requires Lengths(lens) && Sorted(lens, work) && LengthsMatch(lens, work, ls)
    requires l <= MAXBITS
    ensures Offset(lens, l + 1) <= |ls| && Start(ls, Offset(lens, l + 1)) == KraftSum(lens, l)
    decreases l
  {
    hide Weight, Sorted, LengthsMatch, Start, Count;
    if l == 0 {
      EmptyStart(ls);
    } else {
      KraftIsStart(lens, work, ls, l - 1);
      StartInBlock(lens, work, ls, l, Offset(lens, l + 1));
    }
  }

  // ---- the symbol at the front of a bit string ------------------------------------

  /** The low bits of x are the code of symbol s, read least significant bit first. */
  predicate HasCode(lens: seq<nat>, s: nat, x: nat)
    requires s < |lens|
  {
    1 <= lens[s] && Low(x, lens[s]) == Reverse(lens[s], RfcCode(lens, s))
  }

  /** The last of the first n symbols whose code x begins with, or -1. */
  function SymbolAmong(lens: seq<nat>, x: nat, n: nat): (s: int)
    requires n <= |lens|
    ensures -1 <= s < n
    ensures s >= 0 ==> HasCode(lens, s, x)
    ensures s == -1 ==> forall t :: 0 <= t < n ==> !HasCode(lens, t, x)
  {
    if n == 0 then -1 else if HasCode(lens, n - 1, x) then n - 1 else SymbolAmong(lens, x, n - 1)
  }

  /** The symbol whose code x begins with, or -1 when there is none. */
  function DecodeSymbol(lens: seq<nat>, x: nat): (s: int)
    ensures -1 <= s < |lens|
    ensures s >= 0 ==> HasCode(lens, s, x)
    ensures s == -1 ==> forall t :: 0 <= t < |lens| ==> !HasCode(lens, t, x)
  {
    SymbolAmong(lens, x, |lens|)
  }

  /** A sorted list of the coded symbols exists. */
  lemma {:induction false} SortedExists(lens: seq<nat>) returns (work: seq<nat>, ls: seq<nat>)
    requires Lengths(lens)
    ensures Sorted(lens, work) && LengthsMatch(lens, work, ls) && SortedLengths(ls)
  {
    hide Position, Offset;
    work := [];
    while |work| < Offset(lens, MAXBITS + 1)
      invariant |work| <= Offset(lens, MAXBITS + 1)
      invariant forall k :: 0 <= k < |work| ==> work[k] < |lens| && 1 <= lens[work[k]] && Position(lens, work[k]) == k
    {
      var s := SymbolAt(lens, |work|);
      work := work + [s];
    }
    forall s | 0 <= s < |lens| && 1 <= lens[s]
      ensures Position(lens, s) < |work| && work[Position(lens, s)] == s
    {
      PlaceBounds(lens, s);
      var t := work[Position(lens, s)];
      if s < t { PositionsDiffer(lens, s, t); } else if t < s { PositionsDiffer(lens, t, s); }
    }
    ls := LengthsOf(lens, work);
    SortedGivesLengths(lens, work);
  }

  lemma {:induction false} KraftOfSorted(lens: seq<nat>, work: seq<nat>, ls: seq<nat>)
    requires Lengths(lens) && Sorted(lens, work) && LengthsMatch(lens, work, ls)
    ensures Kraft(ls) == KraftSum(lens, MAXBITS)
  {
    hide Sorted, Start, KraftSum;
    KraftIsStart(lens, work, ls, MAXBITS);
    WorkLength(lens, work);
    SameLength(lens, work, ls);
  }

  /** No bit string begins with the codes of two symbols. */
  lemma {:induction false} SymbolIsUnique(lens: seq<nat>, s: nat, t: nat, x: nat)
    requires Lengths(lens) && !OverSubscribed(lens)
    requires s < |lens| && t < |lens| && HasCode(lens, s, x) && HasCode(lens, t, x)
    ensures s == t
  {
    hide Low, Pow2, Reverse, Sorted, Start, KraftSum, Position, Huff;
    var work, ls := SortedExists(lens);
    KraftOfSorted(lens, work, ls);
    HuffIsRfcCode(lens, work, ls, s);
    HuffIsRfcCode(lens, work, ls, t);
    var j, k := Position(lens, s), Position(lens, t);
    SortedAt(lens, work, ls, s);
    SortedAt(lens, work, ls, t);
    if j < k { CodesApart(ls, j, k, x); } else if k < j { CodesApart(ls, k, j, x); }
  }

  lemma {:induction false} SortedAt(lens: seq<nat>, work: seq<nat>, ls: seq<nat>, s: nat)
    requires Sorted(lens, work) && LengthsMatch(lens, work, ls) && s < |lens| && 1 <= lens[s]
    ensures Position(lens, s) < |work| && work[Position(lens, s)] == s && ls[Position(lens, s)] == lens[s]
  {
  }

  lemma {:induction false} CodesApart(ls: seq<nat>, j: nat, k: nat, x: nat)
    requires j < k < |ls| && SortedLengths(ls) && Kraft(ls) <= Pow2(MAXBITS)
    requires Low(x, ls[j]) == Huff(ls, j)
    ensures Low(x, ls[k]) != Huff(ls, k)
  {
    hide Low, Huff, Pow2;
    PrefixFree(ls, j, k);
    LowLow(x, ls[j], ls[k]);
  }

  /** With complete lengths every bit string begins with the code of a symbol. */
  lemma {:induction false} CompleteDecodes(lens: seq<nat>, x: nat)
    requires Lengths(lens) && KraftSum(lens, MAXBITS) == Pow2(MAXBITS)
    ensures DecodeSymbol(lens, x) >= 0
  {
    hide Low, Pow2, Reverse, Sorted, Start, KraftSum, Huff, Position;
    var work, ls := SortedExists(lens);
    KraftOfSorted(lens, work, ls);
    var k := CompleteCovers(ls, x);
    WorkIsSymbol(lens, work, k);
    HuffIsRfcCode(lens, work, ls, work[k]);
    assert HasCode(lens, work[k], x);
  }

  /** Only as many bits as the code has matter for decoding it. */
  lemma {:induction false} CodeInLow(lens: seq<nat>, s: nat, x: nat, n: nat)
    requires s < |lens| && lens[s] <= n
    ensures HasCode(lens, s, Low(x, n)) <==> HasCode(lens, s, x)
  {
    hide Low, Reverse;
    LowLow(x, lens[s], n);
  }
}
