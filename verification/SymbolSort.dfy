/** The first half of inflate_table: counting the code lengths and sorting the
    symbols by length, and what the sorted order has to do with the code
    assignment of section 3.2.2 of RFC 1951. */
module SymbolSort {
  import opened Bits
  import opened BitReverse
  import opened Canonical

  ghost predicate Lengths(lens: seq<nat>)
  {
    forall s :: 0 <= s < |lens| ==> lens[s] <= MAXBITS
  }

  /** How many of the first n symbols have length l. */
  function Count(lens: seq<nat>, n: nat, l: nat): nat
    requires n <= |lens|
  {
    if n == 0 then 0 else Count(lens, n - 1, l) + (if lens[n - 1] == l then 1 else 0)
  }

  /** How many symbols have a length from 1 up to but not including l. */
  function Offset(lens: seq<nat>, l: nat): nat
  {
    if l <= 1 then 0 else Offset(lens, l - 1) + Count(lens, |lens|, l - 1)
  }

  /** Where symbol s belongs in sorted order. */
  function Position(lens: seq<nat>, s: nat): nat
    requires s < |lens|
  {
    Offset(lens, lens[s]) + Count(lens, s, lens[s])
  }

  lemma {:induction false} CountMono(lens: seq<nat>, m: nat, n: nat, l: nat)
    requires m <= n <= |lens|
    ensures Count(lens, m, l) <= Count(lens, n, l)
    decreases n
  {
    if m < n { CountMono(lens, m, n - 1, l); }
  }

  lemma {:induction false} OffsetMono(lens: seq<nat>, j: nat, k: nat)
    requires j <= k
    ensures Offset(lens, j) <= Offset(lens, k)
    decreases k
  {
    if j < k { OffsetMono(lens, j, k - 1); }
  }

  /** A symbol's position lies in the block of its length. */
  lemma {:induction false} PositionInBlock(lens: seq<nat>, s: nat)
    requires s < |lens| && 1 <= lens[s]
    ensures Offset(lens, lens[s]) <= Position(lens, s) < Offset(lens, lens[s] + 1)
  {
    CountMono(lens, s + 1, |lens|, lens[s]);
  }

  /** Different symbols have different positions, in order of length and then symbol. */
  lemma {:induction false} PositionsDiffer(lens: seq<nat>, s: nat, t: nat)
    requires s < t < |lens| && 1 <= lens[s] && 1 <= lens[t]
    ensures Position(lens, s) != Position(lens, t)
  {
    PositionInBlock(lens, s);
    PositionInBlock(lens, t);
    if lens[s] < lens[t] {
      OffsetMono(lens, lens[s] + 1, lens[t]);
    } else if lens[t] < lens[s] {
      OffsetMono(lens, lens[t] + 1, lens[s]);
    } else {
      CountMono(lens, s + 1, t, lens[s]);
    }
  }

  /** The symbol of length l and rank r. */
  lemma {:induction false} FindRank(lens: seq<nat>, n: nat, l: nat, r: nat) returns (s: nat)
    requires n <= |lens| && r < Count(lens, n, l)
    ensures s < n && lens[s] == l && Count(lens, s, l) == r
    decreases n
  {
    if r < Count(lens, n - 1, l) { s := FindRank(lens, n - 1, l, r); } else { s := n - 1; }
  }

  lemma {:induction false} FindBlock(lens: seq<nat>, k: nat, m: nat) returns (l: nat)
    requires k < Offset(lens, m)
    ensures 1 <= l < m && Offset(lens, l) <= k < Offset(lens, l + 1)
    decreases m
  {
    if Offset(lens, m - 1) <= k { l := m - 1; } else { l := FindBlock(lens, k, m - 1); }
  }

  /** Every position belongs to some symbol. */
  lemma {:induction false} SymbolAt(lens: seq<nat>, k: nat) returns (s: nat)
    requires Lengths(lens) && k < Offset(lens, MAXBITS + 1)
    ensures s < |lens| && 1 <= lens[s] && Position(lens, s) == k
  {
    var l := FindBlock(lens, k, MAXBITS + 1);
    s := FindRank(lens, |lens|, l, k - Offset(lens, l));
  }

  /** work lists the coded symbols in sorted order. */
  ghost predicate Sorted(lens: seq<nat>, work: seq<nat>)
  {
    && |work| == Offset(lens, MAXBITS + 1)
    && forall s :: 0 <= s < |lens| && 1 <= lens[s] ==> Position(lens, s) < |work| && work[Position(lens, s)] == s
  }

  /** The lengths of the codes in sorted order. */
  ghost function LengthsOf(lens: seq<nat>, work: seq<nat>): (ls: seq<nat>)
    requires forall k :: 0 <= k < |work| ==> work[k] < |lens|
    ensures |ls| == |work| && forall k :: 0 <= k < |ls| ==> ls[k] == lens[work[k]]
  {
    seq(|work|, k requires 0 <= k < |work| => lens[work[k]])
  }

  lemma {:induction false} WorkIsSymbol(lens: seq<nat>, work: seq<nat>, k: nat)
    requires Lengths(lens) && Sorted(lens, work) && k < |work|
    ensures work[k] < |lens| && 1 <= lens[work[k]] && Position(lens, work[k]) == k
    ensures Offset(lens, lens[work[k]]) <= k < Offset(lens, lens[work[k]] + 1)
  {
    var s := SymbolAt(lens, k);
    PositionInBlock(lens, s);
  }

  lemma {:induction false} WorkInRange(lens: seq<nat>, work: seq<nat>)
    requires Lengths(lens) && Sorted(lens, work)
    ensures forall k :: 0 <= k < |work| ==> work[k] < |lens|
  {
    forall k | 0 <= k < |work| ensures work[k] < |lens| { WorkIsSymbol(lens, work, k); }
  }

  lemma {:induction false} SortedGivesLengths(lens: seq<nat>, work: seq<nat>)
    requires Lengths(lens) && Sorted(lens, work)
    requires forall k :: 0 <= k < |work| ==> work[k] < |lens|
    ensures SortedLengths(LengthsOf(lens, work))
  {
    hide Sorted;
    var ls := LengthsOf(lens, work);
    forall i | 0 <= i < |ls| ensures 1 <= ls[i] <= MAXBITS { WorkIsSymbol(lens, work, i); }
    forall i, j | 0 <= i <= j < |ls| ensures ls[i] <= ls[j] {
      WorkIsSymbol(lens, work, i);
      WorkIsSymbol(lens, work, j);
      if ls[i] > ls[j] { OffsetMono(lens, ls[j] + 1, ls[i]); }
    }
  }

  /** A position's length tells its block, and its block tells its length. */
  lemma {:induction false} BlockHasLength(lens: seq<nat>, work: seq<nat>, k: nat, l: nat)
    requires Lengths(lens) && Sorted(lens, work) && k < |work|
    requires 1 <= l && Offset(lens, l) <= k < Offset(lens, l + 1)
    ensures work[k] < |lens| && lens[work[k]] == l
  {
    WorkIsSymbol(lens, work, k);
    var m := lens[work[k]];
    if m < l { OffsetMono(lens, m + 1, l); } else if l < m { OffsetMono(lens, l + 1, m); }
  }

  // ---- the code assignment of RFC 1951 ------------------------------------

  /** next_code[l] of section 3.2.2: the first code of length l. */
  function RfcFirst(lens: seq<nat>, l: nat): nat
  {
    if l <= 1 then 0 else 2 * (RfcFirst(lens, l - 1) + Count(lens, |lens|, l - 1))
  }

  /** The code that section 3.2.2 assigns to symbol s. */
  function RfcCode(lens: seq<nat>, s: nat): nat
    requires s < |lens|
  {
    RfcFirst(lens, lens[s]) + Count(lens, s, lens[s])
  }

  lemma {:induction false} WeightHalves(l: nat)
    requires l < MAXBITS
    ensures Weight(l) == 2 * Weight(l + 1)
  {
  }

  lemma {:induction false} Spread(f: nat, c: nat, w: nat)
    ensures f * w + c * w == (f + c) * w && f * (2 * w) == 2 * f * w
  {
  }

  ghost predicate LengthsMatch(lens: seq<nat>, work: seq<nat>, ls: seq<nat>)
  {
    |ls| == |work| && forall k :: 0 <= k < |work| ==> work[k] < |lens| && ls[k] == lens[work[k]]
  }

  /** Within a block of equal lengths the codes start one weight apart. */
  lemma {:induction false} StartInBlock(lens: seq<nat>, work: seq<nat>, ls: seq<nat>, l: nat, k: nat)
    requires Lengths(lens) && Sorted(lens, work) && LengthsMatch(lens, work, ls)
    requires 1 <= l <= MAXBITS && Offset(lens, l) <= k <= Offset(lens, l + 1)
    ensures k <= |ls| && Start(ls, k) == Start(ls, Offset(lens, l)) + (k - Offset(lens, l)) * Weight(l)
  {
    hide Weight, Sorted, Offset, Start;
    OffsetMono(lens, l + 1, MAXBITS + 1);
    WorkLength(lens, work);
    forall i | Offset(lens, l) <= i < k ensures ls[i] == l { BlockHasLength(lens, work, i, l); }
    StartRun(ls, Offset(lens, l), k, l);
  }

  lemma {:induction false} StartOfBlock(lens: seq<nat>, work: seq<nat>, ls: seq<nat>, l: nat)
    requires Lengths(lens) && Sorted(lens, work) && LengthsMatch(lens, work, ls)
    requires 1 <= l <= MAXBITS
    ensures Offset(lens, l) <= |ls| && Start(ls, Offset(lens, l)) == RfcFirst(lens, l) * Weight(l)
    decreases l
  {
    hide Weight, Sorted, LengthsMatch, Start;
    if l > 1 {
      StartOfBlock(lens, work, ls, l - 1);
      StartInBlock(lens, work, ls, l - 1, Offset(lens, l));
      WeightHalves(l - 1);
      var f, c := RfcFirst(lens, l - 1), Count(lens, |lens|, l - 1);
      Spread(f, c, Weight(l - 1));
      Spread(f + c, 0, Weight(l));
    } else {
      EmptyStart(ls);
    }
  }

  lemma {:induction false} EmptyStart(ls: seq<nat>)
    ensures Start(ls, 0) == 0
  {
  }

  lemma {:induction false} WorkLength(lens: seq<nat>, work: seq<nat>)
    requires Sorted(lens, work)
    ensures |work| == Offset(lens, MAXBITS + 1)
  {
  }

  /** The code in the table builder's order is the code the standard assigns,
      read from the stream least significant bit first. */
  lemma {:induction false} HuffIsRfcCode(lens: seq<nat>, work: seq<nat>, ls: seq<nat>, s: nat)
    requires Lengths(lens) && Sorted(lens, work) && LengthsMatch(lens, work, ls)
    requires s < |lens| && 1 <= lens[s]
    ensures Position(lens, s) < |ls|
    ensures Huff(ls, Position(lens, s)) == Reverse(lens[s], RfcCode(lens, s))
  {
    hide Weight, Reverse, Sorted, LengthsMatch, Offset, Start;
    var l, k := lens[s], Position(lens, s);
    PositionInBlock(lens, s);
    StartOfBlock(lens, work, ls, l);
    StartInBlock(lens, work, ls, l, k);
    OffsetMono(lens, l + 1, MAXBITS + 1);
    WorkLength(lens, work);
    SameLength(lens, work, ls);
    Spread(RfcFirst(lens, l), Count(lens, s, l), Weight(l));
    CodeIsShifted(RfcCode(lens, s), l);
    ReverseAppend(l, MAXBITS - l, RfcCode(lens, s));
  }

  lemma {:induction false} SameLength(lens: seq<nat>, work: seq<nat>, ls: seq<nat>)
    requires LengthsMatch(lens, work, ls)
    ensures |ls| == |work|
  {
  }

  lemma {:induction false} CodeIsShifted(c: nat, l: nat)
    requires l <= MAXBITS
    ensures c * Weight(l) == Shl(c, MAXBITS - l)
  {
  }

  // ---- the counting sort ---------------------------------------------------

  /** The coded symbols among the first n whose length is below l. */
  function OffsetUpTo(lens: seq<nat>, n: nat, l: nat): nat
    requires n <= |lens|
  {
    if l <= 1 then 0 else OffsetUpTo(lens, n, l - 1) + Count(lens, n, l - 1)
  }

  lemma {:induction false} OffsetStep(lens: seq<nat>, n: nat, l: nat)
    requires 0 < n <= |lens|
    ensures OffsetUpTo(lens, n, l) == OffsetUpTo(lens, n - 1, l) + (if 1 <= lens[n - 1] < l then 1 else 0)
    decreases l
  {
    if l > 1 { OffsetStep(lens, n, l - 1); }
  }

  lemma {:induction false} OffsetAtMost(lens: seq<nat>, n: nat, l: nat)
    requires n <= |lens|
    ensures OffsetUpTo(lens, n, l) <= n
    decreases n
  {
    if n > 0 {
      OffsetStep(lens, n, l);
      OffsetAtMost(lens, n - 1, l);
    } else {
      NoneCounted(lens, l);
    }
  }

  lemma {:induction false} NoneCounted(lens: seq<nat>, l: nat)
    ensures OffsetUpTo(lens, 0, l) == 0
  {
    if l > 1 { NoneCounted(lens, l - 1); }
  }

  lemma {:induction false} OffsetIsUpTo(lens: seq<nat>, l: nat)
    ensures OffsetUpTo(lens, |lens|, l) == Offset(lens, l)
  {
    if l > 1 { OffsetIsUpTo(lens, l - 1); }
  }

  /** There are no more coded symbols than symbols. */
  lemma {:induction false} CodedAtMost(lens: seq<nat>, l: nat)
    ensures Offset(lens, l) <= |lens|
  {
    OffsetIsUpTo(lens, l);
    OffsetAtMost(lens, |lens|, l);
  }

  ghost predicate Counted(count: array<nat>, lens: seq<nat>)
    reads count
  {
    count.Length == MAXBITS + 1 && forall l :: 0 <= l <= MAXBITS ==> count[l] == Count(lens, |lens|, l)
  }

  /** The two loops that accumulate the length counts. */
  method CountLengths(lens: seq<nat>, count: array<nat>)
    requires Lengths(lens) && count.Length == MAXBITS + 1
    modifies count
    ensures Counted(count, lens)
  {
    var len := 0;
    while len <= MAXBITS
      invariant 0 <= len <= MAXBITS + 1
      invariant forall l :: 0 <= l < len ==> count[l] == 0
    {
      count[len] := 0;
      len := len + 1;
    }
    var sym := 0;
    while sym < |lens|
      invariant 0 <= sym <= |lens|
      invariant forall l :: 0 <= l <= MAXBITS ==> count[l] == Count(lens, sym, l)
    {
      count[lens[sym]] := count[lens[sym]] + 1;
      sym := sym + 1;
    }
  }

  lemma {:induction false} OffsetSteps(lens: seq<nat>, l: nat)
    requires l < MAXBITS
    ensures Offset(lens, l + 1) == if l == 0 then 0 else Offset(lens, l) + Count(lens, |lens|, l)
  {
  }

  /** The offsets of the blocks in the sorted order. */
  method BlockOffsets(lens: seq<nat>, count: array<nat>) returns (offs: array<nat>)
    requires Counted(count, lens)
    ensures fresh(offs) && offs.Length == MAXBITS + 1
    ensures forall l :: 1 <= l <= MAXBITS ==> offs[l] == Offset(lens, l)
  {
    hide Count, Offset;
    offs := new nat[MAXBITS + 1];
    OffsetSteps(lens, 0);
    offs[1] := 0;
    var len := 1;
    while len < MAXBITS
      invariant 1 <= len <= MAXBITS
      invariant forall l :: 1 <= l <= len ==> offs[l] == Offset(lens, l)
    {
      OffsetSteps(lens, len);
      offs[len + 1] := offs[len] + count[len];
      len := len + 1;
    }
  }

  /** Sorting the symbols by length, and by symbol within each length. */
  method SortSymbols(lens: seq<nat>, count: array<nat>, work: array<nat>)
    requires Lengths(lens) && Counted(count, lens) && work.Length >= |lens| && work != count
    modifies work
    ensures Offset(lens, MAXBITS + 1) <= work.Length
    ensures Sorted(lens, work[..Offset(lens, MAXBITS + 1)])
  {
    hide Count, Offset;
    var offs := BlockOffsets(lens, count);
    CodedAtMost(lens, MAXBITS + 1);
    var sym := 0;
    NothingRanked(lens);
    while sym < |lens|
      invariant 0 <= sym <= |lens|
      invariant forall l :: 1 <= l <= MAXBITS ==> offs[l] == Offset(lens, l) + Count(lens, sym, l)
      invariant forall s :: 0 <= s < sym && 1 <= lens[s] ==> InPlace(lens, work[..], s)
    {
      CountNext(lens, sym);
      if lens[sym] != 0 {
        PlaceBounds(lens, sym);
        forall s | 0 <= s < sym && 1 <= lens[s] ensures Position(lens, s) != Position(lens, sym) {
          PositionsDiffer(lens, s, sym);
        }
        work[offs[lens[sym]]] := sym;
        offs[lens[sym]] := offs[lens[sym]] + 1;
      }
      sym := sym + 1;
    }
    forall s | 0 <= s < |lens| && 1 <= lens[s]
      ensures Position(lens, s) < Offset(lens, MAXBITS + 1) && work[Position(lens, s)] == s
    {
      assert InPlace(lens, work[..], s);
      PlaceBounds(lens, s);
    }
  }

  ghost predicate InPlace(lens: seq<nat>, w: seq<nat>, s: nat)
  {
    s < |lens| && Position(lens, s) < |w| && w[Position(lens, s)] == s
  }

  lemma {:induction false} NothingRanked(lens: seq<nat>)
    ensures forall l: nat :: Count(lens, 0, l) == 0
  {
  }

  lemma {:induction false} CountNext(lens: seq<nat>, n: nat)
    requires n < |lens|
    ensures forall l: nat :: Count(lens, n + 1, l) == Count(lens, n, l) + (if l == lens[n] then 1 else 0)
  {
  }

  lemma {:induction false} PlaceBounds(lens: seq<nat>, s: nat)
    requires Lengths(lens) && s < |lens| && 1 <= lens[s]
    ensures Position(lens, s) < Offset(lens, MAXBITS + 1) <= |lens|
  {
    PositionInBlock(lens, s);
    OffsetMono(lens, lens[s] + 1, MAXBITS + 1);
    CodedAtMost(lens, MAXBITS + 1);
  }
}
