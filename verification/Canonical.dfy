/** Canonical Huffman codes (section 3.2.2 of RFC 1951), seen as intervals: the
    k-th code in sorted order starts at the sum of the weights of the codes
    before it, where a code of length l weighs 2^(15 - l). */
module Canonical {
  import opened Bits
  import opened BitReverse
  import Arith

  const MAXBITS: nat := 15

  function Weight(l: nat): nat { if l <= MAXBITS then Pow2(MAXBITS - l) else 0 }

  /** Code lengths in sorted order. */
  ghost predicate SortedLengths(ls: seq<nat>)
  {
    && (forall i :: 0 <= i < |ls| ==> 1 <= ls[i] <= MAXBITS)
    && (forall i, j :: 0 <= i <= j < |ls| ==> ls[i] <= ls[j])
  }

  /** Where the k-th code starts. */
  function Start(ls: seq<nat>, k: nat): nat
    requires k <= |ls|
  {
    if k == 0 then 0 else Start(ls, k - 1) + Weight(ls[k - 1])
  }

  /** The whole code space is 2^15; a set of lengths over-subscribes it or not. */
  function Kraft(ls: seq<nat>): nat { Start(ls, |ls|) }

  /** The k-th code as it is read from the stream, least significant bit first. */
  function Huff(ls: seq<nat>, k: nat): nat
    requires k <= |ls|
  {
    Reverse(MAXBITS, Start(ls, k))
  }

  /** The start of code k in units of 2^-l. */
  function CodeAt(ls: seq<nat>, k: nat, l: nat): nat
    requires k <= |ls|
    requires forall i :: 0 <= i < k ==> ls[i] <= l
  {
    if k == 0 then 0 else CodeAt(ls, k - 1, l) + Pow2(l - ls[k - 1])
  }

  lemma {:induction false} StartMono(ls: seq<nat>, j: nat, k: nat)
    requires j <= k <= |ls|
    ensures Start(ls, j) <= Start(ls, k)
    decreases k
  {
    if j < k { StartMono(ls, j, k - 1); }
  }

  lemma {:induction false} StartNext(ls: seq<nat>, j: nat, k: nat)
    requires j < k <= |ls|
    ensures Start(ls, j) + Weight(ls[j]) <= Start(ls, k)
  {
    hide Weight;
    StartMono(ls, j + 1, k);
    assert Start(ls, j + 1) == Start(ls, j) + Weight(ls[j]);
  }

  lemma {:induction false} WeightPositive(l: nat)
    requires l <= MAXBITS
    ensures Weight(l) >= 1
  {
  }

  /** A run of codes of one length. */
  lemma {:induction false} StartRun(ls: seq<nat>, j: nat, k: nat, l: nat)
    requires j <= k <= |ls| && forall i :: j <= i < k ==> ls[i] == l
    ensures Start(ls, k) == Start(ls, j) + (k - j) * Weight(l)
    decreases k
  {
    hide Weight;
    if j < k {
      StartRun(ls, j, k - 1, l);
      assert (k - j) * Weight(l) == (k - 1 - j) * Weight(l) + Weight(l);
    }
  }

  /** Codes start at multiples of the weight of every length not shorter than theirs. */
  lemma {:induction false} StartAligned(ls: seq<nat>, k: nat, l: nat)
    requires k <= |ls| && l <= MAXBITS
    requires forall i :: 0 <= i < k ==> ls[i] <= l
    ensures Start(ls, k) == Shl(CodeAt(ls, k, l), MAXBITS - l)
    decreases k
  {
    hide Pow2, Shl;
    if k > 0 {
      StartAligned(ls, k - 1, l);
      ShlFacts(CodeAt(ls, k - 1, l), Pow2(l - ls[k - 1]), l - ls[k - 1], MAXBITS - l);
    } else {
      ShlFacts(0, 0, 0, MAXBITS - l);
    }
  }

  /** The stream form of code k has exactly the bits of its length. */
  lemma {:induction false} HuffIsCode(ls: seq<nat>, k: nat)
    requires k < |ls| && SortedLengths(ls)
    ensures Huff(ls, k) == Reverse(ls[k], CodeAt(ls, k, ls[k]))
    ensures Huff(ls, k) < Pow2(ls[k])
  {
    hide Reverse, Pow2, Shl;
    StartAligned(ls, k, ls[k]);
    ReverseAppend(ls[k], MAXBITS - ls[k], CodeAt(ls, k, ls[k]));
    ReverseBound(ls[k], CodeAt(ls, k, ls[k]));
  }

  /** Stepping the code of length ls[k] by one gives the next code. */
  lemma {:induction false} HuffNext(ls: seq<nat>, k: nat)
    requires k < |ls| && SortedLengths(ls)
    ensures Reverse(ls[k], CodeAt(ls, k, ls[k]) + 1) == Huff(ls, k + 1)
  {
    hide Reverse, Pow2, Shl, CodeAt;
    var l, c := ls[k], CodeAt(ls, k, ls[k]);
    StartAligned(ls, k, l);
    ReverseAppend(l, MAXBITS - l, c + 1);
    ShlFacts(c, 1, 0, MAXBITS - l);
    assert Start(ls, k + 1) == Start(ls, k) + Weight(l);
  }

  /** The top r bits of where code k starts. */
  function Prefix(ls: seq<nat>, k: nat, r: nat): nat
    requires k <= |ls| && r <= MAXBITS
  {
    Shr(Start(ls, k), MAXBITS - r)
  }

  lemma {:induction false} LowHuff(ls: seq<nat>, k: nat, r: nat)
    requires k <= |ls| && r <= MAXBITS
    ensures Low(Huff(ls, k), r) == Reverse(r, Prefix(ls, k, r))
  {
    ReversePrefix(MAXBITS, r, Start(ls, k));
  }

  lemma {:induction false} PrefixMono(ls: seq<nat>, j: nat, k: nat, r: nat)
    requires j <= k <= |ls| && r <= MAXBITS
    ensures Prefix(ls, j, r) <= Prefix(ls, k, r)
  {
    StartMono(ls, j, k);
    ShrMono(Start(ls, j), Start(ls, k), MAXBITS - r);
  }

  lemma {:induction false} PrefixBound(ls: seq<nat>, k: nat, r: nat)
    requires k <= |ls| && r <= MAXBITS && Start(ls, k) < Pow2(MAXBITS)
    ensures Prefix(ls, k, r) < Pow2(r)
  {
    ShrBound(Start(ls, k), MAXBITS - r, r);
  }

  lemma {:induction false} StartBound(ls: seq<nat>, k: nat)
    requires k < |ls| && SortedLengths(ls) && Kraft(ls) <= Pow2(MAXBITS)
    ensures Start(ls, k) < Pow2(MAXBITS)
  {
    hide Pow2;
    StartNext(ls, k, |ls|);
    WeightPositive(ls[k]);
  }

  /** Once a whole unit of r bits is spent, the top r bits have moved on. */
  lemma {:induction false} PrefixMoves(ls: seq<nat>, j: nat, k: nat, r: nat)
    requires j <= k <= |ls| && r <= MAXBITS && Start(ls, k) >= Start(ls, j) + Weight(r)
    ensures Prefix(ls, k, r) > Prefix(ls, j, r)
  {
    hide Low, Shr, Pow2, Start;
    var a, b, d := Start(ls, j), Start(ls, k), MAXBITS - r;
    ShrMono(a + Pow2(d), b, d);
    ShrNext(a, d);
  }

  lemma {:induction false} ShrNext(a: nat, d: nat)
    ensures Shr(a + Pow2(d), d) == Shr(a, d) + 1
  {
    hide Low, Shr, Pow2;
    LowAndShr(a, d);
    LowBound(a, d);
    Arith.Distribute(Pow2(d), Shr(a, d), 1);
    Assemble(Low(a, d), Shr(a, d) + 1, d);
  }

  /** No code is a prefix of a later one. */
  lemma {:induction false} PrefixFree(ls: seq<nat>, j: nat, k: nat)
    requires j < k < |ls| && SortedLengths(ls) && Kraft(ls) <= Pow2(MAXBITS)
    ensures Low(Huff(ls, k), ls[j]) != Huff(ls, j)
  {
    hide Low, Pow2, Huff, Prefix;
    var l := ls[j];
    StartNext(ls, j, k);
    PrefixMoves(ls, j, k, l);
    StartBound(ls, k);
    StartBound(ls, j);
    PrefixBound(ls, k, l);
    PrefixBound(ls, j, l);
    LowHuff(ls, k, l);
    LowHuff(ls, j, l);
    HuffIsCode(ls, j);
    LowFits(Huff(ls, j), l);
    if Low(Huff(ls, k), l) == Huff(ls, j) {
      ReverseInjective(l, Prefix(ls, k, l), Prefix(ls, j, l));
    }
  }

  /** Codes with the same low r stream bits have the same prefix. */
  lemma {:induction false} SamePrefix(ls: seq<nat>, j: nat, k: nat, r: nat)
    requires j < |ls| && k < |ls| && r <= MAXBITS && SortedLengths(ls) && Kraft(ls) <= Pow2(MAXBITS)
    ensures Low(Huff(ls, j), r) == Low(Huff(ls, k), r) <==> Prefix(ls, j, r) == Prefix(ls, k, r)
  {
    hide Low, Pow2, Huff, Prefix;
    StartBound(ls, k);
    StartBound(ls, j);
    PrefixBound(ls, k, r);
    PrefixBound(ls, j, r);
    LowHuff(ls, k, r);
    LowHuff(ls, j, r);
    if Low(Huff(ls, j), r) == Low(Huff(ls, k), r) {
      ReverseInjective(r, Prefix(ls, j, r), Prefix(ls, k, r));
    }
  }

  /** In a complete code every bit string begins with some code. */
  lemma {:induction false} CompleteCovers(ls: seq<nat>, x: nat) returns (k: nat)
    requires SortedLengths(ls) && Kraft(ls) == Pow2(MAXBITS)
    ensures k < |ls| && Low(x, ls[k]) == Huff(ls, k)
  {
    hide Low, Pow2, Reverse;
    var v := Reverse(MAXBITS, Low(x, MAXBITS));
    ReverseBound(MAXBITS, Low(x, MAXBITS));
    k := FindInterval(ls, v, |ls|);
    var l := ls[k];
    LowBound(x, MAXBITS);
    ReverseReverse(MAXBITS, Low(x, MAXBITS));
    ReversePrefix(MAXBITS, l, v);
    LowLow(x, l, MAXBITS);
    IntervalPrefix(ls, k, v);
    HuffIsCode(ls, k);
  }

  lemma {:induction false} FindInterval(ls: seq<nat>, v: nat, n: nat) returns (k: nat)
    requires n <= |ls| && v < Start(ls, n)
    ensures k < n && Start(ls, k) <= v < Start(ls, k) + Weight(ls[k])
    decreases n
  {
    if Start(ls, n - 1) <= v { k := n - 1; } else { k := FindInterval(ls, v, n - 1); }
  }

  lemma {:induction false} IntervalPrefix(ls: seq<nat>, k: nat, v: nat)
    requires k < |ls| && SortedLengths(ls)
    requires Start(ls, k) <= v < Start(ls, k) + Weight(ls[k])
    ensures Shr(v, MAXBITS - ls[k]) == CodeAt(ls, k, ls[k])
  {
    hide Shr, Pow2;
    var d, c := MAXBITS - ls[k], CodeAt(ls, k, ls[k]);
    StartAligned(ls, k, ls[k]);
    assert Shl(c, d) == Pow2(d) * c;
    Assemble(v - Shl(c, d), c, d);
  }
}
