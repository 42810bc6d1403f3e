/** How many entries the tables of a code take: the root table, and a sub-table for
    every root index that longer codes share. */
module TableSize {
  import opened Bits
  import opened Canonical
  import opened SymbolSort
  import Arith

  /** No code behind code k has the same `root` leading bits. */
  predicate LastOfPrefix(ls: seq<nat>, k: nat, root: nat)
    requires k < |ls| && root <= MAXBITS
  {
    k + 1 == |ls| || Prefix(ls, k + 1, root) != Prefix(ls, k, root)
  }

  /** The entries of the sub-tables that end among the first k codes.  The codes are
      sorted, so the last code of a sub-table is its longest, and just fits in. */
  function Linked(ls: seq<nat>, k: nat, root: nat): nat
    requires k <= |ls| && root <= MAXBITS
  {
    if k == 0 then 0
    else Linked(ls, k - 1, root) + if ls[k - 1] > root && LastOfPrefix(ls, k - 1, root) then Pow2(ls[k - 1] - root) else 0
  }

  function Entries(ls: seq<nat>, root: nat): nat
    requires root <= MAXBITS
  {
    Pow2(root) + Linked(ls, |ls|, root)
  }

  lemma {:induction false} LinkedMono(ls: seq<nat>, j: nat, k: nat, root: nat)
    requires j <= k <= |ls| && root <= MAXBITS
    ensures Linked(ls, j, root) <= Linked(ls, k, root)
    decreases k
  {
    hide Pow2, LastOfPrefix;
    if j < k { LinkedMono(ls, j, k - 1, root); }
  }

  // ---- the codes of one sub-table ----------------------------------------------------

  /** Behind the codes from k on that have its `root` leading bits. */
  function GroupEnd(ls: seq<nat>, k: nat, root: nat): (m: nat)
    requires k < |ls| && root <= MAXBITS
    ensures k < m <= |ls|
    decreases |ls| - k
  {
    if LastOfPrefix(ls, k, root) then k + 1 else GroupEnd(ls, k + 1, root)
  }

  lemma {:induction false} GroupIs(ls: seq<nat>, k: nat, root: nat)
    requires k < |ls| && root <= MAXBITS
    ensures var m := GroupEnd(ls, k, root);
      Prefix(ls, m - 1, root) == Prefix(ls, k, root) && LastOfPrefix(ls, m - 1, root)
    decreases |ls| - k
  {
    hide Prefix;
    if !LastOfPrefix(ls, k, root) { GroupIs(ls, k + 1, root); }
  }

  /** Prefixes do not come back. */
  lemma {:induction false} GroupHolds(ls: seq<nat>, k: nat, j: nat, root: nat)
    requires k <= j < |ls| && root <= MAXBITS && Prefix(ls, j, root) == Prefix(ls, k, root)
    ensures j < GroupEnd(ls, k, root)
    decreases |ls| - k
  {
    hide Prefix;
    if k < j {
      PrefixMono(ls, k, k + 1, root);
      PrefixMono(ls, k + 1, j, root);
      GroupHolds(ls, k + 1, j, root);
    }
  }

  /** A group of longer codes adds one sub-table. */
  lemma {:induction false} LinkedGroup(ls: seq<nat>, k: nat, root: nat)
    requires k < |ls| && root <= MAXBITS && SortedLengths(ls) && ls[k] > root
    ensures var m := GroupEnd(ls, k, root);
      ls[m - 1] > root && Linked(ls, m, root) == Linked(ls, k, root) + Pow2(ls[m - 1] - root)
    decreases |ls| - k
  {
    hide Pow2, Prefix;
    if !LastOfPrefix(ls, k, root) { LinkedGroup(ls, k + 1, root); }
  }

  /** The first code of a group starts where its prefix does. */
  lemma {:induction false} FirstAligned(ls: seq<nat>, k: nat, root: nat)
    requires 0 < k < |ls| && root <= MAXBITS && SortedLengths(ls)
    requires Prefix(ls, k - 1, root) != Prefix(ls, k, root)
    ensures Start(ls, k) == Pow2(MAXBITS - root) * Prefix(ls, k, root)
  {
    hide Pow2, Shr, Low, CodeAt;
    var l, d := ls[k - 1], MAXBITS - root;
    if l <= root {
      StartAligned(ls, k, l);
      LowOfMultiple(CodeAt(ls, k, l), MAXBITS - l, d);
      LowAndShr(Start(ls, k), d);
    } else {
      StartAligned(ls, k - 1, l);
      StepsOver(CodeAt(ls, k - 1, l), MAXBITS - l, l - root);
    }
  }

  /** A step that changes the bits from s + r on lands where the bits below are zero. */
  lemma {:induction false} StepsOver(c: nat, s: nat, r: nat)
    requires Shr(Shl(c, s), s + r) != Shr(Shl(c, s) + Pow2(s), s + r)
    ensures Shl(c, s) + Pow2(s) == Pow2(s + r) * Shr(Shl(c, s) + Pow2(s), s + r)
  {
    hide Pow2, Shr, Low, Shl;
    var a, low, w := Shl(c, s), Low(c, r), Pow2(s);
    LowAndShr(a, s + r);
    LowShl(c, s, r);
    LowBound(c, r);
    Pow2Add(r, s);
    UnitsBelow(low, Pow2(r), w);
    ShlIs(low, s);
    LandsAbove(a, s + r, low * w, w);
  }

  lemma {:induction false} LandsAbove(a: nat, k: nat, low: nat, w: nat)
    requires a == low + Pow2(k) * Shr(a, k) && low + w <= Pow2(k) && Shr(a, k) != Shr(a + w, k)
    ensures a + w == Pow2(k) * Shr(a + w, k)
  {
    hide Pow2, Shr, Low;
    var q := Shr(a, k);
    if low + w < Pow2(k) {
      Assemble(low + w, q, k);
    } else {
      assert Pow2(k) * (q + 1) == Pow2(k) * q + Pow2(k);
      Assemble(0, q + 1, k);
    }
  }

  lemma {:induction false} ShlIs(x: nat, k: nat)
    ensures Shl(x, k) == x * Pow2(k)
  {
  }

  lemma {:induction false} LowOfMultiple(c: nat, s: nat, d: nat)
    requires d <= s
    ensures Low(Shl(c, s), d) == 0
  {
    hide Pow2;
    Pow2Add(d, s - d);
    var q := c * Pow2(s - d);
    assert Shl(c, s) == 0 + Pow2(d) * q;
    Assemble(0, q, d);
  }

  lemma {:induction false} UnitsBelow(n: nat, p: nat, w: nat)
    requires n < p
    ensures n * w + w <= p * w
  {
    var d: nat := p - 1 - n;
    assert (n + 1 + d) * w == n * w + w + d * w;
    Arith.MulNonNeg(d, w);
  }

  /** A later code that starts before the prefix is used up has the same prefix. */
  lemma {:induction false} WithinPrefix(ls: seq<nat>, k: nat, m: nat, root: nat)
    requires k <= m <= |ls| && root <= MAXBITS
    requires Start(ls, k) == Pow2(MAXBITS - root) * Prefix(ls, k, root) && Start(ls, m) < Start(ls, k) + Weight(root)
    ensures Prefix(ls, m, root) == Prefix(ls, k, root)
  {
    hide Shr, Pow2;
    StartMono(ls, k, m);
    Assemble(Start(ls, m) - Start(ls, k), Prefix(ls, k, root), MAXBITS - root);
  }

  /** In a complete code something follows where code space is left. */
  lemma {:induction false} SomethingFollows(ls: seq<nat>, k: nat, m: nat, root: nat)
    requires k < |ls| && k <= m <= |ls| && root <= MAXBITS && SortedLengths(ls) && Kraft(ls) == Pow2(MAXBITS)
    requires Start(ls, k) == Pow2(MAXBITS - root) * Prefix(ls, k, root) && Start(ls, m) < Start(ls, k) + Weight(root)
    ensures m < |ls| && m < GroupEnd(ls, k, root)
  {
    hide Shr, Pow2, Prefix, Start;
    WithinPrefix(ls, k, m, root);
    if m == |ls| {
      StartBound(ls, k);
      PrefixBound(ls, k, root);
      AllSpent(ls, root);
    }
    GroupHolds(ls, k, m, root);
  }

  lemma {:induction false} AllCodes(ls: seq<nat>)
    ensures Kraft(ls) == Start(ls, |ls|)
  {
  }

  lemma {:induction false} AllSpent(ls: seq<nat>, root: nat)
    requires root <= MAXBITS && Kraft(ls) == Pow2(MAXBITS)
    ensures Prefix(ls, |ls|, root) == Pow2(root)
  {
    hide Shr, Pow2, Low, Start;
    Pow2Add(MAXBITS - root, root);
    AllCodes(ls);
    Assemble(0, Pow2(root), MAXBITS - root);
  }

  // ---- the entries for the lengths of a caller --------------------------------------

  function Run(l: nat, n: nat): (s: seq<nat>)
    ensures |s| == n && forall i :: 0 <= i < n ==> s[i] == l
  {
    seq(n, i => l)
  }

  /** The lengths from 1 to l in sorted order. */
  function SortedUpTo(lens: seq<nat>, l: nat): (ls: seq<nat>)
    ensures |ls| == Offset(lens, l + 1)
    ensures forall i :: 0 <= i < |ls| ==> 1 <= ls[i] <= l
  {
    if l == 0 then [] else SortedUpTo(lens, l - 1) + Run(l, Count(lens, |lens|, l))
  }

  /** The index bits of the root table: those asked for, but within the code lengths. */
  function RootBits(ls: seq<nat>, bits: nat): nat
    requires |ls| > 0
  {
    if bits > ls[|ls| - 1] then ls[|ls| - 1] else if bits < ls[0] then ls[0] else bits
  }

  /** The entries for the given lengths and requested root bits; two if there are no codes. */
  function SizeNeeded(lens: seq<nat>, bits: nat): nat
  {
    var ls := SortedUpTo(lens, MAXBITS);
    if |ls| == 0 then 2 else Entries(ls, RootBits(ls, bits))
  }

  /** The sorted list that inflate_table makes is this one. */
  lemma {:induction false} SortedIs(lens: seq<nat>, work: seq<nat>, ls: seq<nat>, l: nat)
    requires Lengths(lens) && Sorted(lens, work) && LengthsMatch(lens, work, ls) && l <= MAXBITS
    ensures Offset(lens, l + 1) <= |ls| && SortedUpTo(lens, l) == ls[..Offset(lens, l + 1)]
    decreases l
  {
    hide Sorted, Count;
    WorkLength(lens, work);
    OffsetMono(lens, l + 1, MAXBITS + 1);
    if l > 0 {
      SortedIs(lens, work, ls, l - 1);
      var a, b := Offset(lens, l), Offset(lens, l + 1);
      assert b == a + Count(lens, |lens|, l);
      forall j | a <= j < b ensures ls[j] == l { BlockHasLength(lens, work, j, l); }
      assert ls[..b] == ls[..a] + Run(l, Count(lens, |lens|, l));
    }
  }

  lemma {:induction false} SizeOfSorted(lens: seq<nat>, work: seq<nat>, ls: seq<nat>)
    requires Lengths(lens) && Sorted(lens, work) && LengthsMatch(lens, work, ls)
    ensures SortedUpTo(lens, MAXBITS) == ls
  {
    hide Sorted;
    SortedIs(lens, work, ls, MAXBITS);
    WorkLength(lens, work);
    assert ls[..|ls|] == ls;
  }

  /** How many of a sorted list are at most l. */
  function UpTo(lens: seq<nat>, l: nat): (n: nat)
    ensures n <= |lens|
  {
    if |lens| == 0 || lens[|lens| - 1] <= l then |lens| else UpTo(lens[..|lens| - 1], l)
  }

  lemma {:induction false} UpToIs(lens: seq<nat>, l: nat)
    requires SortedLengths(lens)
    ensures forall i :: 0 <= i < |lens| ==> (i < UpTo(lens, l) <==> lens[i] <= l)
    decreases |lens|
  {
    if |lens| > 0 && lens[|lens| - 1] > l { UpToIs(lens[..|lens| - 1], l); }
  }

  lemma {:induction false} CountSorted(lens: seq<nat>, n: nat, l: nat, a: nat, b: nat)
    requires n <= |lens| && a <= b <= |lens|
    requires forall i :: 0 <= i < |lens| ==> (lens[i] == l <==> a <= i < b)
    ensures Count(lens, n, l) == if n <= a then 0 else if n <= b then n - a else b - a
    decreases n
  {
    if n > 0 { CountSorted(lens, n - 1, l, a, b); }
  }

  lemma {:induction false} UpToMono(lens: seq<nat>, l: nat)
    requires SortedLengths(lens)
    ensures UpTo(lens, 0) == 0 && UpTo(lens, l) <= UpTo(lens, l + 1)
  {
    hide UpTo;
    UpToIs(lens, 0);
    UpToIs(lens, l);
    UpToIs(lens, l + 1);
    var b := UpTo(lens, l + 1);
    assert b < |lens| ==> !(lens[b] <= l + 1);
    assert 0 < |lens| ==> !(lens[0] <= 0);
  }

  /** The codes of length l in a sorted list. */
  lemma {:induction false} BlockOf(lens: seq<nat>, l: nat)
    requires SortedLengths(lens) && l > 0
    ensures UpTo(lens, l - 1) <= UpTo(lens, l)
    ensures lens[..UpTo(lens, l)] == lens[..UpTo(lens, l - 1)] + Run(l, Count(lens, |lens|, l))
  {
    hide UpTo, Count;
    UpToMono(lens, l - 1);
    UpToIs(lens, l - 1);
    UpToIs(lens, l);
    CountSorted(lens, |lens|, l, UpTo(lens, l - 1), UpTo(lens, l));
  }

  /** A list that is sorted already is its own sorted list. */
  lemma {:induction false} SortedItself(lens: seq<nat>, l: nat)
    requires SortedLengths(lens)
    ensures SortedUpTo(lens, l) == lens[..UpTo(lens, l)]
    decreases l
  {
    hide UpTo, Count, Run, Offset;
    if l > 0 {
      SortedItself(lens, l - 1);
      BlockOf(lens, l);
    } else {
      UpToMono(lens, 0);
    }
  }

  // ---- a code that needs all the entries there are ------------------------------------

  function SmallWeight(l: nat): nat
  {
    if l == 2 then 8192 else if l == 3 then 4096 else if l == 7 then 256 else if l == 8 then 128 else if l == 9 then 64
    else if l == 10 then 32 else if l == 11 then 16 else if l == 12 then 8 else if l == 13 then 4 else if l == 14 then 2 else 1
  }

  /** Linked from code k on, which starts at a, for a root of six bits. */
  function Walk(ls: seq<nat>, k: nat, a: nat): nat
    requires k <= |ls|
    decreases |ls| - k
  {
    if k == |ls| then 0
    else
      var a' := a + SmallWeight(ls[k]);
      Walk(ls, k + 1, a') + if ls[k] > 6 && (k + 1 == |ls| || a' / 512 != a / 512) then 512 / SmallWeight(ls[k]) else 0
  }

  predicate InTable(l: nat) { l == 2 || l == 3 || 7 <= l <= 15 }

  lemma {:induction false} TableWeight(l: nat)
    requires InTable(l)
    ensures Weight(l) == SmallWeight(l) && (l > 6 ==> Pow2(l - 6) == 512 / SmallWeight(l))
  {
    assert Pow2(0) == 1 && Pow2(1) == 2 && Pow2(2) == 4 && Pow2(3) == 8 && Pow2(4) == 16;
    assert Pow2(5) == 32 && Pow2(6) == 64 && Pow2(7) == 128 && Pow2(8) == 256 && Pow2(9) == 512;
    Pow2Add(8, 4);
    Pow2Add(8, 5);
  }

  lemma {:induction false} WalkIsLinked(ls: seq<nat>, k: nat, a: nat)
    requires k <= |ls| && a == Start(ls, k) && forall i :: 0 <= i < |ls| ==> InTable(ls[i])
    ensures Linked(ls, |ls|, 6) == Linked(ls, k, 6) + Walk(ls, k, a)
    decreases |ls| - k
  {
    hide Linked;
    if k < |ls| {
      LinkedStep(ls, k, a);
      WalkIsLinked(ls, k + 1, a + SmallWeight(ls[k]));
    }
  }

  lemma {:induction false} LinkedStep(ls: seq<nat>, k: nat, a: nat)
    requires k < |ls| && a == Start(ls, k) && forall i :: 0 <= i < |ls| ==> InTable(ls[i])
    ensures var l, a' := ls[k], a + SmallWeight(ls[k]);
      && a' == Start(ls, k + 1)
      && Linked(ls, k + 1, 6) == Linked(ls, k, 6) + if l > 6 && (k + 1 == |ls| || a' / 512 != a / 512) then 512 / SmallWeight(l) else 0
  {
    hide Pow2, Weight, Shr, InTable;
    TableWeight(ls[k]);
    ShrNine(a);
    ShrNine(a + Weight(ls[k]));
  }

  lemma {:induction false} ShrNine(a: nat)
    ensures Shr(a, 9) == a / 512
  {
    assert Pow2(9) == 512;
    LowAndShr(a, 9);
    LowBound(a, 9);
  }

  /** Thirty distance codes that fill all the entries there are, where each starts, and
      what the sub-tables from each on take. */
  const FULL_DISTANCES: seq<nat> := [
    2, 2, 2, 3, 7, 7, 7, 7, 7, 7, 7, 7, 7, 7, 7, 7, 7, 8, 8, 8, 8, 8, 9, 10, 11, 12, 13, 14, 15, 15]
  const FULL_STARTS: seq<nat> := [
    0, 8192, 16384, 24576, 28672, 28928, 29184, 29440, 29696, 29952, 30208, 30464, 30720, 30976, 31232, 31488, 31744, 32000,
    32128, 32256, 32384, 32512, 32640, 32704, 32736, 32752, 32760, 32764, 32766, 32767, 32768]
  const FULL_REST: seq<nat> := [
    528, 528, 528, 528, 528, 528, 526, 526, 524, 524, 522, 522, 520, 520, 518, 518, 516, 516, 516, 512, 512, 512, 512, 512, 512, 512, 512, 512, 512, 512, 0]

  predicate FullStep(k: nat)
    requires k < 30
  {
    var l, a, a' := FULL_DISTANCES[k], FULL_STARTS[k], FULL_STARTS[k + 1];
    && a' == a + SmallWeight(l)
    && FULL_REST[k] == FULL_REST[k + 1] + if l > 6 && (k == 29 || a' / 512 != a / 512) then 512 / SmallWeight(l) else 0
  }

  lemma {:induction false} FullSteps()
    ensures forall k :: 0 <= k < 30 ==> FullStep(k) && InTable(FULL_DISTANCES[k])
  {
    assert forall k :: 0 <= k < 8 ==> FullStep(k) && InTable(FULL_DISTANCES[k]) by { FullSteps1(); }
    assert forall k :: 8 <= k < 16 ==> FullStep(k) && InTable(FULL_DISTANCES[k]) by { FullSteps2(); }
    assert forall k :: 16 <= k < 23 ==> FullStep(k) && InTable(FULL_DISTANCES[k]) by { FullSteps3(); }
    assert forall k :: 23 <= k < 30 ==> FullStep(k) && InTable(FULL_DISTANCES[k]) by { FullSteps4(); }
  }

  lemma {:induction false} FullSteps1()
    ensures forall k :: 0 <= k < 8 ==> FullStep(k) && InTable(FULL_DISTANCES[k])
  {
  }

  lemma {:induction false} FullSteps2()
    ensures forall k :: 8 <= k < 16 ==> FullStep(k) && InTable(FULL_DISTANCES[k])
  {
  }

  lemma {:induction false} FullSteps3()
    ensures forall k :: 16 <= k < 23 ==> FullStep(k) && InTable(FULL_DISTANCES[k])
  {
  }

  lemma {:induction false} FullSteps4()
    ensures forall k :: 23 <= k < 30 ==> FullStep(k) && InTable(FULL_DISTANCES[k])
  {
  }

  lemma {:induction false} FullWalk(k: nat)
    requires k <= 30
    ensures Walk(FULL_DISTANCES, k, FULL_STARTS[k]) == FULL_REST[k]
    decreases 30 - k
  {
    if k < 30 {
      FullSteps();
      assert FullStep(k);
      FullWalk(k + 1);
    }
  }

  lemma {:induction false} FullStart(k: nat)
    requires k <= 30
    ensures Start(FULL_DISTANCES, k) == FULL_STARTS[k]
    decreases k
  {
    hide Weight;
    if k > 0 {
      FullSteps();
      assert FullStep(k - 1) && InTable(FULL_DISTANCES[k - 1]);
      FullStart(k - 1);
      TableWeight(FULL_DISTANCES[k - 1]);
    }
  }

  lemma {:induction false} FullIsSorted()
    ensures SortedLengths(FULL_DISTANCES)
  {
    forall i, j | 0 <= i <= j < 30 ensures FULL_DISTANCES[i] <= FULL_DISTANCES[j] { FullOrder(i, j); }
  }

  lemma {:induction false} FullOrder(i: nat, j: nat)
    requires i <= j < 30
    ensures 1 <= FULL_DISTANCES[i] <= FULL_DISTANCES[j] <= MAXBITS
    decreases j - i
  {
    if i < j {
      assert FULL_DISTANCES[i] <= FULL_DISTANCES[i + 1];
      FullOrder(i + 1, j);
    }
  }

  lemma {:induction false} FullIsItself()
    ensures SortedUpTo(FULL_DISTANCES, MAXBITS) == FULL_DISTANCES
  {
    hide SortedUpTo, UpTo, SortedLengths;
    FullIsSorted();
    SortedItself(FULL_DISTANCES, MAXBITS);
    assert UpTo(FULL_DISTANCES, MAXBITS) == 30 by { FullUpTo(); }
    assert FULL_DISTANCES[..30] == FULL_DISTANCES;
  }

  lemma {:induction false} FullUpTo()
    ensures UpTo(FULL_DISTANCES, MAXBITS) == 30
  {
  }

  /** They are a complete code, and with a root of six bits they need 592 entries. */
  lemma {:induction false} FullSize()
    ensures SortedLengths(FULL_DISTANCES) && Kraft(FULL_DISTANCES) == Pow2(MAXBITS)
    ensures SortedUpTo(FULL_DISTANCES, MAXBITS) == FULL_DISTANCES && SizeNeeded(FULL_DISTANCES, 6) == 592
  {
    hide Linked, Start, SortedUpTo, Entries, SortedLengths, Pow2;
    FullIsSorted();
    FullStart(30);
    FixedPower();
    FullIsItself();
    FullEntries();
  }

  lemma {:induction false} FixedPower()
    ensures Pow2(MAXBITS) == 32768
  {
    assert Pow2(5) == 32;
    Pow2Add(5, 5);
    Pow2Add(10, 5);
  }

  lemma {:induction false} FullEntries()
    ensures Entries(FULL_DISTANCES, 6) == 592
  {
    FullSteps();
    assert Start(FULL_DISTANCES, 0) == 0 && Linked(FULL_DISTANCES, 0, 6) == 0;
    WalkIsLinked(FULL_DISTANCES, 0, 0);
    FullWalk(0);
    assert Pow2(6) == 64;
  }
}
