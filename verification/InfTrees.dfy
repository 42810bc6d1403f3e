/** inftrees.c: the two-level decoding table of a canonical Huffman code. */
module InfTrees {
  import opened Bits
  import opened BitReverse
  import opened Canonical
  import opened SymbolSort
  import opened PrefixCode
  import opened TableSize
  import opened TableSlots

  /** A table entry: op 0 is a literal, 1 to 15 a link to a sub-table of that many
      index bits, 16 and up a base value with op - 16 extra bits, 64 the invalid
      marker and 96 the end of a block. */
  datatype Code = Code(op: nat, bits: nat, val: nat)

  datatype CodeType = CODES | LENS | DISTS

  const ENOUGH_LENS: nat := 852
  const ENOUGH_DISTS: nat := 592

  const INVALID: nat := 64
  const END_OF_BLOCK: nat := 96

  const LBASE: seq<nat> := [
    3, 4, 5, 6, 7, 8, 9, 10, 11, 13, 15, 17, 19, 23, 27, 31,
    35, 43, 51, 59, 67, 83, 99, 115, 131, 163, 195, 227, 258, 0, 0]
  const LEXT: seq<nat> := [
    16, 16, 16, 16, 16, 16, 16, 16, 17, 17, 17, 17, 18, 18, 18, 18,
    19, 19, 19, 19, 20, 20, 20, 20, 21, 21, 21, 21, 16, 73, 195]
  const DBASE: seq<nat> := [
    1, 2, 3, 4, 5, 7, 9, 13, 17, 25, 33, 49, 65, 97, 129, 193,
    257, 385, 513, 769, 1025, 1537, 2049, 3073, 4097, 6145,
    8193, 12289, 16385, 24577, 0, 0]
  const DEXT: seq<nat> := [
    16, 16, 16, 16, 17, 17, 18, 18, 19, 19, 20, 20, 21, 21, 22, 22,
    23, 23, 24, 24, 25, 25, 26, 26, 27, 27,
    28, 28, 29, 29, 64, 64]

  /** The symbols each type of code can have. */
  function SymbolLimit(type_: CodeType): nat
  {
    match type_ case CODES => 19 case LENS => 288 case DISTS => 32
  }

  /** The operation and value a symbol stands for. */
  function SymbolOp(type_: CodeType, sym: nat): nat
    requires sym < SymbolLimit(type_)
  {
    match type_
    case CODES => 0
    case LENS => if sym < 256 then 0 else if sym > 256 then LEXT[sym - 257] else END_OF_BLOCK
    case DISTS => DEXT[sym]
  }

  function SymbolVal(type_: CodeType, sym: nat): nat
    requires sym < SymbolLimit(type_)
  {
    match type_
    case CODES => sym
    case LENS => if sym < 256 then sym else if sym > 256 then LBASE[sym - 257] else 0
    case DISTS => DBASE[sym]
  }

  function SymbolEntry(type_: CodeType, sym: nat, bits: nat): Code
    requires sym < SymbolLimit(type_)
  {
    Code(SymbolOp(type_, sym), bits, SymbolVal(type_, sym))
  }

  /** No symbol's entry can be mistaken for a link. */
  lemma {:induction false} SymbolIsNoLink(type_: CodeType, sym: nat)
    requires sym < SymbolLimit(type_)
    ensures SymbolOp(type_, sym) == 0 || SymbolOp(type_, sym) >= 16
  {
    match type_
    case CODES =>
    case LENS => assert forall i :: 0 <= i < 31 ==> LEXT[i] >= 16;
    case DISTS => assert forall i :: 0 <= i < 32 ==> DEXT[i] >= 16;
  }

  function At(t: seq<Code>, b: nat, i: nat): Code
    requires b + i < |t|
  {
    t[b + i]
  }

  predicate IsLink(e: Code) { 1 <= e.op <= 15 }

  /** The links of the table stay inside it. */
  ghost predicate Closed(t: seq<Code>, b0: nat, root: nat)
  {
    && b0 + Pow2(root) <= |t|
    && forall i :: 0 <= i < Pow2(root) && IsLink(At(t, b0, i)) ==>
         At(t, b0, i).bits == root && b0 + At(t, b0, i).val + Pow2(At(t, b0, i).op) <= |t|
  }

  /** No entry of the root table is a link. */
  ghost predicate NoLinks(t: seq<Code>, b0: nat, root: nat)
  {
    b0 + Pow2(root) <= |t| && forall i :: 0 <= i < Pow2(root) ==> !IsLink(At(t, b0, i))
  }

  /** Decoding from the low bits of x as the decoders do it: the root entry, and
      behind a link one sub-table entry.  The second result is the number of
      bits used up. */
  function Lookup(t: seq<Code>, b0: nat, root: nat, x: nat): (Code, nat)
    requires Closed(t, b0, root)
  {
    LowBound(x, root);
    var e := At(t, b0, Low(x, root));
    if IsLink(e) then
      LowBound(Shr(x, e.bits), e.op);
      var f := At(t, b0 + e.val, Low(Shr(x, e.bits), e.op));
      (f, e.bits + f.bits)
    else
      (e, e.bits)
  }

  // ---- the state of the construction ----------------------------------------

  /** Where the construction stands: the table being filled is at b0 + off and has
      curr index bits, drop is 0 for the root table and root afterwards, low is
      the root index of the current sub-table (or -1), used counts entries. */
  datatype Layout = Layout(b0: nat, root: nat, drop: nat, curr: nat, off: nat, used: nat, low: int)

  /** The codes being entered. */
  datatype CodeSet = CodeSet(type_: CodeType, ls: seq<nat>, work: seq<nat>)

  ghost predicate GoodSet(c: CodeSet)
  {
    && SortedLengths(c.ls) && Kraft(c.ls) <= Pow2(MAXBITS)
    && |c.work| == |c.ls|
    && forall k :: 0 <= k < |c.work| ==> c.work[k] < SymbolLimit(c.type_)
  }

  ghost predicate GoodLayout(t: seq<Code>, g: Layout)
  {
    && 1 <= g.root <= MAXBITS
    && g.b0 + g.used <= |t|
    && (g.drop == 0 ==> g.curr == g.root && g.off == 0 && g.used == Pow2(g.root) && g.low == -1)
    && (g.drop != 0 ==>
          && g.drop == g.root && 1 <= g.curr <= MAXBITS
          && Pow2(g.root) <= g.off && g.used == g.off + Pow2(g.curr)
          && 0 <= g.low < Pow2(g.root)
          && At(t, g.b0, g.low) == Code(g.curr, g.root, g.off))
  }

  /** Code j, no longer than the root, is in every root slot its bits select. */
  ghost predicate RootEntry(t: seq<Code>, g: Layout, c: CodeSet, j: nat)
    requires GoodSet(c) && GoodLayout(t, g) && j < |c.ls|
  {
    forall i {:trigger At(t, g.b0, i)} :: 0 <= i < Pow2(g.root) && i < g.used && Low(i, c.ls[j]) == Huff(c.ls, j) ==>
      At(t, g.b0, i) == SymbolEntry(c.type_, c.work[j], c.ls[j])
  }

  /** The entries of a sub-table for code j. */
  ghost predicate SubEntries(t: seq<Code>, b: nat, size: nat, root: nat, c: CodeSet, j: nat)
    requires GoodSet(c) && j < |c.ls| && b + Pow2(size) <= |t| && root <= c.ls[j]
  {
    forall i {:trigger At(t, b, i)} :: 0 <= i < Pow2(size) && Low(i, c.ls[j] - root) == Shr(Huff(c.ls, j), root) ==>
      At(t, b, i) == SymbolEntry(c.type_, c.work[j], c.ls[j] - root)
  }

  /** Code j, longer than the root, is behind the link its low bits select. */
  ghost predicate Behind(t: seq<Code>, g: Layout, c: CodeSet, j: nat)
    requires GoodSet(c) && GoodLayout(t, g) && j < |c.ls| && g.root < c.ls[j]
  {
    var p := Low(Huff(c.ls, j), g.root);
    && p < Pow2(g.root) <= g.used
    && var e := At(t, g.b0, p);
    && IsLink(e) && e.bits == g.root && Pow2(g.root) <= e.val && e.val + Pow2(e.op) <= g.used
    && c.ls[j] - g.root <= e.op
    && (p == g.low || e.val + Pow2(e.op) <= g.off)
    && SubEntries(t, g.b0 + e.val, e.op, g.root, c, j)
  }

  ghost predicate Entered(t: seq<Code>, g: Layout, c: CodeSet, j: nat)
    requires GoodSet(c) && GoodLayout(t, g) && j < |c.ls|
  {
    if c.ls[j] <= g.root then RootEntry(t, g, c, j) else Behind(t, g, c, j)
  }

  /** The first k codes are in the table. */
  ghost predicate Building(t: seq<Code>, g: Layout, c: CodeSet, k: nat)
  {
    && GoodSet(c) && GoodLayout(t, g) && k <= |c.ls|
    && (forall j :: 0 <= j < k ==> Entered(t, g, c, j))
    && (g.drop == 0 ==> forall j :: 0 <= j < k ==> c.ls[j] <= g.root)
  }

  /** The current sub-table is the one of the code entered last. */
  ghost predicate Current(g: Layout, c: CodeSet, k: nat)
    requires k <= |c.ls|
  {
    g.drop != 0 ==> k > 0 && g.root < c.ls[k - 1] && Low(Huff(c.ls, k - 1), g.root) == g.low
  }

  /** The current table is the one code k goes to, and has room for it. */
  ghost predicate Ready(g: Layout, c: CodeSet, k: nat)
    requires k < |c.ls|
  {
    if c.ls[k] <= g.root then g.drop == 0
    else g.drop == g.root && Low(Huff(c.ls, k), g.root) == g.low && c.ls[k] - g.root <= g.curr
  }

  // ---- entering one code ------------------------------------------------------

  /** t' is t with `here` in every slot of the table at b whose low bits are first. */
  ghost predicate Replicated(t: seq<Code>, t': seq<Code>, b: nat, size: nat, step: nat, first: nat, here: Code)
  {
    && |t'| == |t| && b + Pow2(size) <= |t|
    && (forall i {:trigger At(t', b, i)} :: 0 <= i < Pow2(size) ==>
          At(t', b, i) == if Low(i, step) == first then here else At(t, b, i))
    && (forall m :: 0 <= m < |t| && !(b <= m < b + Pow2(size)) ==> t'[m] == t[m])
  }

  lemma {:induction false} PlaceKeepsRootEntry(t: seq<Code>, t': seq<Code>, g: Layout, c: CodeSet, j: nat, k: nat)
    requires GoodSet(c) && GoodLayout(t, g) && GoodLayout(t', g) && j < k < |c.ls| && Ready(g, c, k)
    requires c.ls[j] <= g.root && RootEntry(t, g, c, j)
    requires Replicated(t, t', g.b0 + g.off, g.curr, c.ls[k] - g.drop, Shr(Huff(c.ls, k), g.drop), SymbolEntry(c.type_, c.work[k], c.ls[k] - g.drop))
    ensures RootEntry(t', g, c, j)
  {
    hide Low, Huff, Pow2, SymbolEntry;
    forall i | 0 <= i < Pow2(g.root) && i < g.used && Low(i, c.ls[j]) == Huff(c.ls, j)
      ensures At(t', g.b0, i) == SymbolEntry(c.type_, c.work[j], c.ls[j])
    {
      assert At(t, g.b0, i) == SymbolEntry(c.type_, c.work[j], c.ls[j]);
      if g.drop == 0 {
        CodesApart(c.ls, j, k, i);
        assert At(t', g.b0 + g.off, i) == At(t, g.b0 + g.off, i);
      }
    }
  }

  lemma {:induction false} PlaceKeepsBehind(t: seq<Code>, t': seq<Code>, g: Layout, c: CodeSet, j: nat, k: nat)
    requires GoodSet(c) && GoodLayout(t, g) && GoodLayout(t', g) && j < k < |c.ls| && Ready(g, c, k)
    requires g.root < c.ls[j] && g.drop != 0 && Behind(t, g, c, j)
    requires Replicated(t, t', g.b0 + g.off, g.curr, c.ls[k] - g.drop, Shr(Huff(c.ls, k), g.drop), SymbolEntry(c.type_, c.work[k], c.ls[k] - g.drop))
    ensures Behind(t', g, c, j)
  {
    hide Low, Huff, Pow2, Shr, SymbolEntry;
    var p := Low(Huff(c.ls, j), g.root);
    var e := At(t, g.b0, p);
    assert At(t', g.b0, p) == e;
    var l, h := c.ls[j] - g.root, Shr(Huff(c.ls, j), g.root);
    forall i | 0 <= i < Pow2(e.op) && Low(i, l) == h
      ensures At(t', g.b0 + e.val, i) == SymbolEntry(c.type_, c.work[j], l)
    {
      assert At(t, g.b0 + e.val, i) == SymbolEntry(c.type_, c.work[j], l);
      if p == g.low {
        IndexesApart(c.ls, g.root, j, k, i);
        assert At(t', g.b0 + g.off, i) == At(t, g.b0 + g.off, i);
      }
    }
  }

  /** The code just entered is in its slots. */
  lemma {:induction false} PlaceEnters(t: seq<Code>, t': seq<Code>, g: Layout, c: CodeSet, k: nat)
    requires GoodSet(c) && GoodLayout(t, g) && GoodLayout(t', g) && k < |c.ls| && Ready(g, c, k)
    requires Replicated(t, t', g.b0 + g.off, g.curr, c.ls[k] - g.drop, Shr(Huff(c.ls, k), g.drop), SymbolEntry(c.type_, c.work[k], c.ls[k] - g.drop))
    ensures Entered(t', g, c, k)
  {
    hide Low, Huff, Pow2, Shr, SymbolEntry;
    var l, h := c.ls[k] - g.drop, Shr(Huff(c.ls, k), g.drop);
    ShrNone(Huff(c.ls, k));
    forall i | 0 <= i < Pow2(g.curr) && Low(i, l) == h
      ensures At(t', g.b0 + g.off, i) == SymbolEntry(c.type_, c.work[k], l)
    {
    }
  }

  lemma {:induction false} ShrNone(x: nat)
    ensures Shr(x, 0) == x
  {
  }

  lemma {:induction false} PlaceKeepsLayout(t: seq<Code>, t': seq<Code>, g: Layout, step: nat, first: nat, here: Code)
    requires GoodLayout(t, g) && Replicated(t, t', g.b0 + g.off, g.curr, step, first, here)
    ensures GoodLayout(t', g)
  {
    hide Low, Pow2;
    if g.drop != 0 { assert At(t', g.b0, g.low) == At(t, g.b0, g.low); }
  }

  /** Entering code k into the current table. */
  lemma {:induction false} PlaceKeepsBuilding(t: seq<Code>, t': seq<Code>, g: Layout, c: CodeSet, k: nat)
    requires Building(t, g, c, k) && k < |c.ls| && Ready(g, c, k)
    requires Replicated(t, t', g.b0 + g.off, g.curr, c.ls[k] - g.drop, Shr(Huff(c.ls, k), g.drop), SymbolEntry(c.type_, c.work[k], c.ls[k] - g.drop))
    ensures Building(t', g, c, k + 1) && Current(g, c, k + 1)
  {
    hide Low, Huff, Pow2, Shr, SymbolEntry, Replicated, RootEntry, Behind;
    PlaceKeepsLayout(t, t', g, c.ls[k] - g.drop, Shr(Huff(c.ls, k), g.drop), SymbolEntry(c.type_, c.work[k], c.ls[k] - g.drop));
    PlaceEnters(t, t', g, c, k);
    forall j | 0 <= j < k ensures Entered(t', g, c, j) {
      assert Entered(t, g, c, j);
      if c.ls[j] <= g.root {
        PlaceKeepsRootEntry(t, t', g, c, j, k);
      } else {
        PlaceKeepsBehind(t, t', g, c, j, k);
      }
    }
  }

  // ---- opening a sub-table -----------------------------------------------------

  /** The layout after a sub-table of `curr` bits is opened for the root slot low. */
  function Opened(g: Layout, curr: nat, low: nat): Layout
  {
    var off := g.off + Pow2(g.curr);
    Layout(g.b0, g.root, g.root, curr, off, g.used + Pow2(curr), low)
  }

  /** The root slot of a new prefix holds nothing yet. */
  lemma {:induction false} NewPrefix(g: Layout, c: CodeSet, j: nat, k: nat)
    requires GoodSet(c) && j < k < |c.ls| && 1 <= g.root <= MAXBITS && Current(g, c, k)
    requires g.root < c.ls[k] && Low(Huff(c.ls, k), g.root) != g.low
    requires g.drop == 0 ==> c.ls[j] <= g.root
    ensures c.ls[j] <= g.root ==> Low(Low(Huff(c.ls, k), g.root), c.ls[j]) != Huff(c.ls, j)
    ensures c.ls[j] > g.root ==> Low(Huff(c.ls, j), g.root) != Low(Huff(c.ls, k), g.root)
  {
    hide Low, Huff, Prefix, Pow2;
    if c.ls[j] <= g.root {
      PrefixFree(c.ls, j, k);
      LowLow(Huff(c.ls, k), c.ls[j], g.root);
    } else {
      SamePrefix(c.ls, j, k, g.root);
      SamePrefix(c.ls, k - 1, k, g.root);
      PrefixMono(c.ls, j, k - 1, g.root);
      PrefixMono(c.ls, k - 1, k, g.root);
    }
  }

  lemma {:induction false} OpenKeepsEntered(t: seq<Code>, t': seq<Code>, g: Layout, curr: nat, c: CodeSet, j: nat, k: nat)
    requires Building(t, g, c, k) && j < k < |c.ls| && Current(g, c, k)
    requires g.root < c.ls[k] && Low(Huff(c.ls, k), g.root) != g.low
    requires var g' := Opened(g, curr, Low(Huff(c.ls, k), g.root));
      g'.b0 + g'.used <= |t| && g'.low < Pow2(g.root)
      && t' == t[g.b0 + g'.low := Code(curr, g.root, g'.off)] && GoodLayout(t', g')
    ensures Entered(t', Opened(g, curr, Low(Huff(c.ls, k), g.root)), c, j)
  {
    hide Low, Huff, Pow2, Shr, SymbolEntry;
    var g' := Opened(g, curr, Low(Huff(c.ls, k), g.root));
    NewPrefix(g, c, j, k);
    assert Entered(t, g, c, j);
    if c.ls[j] <= g.root {
      assert RootEntry(t, g, c, j);
      forall i | 0 <= i < Pow2(g.root) && i < g'.used && Low(i, c.ls[j]) == Huff(c.ls, j)
        ensures At(t', g.b0, i) == SymbolEntry(c.type_, c.work[j], c.ls[j])
      {
        assert At(t, g.b0, i) == SymbolEntry(c.type_, c.work[j], c.ls[j]);
      }
    } else {
      OpenKeepsBehind(t, t', g, g', c, j);
    }
  }

  lemma {:induction false} OpenKeepsBehind(t: seq<Code>, t': seq<Code>, g: Layout, g': Layout, c: CodeSet, j: nat)
    requires GoodSet(c) && GoodLayout(t, g) && GoodLayout(t', g') && j < |c.ls| && g.root < c.ls[j] && g.drop != 0
    requires Behind(t, g, c, j) && 0 <= g'.low < Pow2(g.root) && g'.low != Low(Huff(c.ls, j), g.root)
    requires g'.b0 == g.b0 && g'.root == g.root && g'.off == g.used && g'.used >= g.used
    requires g.b0 + g'.low < |t| && t' == t[g.b0 + g'.low := Code(g'.curr, g.root, g'.off)]
    ensures Behind(t', g', c, j)
  {
    hide Low, Huff, Pow2, Shr, SymbolEntry;
    var e := At(t, g.b0, Low(Huff(c.ls, j), g.root));
    assert At(t', g.b0, Low(Huff(c.ls, j), g.root)) == e;
    var l, h := c.ls[j] - g.root, Shr(Huff(c.ls, j), g.root);
    forall i | 0 <= i < Pow2(e.op) && Low(i, l) == h
      ensures At(t', g.b0 + e.val, i) == SymbolEntry(c.type_, c.work[j], l)
    {
      assert At(t, g.b0 + e.val, i) == SymbolEntry(c.type_, c.work[j], l);
    }
  }

  /** Opening the sub-table for code k keeps everything entered before. */
  lemma {:induction false} OpenKeepsBuilding(t: seq<Code>, t': seq<Code>, g: Layout, curr: nat, c: CodeSet, k: nat)
    requires Building(t, g, c, k) && k < |c.ls| && Current(g, c, k)
    requires g.root < c.ls[k] && Low(Huff(c.ls, k), g.root) != g.low
    requires c.ls[k] - g.root <= curr <= MAXBITS
    requires var g' := Opened(g, curr, Low(Huff(c.ls, k), g.root));
      g'.b0 + g'.used <= |t| && g'.low < Pow2(g.root) && t' == t[g.b0 + g'.low := Code(curr, g.root, g'.off)]
    ensures var g' := Opened(g, curr, Low(Huff(c.ls, k), g.root)); Building(t', g', c, k) && Ready(g', c, k)
  {
    hide Low, Huff, Pow2, Shr, SymbolEntry, RootEntry, Behind;
    var g' := Opened(g, curr, Low(Huff(c.ls, k), g.root));
    forall j | 0 <= j < k ensures Entered(t', g', c, j) {
      OpenKeepsEntered(t, t', g, curr, c, j, k);
    }
  }

  // ---- the loops ------------------------------------------------------------------

  /** What the replication loop has done when fill is 2^step * q. */
  ghost predicate Filled(t: seq<Code>, t': seq<Code>, b: nat, size: nat, step: nat, first: nat, here: Code, q: nat)
  {
    && |t'| == |t| && b + Pow2(size) <= |t|
    && (forall i {:trigger At(t', b, i)} :: 0 <= i < Pow2(size) ==>
          At(t', b, i) == if Low(i, step) == first && Shr(i, step) >= q then here else At(t, b, i))
    && (forall m :: 0 <= m < |t| && !(b <= m < b + Pow2(size)) ==> t'[m] == t[m])
  }

  lemma {:induction false} FillStarts(t: seq<Code>, b: nat, size: nat, step: nat, first: nat, here: Code)
    requires step <= size && b + Pow2(size) <= |t|
    ensures Filled(t, t, b, size, step, first, here, Pow2(size - step))
    ensures Pow2(size) == Pow2(step) * Pow2(size - step)
  {
    hide Low, Shr, Pow2;
    Pow2Add(step, size - step);
    forall i | 0 <= i < Pow2(size) ensures Shr(i, step) < Pow2(size - step) { ShrBound(i, step, size - step); }
  }

  lemma {:induction false} FillIndex(size: nat, step: nat, first: nat, q: nat)
    requires step <= size && first < Pow2(step) && 0 < q <= Pow2(size - step)
    ensures first + Pow2(step) * (q - 1) < Pow2(size)
  {
    hide Pow2;
    Pow2Add(step, size - step);
    MulMono(Pow2(step), q, Pow2(size - step));
    StepBack(Pow2(step), q);
  }

  lemma {:induction false} FillStep(t: seq<Code>, t': seq<Code>, b: nat, size: nat, step: nat, first: nat, here: Code, q: nat, i: nat)
    requires Filled(t, t', b, size, step, first, here, q) && first < Pow2(step) && q > 0
    requires i == first + Pow2(step) * (q - 1) && i < Pow2(size)
    ensures Filled(t, t'[b + i := here], b, size, step, first, here, q - 1)
  {
    hide Low, Shr, Pow2;
    Assemble(first, q - 1, step);
    var t'' := t'[b + i := here];
    forall j | 0 <= j < Pow2(size)
      ensures At(t'', b, j) == if Low(j, step) == first && Shr(j, step) >= q - 1 then here else At(t, b, j)
    {
      assert At(t', b, j) == if Low(j, step) == first && Shr(j, step) >= q then here else At(t, b, j);
      if Low(j, step) == first && Shr(j, step) == q - 1 { SameParts(i, j, step); }
    }
  }

  lemma {:induction false} MulMono(p: nat, a: nat, b: nat)
    requires a <= b
    ensures p * a <= p * b
  {
  }

  lemma {:induction false} FillEnds(t: seq<Code>, t': seq<Code>, b: nat, size: nat, step: nat, first: nat, here: Code)
    requires Filled(t, t', b, size, step, first, here, 0)
    ensures Replicated(t, t', b, size, step, first, here)
  {
  }

  /** The loop that replicates an entry over every slot with the same low bits. */
  method Replicate(table: array<Code>, b: nat, size: nat, step: nat, first: nat, here: Code)
    requires step <= size && first < Pow2(step) && b + Pow2(size) <= table.Length
    modifies table
    ensures Replicated(old(table[..]), table[..], b, size, step, first, here)
  {
    hide Filled, Pow2, Replicated;
    var incr, fill := Pow2(step), Pow2(size);
    ghost var t, q := table[..], Pow2(size - step);
    FillStarts(t, b, size, step, first, here);
    while true
      invariant 0 < q <= Pow2(size - step) && fill == Pow2(step) * q
      invariant Filled(t, table[..], b, size, step, first, here, q)
      decreases q
    {
      FillIndex(size, step, first, q);
      StepBack(incr, q);
      FillStep(t, table[..], b, size, step, first, here, q, first + fill - incr);
      fill := fill - incr;
      ghost var t1 := table[..];
      table[b + first + fill] := here;
      assert table[..] == t1[b + (first + fill) := here];
      q := q - 1;
      if fill == 0 { break; }
      assert q > 0;
    }
    assert q == 0 by { ZeroFactor(incr, q); }
    FillEnds(t, table[..], b, size, step, first, here);
  }

  lemma {:induction false} StepBack(p: nat, q: nat)
    requires q > 0
    ensures p * q - p == p * (q - 1)
  {
  }

  lemma {:induction false} ZeroFactor(p: nat, q: nat)
    requires p > 0 && p * q == 0
    ensures q == 0
  {
  }

  /** ends[l] is the index of the first code longer than l. */
  ghost predicate EndsOk(ls: seq<nat>, ends: seq<nat>)
  {
    && |ends| == MAXBITS + 1
    && forall l :: 0 <= l <= MAXBITS ==> ends[l] <= |ls| && forall j :: 0 <= j < |ls| ==> (j < ends[l] <==> ls[j] <= l)
  }

  /** The codes of length l that are not among the first k. */
  ghost function Left(ends: seq<nat>, k: nat, l: nat): int
    requires 1 <= l < |ends|
  {
    var e: int, e0: int := ends[l], ends[l - 1];
    if e <= k then 0 else if e0 <= k then e - k else e - e0
  }

  ghost predicate Remaining(count: array<nat>, ends: seq<nat>, k: nat)
    reads count
  {
    |ends| == count.Length == MAXBITS + 1 && forall l :: 1 <= l <= MAXBITS ==> count[l] == Left(ends, k, l)
  }

  /** The current sub-table has room for every later code that belongs in it. */
  ghost predicate Sized(g: Layout, c: CodeSet, k: nat)
  {
    g.drop != 0 ==> Fits(c, g.root, g.low, g.curr, k)
  }

  ghost predicate Fits(c: CodeSet, root: nat, low: int, curr: nat, k: nat)
  {
    forall j :: k <= j < |c.ls| && Low(Huff(c.ls, j), root) == low ==> c.ls[j] <= root + curr
  }

  lemma {:induction false} WeightScale(root: nat, d: nat)
    requires root + d <= MAXBITS
    ensures Pow2(d) * Weight(root + d) == Weight(root)
  {
    Pow2Add(d, MAXBITS - root - d);
  }

  /** The codes of one length after code k, as a piece of the code space. */
  lemma {:induction false} SpendLength(ls: seq<nat>, ends: seq<nat>, k: nat, l: nat, left: int)
    requires SortedLengths(ls) && EndsOk(ls, ends) && k < |ls| && 1 <= ls[k] <= l <= MAXBITS
    ensures var m, m' := if ends[l - 1] <= k then k else ends[l - 1], ends[l];
      && k <= m <= m' <= |ls| && Left(ends, k, l) == m' - m
      && (left - Left(ends, k, l)) * Weight(l) == left * Weight(l) - (Start(ls, m') - Start(ls, m))
  {
    hide Weight, Start;
    var m, m' := if ends[l - 1] <= k then k else ends[l - 1], ends[l];
    assert k < m';
    assert m' < |ls| ==> ls[m'] > l;
    assert m <= m';
    StartRun(ls, m, m', l);
    Distribute(left, m' - m, Weight(l));
  }

  lemma {:induction false} Distribute(a: int, b: int, w: int)
    ensures (a - b) * w == a * w - b * w
  {
  }

  /** When the lengths up to root + curr use up the prefix, no longer code has it. */
  lemma {:induction false} PrefixUsedUp(c: CodeSet, root: nat, curr: nat, ends: seq<nat>, k: nat, left: int)
    requires GoodSet(c) && EndsOk(c.ls, ends) && k < |c.ls| && root + curr <= MAXBITS && c.ls[k] <= root + curr
    requires left <= 0
    requires left * Weight(root + curr) == Weight(root) - (Start(c.ls, ends[root + curr]) - Start(c.ls, k))
    ensures Fits(c, root, Low(Huff(c.ls, k), root), curr, k)
  {
    hide Weight, Start, Low, Huff, Prefix;
    var m := ends[root + curr];
    NonPositive(left, Weight(root + curr));
    PrefixMoves(c.ls, k, m, root);
    forall j | k <= j < |c.ls| && Low(Huff(c.ls, j), root) == Low(Huff(c.ls, k), root)
      ensures c.ls[j] <= root + curr
    {
      SamePrefix(c.ls, j, k, root);
      if m <= j { PrefixMono(c.ls, m, j, root); }
    }
  }

  lemma {:induction false} NonPositive(a: int, w: nat)
    requires a <= 0
    ensures a * w <= 0
  {
  }

  /** Code k is the first with its `root` leading bits. */
  ghost predicate Leads(ls: seq<nat>, k: nat, root: nat)
    requires k < |ls| && root <= MAXBITS
  {
    Start(ls, k) == Pow2(MAXBITS - root) * Prefix(ls, k, root)
  }

  /** The index bits left over for the longest code that shares the prefix of code k. */
  ghost predicate Tight(ls: seq<nat>, k: nat, root: nat, curr: nat)
    requires k < |ls| && root <= MAXBITS
  {
    ls[GroupEnd(ls, k, root) - 1] == root + curr
  }

  /** How many index bits the sub-table for code k needs. */
  method SubtableBits(count: array<nat>, len: nat, root: nat, max: nat, ghost c: CodeSet, ghost ends: seq<nat>, ghost k: nat)
    returns (curr: nat)
    requires GoodSet(c) && EndsOk(c.ls, ends) && Remaining(count, ends, k) && k < |c.ls|
    requires c.ls[k] == len && root < len <= max <= MAXBITS && forall j :: 0 <= j < |c.ls| ==> c.ls[j] <= max
    requires Kraft(c.ls) == Pow2(MAXBITS) && Leads(c.ls, k, root)
    ensures len - root <= curr <= max - root
    ensures Fits(c, root, Low(Huff(c.ls, k), root), curr, k) && Tight(c.ls, k, root, curr)
  {
    hide Weight, Start, Low, Huff, Pow2, GoodSet, Prefix, Fits, Tight, Leads;
    curr := len - root;
    var left: int := Pow2(curr);
    ghost var m := k;
    WeightScale(root, curr);
    GroupStarts(c.ls, k, root);
    while curr + root < max
      invariant len - root <= curr && curr + root <= max && left > 0
      invariant k <= m < GroupEnd(c.ls, k, root) && m == if ends[curr + root - 1] <= k then k else ends[curr + root - 1]
      invariant left * Weight(root + curr) == Weight(root) - (Start(c.ls, m) - Start(c.ls, k))
    {
      SetIsSorted(c);
      SpendLength(c.ls, ends, k, curr + root, left);
      left := left - count[curr + root];
      if left <= 0 {
        PrefixUsedUp(c, root, curr, ends, k, left);
        Reaches(c, ends, k, m, root, curr);
        return;
      }
      m := ends[curr + root];
      Positive(left, Weight(root + curr), root + curr);
      StillLeads(c.ls, k, m, root);
      DoubleLeft(left, root + curr);
      curr := curr + 1;
      left := 2 * left;
    }
    NoneLonger(c, root, curr, k);
    Reaches(c, ends, k, m, root, curr);
  }

  lemma {:induction false} GroupStarts(ls: seq<nat>, k: nat, root: nat)
    requires k < |ls| && root <= MAXBITS
    ensures k < GroupEnd(ls, k, root) <= |ls|
  {
  }

  lemma {:induction false} Positive(a: int, w: nat, l: nat)
    requires a > 0 && l <= MAXBITS && w == Weight(l)
    ensures a * w > 0
  {
    hide Weight;
    WeightPositive(l);
    assert (a - 1) * w >= 0;
  }

  lemma {:induction false} StillLeads(ls: seq<nat>, k: nat, m: nat, root: nat)
    requires k < |ls| && k <= m <= |ls| && root <= MAXBITS && SortedLengths(ls) && Kraft(ls) == Pow2(MAXBITS)
    requires Leads(ls, k, root) && Start(ls, m) < Start(ls, k) + Weight(root)
    ensures m < GroupEnd(ls, k, root)
  {
    hide Start, Prefix, Pow2, Weight;
    SomethingFollows(ls, k, m, root);
  }

  lemma {:induction false} NoneLonger(c: CodeSet, root: nat, curr: nat, k: nat)
    requires forall j :: 0 <= j < |c.ls| ==> c.ls[j] <= root + curr
    requires k < |c.ls|
    ensures Fits(c, root, Low(Huff(c.ls, k), root), curr, k)
  {
    hide Low, Huff;
  }

  /** The last code of the group is as long as the sub-table allows. */
  lemma {:induction false} Reaches(c: CodeSet, ends: seq<nat>, k: nat, m: nat, root: nat, curr: nat)
    requires GoodSet(c) && EndsOk(c.ls, ends) && root <= MAXBITS && k <= m < |c.ls| && m < GroupEnd(c.ls, k, root)
    requires 1 <= root + curr <= MAXBITS && c.ls[k] <= root + curr && root < c.ls[k]
    requires c.ls[k] < root + curr ==> m == if ends[curr + root - 1] <= k then k else ends[curr + root - 1]
    requires Fits(c, root, Low(Huff(c.ls, k), root), curr, k)
    ensures Tight(c.ls, k, root, curr)
  {
    hide Low, Huff, Prefix, Pow2;
    var e := GroupEnd(c.ls, k, root) - 1;
    GroupIs(c.ls, k, root);
    SamePrefix(c.ls, e, k, root);
    assert c.ls[e] <= root + curr;
    assert c.ls[m] >= root + curr;
  }

  lemma {:induction false} SetIsSorted(c: CodeSet)
    requires GoodSet(c)
    ensures SortedLengths(c.ls)
  {
  }

  lemma {:induction false} DoubleLeft(left: int, l: nat)
    requires l < MAXBITS
    ensures 2 * left * Weight(l + 1) == left * Weight(l)
  {
    WeightHalves(l);
    var w := Weight(l + 1);
    assert left * (2 * w) == 2 * left * w;
  }

  // ---- entries spent -----------------------------------------------------------------

  /** Before code k is entered: the root table and the sub-tables up to its own are spent. */
  ghost predicate Spent(g: Layout, c: CodeSet, k: nat)
    requires k < |c.ls| && g.root <= MAXBITS
  {
    && g.used == Pow2(g.root) + Linked(c.ls, if g.drop == 0 then k else GroupEnd(c.ls, k, g.root), g.root)
    && (g.drop != 0 ==> Tight(c.ls, k, g.root, g.curr))
  }

  /** After code k was entered. */
  ghost predicate SpentAfter(g: Layout, c: CodeSet, k: nat)
    requires k < |c.ls| && g.root <= MAXBITS
  {
    && g.used == Pow2(g.root) + Linked(c.ls, if g.drop == 0 then k + 1 else GroupEnd(c.ls, k, g.root), g.root)
    && (g.drop != 0 ==> Tight(c.ls, k, g.root, g.curr))
  }

  lemma {:induction false} SpentPlaced(g: Layout, c: CodeSet, k: nat)
    requires k < |c.ls| && 1 <= g.root <= MAXBITS && Spent(g, c, k) && Ready(g, c, k)
    ensures SpentAfter(g, c, k)
  {
    hide Pow2, Low, Huff, LastOfPrefix;
  }

  lemma {:induction false} SpentStays(g: Layout, c: CodeSet, k: nat)
    requires GoodSet(c) && k + 1 < |c.ls| && 1 <= g.root <= MAXBITS && Current(g, c, k + 1) && SpentAfter(g, c, k)
    requires g.drop == 0 ==> g.low == -1
    requires c.ls[k + 1] <= g.root || Low(Huff(c.ls, k + 1), g.root) == g.low
    ensures Spent(g, c, k + 1)
  {
    hide Pow2, Low, Huff, Linked, Prefix;
    if g.drop != 0 { SamePrefix(c.ls, k, k + 1, g.root); }
  }

  lemma {:induction false} NewLeads(t: seq<Code>, g: Layout, c: CodeSet, k: nat)
    requires k + 1 < |c.ls| && Building(t, g, c, k + 1) && Current(g, c, k + 1)
    requires c.ls[k + 1] > g.root && Low(Huff(c.ls, k + 1), g.root) != g.low
    ensures Prefix(c.ls, k, g.root) != Prefix(c.ls, k + 1, g.root) && Leads(c.ls, k + 1, g.root)
  {
    hide Pow2, Low, Huff, Entered, Prefix;
    if g.drop == 0 {
      StartNext(c.ls, k, k + 1);
      WeightMono(c.ls[k], g.root);
      PrefixMoves(c.ls, k, k + 1, g.root);
    } else {
      SamePrefix(c.ls, k, k + 1, g.root);
    }
    FirstAligned(c.ls, k + 1, g.root);
  }

  lemma {:induction false} WeightMono(l: nat, m: nat)
    requires l <= m <= MAXBITS
    ensures Weight(l) >= Weight(m)
  {
    Pow2Mono(MAXBITS - m, MAXBITS - l);
  }

  lemma {:induction false} SpentOpened(g: Layout, c: CodeSet, k: nat, curr: nat, low: nat)
    requires GoodSet(c) && k + 1 < |c.ls| && 1 <= g.root <= MAXBITS && SpentAfter(g, c, k)
    requires Prefix(c.ls, k, g.root) != Prefix(c.ls, k + 1, g.root) && c.ls[k + 1] > g.root && Tight(c.ls, k + 1, g.root, curr)
    ensures Spent(Opened(g, curr, low), c, k + 1)
  {
    hide Pow2, Linked, Prefix;
    LinkedGroup(c.ls, k + 1, g.root);
  }

  lemma {:induction false} SpentAll(g: Layout, c: CodeSet)
    requires |c.ls| > 0 && g.root <= MAXBITS && SpentAfter(g, c, |c.ls| - 1)
    ensures g.used == Entries(c.ls, g.root)
  {
    hide Linked, Pow2;
  }

  lemma {:induction false} SpentSome(g: Layout, c: CodeSet, k: nat)
    requires k < |c.ls| && g.root <= MAXBITS && Spent(g, c, k)
    ensures g.used <= Entries(c.ls, g.root)
  {
    hide Linked, Pow2;
    LinkedMono(c.ls, if g.drop == 0 then k else GroupEnd(c.ls, k, g.root), |c.ls|, g.root);
  }

  // ---- where the sub-tables are ---------------------------------------------------------

  /** The link to the sub-table of code j. */
  function LinkTo(ls: seq<nat>, j: nat, root: nat): Code
    requires j < |ls| && root <= MAXBITS && SubBits(ls, j, root) >= 0
  {
    Code(SubBits(ls, j, root), root, Base(ls, j, root))
  }

  /** The sub-tables of the codes before k follow each other behind the root table. */
  ghost predicate Tiled(t: seq<Code>, g: Layout, c: CodeSet, k: nat)
    requires k <= |c.ls|
  {
    && g.root <= MAXBITS && g.b0 + Pow2(g.root) <= |t|
    && forall j :: 0 <= j < k && c.ls[j] > g.root ==> HasLink(t, g, c, j)
  }

  ghost predicate HasLink(t: seq<Code>, g: Layout, c: CodeSet, j: nat)
    requires j < |c.ls| && g.root <= MAXBITS && g.b0 + Pow2(g.root) <= |t|
  {
    var p := Low(Huff(c.ls, j), g.root);
    p < Pow2(g.root) && SubBits(c.ls, j, g.root) >= 0 && At(t, g.b0, p) == LinkTo(c.ls, j, g.root)
  }

  lemma {:induction false} CurrentLink(t: seq<Code>, g: Layout, c: CodeSet, k: nat)
    requires k < |c.ls| && GoodSet(c) && GoodLayout(t, g) && Ready(g, c, k) && Spent(g, c, k) && g.drop != 0
    ensures g.b0 + Pow2(g.root) <= |t| && HasLink(t, g, c, k)
  {
    hide Low, Huff, Pow2, Linked, Prefix;
    LongerLast(c.ls, k, g.root);
  }

  lemma {:induction false} PlaceKeepsTiles(t: seq<Code>, t': seq<Code>, g: Layout, c: CodeSet, k: nat)
    requires Building(t, g, c, k) && k < |c.ls| && Ready(g, c, k) && Spent(g, c, k) && Tiled(t, g, c, k)
    requires Replicated(t, t', g.b0 + g.off, g.curr, c.ls[k] - g.drop, Shr(Huff(c.ls, k), g.drop), SymbolEntry(c.type_, c.work[k], c.ls[k] - g.drop))
    ensures Tiled(t', g, c, k + 1)
  {
    hide Low, Huff, Pow2, Shr, SymbolEntry, Linked, Prefix, GroupEnd, Entered, Spent;
    if g.drop != 0 { CurrentLink(t, g, c, k); }
    forall j | 0 <= j < k + 1 && c.ls[j] > g.root ensures HasLink(t', g, c, j) {
      assert g.drop != 0;
      assert j < k ==> HasLink(t, g, c, j);
      assert At(t', g.b0, Low(Huff(c.ls, j), g.root)) == At(t, g.b0, Low(Huff(c.ls, j), g.root));
    }
  }

  lemma {:induction false} OpenKeepsTiles(t: seq<Code>, t': seq<Code>, g: Layout, curr: nat, c: CodeSet, k: nat)
    requires Building(t, g, c, k) && k < |c.ls| && Current(g, c, k) && Tiled(t, g, c, k)
    requires g.root < c.ls[k] && Low(Huff(c.ls, k), g.root) != g.low
    requires var g' := Opened(g, curr, Low(Huff(c.ls, k), g.root));
      g'.b0 + g'.used <= |t| && g'.low < Pow2(g.root) && t' == t[g.b0 + g'.low := Code(curr, g.root, g'.off)]
    ensures Tiled(t', Opened(g, curr, Low(Huff(c.ls, k), g.root)), c, k)
  {
    hide Low, Huff, Pow2, Linked, Prefix, GroupEnd, Entered;
    var g' := Opened(g, curr, Low(Huff(c.ls, k), g.root));
    forall j | 0 <= j < k && c.ls[j] > g.root ensures HasLink(t', g', c, j) {
      NewPrefix(g, c, j, k);
      assert HasLink(t, g, c, j);
    }
  }

  /** The entries of code k. */
  ghost predicate Owns(ls: seq<nat>, root: nat, k: nat, m: nat)
    requires k < |ls| && root <= MAXBITS
  {
    RootSlot(ls, root, k, m) || SubSlot(ls, root, k, m)
  }

  /** Entering code k writes nothing but its own entries. */
  lemma {:induction false} WritesOwn(t: seq<Code>, t': seq<Code>, g: Layout, c: CodeSet, k: nat, here: Code)
    requires k < |c.ls| && GoodSet(c) && GoodLayout(t, g) && Ready(g, c, k) && Spent(g, c, k)
    requires Replicated(t, t', g.b0 + g.off, g.curr, c.ls[k] - g.drop, Shr(Huff(c.ls, k), g.drop), here)
    ensures forall m :: 0 <= m < |t| && t'[m] != t[m] ==> m >= g.b0 && Owns(c.ls, g.root, k, m - g.b0)
  {
    hide Low, Huff, Pow2, Shr, Linked, Prefix;
    ShrNone(Huff(c.ls, k));
    if g.drop != 0 { LongerLast(c.ls, k, g.root); }
    forall m | 0 <= m < |t| && t'[m] != t[m] ensures m >= g.b0 && Owns(c.ls, g.root, k, m - g.b0) {
      var i := m - g.b0 - g.off;
      assert At(t', g.b0 + g.off, i) == t'[m] && At(t, g.b0 + g.off, i) == t[m];
    }
  }

  /** Entering code k at its place: the table slots and the step to the next code. */
  method PlaceCode(table: array<Code>, type_: CodeType, g: Layout, ghost c: CodeSet, ghost k: nat, len: nat, huff: nat, sym: nat)
    returns (next: nat)
    requires Building(table[..], g, c, k) && k < |c.ls| && Ready(g, c, k)
    requires 1 <= g.root <= MAXBITS && Spent(g, c, k) && Tiled(table[..], g, c, k)
    requires type_ == c.type_ && len == c.ls[k] && huff == Huff(c.ls, k) && sym == c.work[k]
    modifies table
    ensures Building(table[..], g, c, k + 1) && Current(g, c, k + 1) && Tiled(table[..], g, c, k + 1)
    ensures forall m :: 0 <= m < table.Length && table[m] != old(table[m]) ==> m >= g.b0 && Owns(c.ls, g.root, k, m - g.b0)
    ensures next == Huff(c.ls, k + 1)
    ensures forall i :: 0 <= i < g.b0 ==> table[i] == old(table[i])
  {
    hide Low, Huff, Pow2, Shr, GoodSet, Entered, Reverse, Spent, Tiled;
    ghost var t := table[..];
    SetIsSorted(c);
    SymbolInRange(c, k);
    HuffIsCode(c.ls, k);
    FirstSlot(huff, len, g.drop);
    var here := SymbolEntry(type_, sym, len - g.drop);
    Replicate(table, g.b0 + g.off, g.curr, len - g.drop, Shr(huff, g.drop), here);
    PlaceKeepsBuilding(t, table[..], g, c, k);
    PlaceKeepsTiles(t, table[..], g, c, k);
    WritesOwn(t, table[..], g, c, k, here);
    HuffNext(c.ls, k);
    next := BackwardIncrement(len, huff, CodeAt(c.ls, k, len));
  }

  lemma {:induction false} SymbolInRange(c: CodeSet, k: nat)
    requires GoodSet(c) && k < |c.ls|
    ensures |c.work| == |c.ls| && c.work[k] < SymbolLimit(c.type_) && 1 <= c.ls[k] <= MAXBITS
  {
  }

  lemma {:induction false} FirstSlot(huff: nat, len: nat, drop: nat)
    requires huff < Pow2(len) && drop <= len
    ensures Shr(huff, drop) < Pow2(len - drop)
  {
    ShrBound(huff, drop, len - drop);
  }

  /** Opening the sub-table for code k, unless the entries run out. */
  method OpenSubtable(table: array<Code>, g: Layout, count: array<nat>, len: nat, max: nat, huff: nat, limit: nat,
                      ghost c: CodeSet, ghost ends: seq<nat>, ghost k: nat)
    returns (full: bool, g': Layout)
    requires Building(table[..], g, c, k) && k < |c.ls| && Current(g, c, k)
    requires len == c.ls[k] && huff == Huff(c.ls, k) && g.root < len <= max <= MAXBITS
    requires Low(huff, g.root) != g.low && g.b0 + limit <= table.Length
    requires k > 0 && SpentAfter(g, c, k - 1) && Tiled(table[..], g, c, k) && Kraft(c.ls) == Pow2(MAXBITS)
    requires EndsOk(c.ls, ends) && Remaining(count, ends, k) && forall j :: 0 <= j < |c.ls| ==> c.ls[j] <= max
    modifies table
    ensures !full ==> Building(table[..], g', c, k) && Ready(g', c, k) && Sized(g', c, k) && g'.used < limit
    ensures g'.b0 == g.b0 && g'.root == g.root && g'.used > g.used
    ensures full ==> table[..] == old(table[..]) && g'.used >= limit
    ensures forall m :: 0 <= m < table.Length && table[m] != old(table[m]) ==> m >= g.b0 && LinkSlot(c.ls, g.root, k, m - g.b0)
    ensures Spent(g', c, k) && (!full ==> Tiled(table[..], g', c, k))
    ensures forall i :: 0 <= i < g.b0 ==> table[i] == old(table[i])
  {
    hide Low, Huff, Pow2, Shr, GoodSet, Entered, Fits, Tight, Leads, Spent, SpentAfter, Prefix, Tiled;
    NewLeads(table[..], g, c, k - 1);
    var curr := SubtableBits(count, len, g.root, max, c, ends, k);
    LowBound(huff, g.root);
    g' := Opened(g, curr, Low(huff, g.root));
    SpentOpened(g, c, k - 1, curr, Low(huff, g.root));
    if g'.used >= limit { return true, g'; }
    ghost var t := table[..];
    table[g.b0 + Low(huff, g.root)] := Code(curr, g.root, g'.off);
    assert table[..] == t[g.b0 + g'.low := Code(curr, g.root, g'.off)];
    OpenKeepsBuilding(t, table[..], g, curr, c, k);
    OpenKeepsTiles(t, table[..], g, curr, c, k);
    full := false;
  }

  lemma {:induction false} LeftStep(ls: seq<nat>, ends: seq<nat>, k: nat)
    requires SortedLengths(ls) && EndsOk(ls, ends) && k < |ls|
    ensures Left(ends, k, ls[k]) >= 1
    ensures forall l :: 1 <= l <= MAXBITS ==>
      Left(ends, k + 1, l) == Left(ends, k, l) - (if l == ls[k] then 1 else 0)
  {
    var l := ls[k];
    assert k < ends[l];
    assert ends[l - 1] <= k;
    forall m | 1 <= m <= MAXBITS
      ensures Left(ends, k + 1, m) == Left(ends, k, m) - (if m == l then 1 else 0)
    {
      if m < l { EndsMono(ls, ends, m, l - 1); } else if m > l { EndsMono(ls, ends, l, m - 1); EndsMono(ls, ends, m - 1, m); }
    }
  }

  lemma {:induction false} EndsMono(ls: seq<nat>, ends: seq<nat>, l: nat, m: nat)
    requires EndsOk(ls, ends) && l <= m <= MAXBITS
    ensures ends[l] <= ends[m]
  {
    var e := ends[m];
    assert e < |ls| ==> ls[e] > m;
  }

  /** When the last code of a length is entered the next one is longer, and
      otherwise it has the same length. */
  lemma {:induction false} NextLength(ls: seq<nat>, ends: seq<nat>, k: nat)
    requires SortedLengths(ls) && EndsOk(ls, ends) && k < |ls|
    ensures Left(ends, k + 1, ls[k]) == 0 <==> k + 1 == |ls| || ls[k + 1] > ls[k]
    ensures k + 1 < |ls| ==> ls[k + 1] >= ls[k]
  {
    var l := ls[k];
    assert k < ends[l];
    assert ends[l - 1] <= k;
    if k + 1 < |ls| { assert k + 1 < ends[l] <==> ls[k + 1] <= l; }
  }

  /** The source's view of the codes: symbols in work, their lengths in lens. */
  ghost predicate Matches(c: CodeSet, lens: seq<nat>, work: array<nat>)
    reads work
  {
    |c.ls| == |c.work| <= work.Length
    && forall k :: 0 <= k < |c.ls| ==> work[k] == c.work[k] && work[k] < |lens| && lens[work[k]] == c.ls[k]
  }

  /** Everything the loop that processes all codes keeps, before code k is entered. */
  ghost predicate Entering(t: seq<Code>, g: Layout, c: CodeSet, ends: seq<nat>, k: nat)
  {
    && Building(t, g, c, k) && k < |c.ls| && Ready(g, c, k) && Sized(g, c, k)
    && EndsOk(c.ls, ends)
  }

  /** The loop that enters all codes. */
  method EnterCodes(table: array<Code>, type_: CodeType, g0: Layout, count: array<nat>, work: array<nat>, lens: seq<nat>,
                    max: nat, limit: nat, ghost c: CodeSet, ghost ends: seq<nat>)
    returns (full: bool, g: Layout, huff: nat)
    requires Entering(table[..], g0, c, ends, 0) && g0.drop == 0 && type_ == c.type_ && Remaining(count, ends, 0)
    requires Matches(c, lens, work) && count != work
    requires c.ls[|c.ls| - 1] == max && (max > g0.root ==> g0.b0 + limit <= table.Length) && g0.b0 <= table.Length
    requires c.ls[|c.ls| - 1] <= g0.root || (g0.used < limit && Kraft(c.ls) == Pow2(MAXBITS))
    modifies table, count
    ensures !full ==> Building(table[..], g, c, |c.ls|) && huff == Huff(c.ls, |c.ls|)
    ensures g.b0 == g0.b0 && g.root == g0.root && g.used >= g0.used
    ensures max <= g0.root ==> !full && g == g0
    ensures max > g0.root ==> (full <==> Entries(c.ls, g.root) >= limit)
    ensures !full ==> g.used == Entries(c.ls, g.root) && Tiled(table[..], g, c, |c.ls|)
    ensures forall i :: 0 <= i < g0.b0 ==> table[i] == old(table[i])
  {
    hide Low, Huff, Pow2, GoodSet, GoodLayout, Entered, Ready, Fits, Current, Left, Spent, SpentAfter, Entries, Start, Tiled;
    g, huff := g0, 0;
    SpentAtFirst(table[..], g0, c);
    var sym := 0;
    var len := lens[work[0]];
    HuffStarts(c.ls);
    while true
      invariant 0 <= sym < |c.ls| && Entering(table[..], g, c, ends, sym) && Remaining(count, ends, sym)
      invariant len == c.ls[sym] && huff == Huff(c.ls, sym)
      invariant 1 <= g.root <= MAXBITS && Spent(g, c, sym) && Tiled(table[..], g, c, sym)
      invariant g.b0 == g0.b0 && g.root == g0.root && g.used >= g0.used
      invariant max <= g0.root ==> g == g0
      invariant max > g0.root ==> g.used < limit
      invariant Matches(c, lens, work)
      invariant forall i :: 0 <= i < g0.b0 ==> table[i] == old(table[i])
      decreases |c.ls| - sym
    {
      SetIsSorted(c);
      huff := PlaceCode(table, type_, g, c, sym, len, huff, work[sym]);
      SpentPlaced(g, c, sym);
      LeftStep(c.ls, ends, sym);
      NextLength(c.ls, ends, sym);
      LastIsLongest(c.ls, sym);
      sym := sym + 1;
      count[len] := count[len] - 1;
      if count[len] == 0 {
        if len == max { full := false; SpentAll(g, c); break; }
        len := lens[work[sym]];
      }
      SizedNext(g, c, sym - 1);
      if len > g.root && Low(huff, g.root) != g.low {
        full, g := OpenSubtable(table, g, count, len, max, huff, limit, c, ends, sym);
        if full { SpentSome(g, c, sym); break; }
      } else {
        StaysReady(table[..], g, c, sym);
        StaysSpent(table[..], g, c, sym);
      }
    }
  }

  lemma {:induction false} SpentAtFirst(t: seq<Code>, g: Layout, c: CodeSet)
    requires Building(t, g, c, 0) && |c.ls| > 0 && g.drop == 0
    ensures 1 <= g.root <= MAXBITS && Spent(g, c, 0) && Tiled(t, g, c, 0)
  {
    hide Entered, Pow2;
  }

  lemma {:induction false} StaysSpent(t: seq<Code>, g: Layout, c: CodeSet, k: nat)
    requires Building(t, g, c, k) && Current(g, c, k) && 0 < k < |c.ls| && SpentAfter(g, c, k - 1)
    requires c.ls[k] <= g.root || Low(Huff(c.ls, k), g.root) == g.low
    ensures Spent(g, c, k)
  {
    hide Low, Huff, Entered, Pow2, Spent, SpentAfter;
    SpentStays(g, c, k - 1);
  }

  lemma {:induction false} HuffStarts(ls: seq<nat>)
    ensures Huff(ls, 0) == 0
  {
    ReverseZero(MAXBITS);
  }

  lemma {:induction false} ReverseZero(l: nat)
    ensures Reverse(l, 0) == 0
  {
    if l > 0 { ReverseZero(l - 1); }
  }

  lemma {:induction false} LastIsLongest(ls: seq<nat>, k: nat)
    requires SortedLengths(ls) && k < |ls|
    ensures forall j :: 0 <= j < |ls| ==> ls[j] <= ls[|ls| - 1]
    ensures ls[k] < ls[|ls| - 1] ==> k + 1 < |ls|
  {
  }

  lemma {:induction false} SizedNext(g: Layout, c: CodeSet, k: nat)
    requires Sized(g, c, k)
    ensures Sized(g, c, k + 1)
  {
    hide Low, Huff;
  }

  /** A code that does not ask for a new sub-table fits the current table. */
  lemma {:induction false} StaysReady(t: seq<Code>, g: Layout, c: CodeSet, k: nat)
    requires Building(t, g, c, k) && Current(g, c, k) && k < |c.ls| && Sized(g, c, k)
    requires c.ls[k] <= g.root || Low(Huff(c.ls, k), g.root) == g.low
    ensures Ready(g, c, k)
  {
    hide Low, Huff, Entered, Pow2;
  }

  // ---- validity of the lengths ----------------------------------------------------

  /** The code space left after the lengths up to l, in units of that length. */
  ghost predicate SpaceLeft(lens: seq<nat>, l: nat, left: int)
  {
    left * Weight(l) == Pow2(MAXBITS) - KraftSum(lens, l)
  }

  lemma {:induction false} SpaceStep(lens: seq<nat>, l: nat, left: int)
    requires 1 <= l <= MAXBITS && SpaceLeft(lens, l - 1, left)
    ensures SpaceLeft(lens, l, 2 * left - Count(lens, |lens|, l))
  {
    hide Weight, Count;
    DoubleLeft(left, l - 1);
    Distribute(2 * left, Count(lens, |lens|, l), Weight(l));
  }

  lemma {:induction false} SpaceExceeded(lens: seq<nat>, l: nat, left: int)
    requires 1 <= l <= MAXBITS && SpaceLeft(lens, l, left) && left < 0
    ensures OverSubscribed(lens)
  {
    hide Weight, Count, KraftSum;
    WeightPositive(l);
    Negative(left, Weight(l));
    KraftMono(lens, l, MAXBITS);
  }

  lemma {:induction false} SpaceAtEnd(lens: seq<nat>, left: int)
    requires SpaceLeft(lens, MAXBITS, left)
    ensures left == Pow2(MAXBITS) - KraftSum(lens, MAXBITS)
  {
    hide KraftSum;
    assert Weight(MAXBITS) == 1;
  }

  /** The loop that checks for an over-subscribed set: a negative result if it is
      one, and otherwise the code space left over. */
  method CheckLengths(count: array<nat>, lens: seq<nat>) returns (left: int)
    requires Counted(count, lens)
    ensures left < 0 <==> OverSubscribed(lens)
    ensures left >= 0 ==> left == Pow2(MAXBITS) - KraftSum(lens, MAXBITS)
  {
    hide Count, SpaceLeft, KraftSum, Pow2;
    left := 1;
    var len := 1;
    WholeSpace(lens);
    while len <= MAXBITS
      invariant 1 <= len <= MAXBITS + 1 && left >= 0 && SpaceLeft(lens, len - 1, left)
    {
      SpaceStep(lens, len, left);
      left := 2 * left;
      left := left - count[len];
      if left < 0 {
        SpaceExceeded(lens, len, left);
        return;
      }
      len := len + 1;
    }
    SpaceAtEnd(lens, left);
  }

  lemma {:induction false} WholeSpace(lens: seq<nat>)
    ensures SpaceLeft(lens, 0, 1)
  {
  }

  lemma {:induction false} Negative(a: int, w: nat)
    requires a < 0 && w >= 1
    ensures a * w < 0
  {
  }

  /** The loop that bounds the code lengths from above. */
  method LongestLength(count: array<nat>, lens: seq<nat>) returns (max: nat)
    requires Counted(count, lens)
    ensures max <= MAXBITS && forall l :: max < l <= MAXBITS ==> Count(lens, |lens|, l) == 0
    ensures max > 0 ==> Count(lens, |lens|, max) > 0
  {
    hide Count;
    max := MAXBITS;
    while max >= 1
      invariant 0 <= max <= MAXBITS
      invariant forall l :: max < l <= MAXBITS ==> Count(lens, |lens|, l) == 0
    {
      if count[max] != 0 { break; }
      max := max - 1;
    }
  }

  /** The loop that bounds them from below. */
  method ShortestLength(count: array<nat>, lens: seq<nat>, max: nat) returns (min: nat)
    requires Counted(count, lens) && 1 <= max <= MAXBITS && Count(lens, |lens|, max) > 0
    ensures 1 <= min <= max && Count(lens, |lens|, min) > 0
    ensures forall l :: 1 <= l < min ==> Count(lens, |lens|, l) == 0
  {
    hide Count;
    min := 1;
    while min < max
      invariant 1 <= min <= max
      invariant forall l :: 1 <= l < min ==> Count(lens, |lens|, l) == 0
    {
      if count[min] != 0 { break; }
      min := min + 1;
    }
  }

  // ---- from the lengths to the codes ------------------------------------------------

  ghost function Ends(lens: seq<nat>): (e: seq<nat>)
    ensures |e| == MAXBITS + 1 && forall l :: 0 <= l <= MAXBITS ==> e[l] == Offset(lens, l + 1)
  {
    seq(MAXBITS + 1, l requires 0 <= l <= MAXBITS => Offset(lens, l + 1))
  }

  lemma {:induction false} EndsAreBlocks(lens: seq<nat>, work: seq<nat>, ls: seq<nat>)
    requires Lengths(lens) && Sorted(lens, work) && LengthsMatch(lens, work, ls)
    ensures EndsOk(ls, Ends(lens))
  {
    hide Sorted, Offset;
    var ends := Ends(lens);
    WorkLength(lens, work);
    forall l | 0 <= l <= MAXBITS
      ensures ends[l] <= |ls| && forall j :: 0 <= j < |ls| ==> (j < ends[l] <==> ls[j] <= l)
    {
      OffsetMono(lens, l + 1, MAXBITS + 1);
      forall j | 0 <= j < |ls| ensures j < ends[l] <==> ls[j] <= l {
        WorkIsSymbol(lens, work, j);
        if ls[j] <= l { OffsetMono(lens, ls[j] + 1, l + 1); } else { OffsetMono(lens, l + 1, ls[j]); }
      }
    }
  }

  lemma {:induction false} AllRemain(count: array<nat>, lens: seq<nat>)
    requires Counted(count, lens)
    ensures Remaining(count, Ends(lens), 0)
  {
    hide Count;
    forall l | 1 <= l <= MAXBITS ensures count[l] == Left(Ends(lens), 0, l) {
      assert Offset(lens, l + 1) == Offset(lens, l) + Count(lens, |lens|, l);
    }
  }

  lemma {:induction false} NoneBelow(lens: seq<nat>, m: nat)
    requires forall l :: 1 <= l < m ==> Count(lens, |lens|, l) == 0
    ensures Offset(lens, m) == 0
    decreases m
  {
    hide Count;
    if m > 1 { NoneBelow(lens, m - 1); }
  }

  lemma {:induction false} NoneAbove(lens: seq<nat>, m: nat, n: nat)
    requires m < n && forall l :: m < l < n ==> Count(lens, |lens|, l) == 0
    ensures Offset(lens, n) == Offset(lens, m + 1)
    decreases n
  {
    hide Count;
    if m + 1 < n { NoneAbove(lens, m, n - 1); }
  }

  /** The shortest and the longest length are those of the first and last code. */
  lemma {:induction false} ExtremeLengths(lens: seq<nat>, work: seq<nat>, ls: seq<nat>, min: nat, max: nat)
    requires Lengths(lens) && Sorted(lens, work) && LengthsMatch(lens, work, ls)
    requires 1 <= min <= max <= MAXBITS && Count(lens, |lens|, min) > 0 && Count(lens, |lens|, max) > 0
    requires forall l :: 1 <= l < min ==> Count(lens, |lens|, l) == 0
    requires forall l :: max < l <= MAXBITS ==> Count(lens, |lens|, l) == 0
    ensures |ls| > 0 && ls[0] == min && ls[|ls| - 1] == max
  {
    hide Count, Sorted;
    WorkLength(lens, work);
    NoneBelow(lens, min);
    NoneAbove(lens, max, MAXBITS + 1);
    OffsetMono(lens, min + 1, MAXBITS + 1);
    OffsetMono(lens, max, max + 1);
    BlockHasLength(lens, work, 0, min);
    BlockHasLength(lens, work, |ls| - 1, max);
  }

  // ---- what the finished table decodes ------------------------------------------------

  /** Looking up any bit string that begins with symbol s's code finds s and uses
      up exactly the bits of its code. */
  ghost predicate Decodes(t: seq<Code>, b0: nat, root: nat, type_: CodeType, lens: seq<nat>, s: nat)
    requires Closed(t, b0, root) && s < |lens| && s < SymbolLimit(type_)
  {
    forall x: nat :: Low(x, lens[s]) == Reverse(lens[s], RfcCode(lens, s)) ==>
      && Lookup(t, b0, root, x).0.op == SymbolOp(type_, s)
      && Lookup(t, b0, root, x).0.val == SymbolVal(type_, s)
      && Lookup(t, b0, root, x).1 == lens[s]
  }

  ghost predicate DecodesAll(t: seq<Code>, b0: nat, root: nat, type_: CodeType, lens: seq<nat>)
  {
    && Closed(t, b0, root)
    && forall s :: 0 <= s < |lens| && 1 <= lens[s] ==> s < SymbolLimit(type_) && Decodes(t, b0, root, type_, lens, s)
  }

  /** What the table gives for the bit string x: the entry of the symbol x begins
      with and the length of its code, or the invalid marker and one bit. */
  ghost predicate EntryFor(r: (Code, nat), type_: CodeType, lens: seq<nat>, x: nat)
    requires |lens| <= SymbolLimit(type_)
  {
    var s := DecodeSymbol(lens, x);
    if s >= 0 then r.0.op == SymbolOp(type_, s) && r.0.val == SymbolVal(type_, s) && r.1 == lens[s]
    else r.0.op == INVALID && r.0.val == 0 && r.1 == 1 && forall z: nat :: Low(z, 1) == Low(x, 1) ==> DecodeSymbol(lens, z) == -1
  }

  /** The table decodes every bit string as the code lengths say. */
  ghost predicate TableFor(t: seq<Code>, b0: nat, root: nat, type_: CodeType, lens: seq<nat>)
  {
    && Closed(t, b0, root) && |lens| <= SymbolLimit(type_)
    && forall x: nat :: EntryFor(Lookup(t, b0, root, x), type_, lens, x)
  }

  lemma {:induction false} CompleteTable(t: seq<Code>, b0: nat, root: nat, type_: CodeType, lens: seq<nat>)
    requires DecodesAll(t, b0, root, type_, lens) && |lens| <= SymbolLimit(type_)
    requires Lengths(lens) && KraftSum(lens, MAXBITS) == Pow2(MAXBITS)
    ensures TableFor(t, b0, root, type_, lens)
  {
    hide Low, Reverse, Pow2, Lookup, SymbolOp, SymbolVal, KraftSum, Closed;
    forall x: nat ensures EntryFor(Lookup(t, b0, root, x), type_, lens, x) {
      CompleteDecodes(lens, x);
      var s := DecodeSymbol(lens, x);
      assert Decodes(t, b0, root, type_, lens, s);
    }
  }

  /** All coded symbols of a lone code have the code 0 of one bit. */
  lemma {:induction false} LoneSymbol(c: CodeSet, lens: seq<nat>, s: nat, x: nat)
    requires CodesOf(c, lens) && LoneCode(c) && s < |lens| && 1 <= lens[s]
    ensures HasCode(lens, s, x) <==> Low(x, 1) == 0
  {
    hide Low, Reverse, Huff;
    HuffIsRfcCode(lens, c.work, c.ls, s);
    HuffStarts(c.ls);
  }

  lemma {:induction false} LoneTable(t: seq<Code>, b0: nat, type_: CodeType, lens: seq<nat>, c: CodeSet)
    requires DecodesAll(t, b0, 1, type_, lens) && |lens| <= SymbolLimit(type_)
    requires CodesOf(c, lens) && LoneCode(c)
    requires b0 + 2 <= |t| && t[b0 + 1] == Code(INVALID, 1, 0)
    ensures TableFor(t, b0, 1, type_, lens)
  {
    hide Reverse, SymbolOp, SymbolVal;
    var s0 := SymbolAt(lens, 0) by { WorkLength(lens, c.work); }
    forall x: nat ensures EntryFor(Lookup(t, b0, 1, x), type_, lens, x) {
      var s := DecodeSymbol(lens, x);
      if s >= 0 {
        assert Decodes(t, b0, 1, type_, lens, s);
      } else {
        LoneSymbol(c, lens, s0, x);
        assert Low(x, 1) == 1;
        assert At(t, b0, 1) == Code(INVALID, 1, 0);
        forall z: nat | Low(z, 1) == Low(x, 1) ensures DecodeSymbol(lens, z) == -1 {
          var u := DecodeSymbol(lens, z);
          if u >= 0 { LoneSymbol(c, lens, u, z); }
        }
      }
    }
  }

  lemma {:induction false} EmptyTable(t: seq<Code>, b0: nat, type_: CodeType, lens: seq<nat>)
    requires ErrorTable(t, b0) && |lens| <= SymbolLimit(type_) && Lengths(lens) && Offset(lens, MAXBITS + 1) == 0
    ensures TableFor(t, b0, 1, type_, lens) && NoLinks(t, b0, 1)
  {
    hide Reverse, SymbolOp, SymbolVal, Offset, Position;
    assert Pow2(1) == 2;
    forall i | 0 <= i < Pow2(1) ensures At(t, b0, i) == Code(INVALID, 1, 0) {}
    forall x: nat ensures DecodeSymbol(lens, x) == -1 {
      var s := DecodeSymbol(lens, x);
      if s >= 0 { PlaceBounds(lens, s); }
    }
    forall x: nat ensures EntryFor(Lookup(t, b0, 1, x), type_, lens, x) {
      LowBound(x, 1);
    }
  }

  lemma {:induction false} LookupFinds(t: seq<Code>, g: Layout, c: CodeSet, j: nat, x: nat)
    requires Building(t, g, c, |c.ls|) && Closed(t, g.b0, g.root) && j < |c.ls|
    requires Low(x, c.ls[j]) == Huff(c.ls, j)
    ensures var (e, n) := Lookup(t, g.b0, g.root, x);
      e.op == SymbolOp(c.type_, c.work[j]) && e.val == SymbolVal(c.type_, c.work[j]) && n == c.ls[j]
  {
    hide Low, Huff, Pow2, Shr, SymbolOp, SymbolVal;
    var l, h := c.ls[j], Huff(c.ls, j);
    var i := Low(x, g.root);
    LowBound(x, g.root);
    SymbolIsNoLink(c.type_, c.work[j]);
    assert Entered(t, g, c, j);
    if l <= g.root {
      LowLow(x, l, g.root);
      assert At(t, g.b0, i) == SymbolEntry(c.type_, c.work[j], l);
    } else {
      LowLow(x, g.root, l);
      var e := At(t, g.b0, i);
      var k := Low(Shr(x, g.root), e.op);
      LowBound(Shr(x, g.root), e.op);
      LowLow(Shr(x, g.root), l - g.root, e.op);
      ShrLow(x, g.root, l);
      assert At(t, g.b0 + e.val, k) == SymbolEntry(c.type_, c.work[j], l - g.root);
    }
  }

  /** In the table of a complete code every link stays inside the table. */
  lemma {:induction false} CompleteIsClosed(t: seq<Code>, g: Layout, c: CodeSet)
    requires Building(t, g, c, |c.ls|) && Kraft(c.ls) == Pow2(MAXBITS)
    ensures Closed(t, g.b0, g.root)
    ensures g.drop == 0 ==> NoLinks(t, g.b0, g.root)
  {
    hide Low, Huff, Pow2, Shr, SymbolOp, SymbolVal;
    forall i | 0 <= i < Pow2(g.root) && IsLink(At(t, g.b0, i))
      ensures At(t, g.b0, i).bits == g.root && g.b0 + At(t, g.b0, i).val + Pow2(At(t, g.b0, i).op) <= |t|
      ensures g.drop != 0
    {
      var j := CompleteCovers(c.ls, i);
      LowFits(i, g.root);
      assert Entered(t, g, c, j);
      SymbolIsNoLink(c.type_, c.work[j]);
      assert c.ls[j] <= g.root ==> At(t, g.b0, i) == SymbolEntry(c.type_, c.work[j], c.ls[j]);
      if c.ls[j] > g.root { LowLow(i, g.root, c.ls[j]); }
    }
  }

  /** If entry m of the table at b0 is for code j, it holds what it should. */
  ghost predicate Contents(t: seq<Code>, b0: nat, root: nat, c: CodeSet, j: nat, m: nat)
    requires b0 + m < |t| && root <= MAXBITS && GoodSet(c) && j < |c.ls|
  {
    && (RootSlot(c.ls, root, j, m) ==> t[b0 + m] == SymbolEntry(c.type_, c.work[j], c.ls[j]))
    && (LinkSlot(c.ls, root, j, m) ==> SubBits(c.ls, j, root) >= 0 && t[b0 + m] == LinkTo(c.ls, j, root))
    && (SubSlot(c.ls, root, j, m) ==> t[b0 + m] == SymbolEntry(c.type_, c.work[j], c.ls[j] - root))
  }

  /** Entry m of the table at b0 has one purpose and serves it. */
  ghost predicate Serves(t: seq<Code>, b0: nat, root: nat, c: CodeSet, m: nat)
    requires b0 + m < |t| && root <= MAXBITS && GoodSet(c)
  {
    OnePurpose(c.ls, root, m) && forall j :: 0 <= j < |c.ls| ==> Contents(t, b0, root, c, j, m)
  }

  /** All the entries that the tables take are accounted for. */
  ghost predicate Partitioned(t: seq<Code>, b0: nat, used: nat, root: nat, c: CodeSet)
  {
    && GoodSet(c) && 1 <= root <= MAXBITS && b0 + used <= |t| && used == Entries(c.ls, root)
    && forall m :: 0 <= m < used ==> Serves(t, b0, root, c, m)
  }

  /** For a complete code every entry is written for exactly one purpose. */
  lemma {:induction false} CompletePartition(t: seq<Code>, g: Layout, c: CodeSet)
    requires Building(t, g, c, |c.ls|) && Tiled(t, g, c, |c.ls|) && Kraft(c.ls) == Pow2(MAXBITS)
    requires g.used == Entries(c.ls, g.root)
    ensures Partitioned(t, g.b0, g.used, g.root, c)
  {
    hide Entries, OnePurpose, Contents, Pow2, Entered, Start;
    forall m | 0 <= m < g.used ensures Serves(t, g.b0, g.root, c, m) {
      Purpose(c.ls, g.root, m);
      forall j | 0 <= j < |c.ls| ensures Contents(t, g.b0, g.root, c, j, m) { SlotContents(t, g, c, j, m); }
    }
  }

  lemma {:induction false} SlotContents(t: seq<Code>, g: Layout, c: CodeSet, j: nat, m: nat)
    requires Building(t, g, c, |c.ls|) && Tiled(t, g, c, |c.ls|) && j < |c.ls| && m < g.used
    ensures g.b0 + m < |t| && g.root <= MAXBITS && Contents(t, g.b0, g.root, c, j, m)
  {
    hide Low, Huff, Pow2, Shr, SymbolEntry, SubBits, Base, Prefix;
    assert Entered(t, g, c, j);
    if c.ls[j] <= g.root {
      if RootSlot(c.ls, g.root, j, m) { assert At(t, g.b0, m) == SymbolEntry(c.type_, c.work[j], c.ls[j]); }
    } else {
      assert HasLink(t, g, c, j);
      if SubSlot(c.ls, g.root, j, m) {
        var b := Base(c.ls, j, g.root);
        assert At(t, g.b0 + b, m - b) == SymbolEntry(c.type_, c.work[j], c.ls[j] - g.root);
      }
    }
  }

  /** The construction never looks past the entries it has used. */
  lemma {:induction false} BuildingSlice(t: seq<Code>, g: Layout, c: CodeSet, k: nat)
    requires Building(t, g, c, k)
    ensures g.b0 + g.used <= |t| && Building(t[..g.b0 + g.used], g, c, k)
  {
    hide Low, Huff, Pow2, Shr, SymbolEntry;
    var u := t[..g.b0 + g.used];
    if g.drop != 0 { assert At(u, g.b0, g.low) == At(t, g.b0, g.low); }
    forall j | 0 <= j < k ensures Entered(u, g, c, j) {
      assert Entered(t, g, c, j);
      if c.ls[j] <= g.root {
        forall i | 0 <= i < Pow2(g.root) && i < g.used && Low(i, c.ls[j]) == Huff(c.ls, j)
          ensures At(u, g.b0, i) == SymbolEntry(c.type_, c.work[j], c.ls[j])
        {
          assert At(t, g.b0, i) == SymbolEntry(c.type_, c.work[j], c.ls[j]);
        }
      } else {
        SliceKeepsBehind(t, u, g, c, j);
      }
    }
  }

  lemma {:induction false} SliceKeepsBehind(t: seq<Code>, u: seq<Code>, g: Layout, c: CodeSet, j: nat)
    requires GoodSet(c) && GoodLayout(t, g) && u == t[..g.b0 + g.used] && GoodLayout(u, g)
    requires j < |c.ls| && g.root < c.ls[j] && Behind(t, g, c, j)
    ensures Behind(u, g, c, j)
  {
    hide Low, Huff, Pow2, Shr, SymbolEntry;
    var p := Low(Huff(c.ls, j), g.root);
    var e := At(t, g.b0, p);
    assert At(u, g.b0, p) == e;
    var l, h := c.ls[j] - g.root, Shr(Huff(c.ls, j), g.root);
    forall i | 0 <= i < Pow2(e.op) && Low(i, l) == h
      ensures At(u, g.b0 + e.val, i) == SymbolEntry(c.type_, c.work[j], l)
    {
      assert At(t, g.b0 + e.val, i) == SymbolEntry(c.type_, c.work[j], l);
    }
  }

  /** The link between the codes entered and the caller's code lengths. */
  ghost predicate CodesOf(c: CodeSet, lens: seq<nat>)
  {
    Lengths(lens) && Sorted(lens, c.work) && LengthsMatch(lens, c.work, c.ls)
  }

  lemma {:induction false} TableDecodes(t: seq<Code>, g: Layout, c: CodeSet, lens: seq<nat>)
    requires Building(t, g, c, |c.ls|) && Closed(t, g.b0, g.root) && CodesOf(c, lens)
    ensures DecodesAll(t, g.b0, g.root, c.type_, lens)
  {
    hide Low, Huff, Pow2, Reverse, Lookup, Closed, SymbolOp, SymbolVal;
    forall s | 0 <= s < |lens| && 1 <= lens[s]
      ensures s < SymbolLimit(c.type_) && Decodes(t, g.b0, g.root, c.type_, lens, s)
    {
      var k := Position(lens, s);
      HuffIsRfcCode(lens, c.work, c.ls, s);
      assert c.work[k] == s && c.ls[k] == lens[s];
      forall x: nat | Low(x, lens[s]) == Reverse(lens[s], RfcCode(lens, s))
        ensures Lookup(t, g.b0, g.root, x).0.op == SymbolOp(c.type_, s)
        ensures Lookup(t, g.b0, g.root, x).0.val == SymbolVal(c.type_, s)
        ensures Lookup(t, g.b0, g.root, x).1 == lens[s]
      {
        LookupFinds(t, g, c, k, x);
      }
    }
  }

  /** The only incomplete set that is let through: one code of one bit. */
  ghost predicate LoneCode(c: CodeSet) { c.ls == [1] }

  lemma {:induction false} IncompleteIsLone(c: CodeSet)
    requires GoodSet(c) && |c.ls| > 0 && c.ls[|c.ls| - 1] == 1 && Kraft(c.ls) < Pow2(MAXBITS)
    ensures LoneCode(c)
  {
    hide Pow2;
    StartRun(c.ls, 0, |c.ls|, 1);
    assert Start(c.ls, 0) == 0;
    if |c.ls| >= 2 { TwoHalves(|c.ls|); }
  }

  lemma {:induction false} TwoHalves(n: nat)
    requires n >= 2
    ensures n * Weight(1) >= Pow2(MAXBITS)
  {
    assert Pow2(MAXBITS) == 2 * Weight(1);
    MulMono(Weight(1), 2, n);
  }

  /** The last loop: what is left of an incomplete code becomes invalid markers.
      For the lengths that are let through it runs at most once, in the root
      table, so its branch that leaves a sub-table is never taken. */
  method FillRest(table: array<Code>, g: Layout, len: nat, huff0: nat, ghost c: CodeSet)
    requires Building(table[..], g, c, |c.ls|) && |c.ls| > 0 && huff0 == Huff(c.ls, |c.ls|) && g.drop <= len && g.b0 <= table.Length
    requires Kraft(c.ls) == Pow2(MAXBITS) || (LoneCode(c) && len == 1 && g.root == 1 && g.drop == 0)
    modifies table
    ensures g.b0 + g.used <= table.Length
    ensures Building(table[..g.b0 + g.used], g, c, |c.ls|) && Closed(table[..g.b0 + g.used], g.b0, g.root)
    ensures g.drop == 0 && Kraft(c.ls) == Pow2(MAXBITS) ==> NoLinks(table[..g.b0 + g.used], g.b0, g.root)
    ensures Kraft(c.ls) == Pow2(MAXBITS) ==> table[..] == old(table[..])
    ensures Kraft(c.ls) != Pow2(MAXBITS) ==> g.used == 2 && table[g.b0 + 1] == Code(INVALID, 1, 0)
    ensures forall i :: 0 <= i < g.b0 ==> table[i] == old(table[i])
  {
    hide Building, Closed, NoLinks, Huff, Reverse, Pow2;
    if Kraft(c.ls) == Pow2(MAXBITS) {
      CompleteEndsAtZero(c.ls);
      BuildingSlice(table[..], g, c, |c.ls|);
      CompleteIsClosed(table[..g.b0 + g.used], g, c);
    } else {
      LoneHuff(c, table[..], g);
    }
    var here := Code(INVALID, len - g.drop, 0);
    var huff := huff0;
    ghost var cc := 1;
    while huff != 0
      invariant Kraft(c.ls) == Pow2(MAXBITS) ==> huff == 0 && table[..] == old(table[..])
      invariant Kraft(c.ls) != Pow2(MAXBITS) ==> LoneCode(c) && len == 1 && g.root == 1 && g.drop == 0
      invariant Kraft(c.ls) != Pow2(MAXBITS) ==> (cc == 1 || cc == 2) && huff == Reverse(1, cc) && g.b0 + 2 <= table.Length
      invariant cc == 1 ==> table[..] == old(table[..])
      invariant cc == 2 ==> g.b0 + 2 <= table.Length && table[..] == old(table[..])[g.b0 + 1 := Code(INVALID, 1, 0)]
      invariant forall i :: 0 <= i < g.b0 ==> table[i] == old(table[i])
      decreases 2 - cc
    {
      OneBit(cc);
      assert g.drop == 0 && g.off == 0 by { LoneHuff(c, old(table[..]), g); }
      ghost var t := table[..];
      table[g.b0 + g.off + Shr(huff, g.drop)] := here;
      assert table[..] == t[g.b0 + 1 := here];
      huff := BackwardIncrement(len, huff, cc);
      cc := cc + 1;
    }
    if Kraft(c.ls) != Pow2(MAXBITS) {
      OneBit(cc);
      LoneRest(old(table[..]), table[..], g, c);
    }
  }

  lemma {:induction false} OneBit(cc: nat)
    ensures Reverse(1, cc) == cc % 2
  {
  }

  lemma {:induction false} CompleteEndsAtZero(ls: seq<nat>)
    requires Kraft(ls) == Pow2(MAXBITS)
    ensures Huff(ls, |ls|) == 0
  {
    hide Pow2, Reverse;
    ShlFacts(0, 0, 0, MAXBITS);
    ReverseAppend(0, MAXBITS, 1);
    EmptyReverse(1);
  }

  lemma {:induction false} LoneHuff(c: CodeSet, t: seq<Code>, g: Layout)
    requires Building(t, g, c, |c.ls|) && LoneCode(c) && g.root == 1 && g.drop == 0
    ensures Huff(c.ls, |c.ls|) == Reverse(1, 1) && g.b0 + 2 <= |t| && g.off == 0
  {
    hide Reverse;
    assert CodeAt(c.ls, 0, 1) == 0;
    HuffNext(c.ls, 0);
    assert Pow2(1) == 2;
  }

  lemma {:induction false} LoneRest(t: seq<Code>, t': seq<Code>, g: Layout, c: CodeSet)
    requires Building(t, g, c, |c.ls|) && LoneCode(c) && g.root == 1 && g.drop == 0 && g.b0 + 2 <= |t|
    requires t' == t[g.b0 + 1 := Code(INVALID, 1, 0)]
    ensures g.used == 2 && Building(t'[..g.b0 + 2], g, c, |c.ls|) && Closed(t'[..g.b0 + 2], g.b0, g.root)
  {
    hide SymbolOp, SymbolVal, Huff;
    assert Pow2(1) == 2;
    assert Entered(t, g, c, 0);
    HuffStarts(c.ls);
    assert Low(1, 1) == 1 && Low(0, 1) == 0;
    forall i | 0 <= i < Pow2(g.root) && i < g.used && Low(i, c.ls[0]) == Huff(c.ls, 0)
      ensures At(t', g.b0, i) == SymbolEntry(c.type_, c.work[0], c.ls[0])
    {
      assert i == 0;
      assert At(t, g.b0, i) == SymbolEntry(c.type_, c.work[0], c.ls[0]);
    }
    SymbolIsNoLink(c.type_, c.work[0]);
    assert At(t, g.b0, 0) == SymbolEntry(c.type_, c.work[0], c.ls[0]);
    BuildingSlice(t', g, c, |c.ls|);
  }

  // ---- inflate_table ------------------------------------------------------------------

  /** The lengths that are refused: too many codes, or too few unless they are a
      lone one-bit code for lengths or distances. */
  ghost predicate Refused(type_: CodeType, lens: seq<nat>)
  {
    && Offset(lens, MAXBITS + 1) > 0
    && (OverSubscribed(lens) || (Incomplete(lens) && (type_ == CODES || Count(lens, |lens|, 1) != Offset(lens, MAXBITS + 1))))
  }

  /** The tables of the code take all the entries that may be used, or more. */
  ghost predicate Crowded(type_: CodeType, lens: seq<nat>, bits: nat)
  {
    match type_
    case CODES => false
    case LENS => SizeNeeded(lens, bits) >= ENOUGH_LENS
    case DISTS => SizeNeeded(lens, bits) >= ENOUGH_DISTS
  }

  lemma {:induction false} CompleteIsLet(type_: CodeType, lens: seq<nat>)
    requires SortedLengths(lens) && Kraft(lens) == Pow2(MAXBITS) && SortedUpTo(lens, MAXBITS) == lens
    ensures !Refused(type_, lens) && KraftSum(lens, MAXBITS) == Pow2(MAXBITS)
  {
    hide Start, KraftSum, Sorted, SortedUpTo, Pow2, Offset;
    var work, ls := SortedExists(lens);
    SizeOfSorted(lens, work, ls);
    KraftOfSorted(lens, work, ls);
  }

  /** There are valid codes whose tables do not fit: for these distance lengths, a complete
      code, inflate_table returns 1. */
  lemma {:induction false} FullDistancesRefused()
    ensures !Refused(DISTS, FULL_DISTANCES) && Crowded(DISTS, FULL_DISTANCES, 6)
    ensures |FULL_DISTANCES| <= 30 && KraftSum(FULL_DISTANCES, MAXBITS) == Pow2(MAXBITS)
  {
    hide Start, KraftSum, SortedUpTo, Pow2, Refused;
    FullSize();
    CompleteIsLet(DISTS, FULL_DISTANCES);
  }

  /** What the callers of inflate_table provide. */
  ghost predicate CallerProvides(type_: CodeType, lens: seq<nat>, table: array<Code>, b0: nat, bits: nat, work: array<nat>)
  {
    && Lengths(lens) && |lens| <= SymbolLimit(type_) && |lens| <= work.Length
    && match type_
       case CODES => bits >= 7 && (forall s :: 0 <= s < |lens| ==> lens[s] <= 7) && b0 + 128 <= table.Length
       case LENS => b0 + ENOUGH_LENS <= table.Length || RootOnly(type_, lens, table, b0, bits)
       case DISTS => b0 + ENOUGH_DISTS <= table.Length || RootOnly(type_, lens, table, b0, bits)
  }

  /** Room for the root table is enough when no code is longer than its index. */
  ghost predicate RootOnly(type_: CodeType, lens: seq<nat>, table: array<Code>, b0: nat, bits: nat)
  {
    1 <= bits && OneLevel(type_, lens, bits) && b0 + Pow2(bits) <= table.Length
  }

  /** The table for no codes at all: two invalid markers. */
  ghost predicate ErrorTable(t: seq<Code>, b0: nat)
  {
    b0 + 2 <= |t| && t[b0] == t[b0 + 1] == Code(INVALID, 1, 0)
  }

  /** The code set of a caller's lengths, sorted into work. */
  ghost function SetOf(type_: CodeType, lens: seq<nat>, w: seq<nat>): (c: CodeSet)
    requires forall k :: 0 <= k < |w| ==> w[k] < |lens|
    ensures c.type_ == type_ && c.work == w && LengthsMatch(lens, w, c.ls)
  {
    CodeSet(type_, LengthsOf(lens, w), w)
  }

  lemma {:induction false} SetIsGood(type_: CodeType, lens: seq<nat>, w: seq<nat>)
    requires Lengths(lens) && |lens| <= SymbolLimit(type_) && Sorted(lens, w) && !OverSubscribed(lens)
    requires forall k :: 0 <= k < |w| ==> w[k] < |lens|
    ensures var c := SetOf(type_, lens, w);
      GoodSet(c) && CodesOf(c, lens) && EndsOk(c.ls, Ends(lens)) && Kraft(c.ls) == KraftSum(lens, MAXBITS)
  {
    hide Sorted, Pow2, KraftSum, Start;
    var c := SetOf(type_, lens, w);
    SortedGivesLengths(lens, w);
    EndsAreBlocks(lens, w, c.ls);
    KraftIsStart(lens, w, c.ls, MAXBITS);
    WorkLength(lens, w);
  }

  /** All codes have one bit exactly when the longest has. */
  lemma {:induction false} OneBitCodes(lens: seq<nat>, max: nat)
    requires 1 <= max <= MAXBITS && Count(lens, |lens|, max) > 0
    requires forall l :: max < l <= MAXBITS ==> Count(lens, |lens|, l) == 0
    ensures max == 1 <==> Count(lens, |lens|, 1) == Offset(lens, MAXBITS + 1)
    ensures Offset(lens, MAXBITS + 1) > 0
  {
    hide Count;
    NoneAbove(lens, max, MAXBITS + 1);
    assert Offset(lens, 2) == Count(lens, |lens|, 1);
    assert Offset(lens, max + 1) == Offset(lens, max) + Count(lens, |lens|, max);
    if max > 1 { OffsetMono(lens, 2, max); }
  }

  /** The empty root table, ready for the first code. */
  lemma {:induction false} ReadyToEnter(t: seq<Code>, b0: nat, root: nat, c: CodeSet, ends: seq<nat>)
    requires GoodSet(c) && EndsOk(c.ls, ends) && |c.ls| > 0 && c.ls[0] <= root <= MAXBITS && b0 + Pow2(root) <= |t|
    ensures Entering(t, Layout(b0, root, 0, root, 0, Pow2(root), -1), c, ends, 0)
  {
    hide Pow2;
  }

  /** The root table is all that is needed, and there is room for it. */
  ghost predicate RootFits(length: nat, b0: nat, root: nat, max: nat, enough: nat)
  {
    root == max && Pow2(root) < enough && b0 + Pow2(root) <= length
  }

  /** The used entries are exactly those of the codes and the links, one for each. */
  ghost predicate EachOnce(t: seq<Code>, b0: nat, used: nat, root: nat, type_: CodeType, lens: seq<nat>)
  {
    exists c: CodeSet :: c.type_ == type_ && CodesOf(c, lens) && Partitioned(t, b0, used, root, c)
  }

  /** Building the table once the lengths are accepted and the symbols sorted. */
  method BuildTable(type_: CodeType, lens: seq<nat>, table: array<Code>, b0: nat, root: nat, min: nat, max: nat,
                    count: array<nat>, work: array<nat>)
    returns (r: int, used: nat)
    requires Lengths(lens) && |lens| <= SymbolLimit(type_) && !OverSubscribed(lens) && !Refused(type_, lens)
    requires Counted(count, lens) && count != work && Offset(lens, MAXBITS + 1) <= work.Length
    requires Sorted(lens, work[..Offset(lens, MAXBITS + 1)])
    requires 1 <= min <= root <= max <= MAXBITS || (1 <= min == root <= max <= MAXBITS)
    requires Count(lens, |lens|, min) > 0 && forall l :: 1 <= l < min ==> Count(lens, |lens|, l) == 0
    requires Count(lens, |lens|, max) > 0 && forall l :: max < l <= MAXBITS ==> Count(lens, |lens|, l) == 0
    requires type_ == CODES ==> root == max && b0 + Pow2(root) <= table.Length
    requires type_ == LENS ==> b0 + ENOUGH_LENS <= table.Length || RootFits(table.Length, b0, root, max, ENOUGH_LENS)
    requires type_ == DISTS ==> b0 + ENOUGH_DISTS <= table.Length || RootFits(table.Length, b0, root, max, ENOUGH_DISTS)
    modifies table, count
    ensures r == 0 || r == 1
    ensures r == 1 <==> match type_ case CODES => false
                        case LENS => Entries(SortedUpTo(lens, MAXBITS), root) >= ENOUGH_LENS
                        case DISTS => Entries(SortedUpTo(lens, MAXBITS), root) >= ENOUGH_DISTS
    ensures r == 0 ==> used == Entries(SortedUpTo(lens, MAXBITS), root)
    ensures r == 0 ==> b0 + used <= table.Length && TableFor(table[..b0 + used], b0, root, type_, lens)
    ensures r == 0 && KraftSum(lens, MAXBITS) == Pow2(MAXBITS) ==> EachOnce(table[..], b0, used, root, type_, lens)
    ensures r == 0 && type_ == CODES ==> NoLinks(table[..b0 + used], b0, root)
    ensures r == 0 && root == max ==> used == Pow2(root)
    ensures root == max && (type_ == LENS ==> Pow2(root) < ENOUGH_LENS) && (type_ == DISTS ==> Pow2(root) < ENOUGH_DISTS) ==> r == 0
    ensures r == 0 && type_ == LENS ==> used < ENOUGH_LENS
    ensures r == 0 && type_ == DISTS ==> used < ENOUGH_DISTS
    ensures forall i :: 0 <= i < b0 ==> table[i] == old(table[i])
  {
    hide Entries, Sorted, Pow2, Building, Tiled, Partitioned, Ready, Sized, GoodSet, DecodesAll, TableFor, NoLinks, Start, Count, Offset, EndsOk, Remaining;
    ghost var n := Offset(lens, MAXBITS + 1);
    ghost var w := work[..n];
    WorkInRange(lens, w);
    ghost var c := SetOf(type_, lens, w);
    SetIsGood(type_, lens, w);
    ExtremeLengths(lens, w, c.ls, min, max);
    SizeOfSorted(lens, w, c.ls);
    RootIncluded(c.ls, root);
    AllRemain(count, lens);
    OneBitCodes(lens, max);
    used := Pow2(root);
    if (type_ == LENS && used >= ENOUGH_LENS) || (type_ == DISTS && used >= ENOUGH_DISTS) { return 1, used; }
    var limit := match type_ case CODES => used case LENS => ENOUGH_LENS case DISTS => ENOUGH_DISTS;
    var g0 := Layout(b0, root, 0, root, 0, used, -1);
    ReadyToEnter(table[..], b0, root, c, Ends(lens));
    var full, g, huff := EnterCodes(table, type_, g0, count, work, lens, max, limit, c, Ends(lens));
    used := g.used;
    if full { return 1, used; }
    if Kraft(c.ls) < Pow2(MAXBITS) { IncompleteIsLone(c); }
    LayoutFacts(table[..], g, c, max);
    ghost var t := table[..];
    FillRest(table, g, max, huff, c);
    TableDecodes(table[..b0 + used], g, c, lens);
    if Kraft(c.ls) == Pow2(MAXBITS) {
      CompletePartition(t, g, c);
      CompleteTable(table[..b0 + used], b0, root, type_, lens);
    } else {
      LoneTable(table[..b0 + used], b0, type_, lens, c);
    }
    r := 0;
  }

  lemma {:induction false} NothingIsIncomplete(lens: seq<nat>, bits: nat)
    requires Lengths(lens) && Offset(lens, MAXBITS + 1) == 0
    ensures KraftSum(lens, MAXBITS) != Pow2(MAXBITS) && SizeNeeded(lens, bits) == 2
  {
    hide Offset, KraftSum, Sorted, Start, Pow2;
    var work, ls := SortedExists(lens);
    SizeOfSorted(lens, work, ls);
    KraftOfSorted(lens, work, ls);
    WorkLength(lens, work);
    EmptyStart(ls);
  }

  lemma {:induction false} RootIncluded(ls: seq<nat>, root: nat)
    requires root <= MAXBITS
    ensures Entries(ls, root) >= Pow2(root)
  {
  }

  lemma {:induction false} LayoutFacts(t: seq<Code>, g: Layout, c: CodeSet, max: nat)
    requires Building(t, g, c, |c.ls|) && |c.ls| > 0 && c.ls[|c.ls| - 1] == max
    ensures g.b0 + g.used <= |t| && (max <= g.root ==> g.drop == 0 || g.drop == g.root) && Kraft(c.ls) <= Pow2(MAXBITS)
    ensures g.drop <= g.root
  {
    hide Entered, Pow2;
  }

  /** The root table alone holds every code, with entries to spare. */
  ghost predicate OneLevel(type_: CodeType, lens: seq<nat>, bits: nat)
  {
    && (forall s :: 0 <= s < |lens| ==> lens[s] <= bits)
    && (type_ == LENS ==> Pow2(bits) < ENOUGH_LENS)
    && (type_ == DISTS ==> Pow2(bits) < ENOUGH_DISTS)
  }

  /** inflate_table.  The result is -1 for refused lengths, 1 when the entries
      provided do not suffice, and otherwise 0 with a table that decodes every
      code; used is the number of entries taken and root the index bits. */
  method InflateTable(type_: CodeType, lens: seq<nat>, table: array<Code>, b0: nat, bits: nat, work: array<nat>)
    returns (r: int, used: nat, root: nat)
    requires CallerProvides(type_, lens, table, b0, bits, work)
    modifies table, work
    ensures r == -1 <==> Refused(type_, lens)
    ensures r == 1 <==> !Refused(type_, lens) && Crowded(type_, lens, bits)
    ensures r == 0 || r == -1 || r == 1
    ensures r == 0 ==> used == SizeNeeded(lens, bits)
    ensures r == 0 ==> b0 + used <= table.Length && TableFor(table[..b0 + used], b0, root, type_, lens)
    ensures r == 0 && KraftSum(lens, MAXBITS) == Pow2(MAXBITS) ==> EachOnce(table[..], b0, used, root, type_, lens)
    ensures r == 0 && type_ == CODES ==> NoLinks(table[..b0 + used], b0, root)
    ensures r == 0 && Offset(lens, MAXBITS + 1) == 0 ==> ErrorTable(table[..b0 + used], b0) && used == 2 && root == 1
    ensures OneLevel(type_, lens, bits) ==> r != 1
    ensures OneLevel(type_, lens, bits) && Offset(lens, MAXBITS + 1) > 0 && r == 0 ==> used == Pow2(root)
    ensures r == 0 && type_ == LENS ==> used < ENOUGH_LENS
    ensures r == 0 && type_ == DISTS ==> used < ENOUGH_DISTS
    ensures bits >= 1 && OneLevel(type_, lens, bits) && (exists s :: 0 <= s < |lens| && lens[s] == bits) ==> root == bits
    ensures r == 0 ==> 1 <= root && (bits >= 1 ==> root <= MAXBITS)
    ensures forall i :: 0 <= i < b0 ==> table[i] == old(table[i])
  {
    hide Sorted, Pow2, TableFor, NoLinks, Count, Offset, KraftSum, Entries, SortedUpTo, EachOnce, SizeNeeded, RootBits, Closed, OverSubscribed;
    used := 0;
    var count := new nat[MAXBITS + 1];
    CountLengths(lens, count);
    var max := LongestLength(count, lens);
    root := if bits > max then max else bits;
    NoCodes(lens, max);
    if bits >= 1 { TwoSlots(bits); }
    forall s | 0 <= s < |lens| ensures lens[s] <= max { LengthCounted(lens, s); }
    if max == 0 {
      table[b0] := Code(INVALID, 1, 0);
      table[b0 + 1] := Code(INVALID, 1, 0);
      EmptyTable(table[..b0 + 2], b0, type_, lens);
      NothingIsIncomplete(lens, bits);
      return 0, 2, 1;
    }
    OneBitCodes(lens, max);
    ghost var s := FindRank(lens, |lens|, max, 0);
    var min := ShortestLength(count, lens, max);
    if root < min { root := min; }
    RootOfLengths(lens, min, max, bits);
    var left := CheckLengths(count, lens);
    if left < 0 { return -1, 0, root; }
    if left > 0 && (type_ == CODES || max != 1) { return -1, 0, root; }
    SortSymbols(lens, count, work);
    CodesFit(type_, lens, max);
    if max <= bits { Pow2Mono(max, bits); }
    r, used := BuildTable(type_, lens, table, b0, root, min, max, count, work);
  }

  /** The shortest and the longest length in the sorted list. */
  lemma {:induction false} RootOfLengths(lens: seq<nat>, min: nat, max: nat, bits: nat)
    requires Lengths(lens)
    requires 1 <= min <= max <= MAXBITS && Count(lens, |lens|, min) > 0 && Count(lens, |lens|, max) > 0
    requires forall l :: 1 <= l < min ==> Count(lens, |lens|, l) == 0
    requires forall l :: max < l <= MAXBITS ==> Count(lens, |lens|, l) == 0
    ensures var ls := SortedUpTo(lens, MAXBITS);
      |ls| > 0 && RootBits(ls, bits) == if bits > max then max else if bits < min then min else bits
    ensures SizeNeeded(lens, bits) == Entries(SortedUpTo(lens, MAXBITS), if bits > max then max else if bits < min then min else bits)
  {
    hide Count, Sorted, Offset;
    var work, ls := SortedExists(lens);
    ExtremeLengths(lens, work, ls, min, max);
    SizeOfSorted(lens, work, ls);
  }

  lemma {:induction false} TwoSlots(k: nat)
    requires k >= 1
    ensures Pow2(k) >= 2
  {
  }

  lemma {:induction false} LengthCounted(lens: seq<nat>, s: nat)
    requires s < |lens|
    ensures Count(lens, |lens|, lens[s]) > 0
  {
    CountMono(lens, s + 1, |lens|, lens[s]);
  }

  lemma {:induction false} NoCodes(lens: seq<nat>, max: nat)
    requires max <= MAXBITS && forall l :: max < l <= MAXBITS ==> Count(lens, |lens|, l) == 0
    ensures max == 0 ==> Offset(lens, MAXBITS + 1) == 0
  {
    hide Count;
    NoneAbove(lens, max, MAXBITS + 1);
  }

  /** Code length codes have at most seven bits, so their table needs no links. */
  lemma {:induction false} CodesFit(type_: CodeType, lens: seq<nat>, max: nat)
    requires 1 <= max <= MAXBITS && Count(lens, |lens|, max) > 0
    requires type_ == CODES ==> forall s :: 0 <= s < |lens| ==> lens[s] <= 7
    ensures type_ == CODES ==> max <= 7 && Pow2(max) <= 128
  {
    var s := FindRank(lens, |lens|, max, 0);
    if type_ == CODES {
      Pow2Mono(max, 7);
      assert Pow2(7) == 128;
    }
  }
}
