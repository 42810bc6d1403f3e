/** Which code each entry of a complete code's tables belongs to. */
module TableSlots {
  import opened Bits
  import opened BitReverse
  import opened Canonical
  import opened PrefixCode
  import opened TableSize

  ghost predicate Complete(ls: seq<nat>, root: nat)
  {
    SortedLengths(ls) && Kraft(ls) == Pow2(MAXBITS) && 1 <= root <= MAXBITS
  }

  /** Where the sub-table for code j starts, and its index bits. */
  function Base(ls: seq<nat>, j: nat, root: nat): nat
    requires j < |ls| && root <= MAXBITS
  {
    Pow2(root) + Linked(ls, GroupEnd(ls, j, root) - 1, root)
  }

  function SubBits(ls: seq<nat>, j: nat, root: nat): int
    requires j < |ls| && root <= MAXBITS
  {
    ls[GroupEnd(ls, j, root) - 1] - root
  }

  /** Entry m of the root table is for code j. */
  ghost predicate RootSlot(ls: seq<nat>, root: nat, j: nat, m: nat)
    requires j < |ls|
  {
    ls[j] <= root && m < Pow2(root) && Low(m, ls[j]) == Huff(ls, j)
  }

  /** Entry m links to the sub-table of code j. */
  ghost predicate LinkSlot(ls: seq<nat>, root: nat, j: nat, m: nat)
    requires j < |ls|
  {
    ls[j] > root && m == Low(Huff(ls, j), root)
  }

  /** Entry m is for code j in its sub-table. */
  ghost predicate SubSlot(ls: seq<nat>, root: nat, j: nat, m: nat)
    requires j < |ls| && root <= MAXBITS
  {
    && ls[j] > root && SubBits(ls, j, root) >= 0
    && Base(ls, j, root) <= m < Base(ls, j, root) + Pow2(SubBits(ls, j, root))
    && Low(m - Base(ls, j, root), ls[j] - root) == Shr(Huff(ls, j), root)
  }

  ghost predicate SameTable(ls: seq<nat>, root: nat, i: nat, j: nat)
    requires i < |ls| && j < |ls| && root <= MAXBITS
  {
    Low(Huff(ls, i), root) == Low(Huff(ls, j), root) && GroupEnd(ls, i, root) == GroupEnd(ls, j, root)
  }

  /** Every entry below the size is exactly one of three things: an entry of one code in
      the root table, the link to one sub-table, or an entry of one code in one sub-table. */
  ghost predicate OnePurpose(ls: seq<nat>, root: nat, m: nat)
    requires root <= MAXBITS
  {
    && (exists j :: 0 <= j < |ls| && (RootSlot(ls, root, j, m) || LinkSlot(ls, root, j, m) || SubSlot(ls, root, j, m)))
    && forall i, j :: 0 <= i < |ls| && 0 <= j < |ls| ==>
         && (RootSlot(ls, root, i, m) && RootSlot(ls, root, j, m) ==> i == j)
         && (SubSlot(ls, root, i, m) && SubSlot(ls, root, j, m) ==> i == j)
         && (LinkSlot(ls, root, i, m) && LinkSlot(ls, root, j, m) ==> SameTable(ls, root, i, j))
         && !(RootSlot(ls, root, i, m) && LinkSlot(ls, root, j, m))
         && !(RootSlot(ls, root, i, m) && SubSlot(ls, root, j, m))
         && !(LinkSlot(ls, root, i, m) && SubSlot(ls, root, j, m))
  }

  // ---- some code owns the entry -------------------------------------------------------

  lemma {:induction false} RootOwner(ls: seq<nat>, root: nat, m: nat) returns (j: nat)
    requires Complete(ls, root) && m < Pow2(root)
    ensures j < |ls| && (RootSlot(ls, root, j, m) || LinkSlot(ls, root, j, m))
  {
    hide Low, Huff, Pow2;
    j := CompleteCovers(ls, m);
    if ls[j] > root {
      LowLow(m, root, ls[j]);
      LowFits(m, root);
    }
  }

  /** The sub-table that covers v, counted from the end of the root table. */
  lemma {:induction false} FindTable(ls: seq<nat>, k: nat, root: nat, v: nat) returns (j: nat)
    requires k <= |ls| && root <= MAXBITS && v < Linked(ls, k, root)
    ensures j < k && ls[j] > root && LastOfPrefix(ls, j, root) && Linked(ls, j, root) <= v < Linked(ls, j, root) + Pow2(ls[j] - root)
    decreases k
  {
    hide LastOfPrefix, Pow2;
    if Linked(ls, k - 1, root) <= v { j := k - 1; } else { j := FindTable(ls, k - 1, root, v); }
  }

  lemma {:induction false} SubOwner(ls: seq<nat>, root: nat, m: nat) returns (j: nat)
    requires Complete(ls, root) && Pow2(root) <= m < Entries(ls, root)
    ensures j < |ls| && SubSlot(ls, root, j, m)
  {
    hide Low, Huff, Pow2, Shr, Linked, Prefix;
    var e := FindTable(ls, |ls|, root, m - Pow2(root));
    var i := m - Pow2(root) - Linked(ls, e, root);
    j := OwnerIn(ls, root, e, i);
    SamePrefix(ls, j, e, root);
    GroupFound(ls, j, e, root);
  }

  /** In the sub-table whose last code is e every index is some code's. */
  lemma {:induction false} OwnerIn(ls: seq<nat>, root: nat, e: nat, i: nat) returns (j: nat)
    requires Complete(ls, root) && e < |ls| && ls[e] > root
    ensures j < |ls| && ls[j] > root && Low(Huff(ls, j), root) == Low(Huff(ls, e), root)
    ensures Low(i, ls[j] - root) == Shr(Huff(ls, j), root)
  {
    hide Low, Huff, Pow2, Shr, Prefix;
    var p := Low(Huff(ls, e), root);
    LowBound(Huff(ls, e), root);
    var x := p + Pow2(root) * i;
    Assemble(p, i, root);
    j := CompleteCovers(ls, x);
    if ls[j] <= root {
      LowLow(x, ls[j], root);
      LowLow(Huff(ls, e), ls[j], root);
      PrefixFree(ls, j, e);
    } else {
      LowLow(x, root, ls[j]);
      ShrLow(x, root, ls[j]);
    }
  }

  /** The codes with the prefix of a group's last code are in its group. */
  lemma {:induction false} GroupFound(ls: seq<nat>, j: nat, e: nat, root: nat)
    requires j < |ls| && e < |ls| && root <= MAXBITS && Prefix(ls, j, root) == Prefix(ls, e, root) && LastOfPrefix(ls, e, root)
    ensures GroupEnd(ls, j, root) == e + 1
  {
    hide Prefix;
    GroupIs(ls, j, root);
    var m := GroupEnd(ls, j, root);
    if e < j {
      PrefixMono(ls, e, e + 1, root);
      PrefixMono(ls, e + 1, j, root);
    } else {
      GroupHolds(ls, j, e, root);
      if e + 1 < m {
        PrefixMono(ls, e, e + 1, root);
        PrefixMono(ls, e + 1, m - 1, root);
      }
    }
  }

  // ---- and only one ---------------------------------------------------------------------

  lemma {:induction false} RootAlone(ls: seq<nat>, root: nat, i: nat, j: nat, m: nat)
    requires Complete(ls, root) && i < j < |ls|
    ensures !(RootSlot(ls, root, i, m) && RootSlot(ls, root, j, m))
  {
    hide Low, Huff, Pow2;
    if RootSlot(ls, root, i, m) && RootSlot(ls, root, j, m) {
      CodesApart(ls, i, j, m);
    }
  }

  lemma {:induction false} RootOrLink(ls: seq<nat>, root: nat, i: nat, j: nat, m: nat)
    requires Complete(ls, root) && i < |ls| && j < |ls|
    ensures !(RootSlot(ls, root, i, m) && LinkSlot(ls, root, j, m))
  {
    hide Low, Huff, Pow2;
    if RootSlot(ls, root, i, m) && LinkSlot(ls, root, j, m) {
      PrefixFree(ls, i, j);
      LowLow(Huff(ls, j), ls[i], root);
    }
  }

  lemma {:induction false} LinksAgree(ls: seq<nat>, root: nat, i: nat, j: nat, m: nat)
    requires Complete(ls, root) && i < |ls| && j < |ls|
    ensures LinkSlot(ls, root, i, m) && LinkSlot(ls, root, j, m) ==> SameTable(ls, root, i, j)
  {
    hide Low, Huff, Pow2, Prefix;
    if LinkSlot(ls, root, i, m) && LinkSlot(ls, root, j, m) {
      SamePrefix(ls, i, j, root);
      GroupIs(ls, j, root);
      GroupFound(ls, i, GroupEnd(ls, j, root) - 1, root);
    }
  }

  /** Sub-tables do not overlap. */
  lemma {:induction false} TablesApart(ls: seq<nat>, root: nat, i: nat, j: nat, m: nat)
    requires Complete(ls, root) && i < |ls| && j < |ls| && SubSlot(ls, root, i, m) && SubSlot(ls, root, j, m)
    ensures GroupEnd(ls, i, root) == GroupEnd(ls, j, root)
  {
    hide Low, Huff, Pow2, Shr, Prefix;
    GroupIs(ls, i, root);
    GroupIs(ls, j, root);
    var a, b := GroupEnd(ls, i, root), GroupEnd(ls, j, root);
    LongerLast(ls, i, root);
    LongerLast(ls, j, root);
    if a < b { LinkedMono(ls, a, b - 1, root); } else if b < a { LinkedMono(ls, b, a - 1, root); }
  }

  lemma {:induction false} LongerLast(ls: seq<nat>, j: nat, root: nat)
    requires SortedLengths(ls) && j < |ls| && root <= MAXBITS && ls[j] > root
    ensures var e := GroupEnd(ls, j, root) - 1;
      ls[e] >= ls[j] && Linked(ls, e + 1, root) == Linked(ls, e, root) + Pow2(ls[e] - root)
  {
    hide Pow2, Prefix;
    GroupIs(ls, j, root);
  }

  lemma {:induction false} SubAlone(ls: seq<nat>, root: nat, i: nat, j: nat, m: nat)
    requires Complete(ls, root) && i < j < |ls|
    ensures !(SubSlot(ls, root, i, m) && SubSlot(ls, root, j, m))
  {
    hide Low, Huff, Pow2, Shr, Linked, Prefix;
    if SubSlot(ls, root, i, m) && SubSlot(ls, root, j, m) {
      TablesApart(ls, root, i, j, m);
      GroupIs(ls, i, root);
      GroupIs(ls, j, root);
      SamePrefix(ls, i, j, root);
      IndexesApart(ls, root, i, j, m - Base(ls, i, root));
    }
  }

  /** Codes of one sub-table share no index. */
  lemma {:induction false} IndexesApart(ls: seq<nat>, root: nat, j: nat, k: nat, i: nat)
    requires SortedLengths(ls) && Kraft(ls) <= Pow2(MAXBITS) && j < k < |ls| && root < ls[j]
    requires Low(Huff(ls, j), root) == Low(Huff(ls, k), root)
    requires Low(i, ls[j] - root) == Shr(Huff(ls, j), root)
    ensures Low(i, ls[k] - root) != Shr(Huff(ls, k), root)
  {
    hide Low, Huff, Shr, Pow2;
    var lj, lk, h := ls[j], ls[k], Huff(ls, k);
    PrefixFree(ls, j, k);
    if Low(i, lk - root) == Shr(h, root) {
      LowLow(i, lj - root, lk - root);
      LowLow(h, root, lj);
      ShrLow(h, root, lj);
      SameParts(Low(h, lj), Huff(ls, j), root);
    }
  }

  lemma {:induction false} Purpose(ls: seq<nat>, root: nat, m: nat)
    requires Complete(ls, root) && m < Entries(ls, root)
    ensures OnePurpose(ls, root, m)
  {
    hide RootSlot, LinkSlot, SubSlot, Entries, SameTable, SortedLengths, Kraft, Pow2;
    if m < Pow2(root) {
      var j := RootOwner(ls, root, m);
    } else {
      var j := SubOwner(ls, root, m);
    }
    forall i, j | 0 <= i < |ls| && 0 <= j < |ls|
      ensures RootSlot(ls, root, i, m) && RootSlot(ls, root, j, m) ==> i == j
      ensures SubSlot(ls, root, i, m) && SubSlot(ls, root, j, m) ==> i == j
      ensures LinkSlot(ls, root, i, m) && LinkSlot(ls, root, j, m) ==> SameTable(ls, root, i, j)
      ensures !(RootSlot(ls, root, i, m) && LinkSlot(ls, root, j, m))
      ensures !(RootSlot(ls, root, i, m) && SubSlot(ls, root, j, m))
      ensures !(LinkSlot(ls, root, i, m) && SubSlot(ls, root, j, m))
    {
      if i < j { RootAlone(ls, root, i, j, m); SubAlone(ls, root, i, j, m); }
      if j < i { RootAlone(ls, root, j, i, m); SubAlone(ls, root, j, i, m); }
      LinksAgree(ls, root, i, j, m);
      RootOrLink(ls, root, i, j, m);
      Regions(ls, root, i, j, m);
    }
  }

  /** Links and root entries are in the root table, the others behind it. */
  lemma {:induction false} Regions(ls: seq<nat>, root: nat, i: nat, j: nat, m: nat)
    requires i < |ls| && j < |ls| && root <= MAXBITS
    ensures !(RootSlot(ls, root, i, m) && SubSlot(ls, root, j, m))
    ensures !(LinkSlot(ls, root, i, m) && SubSlot(ls, root, j, m))
  {
    hide Low, Huff, Pow2, Shr;
    LowBound(Huff(ls, i), root);
  }
}
