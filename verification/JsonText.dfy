/** JSON values and the text that dump.c prints for them. */
module JsonText {
  import opened Bits
  import opened Utf8
  import opened JsonString

  /** A value.  An object is its hashtable's pairs in iteration order; a real is the
      text it is printed as and read from. */
  datatype Json =
    | Null | True | False
    | Integer(n: int)
    | Real(text: seq<byte>)
    | String(s: seq<byte>)
    | Array(items: seq<Json>)
    | Object(fields: seq<Field>)

  datatype Field = Field(key: seq<byte>, serial: nat, value: Json)

  // ---- integers --------------------------------------------------------------------------

  predicate IsDigit(c: byte) { 0x30 <= c <= 0x39 }

  /** The decimal digits of n. */
  function Digits(n: nat): (s: seq<byte>)
    ensures |s| >= 1 && forall i :: 0 <= i < |s| ==> IsDigit(s[i])
    ensures n > 0 ==> s[0] != 0x30
    ensures n == 0 ==> s == [0x30]
  {
    if n < 10 then [0x30 + n] else Digits(n / 10) + [0x30 + n % 10]
  }

  /** printf's %lld. */
  function Decimal(n: int): seq<byte>
  {
    if n < 0 then [0x2D] + Digits(-n) else Digits(n)
  }

  /** The number that a run of digits stands for. */
  function DigitValue(s: seq<byte>): (n: nat)
    requires forall i :: 0 <= i < |s| ==> IsDigit(s[i])
  {
    if |s| == 0 then 0
    else
      assert IsDigit(s[|s| - 1]);
      var d: int := s[|s| - 1] - 0x30;
      10 * DigitValue(s[..|s| - 1]) + d
  }

  lemma {:induction false} DigitsBack(n: nat)
    ensures DigitValue(Digits(n)) == n
  {
    if n >= 10 {
      DigitsBack(n / 10);
      assert Digits(n)[..|Digits(n)| - 1] == Digits(n / 10);
    } else {
      assert Digits(n)[..0] == [];
    }
  }

  // ---- the order of the keys ---------------------------------------------------------------

  /** strcmp(a, b) <= 0. */
  predicate KeyLeq(a: seq<byte>, b: seq<byte>)
  {
    |a| == 0 || (|b| > 0 && (a[0] < b[0] || (a[0] == b[0] && KeyLeq(a[1..], b[1..]))))
  }

  /** The order that the sorting flags ask for. */
  predicate Precedes(x: Field, y: Field, f: Flags)
  {
    if f.sortKeys then KeyLeq(x.key, y.key) else x.serial <= y.serial
  }

  /** Inserting the index of a field where it belongs among sorted ones. */
  function Insert(fields: seq<Field>, k: nat, order: seq<nat>, f: Flags): (r: seq<nat>)
    requires k < |fields| && forall i :: 0 <= i < |order| ==> order[i] < |fields|
    ensures |r| == |order| + 1 && forall i :: 0 <= i < |r| ==> r[i] < |fields|
    ensures multiset(r) == multiset(order) + multiset{k}
  {
    if |order| == 0 then [k]
    else if Precedes(fields[k], fields[order[0]], f) then [k] + order
    else
      assert order == [order[0]] + order[1..];
      [order[0]] + Insert(fields, k, order[1..], f)
  }

  /** The first n fields, sorted. */
  function Sorted(fields: seq<Field>, n: nat, f: Flags): (r: seq<nat>)
    requires n <= |fields|
    ensures |r| == n && forall i :: 0 <= i < |r| ==> r[i] < |fields|
  {
    if n == 0 then [] else Insert(fields, n - 1, Sorted(fields, n - 1, f), f)
  }

  function Identity(n: nat): (r: seq<nat>)
    ensures |r| == n && forall i :: 0 <= i < n ==> r[i] == i
  {
    if n == 0 then [] else Identity(n - 1) + [n - 1]
  }

  /** The order in which the pairs are printed. */
  function KeyOrder(fields: seq<Field>, f: Flags): (r: seq<nat>)
    ensures |r| == |fields| && forall i :: 0 <= i < |r| ==> r[i] < |fields|
  {
    if f.sortKeys || f.preserveOrder then Sorted(fields, |fields|, f) else Identity(|fields|)
  }

  // ---- the text of a value -------------------------------------------------------------------

  function Spaces(n: nat): (s: seq<byte>)
    ensures |s| == n && forall i :: 0 <= i < n ==> s[i] == 0x20
  {
    if n == 0 then [] else Spaces(n - 1) + [0x20]
  }

  /** dump_indent. */
  function Indent(f: Flags, depth: nat, space: bool): seq<byte>
  {
    if f.indent > 0 then [0x0A] + Spaces(depth * f.indent)
    else if space && !f.compact then [0x20] else []
  }

  function Separator(f: Flags): seq<byte> { if f.compact then [0x3A] else [0x3A, 0x20] }

  /** What is printed after the item before which `left` others remain. */
  function Comma(f: Flags, depth: nat, left: nat): seq<byte>
  {
    if left > 0 then [0x2C] + Indent(f, depth + 1, true) else Indent(f, depth, false)
  }

  /** Strings are UTF-8 without zero bytes, keys differ, integers fit, and there are no reals. */
  predicate Printable(v: Json)
  {
    match v
    case Real(_) => false
    case Integer(n) => -0x8000_0000_0000_0000 <= n <= 0x7FFF_FFFF_FFFF_FFFF
    case String(s) => Valid(s) && 0 !in s
    case Array(items) => forall i :: 0 <= i < |items| ==> Printable(items[i])
    case Object(fields) =>
      && DistinctKeys(fields)
      && forall i :: 0 <= i < |fields| ==> Valid(fields[i].key) && 0 !in fields[i].key && Printable(fields[i].value)
    case _ => true
  }

  predicate DistinctKeys(fields: seq<Field>)
  {
    forall i, j :: 0 <= i < j < |fields| ==> fields[i].key != fields[j].key
  }

  /** The text of a value at a nesting depth. */
  function Text(v: Json, f: Flags, depth: nat): seq<byte>
    requires Printable(v)
    decreases v
  {
    match v
    case Null => [0x6E, 0x75, 0x6C, 0x6C]
    case True => [0x74, 0x72, 0x75, 0x65]
    case False => [0x66, 0x61, 0x6C, 0x73, 0x65]
    case Integer(n) => Decimal(n)
    case Real(text) => text
    case String(s) => StringText(s, f)
    case Array(items) =>
      [0x5B] + (if |items| == 0 then [] else Indent(f, depth + 1, false) + ItemsText(items, f, depth)) + [0x5D]
    case Object(fields) =>
      [0x7B] + (if |fields| == 0 then [] else Indent(f, depth + 1, false) + FieldsText(fields, KeyOrder(fields, f), f, depth)) + [0x7D]
  }

  function ItemsText(items: seq<Json>, f: Flags, depth: nat): seq<byte>
    requires forall i :: 0 <= i < |items| ==> Printable(items[i])
    decreases items
  {
    if |items| == 0 then []
    else Text(items[0], f, depth + 1) + Comma(f, depth, |items| - 1) + ItemsText(items[1..], f, depth)
  }

  /** The fields in the order given. */
  function FieldsText(fields: seq<Field>, order: seq<nat>, f: Flags, depth: nat): seq<byte>
    requires forall i :: 0 <= i < |order| ==> order[i] < |fields|
    requires forall i :: 0 <= i < |fields| ==> Valid(fields[i].key) && Printable(fields[i].value)
    decreases fields, |order|
  {
    if |order| == 0 then []
    else
      var x := fields[order[0]];
      StringText(x.key, f) + Separator(f) + Text(x.value, f, depth + 1) + Comma(f, depth, |order| - 1)
      + FieldsText(fields, order[1..], f, depth)
  }

  // ---- equality --------------------------------------------------------------------------------

  /** json_object_get: the index of a key's pair, or -1. */
  function Find(fields: seq<Field>, key: seq<byte>): (k: int)
    ensures -1 <= k < |fields|
    ensures k >= 0 ==> fields[k].key == key
    ensures k == -1 ==> forall i :: 0 <= i < |fields| ==> fields[i].key != key
  {
    if |fields| == 0 then -1
    else if fields[|fields| - 1].key == key then |fields| - 1
    else Find(fields[..|fields| - 1], key)
  }

  /** json_equal. */
  predicate Equal(a: Json, b: Json)
    decreases a
  {
    match a
    case Array(xs) =>
      b.Array? && |xs| == |b.items| && forall i :: 0 <= i < |xs| ==> Equal(xs[i], b.items[i])
    case Object(xs) =>
      b.Object? && |xs| == |b.fields|
      && forall i :: 0 <= i < |xs| ==>
           Find(b.fields, xs[i].key) >= 0 && Equal(xs[i].value, b.fields[Find(b.fields, xs[i].key)].value)
    case _ => a == b
  }

  // ---- the order is one of all the fields, sorted --------------------------------------------------

  lemma {:induction false} SortedIsPermutation(fields: seq<Field>, n: nat, f: Flags)
    requires n <= |fields|
    ensures multiset(Sorted(fields, n, f)) == multiset(Identity(n))
    decreases n
  {
    hide Insert;
    if n > 0 { SortedIsPermutation(fields, n - 1, f); }
  }

  /** Every field is printed exactly once. */
  lemma {:induction false} OrderIsPermutation(fields: seq<Field>, f: Flags)
    ensures multiset(KeyOrder(fields, f)) == multiset(Identity(|fields|))
  {
    SortedIsPermutation(fields, |fields|, f);
  }

  lemma {:induction false} KeyLeqTotal(a: seq<byte>, b: seq<byte>)
    ensures KeyLeq(a, b) || KeyLeq(b, a)
  {
    if |a| > 0 && |b| > 0 && a[0] == b[0] { KeyLeqTotal(a[1..], b[1..]); }
  }

  lemma {:induction false} KeyLeqTransitive(a: seq<byte>, b: seq<byte>, c: seq<byte>)
    requires KeyLeq(a, b) && KeyLeq(b, c)
    ensures KeyLeq(a, c)
  {
    if |a| > 0 && a[0] == b[0] && b[0] == c[0] { KeyLeqTransitive(a[1..], b[1..], c[1..]); }
  }

  ghost predicate InOrder(fields: seq<Field>, order: seq<nat>, f: Flags)
  {
    && (forall i :: 0 <= i < |order| ==> order[i] < |fields|)
    && (forall i, j :: 0 <= i < j < |order| ==> Precedes(fields[order[i]], fields[order[j]], f))
  }

  lemma {:induction false} InsertInOrder(fields: seq<Field>, k: nat, order: seq<nat>, f: Flags)
    requires k < |fields| && InOrder(fields, order, f)
    ensures InOrder(fields, Insert(fields, k, order, f), f)
    decreases |order|
  {
    hide KeyLeq;
    if |order| > 0 {
      var r := Insert(fields, k, order, f);
      KeyLeqTotal(fields[k].key, fields[order[0]].key);
      if Precedes(fields[k], fields[order[0]], f) {
        forall j | 0 < j < |r| ensures Precedes(fields[k], fields[r[j]], f) {
          if f.sortKeys && j > 1 { KeyLeqTransitive(fields[k].key, fields[order[0]].key, fields[r[j]].key); }
        }
      } else {
        var s := Insert(fields, k, order[1..], f);
        InsertInOrder(fields, k, order[1..], f);
        forall j | 0 <= j < |s| ensures Precedes(fields[order[0]], fields[s[j]], f) {
          assert s[j] in multiset(s);
          if s[j] != k { assert s[j] in order[1..]; }
        }
      }
    }
  }

  /** With a sorting flag the pairs are printed in the order of the keys, or of their insertion. */
  lemma {:induction false} SortedInOrder(fields: seq<Field>, n: nat, f: Flags)
    requires n <= |fields|
    ensures InOrder(fields, Sorted(fields, n, f), f)
    decreases n
  {
    hide Insert, Precedes;
    if n > 0 {
      SortedInOrder(fields, n - 1, f);
      InsertInOrder(fields, n - 1, Sorted(fields, n - 1, f), f);
    }
  }
}
