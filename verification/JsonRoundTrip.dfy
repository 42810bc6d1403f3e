/** Loading what was dumped gives an equal value. */
module JsonRoundTrip {
  import opened Bits
  import opened Utf8
  import opened JsonString
  import opened JsonText
  import opened JsonParse

  // ---- tokens ------------------------------------------------------------------------------

  lemma {:induction false} SkipBlank(b: seq<byte>, t: seq<byte>)
    requires forall i :: 0 <= i < |b| ==> IsSpace(b[i])
    ensures SkipSpace(b + t) == SkipSpace(t)
  {
    if b == [] {
      assert b + t == t;
    } else {
      assert (b + t)[1..] == b[1..] + t;
      SkipBlank(b[1..], t);
    }
  }

  /** White space before a token does not matter. */
  lemma {:induction false} ScanBlank(b: seq<byte>, t: seq<byte>, complete: bool)
    requires forall i :: 0 <= i < |b| ==> IsSpace(b[i])
    ensures Scan(b + t, complete) == Scan(t, complete)
  {
    hide SkipSpace, ScanNumber, ScanString, AlphaRun, WordToken;
    SkipBlank(b, t);
  }

  lemma {:induction false} IndentIsBlank(f: Flags, depth: nat, space: bool)
    ensures forall i :: 0 <= i < |Indent(f, depth, space)| ==> IsSpace(Indent(f, depth, space)[i])
  {
    hide Spaces;
  }

  lemma {:induction false} NoSpace(t: seq<byte>)
    requires t == [] || !IsSpace(t[0])
    ensures SkipSpace(t) == t
  {
  }

  lemma {:induction false} ScanPunctuation(c: byte, rest: seq<byte>, complete: bool)
    requires IsPunctuation(c)
    ensures Scan([c] + rest, complete) == Scanned(TChar(c), rest)
  {
    NoSpace([c] + rest);
    assert ([c] + rest)[1..] == rest;
  }

  lemma {:induction false} ScanStringText(s: seq<byte>, f: Flags, rest: seq<byte>, complete: bool)
    requires Valid(s) && 0 !in s
    ensures Scan(StringText(s, f) + rest, complete) == Scanned(TString(s), rest)
  {
    hide RawLen, Decode, Body, Valid;
    var b := Body(s, f);
    var t := StringText(s, f) + rest;
    BodyBack(s, f, rest);
    NoSpace(t);
    assert t[1..] == b + [QUOTE] + rest;
    assert t[1..][..|b|] == b;
    assert t[1..][|b| + 1..] == rest;
  }

  /** What follows a value: nothing, white space, a comma or a closing bracket. */
  predicate Stops(t: seq<byte>)
  {
    t == [] || t[0] == 0x2C || t[0] == 0x5D || t[0] == 0x7D || t[0] == 0x20 || t[0] == 0x0A
  }

  lemma {:induction false} RunOfDigits(d: seq<byte>, rest: seq<byte>)
    requires (forall i :: 0 <= i < |d| ==> IsDigit(d[i])) && (rest == [] || !IsDigit(rest[0]))
    ensures DigitRun(d + rest) == |d|
    decreases |d|
  {
    if d == [] {
      assert d + rest == rest;
    } else {
      assert (d + rest)[1..] == d[1..] + rest;
      RunOfDigits(d[1..], rest);
    }
  }

  lemma {:induction false} SplitAfter(t: seq<byte>, k: nat, d: seq<byte>, rest: seq<byte>)
    requires k <= |t| && t[k..] == d + rest
    ensures |t| == k + |d| + |rest| && t[k..k + |d|] == d && t[k + |d|..] == rest
    ensures d != [] ==> t[k] == d[0]
    ensures rest != [] ==> t[k + |d|] == rest[0]
  {
    assert t[k..][..|d|] == d && t[k..][|d|..] == rest;
    assert d != [] ==> t[k..][0] == d[0];
    assert rest != [] ==> t[k..][|d|] == rest[0];
  }

  /** The digits of a number end where something else follows. */
  lemma {:induction false} NumberEnds(t: seq<byte>, k: nat, d: seq<byte>, rest: seq<byte>)
    requires k <= 1 && k <= |t| && t[k..] == d + rest && (forall i :: 0 <= i < |d| ==> IsDigit(d[i])) && Stops(rest)
    requires |d| > 0 && (d[0] == 0x30 ==> |d| == 1) && (k == 1 <==> t[0] == 0x2D)
    ensures |t| == k + |d| + |rest| && t[k..k + |d|] == d && t[k + |d|..] == rest
    ensures IntegerEnd(t) == k + |d| && !IsPoint(t, k + |d|) && !IsExponent(t, k + |d|)
  {
    hide IntegerEnd, IsPoint, IsExponent;
    SplitAfter(t, k, d, rest);
    IntegerEnds(t, k, d, rest);
    NothingFollows(t, k + |d|);
  }

  lemma {:induction false} IntegerEnds(t: seq<byte>, k: nat, d: seq<byte>, rest: seq<byte>)
    requires k <= 1 && k < |t| && t[k..] == d + rest && (forall i :: 0 <= i < |d| ==> IsDigit(d[i])) && Stops(rest)
    requires |d| > 0 && (d[0] == 0x30 ==> |d| == 1) && (k == 1 <==> t[0] == 0x2D) && t[k] == d[0]
    ensures IntegerEnd(t) == k + |d|
  {
    hide DigitRun;
    RunStops(rest);
    RunOfDigits(d, rest);
  }

  lemma {:induction false} NothingFollows(t: seq<byte>, e: nat)
    requires e <= |t| && Stops(t[e..])
    ensures !IsPoint(t, e) && !IsExponent(t, e)
  {
    if e < |t| { assert t[e..][0] == t[e]; }
  }

  lemma {:induction false} RunStops(rest: seq<byte>)
    requires Stops(rest)
    ensures rest == [] || !IsDigit(rest[0])
  {
  }

  lemma {:induction false} ScanDigits(t: seq<byte>, k: nat, d: seq<byte>, rest: seq<byte>)
    requires k <= 1 && k <= |t| && t[k..] == d + rest && (forall i :: 0 <= i < |d| ==> IsDigit(d[i])) && Stops(rest)
    requires |d| > 0 && (d[0] == 0x30 ==> |d| == 1) && (k == 1 <==> t[0] == 0x2D)
    ensures |t| > 0 && ScanNumber(t) == Scanned(IntegerToken(k == 1, d), rest)
  {
    hide IntegerEnd, IsPoint, IsExponent, IntegerToken, FractionEnd, ExponentEnd;
    NumberEnds(t, k, d, rest);
  }

  lemma {:induction false} ScanOfNumber(t: seq<byte>, complete: bool)
    requires |t| > 0 && (IsDigit(t[0]) || t[0] == 0x2D)
    ensures Scan(t, complete) == ScanNumber(t)
  {
    hide ScanNumber;
    NoSpace(t);
  }

  lemma {:induction false} ScanDecimal(n: int, rest: seq<byte>, complete: bool)
    requires -0x8000_0000_0000_0000 <= n <= 0x7FFF_FFFF_FFFF_FFFF && Stops(rest)
    ensures Scan(Decimal(n) + rest, complete) == Scanned(TInteger(n), rest)
  {
    hide Digits, DigitValue, ScanNumber, Scan;
    var m := if n < 0 then -n else n;
    var d, t := Digits(m), Decimal(n) + rest;
    DigitsBack(m);
    assert IsDigit(d[0]);
    ScanOfNumber(t, complete);
    if n < 0 {
      assert t[1..] == d + rest;
      ScanDigits(t, 1, d, rest);
    } else {
      assert t[0..] == d + rest;
      ScanDigits(t, 0, d, rest);
    }
  }

  lemma {:induction false} RunOfLetters(w: seq<byte>, rest: seq<byte>)
    requires (forall i :: 0 <= i < |w| ==> IsAlpha(w[i])) && Stops(rest)
    ensures AlphaRun(w + rest) == |w|
    decreases |w|
  {
    if w == [] {
      assert w + rest == rest;
    } else {
      assert (w + rest)[1..] == w[1..] + rest;
      RunOfLetters(w[1..], rest);
    }
  }

  lemma {:induction false} ScanWord(w: seq<byte>, rest: seq<byte>, complete: bool)
    requires |w| > 0 && (forall i :: 0 <= i < |w| ==> IsAlpha(w[i])) && Stops(rest)
    ensures Scan(w + rest, complete) == Scanned(WordToken(w), rest)
  {
    hide AlphaRun, WordToken;
    RunOfLetters(w, rest);
    assert IsAlpha(w[0]);
    NoSpace(w + rest);
    assert (w + rest)[..|w|] == w && (w + rest)[|w|..] == rest;
  }

  // ---- the value that comes back -----------------------------------------------------------------

  /** The value with its pairs in printing order and numbered afresh. */
  function Canon(v: Json, f: Flags): Json
    decreases v
  {
    match v
    case Array(items) => Array(CanonItems(items, f))
    case Object(fields) => Object(CanonFields(fields, KeyOrder(fields, f), f, 0))
    case _ => v
  }

  function CanonItems(items: seq<Json>, f: Flags): (r: seq<Json>)
    ensures |r| == |items|
    decreases items
  {
    if |items| == 0 then [] else [Canon(items[0], f)] + CanonItems(items[1..], f)
  }

  function CanonFields(fields: seq<Field>, order: seq<nat>, f: Flags, serial: nat): (r: seq<Field>)
    requires forall i :: 0 <= i < |order| ==> order[i] < |fields|
    ensures |r| == |order|
    ensures forall i :: 0 <= i < |r| ==> r[i].key == fields[order[i]].key
    decreases fields, |order|
  {
    if |order| == 0 then []
    else
      var x := fields[order[0]];
      [Field(x.key, serial, Canon(x.value, f))] + CanonFields(fields, order[1..], f, serial + 1)
  }

  lemma {:induction false} CanonItemAt(items: seq<Json>, f: Flags, i: nat)
    requires i < |items|
    ensures CanonItems(items, f)[i] == Canon(items[i], f)
    decreases |items|
  {
    hide Canon;
    if i > 0 { CanonItemAt(items[1..], f, i - 1); }
  }

  lemma {:induction false} CanonFieldAt(fields: seq<Field>, order: seq<nat>, f: Flags, serial: nat, i: nat)
    requires (forall j :: 0 <= j < |order| ==> order[j] < |fields|) && i < |order|
    ensures CanonFields(fields, order, f, serial)[i].value == Canon(fields[order[i]].value, f)
    decreases |order|
  {
    hide Canon;
    if i > 0 { CanonFieldAt(fields, order[1..], f, serial + 1, i - 1); }
  }

  /** It is equal to the original: reordering the pairs does not show. */
  lemma {:induction false} CanonEqual(v: Json, f: Flags)
    requires Printable(v)
    ensures Equal(v, Canon(v, f))
    decreases v
  {
    hide KeyOrder, CanonItems, CanonFields;
    match v
    case Array(items) =>
      forall i | 0 <= i < |items| ensures Equal(items[i], CanonItems(items, f)[i]) {
        CanonItemAt(items, f, i);
        CanonEqual(items[i], f);
      }
    case Object(fields) =>
      var order := KeyOrder(fields, f);
      var c := CanonFields(fields, order, f, 0);
      forall i | 0 <= i < |fields|
        ensures Find(c, fields[i].key) >= 0 && Equal(fields[i].value, c[Find(c, fields[i].key)].value)
      {
        FieldFound(fields, f, i);
        CanonEqual(fields[i].value, f);
      }
    case _ =>
  }

  /** A pair is found under its key among the reordered ones. */
  lemma {:induction false} FieldFound(fields: seq<Field>, f: Flags, i: nat)
    requires i < |fields| && DistinctKeys(fields)
    ensures var c := CanonFields(fields, KeyOrder(fields, f), f, 0);
      Find(c, fields[i].key) >= 0 && c[Find(c, fields[i].key)].value == Canon(fields[i].value, f)
  {
    hide KeyOrder, CanonFields, Canon, Find;
    var order := KeyOrder(fields, f);
    var c := CanonFields(fields, order, f, 0);
    OrderIsPermutation(fields, f);
    assert Identity(|fields|)[i] == i;
    assert i in multiset(Identity(|fields|));
    assert i in order;
    var p :| 0 <= p < |order| && order[p] == i;
    assert c[p].key == fields[i].key;
    var k := Find(c, fields[i].key);
    assert k >= 0;
    assert fields[order[k]].key == fields[i].key;
    CanonFieldAt(fields, order, f, 0, k);
  }

  // ---- parsing the text ------------------------------------------------------------------------------

  /** The text t is scanned and parsed as v, with rest left over. */
  ghost predicate Reads(t: seq<byte>, complete: bool, lf: LoadFlags, v: Json, rest: seq<byte>)
  {
    var s := Scan(t, complete);
    s.token != TEof && s.token != TInvalid && s.token != TChar(0x5D) && ParseValue(s.token, s.rest, complete, lf) == Parsed(v, rest)
  }

  lemma {:induction false} CommaStops(f: Flags, depth: nat, left: nat, c: byte, rest: seq<byte>)
    requires c == 0x5D || c == 0x7D
    ensures left > 0 ==> Stops(Comma(f, depth, left) + rest)
    ensures Stops(Comma(f, depth, 0) + ([c] + rest))
  {
    hide Spaces;
  }

  /** Dumping and scanning and parsing again. */
  lemma {:induction false} ValueBack(v: Json, f: Flags, depth: nat, rest: seq<byte>, complete: bool, lf: LoadFlags)
    requires Printable(v) && Stops(rest)
    ensures Reads(Text(v, f, depth) + rest, complete, lf, Canon(v, f), rest)
    decreases v, 1
  {
    hide Scan, Digits, Body, ParseItems, ParseFields, CanonItems, CanonFields, ItemsText, FieldsText, KeyOrder, Indent;
    match v
    case Null => ScanWord([0x6E, 0x75, 0x6C, 0x6C], rest, complete);
    case True => ScanWord([0x74, 0x72, 0x75, 0x65], rest, complete);
    case False => ScanWord([0x66, 0x61, 0x6C, 0x73, 0x65], rest, complete);
    case Integer(n) => ScanDecimal(n, rest, complete);
    case Real(_) => assert false;
    case String(s) => ScanStringText(s, f, rest, complete);
    case Array(items) => ArrayBack(items, f, depth, rest, complete, lf);
    case Object(fields) => ObjectBack(fields, f, depth, rest, complete, lf);
  }

  lemma {:induction false} ArrayText(items: seq<Json>, f: Flags, depth: nat, rest: seq<byte>)
    requires Printable(Array(items))
    ensures Text(Array(items), f, depth) + rest ==
      if |items| == 0 then [0x5B] + ([0x5D] + rest)
      else [0x5B] + (Indent(f, depth + 1, false) + (ItemsText(items, f, depth) + ([0x5D] + rest)))
  {
    hide ItemsText, Indent;
  }

  lemma {:induction false} ArrayBack(items: seq<Json>, f: Flags, depth: nat, rest: seq<byte>, complete: bool, lf: LoadFlags)
    requires Printable(Array(items)) && Stops(rest)
    ensures Reads(Text(Array(items), f, depth) + rest, complete, lf, Canon(Array(items), f), rest)
    decreases items, 3
  {
    hide Scan, ParseItems, ParseFields, CanonItems, ItemsText, Indent, Text;
    ArrayText(items, f, depth, rest);
    ScanPunctuation(0x5D, rest, complete);
    if |items| == 0 {
      var t := [0x5D] + rest;
      ScanPunctuation(0x5B, t, complete);
      assert CanonItems(items, f) == [];
    } else {
      var b, x := Indent(f, depth + 1, false), ItemsText(items, f, depth);
      var t := b + (x + ([0x5D] + rest));
      ScanPunctuation(0x5B, t, complete);
      IndentIsBlank(f, depth + 1, false);
      ScanBlank(b, x + ([0x5D] + rest), complete);
      ItemsBack(items, f, depth, rest, complete, lf, []);
      assert [] + CanonItems(items, f) == CanonItems(items, f);
    }
  }

  lemma {:induction false} ItemsBack(items: seq<Json>, f: Flags, depth: nat, rest: seq<byte>, complete: bool, lf: LoadFlags, acc: seq<Json>)
    requires |items| > 0 && forall i :: 0 <= i < |items| ==> Printable(items[i])
    ensures var s := Scan(ItemsText(items, f, depth) + ([0x5D] + rest), complete);
      && s.token != TEof && s.token != TInvalid && s.token != TChar(0x5D)
      && ParseItems(s.token, s.rest, complete, lf, acc) == Parsed(Array(acc + CanonItems(items, f)), rest)
    decreases items, 2
  {
    hide Scan, ParseValue, Text, Canon, Comma;
    var v, more := items[0], items[1..];
    var a, c, y := Text(v, f, depth + 1), Comma(f, depth, |more|), ItemsText(more, f, depth);
    var after := c + (y + ([0x5D] + rest));
    assert ItemsText(items, f, depth) + ([0x5D] + rest) == a + after;
    if |more| == 0 {
      assert y + ([0x5D] + rest) == [0x5D] + rest;
    }
    CommaStops(f, depth, |more|, 0x5D, if |more| == 0 then rest else y + ([0x5D] + rest));
    ValueBack(v, f, depth + 1, after, complete, lf);
    assert acc + CanonItems(items, f) == acc + [Canon(v, f)] + CanonItems(more, f);
    assert |more| == 0 ==> acc + CanonItems(items, f) == acc + [Canon(v, f)];
    ScanComma(f, depth, |more|, 0x5D, y + ([0x5D] + rest), rest, complete);
    if |more| > 0 { ItemsBack(more, f, depth, rest, complete, lf, acc + [Canon(v, f)]); }
  }

  /** Between two items there is a comma and white space, behind the last one white
      space and the closing bracket. */
  lemma {:induction false} ScanComma(f: Flags, depth: nat, left: nat, close: byte, t: seq<byte>, rest: seq<byte>, complete: bool)
    requires (close == 0x5D || close == 0x7D) && (left == 0 ==> t == [close] + rest)
    ensures var s := Scan(Comma(f, depth, left) + t, complete);
      if left > 0 then s.token == TChar(0x2C) && Scan(s.rest, complete) == Scan(t, complete)
      else s == Scanned(TChar(close), rest)
  {
    hide Scan, Indent;
    if left > 0 {
      var b := Indent(f, depth + 1, true);
      IndentIsBlank(f, depth + 1, true);
      ScanPunctuation(0x2C, b + t, complete);
      assert Comma(f, depth, left) + t == [0x2C] + (b + t);
      ScanBlank(b, t, complete);
    } else {
      IndentIsBlank(f, depth, false);
      ScanBlank(Indent(f, depth, false), t, complete);
      ScanPunctuation(close, rest, complete);
    }
  }

  lemma {:induction false} ObjectText(fields: seq<Field>, f: Flags, depth: nat, rest: seq<byte>)
    requires Printable(Object(fields))
    ensures Text(Object(fields), f, depth) + rest ==
      if |fields| == 0 then [0x7B] + ([0x7D] + rest)
      else [0x7B] + (Indent(f, depth + 1, false) + (FieldsText(fields, KeyOrder(fields, f), f, depth) + ([0x7D] + rest)))
  {
    hide FieldsText, KeyOrder, Indent;
  }

  lemma {:induction false} ObjectBack(fields: seq<Field>, f: Flags, depth: nat, rest: seq<byte>, complete: bool, lf: LoadFlags)
    requires Printable(Object(fields)) && Stops(rest)
    ensures Reads(Text(Object(fields), f, depth) + rest, complete, lf, Canon(Object(fields), f), rest)
    decreases fields, |fields| + 3
  {
    hide Scan, ParseItems, ParseFields, CanonFields, FieldsText, Indent, KeyOrder, Text;
    var order := KeyOrder(fields, f);
    ObjectText(fields, f, depth, rest);
    ScanPunctuation(0x7D, rest, complete);
    if |fields| == 0 {
      var t := [0x7D] + rest;
      ScanPunctuation(0x7B, t, complete);
      assert CanonFields(fields, order, f, 0) == [];
    } else {
      var b, x := Indent(f, depth + 1, false), FieldsText(fields, order, f, depth);
      var t := b + (x + ([0x7D] + rest));
      ScanPunctuation(0x7B, t, complete);
      IndentIsBlank(f, depth + 1, false);
      ScanBlank(b, x + ([0x7D] + rest), complete);
      OrderIsDistinct(fields, f);
      FieldsBack(fields, order, f, depth, rest, complete, lf, []);
      assert [] + CanonFields(fields, order, f, 0) == CanonFields(fields, order, f, 0);
    }
  }

  ghost predicate Distinct(order: seq<nat>)
  {
    forall i, j :: 0 <= i < j < |order| ==> order[i] != order[j]
  }

  lemma {:induction false} OrderIsDistinct(fields: seq<Field>, f: Flags)
    ensures Distinct(KeyOrder(fields, f))
  {
    hide KeyOrder;
    var order, id := KeyOrder(fields, f), Identity(|fields|);
    OrderIsPermutation(fields, f);
    IdentityOnce(|fields|);
    forall i, j | 0 <= i < j < |order| ensures order[i] != order[j] {
      if order[i] == order[j] { Twice(order, i, j); }
    }
  }

  lemma {:induction false} Twice(s: seq<nat>, i: nat, j: nat)
    requires i < j < |s| && s[i] == s[j]
    ensures multiset(s)[s[i]] >= 2
  {
    assert s == s[..j] + s[j..];
    assert s[..j][i] in multiset(s[..j]) && s[j..][0] in multiset(s[j..]);
  }

  lemma {:induction false} IdentityOnce(n: nat)
    ensures forall k :: multiset(Identity(n))[k] <= 1
    ensures forall k :: k >= n ==> multiset(Identity(n))[k] == 0
  {
    if n > 0 { IdentityOnce(n - 1); }
  }

  /** The keys read so far are none of those to come. */
  ghost predicate NotYet(fields: seq<Field>, order: seq<nat>, acc: seq<Field>)
    requires forall i :: 0 <= i < |order| ==> order[i] < |fields|
  {
    forall i, j :: 0 <= i < |order| && 0 <= j < |acc| ==> acc[j].key != fields[order[i]].key
  }

  /** One turn of the loop of parse_object. */
  lemma {:induction false} FieldStep(key: seq<byte>, t: seq<byte>, u: seq<byte>, v: Json, after: seq<byte>, complete: bool, lf: LoadFlags, acc: seq<Field>)
    requires forall j :: 0 <= j < |acc| ==> acc[j].key != key
    requires Scan(t, complete).token == TChar(0x3A) && Scan(Scan(t, complete).rest, complete) == Scan(u, complete)
    requires Reads(u, complete, lf, v, after)
    ensures ParseFields(TString(key), t, complete, lf, acc, |acc|) ==
      var acc', s := acc + [Field(key, |acc|, v)], Scan(after, complete);
      if s.token == TChar(0x2C) then
        ParseFields(Scan(s.rest, complete).token, Scan(s.rest, complete).rest, complete, lf, acc', |acc'|)
      else if s.token == TChar(0x7D) then Parsed(Object(acc'), s.rest)
      else Failed
  {
    hide Scan, ParseValue, Find;
    assert Find(acc, key) == -1;
  }

  lemma {:induction false} FieldsBack(fields: seq<Field>, order: seq<nat>, f: Flags, depth: nat, rest: seq<byte>, complete: bool, lf: LoadFlags, acc: seq<Field>)
    requires Printable(Object(fields)) && |order| > 0 && forall i :: 0 <= i < |order| ==> order[i] < |fields|
    requires Distinct(order) && NotYet(fields, order, acc)
    ensures var s := Scan(FieldsText(fields, order, f, depth) + ([0x7D] + rest), complete);
      && s.token != TEof && s.token != TInvalid && s.token != TChar(0x7D)
      && ParseFields(s.token, s.rest, complete, lf, acc, |acc|)
         == Parsed(Object(acc + CanonFields(fields, order, f, |acc|)), rest)
    decreases fields, |order|
  {
    hide Scan, ParseFields, Reads, Text, Canon, Comma, StringText, Separator;
    var x, more := fields[order[0]], order[1..];
    var k, a, c, y := StringText(x.key, f), Text(x.value, f, depth + 1), Comma(f, depth, |more|), FieldsText(fields, more, f, depth);
    var end := y + ([0x7D] + rest);
    var after := c + end;
    FieldsTextStep(fields, order, f, depth, [0x7D] + rest);
    ScanStringText(x.key, f, Separator(f) + (a + after), complete);
    if |more| == 0 { assert end == [0x7D] + rest; }
    CommaStops(f, depth, |more|, 0x7D, if |more| == 0 then rest else end);
    ValueBack(x.value, f, depth + 1, after, complete, lf);
    ScanSeparator(f, a + after, complete);
    var field := Field(x.key, |acc|, Canon(x.value, f));
    FieldStep(x.key, Separator(f) + (a + after), a + after, field.value, after, complete, lf, acc);
    ScanComma(f, depth, |more|, 0x7D, end, rest, complete);
    CanonFieldsStep(fields, order, f, acc);
    if |more| > 0 {
      StillNotYet(fields, order, acc, field);
      FieldsBack(fields, more, f, depth, rest, complete, lf, acc + [field]);
    }
  }

  lemma {:induction false} FieldsTextStep(fields: seq<Field>, order: seq<nat>, f: Flags, depth: nat, t: seq<byte>)
    requires |order| > 0 && forall i :: 0 <= i < |order| ==> order[i] < |fields|
    requires forall i :: 0 <= i < |fields| ==> Valid(fields[i].key) && Printable(fields[i].value)
    ensures var x, more := fields[order[0]], order[1..];
      FieldsText(fields, order, f, depth) + t
      == StringText(x.key, f) + (Separator(f) + (Text(x.value, f, depth + 1) + (Comma(f, depth, |more|) + (FieldsText(fields, more, f, depth) + t))))
  {
    hide Text, Comma, StringText, Separator, Valid, Printable;
  }

  lemma {:induction false} CanonFieldsStep(fields: seq<Field>, order: seq<nat>, f: Flags, acc: seq<Field>)
    requires |order| > 0 && forall i :: 0 <= i < |order| ==> order[i] < |fields|
    ensures var acc' := acc + [Field(fields[order[0]].key, |acc|, Canon(fields[order[0]].value, f))];
      && acc + CanonFields(fields, order, f, |acc|) == acc' + CanonFields(fields, order[1..], f, |acc'|)
      && (|order| == 1 ==> acc + CanonFields(fields, order, f, |acc|) == acc')
  {
    hide Canon;
  }

  lemma {:induction false} StillNotYet(fields: seq<Field>, order: seq<nat>, acc: seq<Field>, field: Field)
    requires DistinctKeys(fields) && |order| > 0 && forall i :: 0 <= i < |order| ==> order[i] < |fields|
    requires Distinct(order) && NotYet(fields, order, acc) && field.key == fields[order[0]].key
    ensures Distinct(order[1..]) && NotYet(fields, order[1..], acc + [field])
  {
    forall i | 0 < i < |order| ensures fields[order[i]].key != field.key {
      if order[i] < order[0] { assert fields[order[i]].key != fields[order[0]].key; }
    }
  }

  lemma {:induction false} ScanSeparator(f: Flags, t: seq<byte>, complete: bool)
    ensures var s := Scan(Separator(f) + t, complete);
      s.token == TChar(0x3A) && Scan(s.rest, complete) == Scan(t, complete)
  {
    hide Scan;
    if f.compact {
      ScanPunctuation(0x3A, t, complete);
    } else {
      ScanPunctuation(0x3A, [0x20] + t, complete);
      assert Separator(f) + t == [0x3A] + ([0x20] + t);
      ScanBlank([0x20], t, complete);
    }
  }

  // ---- the text is one that can be loaded -------------------------------------------------------------

  /** UTF-8 without zero bytes: what a C string given to json_loads has to be. */
  ghost predicate Clean(t: seq<byte>) { Valid(t) && 0 !in t }

  lemma {:induction false} CleanConcat(a: seq<byte>, b: seq<byte>)
    requires Clean(a) && Clean(b)
    ensures Clean(a + b)
  {
    hide Valid;
    ValidConcat(a, b);
  }

  lemma {:induction false} CleanAscii(t: seq<byte>)
    requires forall i :: 0 <= i < |t| ==> 0 < t[i] < 0x80
    ensures Clean(t)
  {
    AsciiIsValid(t);
  }

  lemma {:induction false} CleanString(s: seq<byte>, f: Flags)
    requires Valid(s) && 0 !in s
    ensures Clean(StringText(s, f))
  {
    hide Valid, Body;
    BodyIsText(s, f);
    CleanAscii([QUOTE]);
    CleanConcat([QUOTE], Body(s, f));
    CleanConcat([QUOTE] + Body(s, f), [QUOTE]);
  }

  lemma {:induction false} CleanSpacing(f: Flags, depth: nat, space: bool, left: nat)
    ensures Clean(Indent(f, depth, space)) && Clean(Comma(f, depth, left)) && Clean(Separator(f))
  {
    hide Valid, Spaces;
    CleanAscii(Indent(f, depth, space));
    CleanAscii(Comma(f, depth, left));
    CleanAscii(Separator(f));
  }

  lemma {:induction false} CleanDecimal(n: int)
    ensures Clean(Decimal(n))
  {
    hide Digits, Valid;
    CleanAscii(Decimal(n));
  }

  lemma {:induction false} CleanText(v: Json, f: Flags, depth: nat)
    requires Printable(v)
    ensures Clean(Text(v, f, depth))
    decreases v, 1
  {
    hide Clean, Valid, Decimal, StringText, ItemsText, FieldsText, KeyOrder, Indent;
    match v
    case Null => CleanAscii(Text(v, f, depth));
    case True => CleanAscii(Text(v, f, depth));
    case False => CleanAscii(Text(v, f, depth));
    case Integer(n) => CleanDecimal(n);
    case Real(_) =>
    case String(s) => CleanString(s, f);
    case Array(items) =>
      CleanItems(items, f, depth);
      CleanSpacing(f, depth + 1, false, 0);
      CleanBrackets(0x5B, Indent(f, depth + 1, false), ItemsText(items, f, depth), 0x5D);
    case Object(fields) =>
      CleanFields(fields, KeyOrder(fields, f), f, depth);
      CleanSpacing(f, depth + 1, false, 0);
      CleanBrackets(0x7B, Indent(f, depth + 1, false), FieldsText(fields, KeyOrder(fields, f), f, depth), 0x7D);
  }

  lemma {:induction false} CleanBrackets(open: byte, a: seq<byte>, b: seq<byte>, close: byte)
    requires 0 < open < 0x80 && 0 < close < 0x80 && Clean(a) && Clean(b)
    ensures Clean([open] + (a + b) + [close]) && Clean([open] + [] + [close])
  {
    hide Clean;
    CleanAscii([open]);
    CleanAscii([close]);
    CleanConcat(a, b);
    CleanConcat([open], a + b);
    CleanConcat([open] + (a + b), [close]);
    CleanConcat([open], [close]);
    assert [open] + [] == [open];
  }

  lemma {:induction false} CleanItems(items: seq<Json>, f: Flags, depth: nat)
    requires forall i :: 0 <= i < |items| ==> Printable(items[i])
    ensures Clean(ItemsText(items, f, depth))
    decreases items, 0
  {
    hide Clean, Text, Comma;
    if |items| == 0 {
      CleanAscii([]);
    } else {
      var a, c := Text(items[0], f, depth + 1), Comma(f, depth, |items| - 1);
      CleanText(items[0], f, depth + 1);
      CleanSpacing(f, depth, false, |items| - 1);
      CleanItems(items[1..], f, depth);
      CleanConcat(a, c);
      CleanConcat(a + c, ItemsText(items[1..], f, depth));
    }
  }

  lemma {:induction false} CleanFields(fields: seq<Field>, order: seq<nat>, f: Flags, depth: nat)
    requires forall i :: 0 <= i < |order| ==> order[i] < |fields|
    requires forall i :: 0 <= i < |fields| ==> Valid(fields[i].key) && 0 !in fields[i].key && Printable(fields[i].value)
    ensures Clean(FieldsText(fields, order, f, depth))
    decreases fields, |order|, 0
  {
    hide Clean, Text, Comma, Separator, StringText, Valid;
    if |order| == 0 {
      CleanAscii([]);
    } else {
      var x := fields[order[0]];
      var k, p, a, c := StringText(x.key, f), Separator(f), Text(x.value, f, depth + 1), Comma(f, depth, |order| - 1);
      CleanString(x.key, f);
      CleanText(x.value, f, depth + 1);
      CleanSpacing(f, depth, false, |order| - 1);
      CleanFields(fields, order[1..], f, depth);
      CleanConcat(k, p);
      CleanConcat(k + p, a);
      CleanConcat(k + p + a, c);
      CleanConcat(k + p + a + c, FieldsText(fields, order[1..], f, depth));
    }
  }

  /** json_loads of json_dumps: for every value without reals, whatever the dump flags,
      loading succeeds, uses the whole text, and gives an equal value. */
  lemma {:induction false} RoundTrip(v: Json, f: Flags, lf: LoadFlags)
    requires Printable(v) && (lf.decodeAny || v.Array? || v.Object?)
    ensures Load(Text(v, f, 0), lf) == Parsed(Canon(v, f), []) && Equal(v, Canon(v, f))
  {
    hide Valid, Canon, ParseValue, ValidPrefix;
    var t := Text(v, f, 0);
    CleanText(v, f, 0);
    ValidPrefixOfValid(t);
    ValueBack(v, f, 0, [], true, lf);
    assert t + [] == t;
    NoSpace([]);
    CanonEqual(v, f);
    OpeningToken(v, f);
  }

  /** The text of an array or object begins with its bracket. */
  lemma {:induction false} OpeningToken(v: Json, f: Flags)
    requires Printable(v)
    ensures v.Array? ==> Scan(Text(v, f, 0), true).token == TChar(0x5B)
    ensures v.Object? ==> Scan(Text(v, f, 0), true).token == TChar(0x7B)
  {
    hide Scan, Indent, ItemsText, FieldsText, KeyOrder;
    var t := Text(v, f, 0);
    if v.Array? || v.Object? {
      assert t == [t[0]] + t[1..];
      ScanPunctuation(t[0], t[1..], true);
    }
  }

  lemma {:induction false} BracketsGiveContainers(t: seq<byte>, complete: bool, lf: LoadFlags)
    ensures var r := ParseValue(TChar(0x5B), t, complete, lf); r.Parsed? ==> r.v.Array?
    ensures var r := ParseValue(TChar(0x7B), t, complete, lf); r.Parsed? ==> r.v.Object?
  {
    hide Scan, ParseItems, ParseFields;
    var s := Scan(t, complete);
    ItemsGiveArray(s.token, s.rest, complete, lf, []);
    FieldsGiveObject(s.token, s.rest, complete, lf, [], 0);
  }

  lemma {:induction false} ItemsGiveArray(tok: Token, t: seq<byte>, complete: bool, lf: LoadFlags, items: seq<Json>)
    ensures var r := ParseItems(tok, t, complete, lf, items); r.Parsed? ==> r.v.Array?
    decreases |t|
  {
    hide Scan, ParseValue;
    var p := ParseValue(tok, t, complete, lf);
    if p.Parsed? {
      var s := Scan(p.rest, complete);
      if s.token == TChar(0x2C) {
        var s' := Scan(s.rest, complete);
        if s'.token != TEof { ItemsGiveArray(s'.token, s'.rest, complete, lf, items + [p.v]); }
      }
    }
  }

  lemma {:induction false} FieldsGiveObject(tok: Token, t: seq<byte>, complete: bool, lf: LoadFlags, fields: seq<Field>, serial: nat)
    ensures var r := ParseFields(tok, t, complete, lf, fields, serial); r.Parsed? ==> r.v.Object?
    decreases |t|
  {
    hide Scan, ParseValue, SetField, Find;
    if tok.TString? && !(lf.rejectDuplicates && Find(fields, tok.s) >= 0) {
      var s := Scan(t, complete);
      if s.token == TChar(0x3A) {
        var s1 := Scan(s.rest, complete);
        var p := ParseValue(s1.token, s1.rest, complete, lf);
        if p.Parsed? {
          var s2 := Scan(p.rest, complete);
          if s2.token == TChar(0x2C) {
            var s3 := Scan(s2.rest, complete);
            FieldsGiveObject(s3.token, s3.rest, complete, lf, SetField(fields, tok.s, serial, p.v), serial + 1);
          }
        }
      }
    }
  }

  /** Without the flag that lets any value through, the text of a leaf is not loaded. */
  lemma {:induction false} LeafRefused(v: Json, f: Flags, lf: LoadFlags)
    requires Printable(v) && !lf.decodeAny && !v.Array? && !v.Object?
    ensures Load(Text(v, f, 0), lf) == Failed
  {
    hide Valid, ParseValue, ValidPrefix;
    var t := Text(v, f, 0);
    CleanText(v, f, 0);
    ValidPrefixOfValid(t);
    ValueBack(v, f, 0, [], true, lf);
    assert t + [] == t;
    BracketsGiveContainers(Scan(t, true).rest, true, lf);
  }
}
