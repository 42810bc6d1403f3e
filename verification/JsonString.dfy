/** JSON string literals: how dump.c writes them and how load.c reads them. */
module JsonString {
  import opened Bits
  import opened Utf8

  const QUOTE: byte := 0x22
  const BACKSLASH: byte := 0x5C
  const SLASH: byte := 0x2F
  const LETTER_U: byte := 0x75

  /** The dump flags: JSON_INDENT's width (at most 31) and the JSON_* bits. */
  datatype Flags = Flags(indent: nat, compact: bool, ensureAscii: bool, sortKeys: bool, preserveOrder: bool, escapeSlash: bool)

  // ---- writing -------------------------------------------------------------------------

  /** One hexadecimal digit, in lower case as printf's %x gives it. */
  function Hex(d: nat): (c: byte)
    requires d < 16
    ensures c < 0x80
  {
    if d < 10 then 0x30 + d else 0x57 + d
  }

  /** The sequence \\uXXXX. */
  function UnicodeEscape(v: nat): (s: seq<byte>)
    requires v < 0x10000
    ensures |s| == 6 && s[0] == BACKSLASH && s[1] == LETTER_U
  {
    [BACKSLASH, LETTER_U, Hex(v / 0x10 / 0x10 / 0x10), Hex(v / 0x10 / 0x10 % 0x10), Hex(v / 0x10 % 0x10), Hex(v % 0x10)]
  }

  /** The letter of a short escape, or 0. */
  function ShortEscape(c: nat): (l: byte)
    ensures l < 0x80
  {
    if c == 0x5C then 0x5C
    else if c == 0x22 then 0x22
    else if c == 8 then 0x62
    else if c == 12 then 0x66
    else if c == 10 then 0x6E
    else if c == 13 then 0x72
    else if c == 9 then 0x74
    else if c == 0x2F then 0x2F
    else 0
  }

  predicate Escaped(c: nat, f: Flags)
  {
    c == 0x5C || c == 0x22 || c < 0x20 || (f.escapeSlash && c == 0x2F) || (f.ensureAscii && c > 0x7F)
  }

  /** The escape sequence for a code point. */
  function EscapeText(c: nat): seq<byte>
    requires c <= 0x10FFFF
  {
    if ShortEscape(c) != 0 then [BACKSLASH, ShortEscape(c)]
    else if c < 0x10000 then UnicodeEscape(c)
    else UnicodeEscape(0xD800 + (c - 0x10000) / 0x400) + UnicodeEscape(0xDC00 + (c - 0x10000) % 0x400)
  }

  /** How one character is written. */
  function CharText(c: nat, enc: seq<byte>, f: Flags): seq<byte>
    requires c <= 0x10FFFF
  {
    if Escaped(c, f) then EscapeText(c) else enc
  }

  /** The text between the quotes. */
  function Body(s: seq<byte>, f: Flags): seq<byte>
    requires Valid(s)
  {
    if s == [] then []
    else
      var (n, c) := Char(s);
      EncodeOfChar(s);
      CharText(c, s[..n], f) + Body(s[n..], f)
  }

  function StringText(s: seq<byte>, f: Flags): seq<byte>
    requires Valid(s)
  {
    [QUOTE] + Body(s, f) + [QUOTE]
  }

  /** Where the dumped text goes; the call-back is one that does not fail. */
  class Sink {
    var text: seq<byte>

    constructor ()
      ensures text == []
    {
      text := [];
    }

    method Dump(s: seq<byte>)
      modifies this
      ensures text == old(text) + s
    {
      text := text + s;
    }
  }

  lemma {:induction false} BodyStep(s: seq<byte>, f: Flags)
    requires Valid(s) && s != []
    ensures var (n, c) := Char(s);
      n > 0 && c <= 0x10FFFF && Valid(s[n..]) && Body(s, f) == CharText(c, s[..n], f) + Body(s[n..], f)
  {
    hide Char, Encode;
    EncodeOfChar(s);
  }

  /** What dump_string has still to write when the characters from `pos` on are left. */
  ghost predicate Written(s: seq<byte>, f: Flags, str: nat, pos: nat, done: seq<byte>)
  {
    && str <= pos <= |s| && Valid(s[pos..])
    && (Valid(s) ==> done + s[str..pos] + Body(s[pos..], f) == Body(s, f))
  }

  lemma {:induction false} Regroup(a: seq<byte>, x: seq<byte>, y: seq<byte>, b: seq<byte>)
    ensures a + x + (y + b) == a + (x + y) + b && a + x + y == a + (x + y) && [] + b == b
  {
  }

  lemma {:induction false} WrittenPlain(s: seq<byte>, f: Flags, str: nat, pos: nat, done: seq<byte>)
    requires Valid(s) && Written(s, f, str, pos, done) && pos < |s| && !Escaped(Char(s[pos..]).1, f)
    ensures Char(s[pos..]).0 > 0 && Written(s, f, str, pos + Char(s[pos..]).0, done)
  {
    hide Char, Escaped, Body, Valid;
    BodyStep(s[pos..], f);
    var n := Char(s[pos..]).0;
    assert s[pos..][n..] == s[pos + n..];
    assert s[str..pos + n] == s[str..pos] + s[pos..][..n];
    Regroup(done, s[str..pos], s[pos..][..n], Body(s[pos + n..], f));
  }

  lemma {:induction false} WrittenEscaped(s: seq<byte>, f: Flags, str: nat, pos: nat, done: seq<byte>)
    requires Valid(s) && Written(s, f, str, pos, done) && pos < |s| && Escaped(Char(s[pos..]).1, f)
    ensures var (n, c) := Char(s[pos..]);
      n > 0 && c <= 0x10FFFF && Written(s, f, pos + n, pos + n, done + s[str..pos] + EscapeText(c))
  {
    hide Char, Escaped, EscapeText, Body, Valid;
    BodyStep(s[pos..], f);
    var (n, c) := Char(s[pos..]);
    assert s[pos..][n..] == s[pos + n..];
    assert s[pos + n..pos + n] == [];
    Regroup(done + s[str..pos], [], EscapeText(c), Body(s[pos + n..], f));
    Regroup(done + s[str..pos], EscapeText(c), [], Body(s[pos + n..], f));
  }

  /** dump_string.  It fails exactly on text that is not UTF-8. */
  method DumpString(s: seq<byte>, f: Flags, sink: Sink) returns (ok: bool)
    requires 0 !in s
    modifies sink
    ensures ok <==> Valid(s)
    ensures ok ==> sink.text == old(sink.text) + StringText(s, f)
  {
    hide Char, Escaped, EscapeText, ShortEscape, Body;
    sink.Dump([QUOTE]);
    var str, pos: nat, end: nat := 0, 0, 0;
    ghost var base, done := sink.text, [];
    assert s[0..] == s && s[0..0] == [];
    EmptyDone(s, f);
    while true
      invariant str == pos == end <= |s| && (Valid(s) <==> Valid(s[pos..]))
      invariant Valid(s) ==> Written(s, f, str, pos, done)
      invariant sink.text == base + done
      decreases |s| - pos
    {
      var codepoint := 0;
      ghost var start := pos;
      while end < |s|
        invariant start == str <= pos == end <= |s| && (Valid(s) <==> Valid(s[pos..]))
        invariant Valid(s) ==> Written(s, f, str, pos, done)
        invariant sink.text == base + done
        decreases |s| - pos
      {
        var e;
        e, codepoint := Iterate(s, pos);
        if e == -1 { return false; }
        end := e;
        assert s[pos..][Char(s[pos..]).0..] == s[end..];
        NextValid(s[pos..]);
        if Escaped(codepoint, f) { break; }
        if Valid(s) { WrittenPlain(s, f, str, pos, done); }
        pos := end;
      }
      Associative(base, done, s[str..pos]);
      if pos != str { sink.Dump(s[str..pos]); } else { assert done + s[str..pos] == done; }
      assert sink.text == base + (done + s[str..pos]);
      if end == pos {
        if Valid(s) { WrittenAll(s, f, str, pos, done); }
        done := done + s[str..pos];
        break;
      }
      EscapeInRange(s[pos..]);
      Associative(base, done + s[str..pos], EscapeText(codepoint));
      sink.Dump(EscapeText(codepoint));
      if Valid(s) { WrittenEscaped(s, f, str, pos, done); }
      done := done + s[str..pos] + EscapeText(codepoint);
      str, pos := end, end;
    }
    sink.Dump([QUOTE]);
    Associative(old(sink.text), [QUOTE], done);
    Associative(old(sink.text), [QUOTE] + done, [QUOTE]);
    ok := true;
  }

  lemma {:induction false} Associative(a: seq<byte>, b: seq<byte>, c: seq<byte>)
    ensures a + b + c == a + (b + c)
  {
  }

  lemma {:induction false} EmptyDone(s: seq<byte>, f: Flags)
    ensures Valid(s) ==> Written(s, f, 0, 0, [])
  {
    assert s[0..] == s && s[0..0] == [];
    if Valid(s) { assert [] + s[0..0] + Body(s[0..], f) == Body(s, f); }
  }

  lemma {:induction false} WrittenAll(s: seq<byte>, f: Flags, str: nat, pos: nat, done: seq<byte>)
    requires Valid(s) && Written(s, f, str, pos, done) && pos == |s|
    ensures done + s[str..pos] == Body(s, f)
  {
    assert Body(s[pos..], f) == [];
  }

  lemma {:induction false} NextValid(s: seq<byte>)
    requires s != []
    ensures Valid(s) <==> Char(s).0 > 0 && Valid(s[Char(s).0..])
  {
    hide Char;
  }

  lemma {:induction false} EscapeInRange(s: seq<byte>)
    requires Char(s).0 > 0
    ensures Char(s).1 <= 0x10FFFF
  {
    EncodeOfChar(s);
  }

  // ---- reading -------------------------------------------------------------------------

  /** What decode_unicode_escape makes of one character; it takes every letter for a
      digit and stops the program on anything else, which is -1 here. */
  function HexValue(c: byte): int
  {
    if 0x30 <= c <= 0x39 then c - 0x30
    else if 0x61 <= c <= 0x7A then c - 0x61 + 10
    else if 0x41 <= c <= 0x5A then c - 0x41 + 10
    else -1
  }

  /** The value of four digits, or -1. */
  function UnicodeValue(s: seq<byte>): (v: int)
    requires |s| >= 4
    ensures -1 <= v <= 0x10FFFF
  {
    if HexValue(s[0]) < 0 || HexValue(s[1]) < 0 || HexValue(s[2]) < 0 || HexValue(s[3]) < 0 then -1
    else ((HexValue(s[0]) * 0x10 + HexValue(s[1])) * 0x10 + HexValue(s[2])) * 0x10 + HexValue(s[3])
  }

  /** What a short escape stands for. */
  function Unescape(l: byte): byte
  {
    if l == 0x62 then 8 else if l == 0x66 then 12 else if l == 0x6E then 10 else if l == 0x72 then 13
    else if l == 0x74 then 9 else l
  }

  predicate ShortLetter(l: byte)
  {
    l == 0x22 || l == 0x5C || l == 0x2F || l == 0x62 || l == 0x66 || l == 0x6E || l == 0x72 || l == 0x74
  }

  /** How many bytes come before the closing quote, or -1 when there is none or
      something before it is not allowed. */
  function RawLen(t: seq<byte>): (n: int)
    ensures -1 <= n && (n >= 0 ==> n < |t| && t[n] == QUOTE)
  {
    if |t| == 0 then -1
    else if t[0] == QUOTE then 0
    else if t[0] <= 0x1F then -1
    else if t[0] == BACKSLASH then
      if |t| < 2 then -1
      else if t[1] == LETTER_U then
        if |t| < 6 then -1 else After(6, RawLen(t[6..]))
      else if ShortLetter(t[1]) then After(2, RawLen(t[2..]))
      else -1
    else After(1, RawLen(t[1..]))
  }

  function After(k: nat, n: int): int { if n < 0 then -1 else k + n }

  /** The bytes of a string, or why there are none. */
  datatype Decoded = Good(s: seq<byte>) | Bad

  function Prepend(a: seq<byte>, d: Decoded): Decoded
  {
    match d case Good(s) => Good(a + s) case Bad => Bad
  }

  /** The value of a surrogate pair. */
  function Pair(v: nat, w: nat): (c: nat)
    requires 0xD800 <= v <= 0xDBFF && 0xDC00 <= w <= 0xDFFF
    ensures 0x10000 <= c <= 0x10FFFF
  {
    (v - 0xD800) * 0x400 + (w - 0xDC00) + 0x10000
  }

  /** The string that the text between the quotes stands for. */
  function Decode(raw: seq<byte>): (d: Decoded)
    ensures d.Good? ==> |d.s| <= |raw|
  {
    if |raw| == 0 then Good([])
    else if raw[0] != BACKSLASH then Prepend([raw[0]], Decode(raw[1..]))
    else if |raw| < 2 then Bad
    else if raw[1] != LETTER_U then
      if ShortLetter(raw[1]) then Prepend([Unescape(raw[1])], Decode(raw[2..])) else Bad
    else if |raw| < 6 then Bad
    else
      var v := UnicodeValue(raw[2..6]);
      if v <= 0 || 0xDC00 <= v <= 0xDFFF then Bad
      else if 0xD800 <= v <= 0xDBFF then
        if |raw| < 12 || raw[6] != BACKSLASH || raw[7] != LETTER_U then Bad
        else
          var w := UnicodeValue(raw[8..12]);
          if 0xDC00 <= w <= 0xDFFF then Prepend(Encode(Pair(v, w)), Decode(raw[12..])) else Bad
      else Prepend(Encode(v), Decode(raw[6..]))
  }

  // ---- reading undoes writing --------------------------------------------------------------

  lemma {:induction false} HexBack(d: nat)
    requires d < 16
    ensures HexValue(Hex(d)) == d
  {
  }

  lemma {:induction false} UnicodeBack(v: nat)
    requires v < 0x10000
    ensures UnicodeValue(UnicodeEscape(v)[2..6]) == v
  {
    HexBack(v / 0x10 / 0x10 / 0x10);
    HexBack(v / 0x10 / 0x10 % 0x10);
    HexBack(v / 0x10 % 0x10);
    HexBack(v % 0x10);
    hide Hex, HexValue;
    var s := UnicodeEscape(v)[2..6];
    assert s[0] == Hex(v / 0x10 / 0x10 / 0x10) && s[1] == Hex(v / 0x10 / 0x10 % 0x10);
    assert s[2] == Hex(v / 0x10 % 0x10) && s[3] == Hex(v % 0x10);
  }

  lemma {:induction false} ShortBack(c: nat)
    requires ShortEscape(c) != 0
    ensures ShortLetter(ShortEscape(c)) && ShortEscape(c) != LETTER_U && Unescape(ShortEscape(c)) == c && c < 0x80
  {
  }

  /** An escape sequence is read back as its code point's encoding. */
  lemma {:induction false} EscapeBack(c: nat, rest: seq<byte>)
    requires Scalar(c) && c > 0
    ensures Decode(EscapeText(c) + rest) == Prepend(Encode(c), Decode(rest))
    ensures RawLen(EscapeText(c) + rest) == After(|EscapeText(c)|, RawLen(rest))
  {
    hide UnicodeEscape, UnicodeValue, ShortEscape, ShortLetter, Unescape;
    var t := EscapeText(c) + rest;
    if ShortEscape(c) != 0 {
      ShortBack(c);
      assert t[2..] == rest;
    } else if c < 0x10000 {
      UnicodeBack(c);
      assert t[2..6] == UnicodeEscape(c)[2..6];
      assert t[6..] == rest;
    } else {
      PairBack(c, rest);
    }
  }

  lemma {:induction false} PairBack(c: nat, rest: seq<byte>)
    requires 0x10000 <= c <= 0x10FFFF
    ensures var t := UnicodeEscape(0xD800 + (c - 0x10000) / 0x400) + UnicodeEscape(0xDC00 + (c - 0x10000) % 0x400) + rest;
      Decode(t) == Prepend(Encode(c), Decode(rest)) && RawLen(t) == After(12, RawLen(rest))
  {
    hide UnicodeEscape, UnicodeValue, ShortLetter;
    var v, w := 0xD800 + (c - 0x10000) / 0x400, 0xDC00 + (c - 0x10000) % 0x400;
    var a, b := UnicodeEscape(v), UnicodeEscape(w);
    var t := a + b + rest;
    UnicodeBack(v);
    UnicodeBack(w);
    assert t[2..6] == a[2..6];
    assert t[8..12] == b[2..6];
    assert t[6..] == b + rest;
    assert (b + rest)[6..] == rest;
    assert t[12..] == rest;
  }

  /** Bytes that need no escape are read as they are. */
  lemma {:induction false} PlainBack(enc: seq<byte>, rest: seq<byte>)
    requires forall i :: 0 <= i < |enc| ==> enc[i] > 0x1F && enc[i] != QUOTE && enc[i] != BACKSLASH
    ensures Decode(enc + rest) == Prepend(enc, Decode(rest))
    ensures RawLen(enc + rest) == After(|enc|, RawLen(rest))
    decreases |enc|
  {
    if enc == [] {
      assert enc + rest == rest;
      PrependNone(Decode(rest));
    } else {
      hide Decode, RawLen;
      var c, more := enc[0], enc[1..];
      assert enc == [c] + more;
      Associative([c], more, rest);
      PlainBack(more, rest);
      PlainStep(c, more + rest);
      PrependTwice([c], more, Decode(rest));
    }
  }

  lemma {:induction false} PlainStep(c: byte, rest: seq<byte>)
    requires c > 0x1F && c != QUOTE && c != BACKSLASH
    ensures Decode([c] + rest) == Prepend([c], Decode(rest)) && RawLen([c] + rest) == After(1, RawLen(rest))
  {
    assert ([c] + rest)[1..] == rest;
  }

  lemma {:induction false} PrependNone(d: Decoded)
    ensures Prepend([], d) == d
  {
    if d.Good? { assert [] + d.s == d.s; }
  }

  lemma {:induction false} PrependTwice(a: seq<byte>, b: seq<byte>, d: Decoded)
    ensures Prepend(a, Prepend(b, d)) == Prepend(a + b, d)
  {
    if d.Good? { assert a + (b + d.s) == a + b + d.s; }
  }

  lemma {:induction false} CharBack(s: seq<byte>, f: Flags, rest: seq<byte>)
    requires Char(s).0 > 0 && s[0] != 0 && Char(s).1 <= 0x10FFFF
    ensures var (n, c) := Char(s);
      var x := CharText(c, s[..n], f);
      Decode(x + rest) == Prepend(s[..n], Decode(rest)) && RawLen(x + rest) == After(|x|, RawLen(rest))
  {
    hide Encode, Value, Decode, RawLen, EscapeText;
    var (n, c) := Char(s);
    EncodeOfChar(s);
    if n == 1 { AsciiChar(s); } else { MultiByte(s); }
    if Escaped(c, f) {
      EscapeBack(c, rest);
    } else {
      PlainBack(s[..n], rest);
    }
  }

  /** Reading what was written gives the string back, whatever follows. */
  lemma {:induction false} BodyBack(s: seq<byte>, f: Flags, rest: seq<byte>)
    requires Valid(s) && 0 !in s
    ensures RawLen(Body(s, f) + [QUOTE] + rest) == |Body(s, f)|
    ensures Decode(Body(s, f)) == Good(s)
    decreases |s|
  {
    hide Char, CharText, Decode, RawLen, Valid, Body;
    if s == [] {
      NoBody(f, rest);
    } else {
      BodyStep(s, f);
      var (n, c) := Char(s);
      var x, b := CharText(c, s[..n], f), Body(s[n..], f);
      BodyBack(s[n..], f, rest);
      CharBack(s, f, b + [QUOTE] + rest);
      CharBack(s, f, b);
      JoinFour(x, b, [QUOTE], rest);
      assert s[..n] + s[n..] == s;
    }
  }

  lemma {:induction false} NoBody(f: Flags, rest: seq<byte>)
    ensures Body([], f) == [] && Decode([]) == Good([]) && RawLen([] + [QUOTE] + rest) == 0
  {
    assert [] + [QUOTE] + rest == [QUOTE] + rest;
  }

  lemma {:induction false} JoinFour(x: seq<byte>, b: seq<byte>, q: seq<byte>, rest: seq<byte>)
    ensures x + b + q + rest == x + (b + q + rest)
  {
    Associative(x, b, q + rest);
    Associative(b, q, rest);
    Associative(x + b, q, rest);
  }

  /** What is written is UTF-8 without zero bytes, as a C string must be. */
  lemma {:induction false} EscapeIsAscii(c: nat)
    requires c <= 0x10FFFF
    ensures forall i :: 0 <= i < |EscapeText(c)| ==> 0 < EscapeText(c)[i] < 0x80
  {
  }

  lemma {:induction false} BodyIsText(s: seq<byte>, f: Flags)
    requires Valid(s) && 0 !in s
    ensures Valid(Body(s, f)) && 0 !in Body(s, f)
    decreases |s|
  {
    hide Char, Encode, EscapeText, Escaped;
    if s != [] {
      BodyStep(s, f);
      var (n, c) := Char(s);
      BodyIsText(s[n..], f);
      var x := CharText(c, s[..n], f);
      if Escaped(c, f) {
        EscapeIsAscii(c);
        AsciiIsValid(x);
      } else {
        OneChar(s);
      }
      ValidConcat(x, Body(s[n..], f));
    }
  }

  lemma {:induction false} OneChar(s: seq<byte>)
    requires Char(s).0 > 0
    ensures Valid(s[..Char(s).0])
  {
    hide Char, Encode, Value;
    var (n, c) := Char(s);
    EncodeOfChar(s);
    CharOfEncode(c, []);
    assert Encode(c) + [] == Encode(c);
    assert s[..n][n..] == [];
  }
}
