/** utf.c: encoding, decoding and checking UTF-8 (section 3 of RFC 3629). */
module Utf8 {
  import opened Bits

  /** Unicode scalar values: code points other than the surrogates. */
  predicate Scalar(c: int) { 0 <= c < 0xD800 || 0xE000 <= c <= 0x10FFFF }

  type scalar = c: nat | Scalar(c)

  /** utf8_encode on the code points it accepts. */
  function Encode(c: nat): (s: seq<byte>)
    requires c <= 0x10FFFF
    ensures 1 <= |s| <= 4
  {
    if c < 0x80 then [c]
    else if c < 0x800 then [0xC0 + c / 0x40, 0x80 + c % 0x40]
    else if c < 0x10000 then [0xE0 + c / 0x40 / 0x40, 0x80 + c / 0x40 % 0x40, 0x80 + c % 0x40]
    else [0xF0 + c / 0x40 / 0x40 / 0x40, 0x80 + c / 0x40 / 0x40 % 0x40, 0x80 + c / 0x40 % 0x40, 0x80 + c % 0x40]
  }

  /** The encoding of a text. */
  function EncodeAll(cs: seq<scalar>): seq<byte>
  {
    if |cs| == 0 then [] else Encode(cs[0]) + EncodeAll(cs[1..])
  }

  /** utf8_check_first: the length that the first byte announces, or 0. */
  function CheckFirst(u: byte): (n: nat)
    ensures n <= 4
  {
    if u < 0x80 then 1
    else if u <= 0xBF then 0
    else if u == 0xC0 || u == 0xC1 then 0
    else if u <= 0xDF then 2
    else if u <= 0xEF then 3
    else if u <= 0xF4 then 4
    else 0
  }

  predicate Continuation(u: byte) { 0x80 <= u <= 0xBF }

  /** The value of the first byte of a sequence of n bytes. */
  function Lead(u: byte, n: nat): nat
  {
    if n == 2 then u % 0x20 else if n == 3 then u % 0x10 else u % 8
  }

  /** Six more bits. */
  function Six(v: nat, u: byte): nat { v * 0x40 + u % 0x40 }

  /** The value of the first k bytes of a sequence of n bytes. */
  function Value(s: seq<byte>, n: nat, k: nat): nat
    requires 1 <= k <= |s|
  {
    if k == 1 then Lead(s[0], n) else Six(Value(s, n, k - 1), s[k - 1])
  }

  /** A value that n bytes may stand for: in range, no surrogate, not overlong. */
  predicate Acceptable(v: nat, n: nat)
  {
    && Scalar(v)
    && (n == 2 ==> v >= 0x80) && (n == 3 ==> v >= 0x800) && (n == 4 ==> v >= 0x10000)
  }

  /** The length of the valid sequence at the front of s, or 0, and its code point. */
  function Char(s: seq<byte>): (r: (nat, nat))
    ensures r.0 <= |s| && r.0 <= 4
  {
    if |s| == 0 then (0, 0)
    else
      var n := CheckFirst(s[0]);
      if n <= 1 then (n, if n == 1 then s[0] else 0)
      else if n > |s| then (0, 0)
      else if (forall i :: 1 <= i < n ==> Continuation(s[i])) && Acceptable(Value(s, n, n), n) then (n, Value(s, n, n))
      else (0, 0)
  }

  /** The text is a sequence of valid sequences. */
  predicate Valid(s: seq<byte>)
  {
    s == [] || (Char(s).0 > 0 && Valid(s[Char(s).0..]))
  }

  // ---- what a sequence stands for ---------------------------------------------------

  lemma {:induction false} Values(s: seq<byte>)
    ensures |s| >= 2 ==> Value(s, 2, 2) == Six(Lead(s[0], 2), s[1])
    ensures |s| >= 3 ==> Value(s, 3, 3) == Six(Six(Lead(s[0], 3), s[1]), s[2])
    ensures |s| >= 4 ==> Value(s, 4, 4) == Six(Six(Six(Lead(s[0], 4), s[1]), s[2]), s[3])
  {
    if |s| >= 3 { assert Value(s, 3, 2) == Six(Lead(s[0], 3), s[1]); }
    if |s| >= 4 {
      assert Value(s, 4, 2) == Six(Lead(s[0], 4), s[1]);
      assert Value(s, 4, 3) == Six(Value(s, 4, 2), s[2]);
    }
  }

  /** Splitting off six bits and putting them back. */
  lemma {:induction false} SplitSix(c: nat)
    ensures Six(c / 0x40, 0x80 + c % 0x40) == c
  {
  }

  lemma {:induction false} JoinSix(v: nat, u: byte)
    requires Continuation(u)
    ensures Six(v, u) / 0x40 == v && 0x80 + Six(v, u) % 0x40 == u
  {
  }

  /** The first byte tells the length, and its value is added to a mark. */
  lemma {:induction false} LeadByte(x: nat)
    ensures x < 0x20 ==> Lead(0xC0 + x, 2) == x
    ensures x < 0x10 ==> Lead(0xE0 + x, 3) == x
    ensures x < 8 ==> Lead(0xF0 + x, 4) == x
  {
  }

  lemma {:induction false} LeadBack(u: byte)
    ensures CheckFirst(u) == 2 ==> u == 0xC0 + Lead(u, 2)
    ensures CheckFirst(u) == 3 ==> u == 0xE0 + Lead(u, 3)
    ensures CheckFirst(u) == 4 ==> u == 0xF0 + Lead(u, 4)
  {
  }

  /** Decoding undoes encoding, whatever follows. */
  lemma {:induction false} CharOfEncode(c: nat, rest: seq<byte>)
    requires Scalar(c)
    ensures Char(Encode(c) + rest) == (|Encode(c)|, c)
  {
    hide Value, Six, Lead;
    var s := Encode(c) + rest;
    Values(s);
    SplitSix(c);
    if c < 0x80 {
    } else if c < 0x800 {
      LeadByte(c / 0x40);
    } else if c < 0x10000 {
      SplitSix(c / 0x40);
      LeadByte(c / 0x40 / 0x40);
    } else {
      SplitSix(c / 0x40);
      SplitSix(c / 0x40 / 0x40);
      LeadByte(c / 0x40 / 0x40 / 0x40);
    }
  }

  /** A valid sequence is the encoding of its code point. */
  lemma {:induction false} EncodeOfChar(s: seq<byte>)
    requires Char(s).0 > 0
    ensures Scalar(Char(s).1) && s[..Char(s).0] == Encode(Char(s).1)
  {
    hide Value, Six, Lead;
    var (n, v) := Char(s);
    Values(s);
    if n >= 2 {
      LeadBack(s[0]);
      JoinSix(Lead(s[0], n), s[1]);
      var v1 := Six(Lead(s[0], n), s[1]);
      if n >= 3 {
        JoinSix(v1, s[2]);
        var v2 := Six(v1, s[2]);
        if n == 4 {
          JoinSix(v2, s[3]);
          assert Encode(v) == [0xF0 + v / 0x40 / 0x40 / 0x40, 0x80 + v / 0x40 / 0x40 % 0x40, 0x80 + v / 0x40 % 0x40, 0x80 + v % 0x40];
        } else {
          assert Encode(v) == [0xE0 + v / 0x40 / 0x40, 0x80 + v / 0x40 % 0x40, 0x80 + v % 0x40];
        }
      } else {
        assert Encode(v) == [0xC0 + v / 0x40, 0x80 + v % 0x40];
      }
    }
  }

  /** The valid texts are the encodings of sequences of scalar values. */
  lemma {:induction false} EncodedIsValid(cs: seq<scalar>)
    ensures Valid(EncodeAll(cs))
    decreases |cs|
  {
    hide Char, Encode;
    if |cs| > 0 {
      var s := EncodeAll(cs);
      CharOfEncode(cs[0], EncodeAll(cs[1..]));
      assert s[|Encode(cs[0])|..] == EncodeAll(cs[1..]);
      EncodedIsValid(cs[1..]);
    }
  }

  lemma {:induction false} ValidIsEncoded(s: seq<byte>) returns (cs: seq<scalar>)
    requires Valid(s)
    ensures EncodeAll(cs) == s
    decreases |s|
  {
    hide Char, Encode;
    if s == [] {
      cs := [];
    } else {
      var (n, c) := Char(s);
      EncodeOfChar(s);
      var rest := ValidIsEncoded(s[n..]);
      cs := [c] + rest;
      assert cs[1..] == rest;
      assert s == s[..n] + s[n..];
    }
  }

  lemma {:induction false} ValidConcat(a: seq<byte>, b: seq<byte>)
    requires Valid(a) && Valid(b)
    ensures Valid(a + b)
    decreases |a|
  {
    hide Encode, Value;
    if a == [] {
      assert a + b == b;
    } else {
      var n := Char(a).0;
      CharOfPrefix(a, b);
      assert (a + b)[n..] == a[n..] + b;
      ValidConcat(a[n..], b);
    }
  }

  /** A valid sequence is found whatever follows it. */
  lemma {:induction false} CharOfPrefix(a: seq<byte>, b: seq<byte>)
    requires Char(a).0 > 0
    ensures Char(a + b) == Char(a)
  {
    hide Value, Char, Encode;
    var (n, c) := Char(a);
    EncodeOfChar(a);
    CharOfEncode(c, a[n..] + b);
    assert a + b == Encode(c) + (a[n..] + b);
  }

  lemma {:induction false} AsciiChar(s: seq<byte>)
    requires |s| > 0 && s[0] < 0x80
    ensures Char(s) == (1, s[0])
  {
  }

  /** No byte of a longer sequence is an ASCII byte. */
  lemma {:induction false} MultiByte(s: seq<byte>)
    requires Char(s).0 > 1
    ensures forall i :: 0 <= i < Char(s).0 ==> s[i] >= 0x80
    ensures Char(s).1 >= 0x80
  {
    hide Value;
  }

  lemma {:induction false} AsciiIsValid(s: seq<byte>)
    requires forall i :: 0 <= i < |s| ==> s[i] < 0x80
    ensures Valid(s)
    decreases |s|
  {
    if s != [] { AsciiIsValid(s[1..]); }
  }

  // ---- the functions of utf.c ---------------------------------------------------------

  /** utf8_check_full: the code point of a sequence of the announced length. */
  method CheckFull(buffer: seq<byte>, size: nat) returns (ok: bool, codepoint: nat)
    requires size <= |buffer| && 2 <= size <= 4
    ensures ok <==> (forall i :: 1 <= i < size ==> Continuation(buffer[i])) && Acceptable(Value(buffer, size, size), size)
    ensures ok ==> codepoint == Value(buffer, size, size)
  {
    codepoint := 0;
    var u := buffer[0];
    var value: nat := if size == 2 then u % 0x20 else if size == 3 then u % 0x10 else u % 8;
    var i := 1;
    while i < size
      invariant 1 <= i <= size && value == Value(buffer, size, i)
      invariant forall j :: 1 <= j < i ==> Continuation(buffer[j])
    {
      u := buffer[i];
      if u < 0x80 || u > 0xBF { return false, 0; }
      value := Six(value, u);
      i := i + 1;
    }
    if value > 0x10FFFF {
      ok := false;
    } else if 0xD800 <= value <= 0xDFFF {
      ok := false;
    } else if (size == 2 && value < 0x80) || (size == 3 && value < 0x800) || (size == 4 && value < 0x10000) {
      ok := false;
    } else {
      ok, codepoint := true, value;
    }
  }

  /** utf8_iterate at position i of a string: where the next character starts, or
      -1; at the end of the string it stays. */
  method Iterate(s: seq<byte>, i: nat) returns (next: int, codepoint: nat)
    requires i <= |s| && 0 !in s
    ensures i == |s| ==> next == i
    ensures i < |s| ==> (if Char(s[i..]).0 == 0 then next == -1 else next == i + Char(s[i..]).0 && codepoint == Char(s[i..]).1)
  {
    codepoint := 0;
    if i == |s| { return i, 0; }
    var count := CheckFirst(s[i]);
    if count <= 0 { return -1, 0; }
    var value := s[i];
    if count != 1 {
      // the string ends with a zero byte, which is no continuation byte
      if i + count > |s| { return -1, 0; }
      var ok, v := CheckFull(s[i..], count);
      if !ok { return -1, 0; }
      return i + count, v;
    }
    return i + count, value;
  }

  lemma {:induction false} NothingIsValid(s: seq<byte>)
    requires s == []
    ensures Valid(s)
  {
  }

  /** Whether the text is valid from i on, by the first byte there. */
  lemma {:induction false} ValidFrom(s: seq<byte>, i: nat)
    requires i < |s|
    ensures var n := CheckFirst(s[i]);
      && (n == 0 ==> !Valid(s[i..]))
      && (n == 1 ==> Valid(s[i..]) == Valid(s[i + 1..]))
      && (n > 1 && i + n > |s| ==> !Valid(s[i..]))
      && (n > 1 && i + n <= |s| ==>
            Valid(s[i..]) == ((forall j :: 1 <= j < n ==> Continuation(s[i..][j])) && Acceptable(Value(s[i..], n, n), n) && Valid(s[i + n..])))
  {
    hide Value, Acceptable, Continuation;
    var n := CheckFirst(s[i]);
    assert s[i..][0] == s[i];
    if i + n <= |s| { assert s[i..][n..] == s[i + n..]; }
  }

  /** utf8_check_string accepts exactly the valid texts. */
  method CheckString(s: seq<byte>) returns (ok: bool)
    ensures ok <==> Valid(s)
  {
    hide Valid;
    var i := 0;
    while i < |s|
      invariant 0 <= i <= |s| && (Valid(s) <==> Valid(s[i..]))
    {
      ValidFrom(s, i);
      var count := CheckFirst(s[i]);
      if count == 0 { return false; }
      else if count > 1 {
        if i + count > |s| { return false; }
        var full, _ := CheckFull(s[i..], count);
        if !full { return false; }
        i := i + count - 1;
      }
      i := i + 1;
    }
    NothingIsValid(s[i..]);
    ok := true;
  }
}
