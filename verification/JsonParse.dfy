/** What load.c reads: tokens and values as functions of the text that is left. */
module JsonParse {
  import opened Bits
  import opened Utf8
  import opened JsonString
  import opened JsonText

  // ---- the text that the stream delivers ---------------------------------------------------

  /** The longest prefix made of valid sequences. */
  function ValidPrefix(s: seq<byte>): (p: seq<byte>)
    ensures |p| <= |s|
  {
    if s == [] || Char(s).0 == 0 then []
    else
      var n := Char(s).0;
      s[..n] + ValidPrefix(s[n..])
  }

  lemma {:induction false} ValidPrefixOfValid(s: seq<byte>)
    requires Valid(s)
    ensures ValidPrefix(s) == s
    decreases |s|
  {
    hide Char;
    if s != [] {
      var n := Char(s).0;
      ValidPrefixOfValid(s[n..]);
      assert s == s[..n] + s[n..];
    }
  }

  // ---- tokens --------------------------------------------------------------------------------

  datatype Token =
    | TInvalid | TEof
    | TString(s: seq<byte>)
    | TInteger(n: int)
    | TReal(text: seq<byte>)
    | TTrue | TFalse | TNull
    | TChar(c: byte)

  /** A token, and what is left behind it (nothing, when there is no token). */
  datatype Scanned = Scanned(token: Token, rest: seq<byte>)

  predicate IsSpace(c: byte) { c == 0x20 || c == 0x09 || c == 0x0A || c == 0x0D }

  predicate IsAlpha(c: byte) { 0x41 <= c <= 0x5A || 0x61 <= c <= 0x7A }

  predicate IsPunctuation(c: byte)
  {
    c == 0x7B || c == 0x7D || c == 0x5B || c == 0x5D || c == 0x3A || c == 0x2C
  }

  function SkipSpace(t: seq<byte>): (r: seq<byte>)
    ensures |r| <= |t| && (r != [] ==> !IsSpace(r[0]))
  {
    if |t| > 0 && IsSpace(t[0]) then SkipSpace(t[1..]) else t
  }

  /** How many digits t begins with. */
  function DigitRun(t: seq<byte>): (n: nat)
    ensures n <= |t| && forall i :: 0 <= i < n ==> IsDigit(t[i])
    ensures n < |t| ==> !IsDigit(t[n])
  {
    if |t| > 0 && IsDigit(t[0]) then 1 + DigitRun(t[1..]) else 0
  }

  function AlphaRun(t: seq<byte>): (n: nat)
    ensures n <= |t| && forall i :: 0 <= i < n ==> IsAlpha(t[i])
    ensures n < |t| ==> !IsAlpha(t[n])
  {
    if |t| > 0 && IsAlpha(t[0]) then 1 + AlphaRun(t[1..]) else 0
  }

  /** strtoll in base 10, or TInvalid for ERANGE. */
  function IntegerToken(negative: bool, digits: seq<byte>): Token
    requires forall i :: 0 <= i < |digits| ==> IsDigit(digits[i])
  {
    var n: int := DigitValue(digits);
    var v := if negative then -n else n;
    if -0x8000_0000_0000_0000 <= v <= 0x7FFF_FFFF_FFFF_FFFF then TInteger(v) else TInvalid
  }

  /** Where the integer part of the number t ends, or 0 if it is not one. */
  function IntegerEnd(t: seq<byte>): (n: nat)
    ensures n <= |t|
    ensures n > 0 ==> (if t[0] == 0x2D then n > 1 else true)
  {
    var k := if |t| > 0 && t[0] == 0x2D then 1 else 0;
    var d := DigitRun(t[k..]);
    if d == 0 || (t[k] == 0x30 && d > 1) then 0 else k + d
  }

  predicate IsPoint(t: seq<byte>, n: nat) { n < |t| && t[n] == 0x2E }

  predicate IsExponent(t: seq<byte>, n: nat) { n < |t| && (t[n] == 0x45 || t[n] == 0x65) }

  /** Where the fraction that may follow at n ends, or 0 if it has no digits. */
  function FractionEnd(t: seq<byte>, n: nat): (m: nat)
    requires n <= |t|
    ensures m <= |t| && (m > 0 ==> n <= m)
  {
    if IsPoint(t, n) then
      var d := DigitRun(t[n + 1..]);
      if d == 0 then 0 else n + 1 + d
    else n
  }

  function ExponentEnd(t: seq<byte>, n: nat): (m: nat)
    requires n <= |t|
    ensures m <= |t| && (m > 0 ==> n <= m)
  {
    if IsExponent(t, n) then
      var k := if n + 1 < |t| && (t[n + 1] == 0x2B || t[n + 1] == 0x2D) then n + 2 else n + 1;
      var d := DigitRun(t[k..]);
      if d == 0 then 0 else k + d
    else n
  }

  /** lex_scan_number: t begins with the first character of the number. */
  function ScanNumber(t: seq<byte>): (r: Scanned)
    requires |t| > 0
    ensures |r.rest| <= |t| && (r.token != TInvalid ==> |r.rest| < |t|)
    ensures r.token != TEof
  {
    var n := IntegerEnd(t);
    if n == 0 then Scanned(TInvalid, [])
    else if !IsPoint(t, n) && !IsExponent(t, n) then
      var k := if t[0] == 0x2D then 1 else 0;
      assert t[k..n] == t[k..][..n - k];
      Scanned(IntegerToken(t[0] == 0x2D, t[k..n]), t[n..])
    else
      var m := FractionEnd(t, n);
      if m == 0 then Scanned(TInvalid, [])
      else
        var e := ExponentEnd(t, m);
        if e == 0 then Scanned(TInvalid, []) else Scanned(TReal(t[..e]), t[e..])
  }

  /** lex_scan_string: t begins behind the opening quote. */
  function ScanString(t: seq<byte>): (r: Scanned)
    ensures |r.rest| <= |t| && (r.token != TInvalid ==> |r.rest| < |t|)
    ensures r.token != TEof
  {
    var n := RawLen(t);
    if n < 0 then Scanned(TInvalid, [])
    else
      match Decode(t[..n])
      case Good(s) => Scanned(TString(s), t[n + 1..])
      case Bad => Scanned(TInvalid, [])
  }

  function WordToken(w: seq<byte>): Token
  {
    if w == [0x74, 0x72, 0x75, 0x65] then TTrue
    else if w == [0x66, 0x61, 0x6C, 0x73, 0x65] then TFalse
    else if w == [0x6E, 0x75, 0x6C, 0x6C] then TNull
    else TInvalid
  }

  /** lex_scan.  At the end of the text there is nothing more if it is complete, and
      otherwise a byte that cannot be decoded. */
  function Scan(t0: seq<byte>, complete: bool): (r: Scanned)
    ensures |r.rest| <= |t0|
    ensures r.token != TInvalid && r.token != TEof ==> |r.rest| < |t0|
  {
    var t := SkipSpace(t0);
    if t == [] then Scanned(if complete then TEof else TInvalid, [])
    else if IsPunctuation(t[0]) then Scanned(TChar(t[0]), t[1..])
    else if t[0] == QUOTE then ScanString(t[1..])
    else if IsDigit(t[0]) || t[0] == 0x2D then ScanNumber(t)
    else if IsAlpha(t[0]) then Scanned(WordToken(t[..AlphaRun(t)]), t[AlphaRun(t)..])
    else Scanned(TInvalid, [])
  }

  // ---- values ----------------------------------------------------------------------------------

  /** The flags of the loader that matter here. */
  datatype LoadFlags = LoadFlags(rejectDuplicates: bool, decodeAny: bool, disableEofCheck: bool)

  datatype Parsed = Parsed(v: Json, rest: seq<byte>) | Failed

  /** json_object_set_nocheck: a new pair at the end, or a new value for an old key. */
  function SetField(fields: seq<Field>, key: seq<byte>, serial: nat, v: Json): seq<Field>
  {
    var k := Find(fields, key);
    if k >= 0 then fields[k := Field(key, fields[k].serial, v)] else fields + [Field(key, serial, v)]
  }

  /** parse_value: tok has been scanned and t is left. */
  function ParseValue(tok: Token, t: seq<byte>, complete: bool, f: LoadFlags): (r: Parsed)
    ensures r.Parsed? ==> |r.rest| <= |t|
    decreases |t|, 2
  {
    match tok
    case TString(s) => Parsed(String(s), t)
    case TInteger(n) => Parsed(Integer(n), t)
    case TReal(x) => Parsed(Real(x), t)
    case TTrue => Parsed(True, t)
    case TFalse => Parsed(False, t)
    case TNull => Parsed(Null, t)
    case TChar(c) =>
      if c == 0x7B then
        var s := Scan(t, complete);
        if s.token == TChar(0x7D) then Parsed(Object([]), s.rest)
        else if s.token == TInvalid || s.token == TEof then Failed
        else ParseFields(s.token, s.rest, complete, f, [], 0)
      else if c == 0x5B then
        var s := Scan(t, complete);
        if s.token == TChar(0x5D) then Parsed(Array([]), s.rest)
        else if s.token == TInvalid || s.token == TEof then Failed
        else ParseItems(s.token, s.rest, complete, f, [])
      else Failed
    case _ => Failed
  }

  /** The loop of parse_array, with tok the first token of the next element. */
  function ParseItems(tok: Token, t: seq<byte>, complete: bool, f: LoadFlags, items: seq<Json>): (r: Parsed)
    ensures r.Parsed? ==> |r.rest| <= |t|
    decreases |t|, 3
  {
    match ParseValue(tok, t, complete, f)
    case Failed => Failed
    case Parsed(v, t1) =>
      var s := Scan(t1, complete);
      if s.token == TChar(0x2C) then
        var s' := Scan(s.rest, complete);
        if s'.token == TEof then Failed else ParseItems(s'.token, s'.rest, complete, f, items + [v])
      else if s.token == TChar(0x5D) then Parsed(Array(items + [v]), s.rest)
      else Failed
  }

  /** The loop of parse_object, with tok the token where a key should be. */
  function ParseFields(tok: Token, t: seq<byte>, complete: bool, f: LoadFlags, fields: seq<Field>, serial: nat): (r: Parsed)
    ensures r.Parsed? ==> |r.rest| <= |t|
    decreases |t|, 3
  {
    if !tok.TString? || (f.rejectDuplicates && Find(fields, tok.s) >= 0) then Failed
    else
      var s := Scan(t, complete);
      if s.token != TChar(0x3A) then Failed
      else
        var s1 := Scan(s.rest, complete);
        match ParseValue(s1.token, s1.rest, complete, f)
        case Failed => Failed
        case Parsed(v, t1) =>
          var fields' := SetField(fields, tok.s, serial, v);
          var s2 := Scan(t1, complete);
          if s2.token == TChar(0x2C) then
            var s3 := Scan(s2.rest, complete);
            ParseFields(s3.token, s3.rest, complete, f, fields', serial + 1)
          else if s2.token == TChar(0x7D) then Parsed(Object(fields'), s2.rest)
          else Failed
  }

  /** parse_json. */
  function Parse(t: seq<byte>, complete: bool, f: LoadFlags): Parsed
  {
    var s := Scan(t, complete);
    if !f.decodeAny && s.token != TChar(0x5B) && s.token != TChar(0x7B) then Failed
    else
      match ParseValue(s.token, s.rest, complete, f)
      case Failed => Failed
      case Parsed(v, rest) =>
        if !f.disableEofCheck && Scan(rest, complete).token != TEof then Failed else Parsed(v, rest)
  }

  /** json_loads on a whole C string. */
  function Load(input: seq<byte>, f: LoadFlags): Parsed
  {
    Parse(ValidPrefix(input), Valid(input), f)
  }
}
