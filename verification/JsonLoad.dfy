/** load.c: the stream, the lexer and the recursive parser, working in place. */
module JsonLoad {
  import opened Bits
  import opened Utf8
  import opened JsonString
  import opened JsonText
  import opened JsonParse

  const EOF: int := -1
  const ERROR: int := -2

  lemma {:induction false} PrefixStep(s: seq<byte>)
    requires s != [] && Char(s).0 > 0
    ensures ValidPrefix(s) == s[..Char(s).0] + ValidPrefix(s[Char(s).0..])
  {
    hide Char;
  }

  /** The stream ends where the text is complete or where it stops being UTF-8. */
  lemma {:induction false} PrefixIsWhole(s: seq<byte>)
    ensures ValidPrefix(s) == s <==> Valid(s)
    decreases |s|
  {
    hide Char;
    if s != [] && Char(s).0 > 0 {
      var n := Char(s).0;
      PrefixIsWhole(s[n..]);
      assert s == s[..n] + s[n..];
      assert ValidPrefix(s) == s ==> ValidPrefix(s)[n..] == s[n..];
    }
  }

  /** What the buffer and the read position have to do with the text: the buffer
      holds the character being delivered, ended by a zero byte, `at` of it are
      delivered, and the data from `pos` on has not been read. */
  ghost predicate Streaming(data: seq<byte>, text: seq<byte>, buf: seq<byte>, count: nat, at: nat, pos: nat, position: nat)
  {
    && |buf| == 5 && at <= count <= 4 && at <= position && position <= |text|
    && buf[count] == 0 && (forall i :: 0 <= i < count ==> buf[i] != 0)
    && pos <= |data| && pos == position - at + count <= |text|
    && text[position - at..pos] == buf[..count]
    && text == data[..pos] + ValidPrefix(data[pos..])
  }

  lemma {:induction false} StreamAt(data: seq<byte>, text: seq<byte>, buf: seq<byte>, count: nat, at: nat, pos: nat, position: nat)
    requires Streaming(data, text, buf, count, at, pos, position)
    ensures at < count ==> position < |text| && buf[at] == text[position] && Streaming(data, text, buf, count, at + 1, pos, position + 1)
    ensures at > 0 ==> position > 0 && buf[at - 1] == text[position - 1] && Streaming(data, text, buf, count, at - 1, pos, position - 1)
    ensures buf[at] == 0 <==> at == count
    ensures at == count ==> position == pos
  {
    if at < count { assert text[position - at..pos][at] == buf[..count][at]; }
    if at > 0 { assert text[position - at..pos][at - 1] == buf[..count][at - 1]; }
  }

  /** Filling the buffer with the next character. */
  lemma {:induction false} StreamFilled(data: seq<byte>, text: seq<byte>, buf: seq<byte>, count: nat, pos: nat, buf': seq<byte>, n: nat)
    requires Streaming(data, text, buf, count, count, pos, pos) && 0 !in data
    requires n == Char(data[pos..]).0 > 0 && |buf'| == 5 && buf'[..n] == data[pos..pos + n] && buf'[n] == 0
    ensures Streaming(data, text, buf', n, 0, pos + n, pos)
  {
    hide Char;
    PrefixStep(data[pos..]);
    assert data[pos..][n..] == data[pos + n..];
    assert data[pos..][..n] == data[pos..pos + n];
    assert data[..pos] + data[pos..pos + n] == data[..pos + n];
    assert text == data[..pos + n] + ValidPrefix(data[pos + n..]);
    assert text[pos..pos + n] == data[pos..pos + n];
    forall i | 0 <= i < n ensures buf'[i] != 0 { assert buf'[..n][i] == data[pos + i]; }
  }

  /** Without a valid character there is no more text. */
  lemma {:induction false} StreamEnds(data: seq<byte>, text: seq<byte>, buf: seq<byte>, count: nat, pos: nat)
    requires Streaming(data, text, buf, count, count, pos, pos) && (pos == |data| || Char(data[pos..]).0 == 0)
    ensures pos == |text| && (text == data <==> pos == |data|)
  {
    hide Char;
    assert ValidPrefix(data[pos..]) == [];
    assert text == data[..pos];
  }

  /** Only what comes up to the closing quote matters. */
  lemma {:induction false} RawLenLocal(t: seq<byte>, n: nat)
    requires RawLen(t) == n
    ensures n < |t| && RawLen(t[..n + 1]) == n
    decreases n
  {
    var u := t[..n + 1];
    assert u[0] == t[0];
    if t[0] == QUOTE {
    } else if t[0] == BACKSLASH && t[1] == LETTER_U {
      RawLenLocal(t[6..], n - 6);
      CutTail(t, n + 1, 6);
    } else if t[0] == BACKSLASH {
      RawLenLocal(t[2..], n - 2);
      CutTail(t, n + 1, 2);
    } else {
      RawLenLocal(t[1..], n - 1);
      CutTail(t, n + 1, 1);
    }
  }

  lemma {:induction false} CutTail(t: seq<byte>, n: nat, k: nat)
    requires k <= n <= |t|
    ensures t[..n][k..] == t[k..][..n - k] && (n > 1 ==> t[..n][1] == t[1])
  {
  }

  /** decode_unicode_escape on the four characters behind the letter u; -1 stands
      for the failed assertion. */
  method DecodeUnicodeEscape(s: seq<byte>, p: nat) returns (value: int)
    requires p + 5 <= |s|
    ensures value == UnicodeValue(s[p + 1..p + 5])
  {
    value := 0;
    var i := 1;
    ghost var h := s[p + 1..p + 5];
    while i <= 4
      invariant 1 <= i <= 5 && value >= 0 && (i == 1 ==> value == 0)
      invariant forall j :: 0 <= j < i - 1 ==> HexValue(h[j]) >= 0
      invariant i == 2 ==> value == HexValue(h[0])
      invariant i == 3 ==> value == HexValue(h[0]) * 0x10 + HexValue(h[1])
      invariant i == 4 ==> value == (HexValue(h[0]) * 0x10 + HexValue(h[1])) * 0x10 + HexValue(h[2])
      invariant i == 5 ==> value == ((HexValue(h[0]) * 0x10 + HexValue(h[1])) * 0x10 + HexValue(h[2])) * 0x10 + HexValue(h[3])
    {
      var c := s[p + i];
      assert c == h[i - 1];
      value := value * 0x10;
      if IsDigit(c) {
        value := value + (c - 0x30);
      } else if 0x61 <= c <= 0x7A {
        value := value + (c - 0x61) + 10;
      } else if 0x41 <= c <= 0x5A {
        value := value + (c - 0x41) + 10;
      } else {
        return -1;
      }
      i := i + 1;
    }
  }

  /** The decoding at p, one step on. */
  ghost predicate DecodedTo(saved: seq<byte>, end: nat, p: nat, done: seq<byte>)
  {
    && 1 <= p <= end < |saved| && |done| <= p - 1
    && RawLen(saved[p..]) == end - p
    && Decode(saved[1..end]) == Prepend(done, Decode(saved[p..end]))
  }

  /** What the second half of lex_scan_string does at p: the bytes it appends and
      where it goes on, or an error. */
  datatype Piece = Piece(bytes: seq<byte>, next: nat) | BadPiece

  ghost function PieceAt(saved: seq<byte>, p: nat): Piece
    requires p < |saved|
  {
    if saved[p] != BACKSLASH then Piece([saved[p]], p + 1)
    else if p + 2 > |saved| then BadPiece
    else if saved[p + 1] != LETTER_U then
      if ShortLetter(saved[p + 1]) then Piece([Unescape(saved[p + 1])], p + 2) else BadPiece
    else if p + 6 > |saved| then BadPiece
    else
      var v := UnicodeValue(saved[p + 2..p + 6]);
      if v <= 0 || 0xDC00 <= v <= 0xDFFF then BadPiece
      else if 0xD800 <= v <= 0xDBFF then
        if p + 12 > |saved| || saved[p + 6] != BACKSLASH || saved[p + 7] != LETTER_U then BadPiece
        else
          var w := UnicodeValue(saved[p + 8..p + 12]);
          if 0xDC00 <= w <= 0xDFFF then Piece(Encode(Pair(v, w)), p + 12) else BadPiece
      else Piece(Encode(v), p + 6)
  }

  lemma {:induction false} PieceStep(saved: seq<byte>, end: nat, p: nat, done: seq<byte>)
    requires DecodedTo(saved, end, p, done) && p < end
    ensures saved[p] != QUOTE && (saved[p] == BACKSLASH ==> p + 2 <= end)
    ensures saved[p] == BACKSLASH && saved[p + 1] == LETTER_U ==> p + 6 <= end
    ensures saved[p] == BACKSLASH && saved[p + 1] == LETTER_U && saved[p + 6] == BACKSLASH && saved[p + 7] == LETTER_U ==> p + 12 <= end
    ensures saved[p] == BACKSLASH && saved[p + 1] != LETTER_U ==> ShortLetter(saved[p + 1])
    ensures var x := PieceAt(saved, p);
      match x
      case Piece(bytes, next) => p < next && DecodedTo(saved, end, next, done + bytes)
      case BadPiece => Decode(saved[1..end]).Bad?
  {
    hide Encode, Pair, UnicodeValue, Unescape, ShortLetter, RawLen;
    RawSteps(saved, p);
    if saved[p] == BACKSLASH && saved[p + 1] == LETTER_U {
      RawSteps(saved, p + 6);
    }
    DecodePiece(saved, end, p);
    match PieceAt(saved, p)
    case Piece(bytes, next) => PrependTwice(done, bytes, Decode(saved[next..end]));
    case BadPiece =>
  }

  lemma {:induction false} Slices(s: seq<byte>, a: nat, b: nat, i: nat, j: nat)
    requires i <= j && a + j <= b <= |s|
    ensures s[a..b][i..j] == s[a + i..a + j] && s[a..b][j..] == s[a + j..b]
  {
    var r, x, y := s[a..b], s[a + i..a + j], s[a..b][i..j];
    forall k | 0 <= k < j - i ensures y[k] == x[k] {
      assert y[k] == r[i + k] == s[a + (i + k)];
    }
    assert y == x;
  }

  lemma {:induction false} DecodePiece(saved: seq<byte>, end: nat, p: nat)
    requires p < end < |saved| && saved[p] != QUOTE
    requires saved[p] == BACKSLASH ==> p + 2 <= end && (saved[p + 1] == LETTER_U ==> p + 6 <= end)
    requires saved[p] == BACKSLASH && saved[p + 1] == LETTER_U && saved[p + 6] == BACKSLASH && p + 7 < |saved| && saved[p + 7] == LETTER_U ==> p + 12 <= end
    requires saved[end] == QUOTE
    ensures match PieceAt(saved, p)
      case Piece(bytes, next) => p < next <= end && |bytes| <= next - p && Decode(saved[p..end]) == Prepend(bytes, Decode(saved[next..end]))
      case BadPiece => Decode(saved[p..end]) == Bad
  {
    hide Pair, UnicodeValue, Unescape, ShortLetter, Encode;
    if saved[p] == BACKSLASH && saved[p + 1] == LETTER_U {
      DecodeUnicode(saved, end, p);
    } else {
      Slices(saved, p, end, 0, 1);
      if saved[p] == BACKSLASH { Slices(saved, p, end, 0, 2); }
    }
  }

  lemma {:induction false} DecodeUnicode(saved: seq<byte>, end: nat, p: nat)
    requires p + 6 <= end < |saved| && saved[p] == BACKSLASH && saved[p + 1] == LETTER_U && saved[end] == QUOTE
    requires saved[p + 6] == BACKSLASH && p + 7 < |saved| && saved[p + 7] == LETTER_U ==> p + 12 <= end
    ensures match PieceAt(saved, p)
      case Piece(bytes, next) => p < next <= end && |bytes| <= next - p && Decode(saved[p..end]) == Prepend(bytes, Decode(saved[next..end]))
      case BadPiece => Decode(saved[p..end]) == Bad
  {
    hide Pair, UnicodeValue, Encode;
    var r := saved[p..end];
    Slices(saved, p, end, 2, 6);
    var v := UnicodeValue(saved[p + 2..p + 6]);
    if 0xD800 <= v <= 0xDBFF {
      if p + 12 <= end {
        Slices(saved, p, end, 8, 12);
        assert r[6] == saved[p + 6] && r[7] == saved[p + 7];
      } else {
        assert |r| < 12;
      }
    }
  }

  /** Copying the encoding of a character into the target. */
  method Append(target: array<byte>, k: nat, bytes: seq<byte>)
    requires k + |bytes| <= target.Length
    modifies target
    ensures target[..k + |bytes|] == old(target[..k]) + bytes
  {
    for i := 0 to |bytes|
      invariant target[..k + i] == old(target[..k]) + bytes[..i]
    {
      target[k + i] := bytes[i];
      assert target[..k + i + 1] == target[..k + i] + [bytes[i]];
      assert bytes[..i + 1] == bytes[..i] + [bytes[i]];
    }
    assert bytes[..|bytes|] == bytes;
  }

  /** The second half of lex_scan_string: decoding what was collected, between the
      quotes, into a buffer one byte longer than it. */
  method DecodeSaved(saved: seq<byte>) returns (ok: bool, value: seq<byte>)
    requires |saved| >= 2 && saved[|saved| - 1] == QUOTE && RawLen(saved[1..]) == |saved| - 2
    ensures ok <==> Decode(saved[1..|saved| - 1]).Good?
    ensures ok ==> Decode(saved[1..|saved| - 1]) == Good(value)
  {
    hide RawLen, Decode, Encode, Pair, UnicodeValue, Unescape, ShortLetter, DecodedTo, PieceAt;
    var target := new byte[|saved| + 1];
    var p: nat, t: nat := 1, 0;
    ghost var end := |saved| - 1;
    assert target[..0] == [];
    NothingDecoded(saved, end);
    ok, value := false, [];
    while saved[p] != QUOTE
      invariant t < p <= end && DecodedTo(saved, end, p, target[..t])
      invariant !ok
      decreases end - p
    {
      PieceStep(saved, end, p, target[..t]);
      var good, bytes, next := NextPiece(saved, p, end);
      if !good { return; }
      DecodedBounds(saved, end, next, target[..t] + bytes);
      Append(target, t, bytes);
      t, p := t + |bytes|, next;
    }
    AllDecoded(saved, end, p, target[..t]);
    target[t] := 0;
    ok, value := true, target[..t];
  }

  lemma {:induction false} NothingDecoded(saved: seq<byte>, end: nat)
    requires 1 <= end < |saved| && RawLen(saved[1..]) == end - 1
    ensures DecodedTo(saved, end, 1, [])
  {
    hide RawLen, Decode;
    PrependNone(Decode(saved[1..end]));
  }

  lemma {:induction false} DecodedBounds(saved: seq<byte>, end: nat, p: nat, done: seq<byte>)
    requires DecodedTo(saved, end, p, done)
    ensures 1 <= p <= end < |saved| && |done| <= p - 1
  {
  }

  /** The closing quote is where the decoding ends. */
  lemma {:induction false} AllDecoded(saved: seq<byte>, end: nat, p: nat, done: seq<byte>)
    requires DecodedTo(saved, end, p, done) && saved[p] == QUOTE
    ensures Decode(saved[1..end]) == Good(done)
  {
    hide RawLen, Decode;
    RawSteps(saved, p);
    DecodeNone(saved, p, done);
  }

  lemma {:induction false} DecodeNone(saved: seq<byte>, p: nat, done: seq<byte>)
    requires p <= |saved|
    ensures Prepend(done, Decode(saved[p..p])) == Good(done)
  {
    assert saved[p..p] == [];
  }

  /** The code point of one or two u escapes, the first at p0. */
  method UnicodePiece(saved: seq<byte>, p0: nat, ghost end: nat) returns (ok: bool, bytes: seq<byte>, next: nat)
    requires p0 + 6 <= end < |saved| && saved[p0] == BACKSLASH && saved[p0 + 1] == LETTER_U && saved[end] == QUOTE
    requires saved[p0 + 6] == BACKSLASH && saved[p0 + 7] == LETTER_U ==> p0 + 12 <= end
    ensures match PieceAt(saved, p0)
      case Piece(b, n) => ok && bytes == b && next == n
      case BadPiece => !ok
  {
    hide Encode, UnicodeValue;
    var p := p0 + 1;
    ok, bytes, next := false, [], 0;
    var value := DecodeUnicodeEscape(saved, p);
    p := p + 5;
    if value < 0 { return; }
    if 0xD800 <= value <= 0xDBFF {
      if saved[p] == BACKSLASH && saved[p + 1] == LETTER_U {
        p := p + 1;
        var value2 := DecodeUnicodeEscape(saved, p);
        p := p + 5;
        if 0xDC00 <= value2 <= 0xDFFF {
          value := (value - 0xD800) * 0x400 + (value2 - 0xDC00) + 0x10000;
        } else {
          return;
        }
      } else {
        return;
      }
    } else if 0xDC00 <= value <= 0xDFFF {
      return;
    } else if value == 0 {
      return;
    }
    ok, bytes, next := true, Encode(value), p;
  }

  /** One turn of the loop of the second half. */
  method NextPiece(saved: seq<byte>, p0: nat, ghost end: nat) returns (ok: bool, bytes: seq<byte>, next: nat)
    requires p0 < end < |saved| && saved[p0] != QUOTE && saved[end] == QUOTE
    requires saved[p0] == BACKSLASH ==> p0 + 2 <= end && (if saved[p0 + 1] == LETTER_U then p0 + 6 <= end else ShortLetter(saved[p0 + 1]))
    requires saved[p0] == BACKSLASH && saved[p0 + 1] == LETTER_U && saved[p0 + 6] == BACKSLASH && saved[p0 + 7] == LETTER_U ==> p0 + 12 <= end
    ensures match PieceAt(saved, p0)
      case Piece(b, n) => ok && bytes == b && next == n
      case BadPiece => !ok
  {
    hide Encode, UnicodeValue;
    ok, bytes, next := true, [saved[p0]], p0 + 1;
    if saved[p0] == BACKSLASH {
      if saved[p0 + 1] == LETTER_U {
        ok, bytes, next := UnicodePiece(saved, p0, end);
      } else {
        bytes, next := [Unescape(saved[p0 + 1])], p0 + 2;
      }
    }
  }

  class Lexer {
    const data: seq<byte>
    const buffer: array<byte>
    ghost const text: seq<byte>

    var dataPos: nat
    var bufferPos: nat
    var state: int
    var position: nat
    var saved: seq<byte>
    var token: Token
    ghost var count: nat

    ghost predicate Valid()
      reads this`dataPos, this`bufferPos, this`state, this`position, this`count, buffer
    {
      && 0 !in data && text == ValidPrefix(data) && buffer.Length == 5
      && (state == 0 ==> Streaming(data, text, buffer[..], count, bufferPos, dataPos, position))
      && (state != 0 ==> position == |text| && state == End())
    }

    /** How the stream ends. */
    ghost function End(): int { if text == data then EOF else ERROR }

    ghost function Rest(): seq<byte>
      requires position <= |text|
      reads this`position
    {
      text[position..]
    }

    /** stream_init and lex_init, for json_loads. */
    constructor (input: seq<byte>)
      requires 0 !in input
      ensures Valid() && fresh(buffer) && data == input && text == ValidPrefix(input) && position == 0
    {
      data, text := input, ValidPrefix(input);
      buffer := new byte[5](_ => 0);
      dataPos, bufferPos, state, position, count := 0, 0, 0, 0, 0;
      saved, token := [], TInvalid;
      new;
      assert data[0..] == data && data[..0] == [] && text[0..0] == [];
      assert text == data[..0] + ValidPrefix(data[0..]);
      assert buffer[..][..0] == [];
    }

    /** string_get. */
    method StringGet() returns (c: int)
      requires dataPos <= |data|
      modifies `dataPos
      ensures dataPos <= |data|
      ensures if old(dataPos) < |data| then c == data[old(dataPos)] && dataPos == old(dataPos) + 1
              else c == EOF && dataPos == old(dataPos)
    {
      if dataPos == |data| { return EOF; }
      c := data[dataPos];
      dataPos := dataPos + 1;
    }

    /** Reading the rest of a sequence of n bytes; what is missing at the end is
        stored as a byte that no sequence contains. */
    method FillBuffer(n: nat)
      requires 2 <= n <= 4 && buffer.Length == 5 && 0 < dataPos <= |data|
      modifies buffer, `dataPos
      ensures dataPos <= |data| && buffer[0] == old(buffer[0])
      ensures forall i :: 1 <= i < n ==> buffer[i] == if old(dataPos) - 1 + i < |data| then data[old(dataPos) - 1 + i] else 0xFF
      ensures old(dataPos) - 1 + n <= |data| ==> dataPos == old(dataPos) - 1 + n
    {
      ghost var start := dataPos - 1;
      var i := 1;
      while i < n
        invariant 1 <= i <= n && dataPos <= |data| && buffer[0] == old(buffer[0])
        invariant dataPos == if start + i <= |data| then start + i else |data|
        invariant forall j :: 1 <= j < i ==> buffer[j] == if start + j < |data| then data[start + j] else 0xFF
      {
        var c := StringGet();
        buffer[i] := if c < 0 then 0xFF else c;
        i := i + 1;
      }
    }

    /** Getting a character of two bytes or more, its first byte taken already. */
    method NextLongChar(c: byte, ghost buf: seq<byte>, ghost pos: nat)
      requires 0 !in data && text == ValidPrefix(data) && state == 0 && position == pos < |data| && dataPos == pos + 1
      requires Streaming(data, text, buf, count, count, pos, pos)
      requires c == data[pos] >= 0x80 && buffer.Length == 5 && buffer[0] == c && bufferPos == 0
      modifies `dataPos, `state, `count, buffer
      ensures Valid() && (state == 0 ==> bufferPos < count)
    {
      hide Streaming, Char, CheckFirst, ValidPrefix;
      FirstByte(data, pos);
      var k := CheckFirst(c);
      if k == 0 {
        StreamEnds(data, text, buf, count, pos);
        state := ERROR;
        return;
      }
      FillBuffer(k);
      ghost var b := buffer[..];
      LongChar(data, pos, b, k);
      var full, _ := CheckFull(buffer[..], k);
      if !full {
        StreamEnds(data, text, buf, count, pos);
        state := ERROR;
        return;
      }
      buffer[k] := 0;
      assert buffer[..][..k] == b[..k];
      StreamFilled(data, text, buf, count, pos, buffer[..], k);
      count := k;
    }

    /** Getting the next character into the buffer. */
    method NextChar()
      requires Valid() && state == 0 && bufferPos == count
      modifies `dataPos, `bufferPos, `state, `count, buffer
      ensures Valid() && (state == 0 ==> bufferPos < count)
    {
      hide Streaming, Char;
      ghost var buf, pos := buffer[..], dataPos;
      StreamAt(data, text, buf, count, bufferPos, dataPos, position);
      StreamBounds(data, text, buf, count, bufferPos, dataPos, position);
      FirstByte(data, pos);
      var c := StringGet();
      if c == EOF {
        StreamEnds(data, text, buf, count, pos);
        state := EOF;
        return;
      }
      buffer[0] := c;
      bufferPos := 0;
      if c >= 0x80 {
        NextLongChar(c, buf, pos);
      } else {
        buffer[1] := 0;
        OneByte(buffer[..], data, pos);
        StreamFilled(data, text, buf, count, pos, buffer[..], 1);
        count := 1;
      }
    }

    /** stream_get: the next byte of the text, and at its end how it ends. */
    method Get() returns (c: int)
      requires Valid()
      modifies `dataPos, `bufferPos, `state, `position, `count, buffer
      ensures Valid() && old(position) <= position <= |text|
      ensures old(position) < |text| ==> c == text[old(position)] && position == old(position) + 1 && state == 0 && bufferPos > 0
      ensures old(position) == |text| ==> c == End() && position == old(position)
    {
      hide Streaming;
      if state != 0 { return state; }
      StreamAt(data, text, buffer[..], count, bufferPos, dataPos, position);
      StreamBounds(data, text, buffer[..], count, bufferPos, dataPos, position);
      if buffer[bufferPos] == 0 {
        NextChar();
        if state != 0 { return state; }
        StreamAt(data, text, buffer[..], count, bufferPos, dataPos, position);
        StreamBounds(data, text, buffer[..], count, bufferPos, dataPos, position);
      }
      c := buffer[bufferPos];
      bufferPos, position := bufferPos + 1, position + 1;
    }

    /** stream_unget. */
    method Unget(c: int)
      requires Valid()
      requires c != EOF && c != ERROR ==> state == 0 && bufferPos > 0
      modifies `bufferPos, `position
      ensures Valid()
      ensures c == EOF || c == ERROR ==> position == old(position)
      ensures c != EOF && c != ERROR ==> position == old(position) - 1
    {
      hide Streaming;
      if c == EOF || c == ERROR { return; }
      StreamAt(data, text, buffer[..], count, bufferPos, dataPos, position);
      bufferPos, position := bufferPos - 1, position - 1;
    }

    // ---- the lexer -----------------------------------------------------------------------

    /** lex_get_save. */
    method GetSave() returns (c: int)
      requires Valid()
      modifies `dataPos, `bufferPos, `state, `position, `count, buffer, `saved
      ensures Valid() && old(position) <= position <= |text|
      ensures old(position) < |text| ==>
        c == text[old(position)] && position == old(position) + 1 && state == 0 && bufferPos > 0 && saved == old(saved) + [text[old(position)]]
      ensures old(position) == |text| ==> c == End() && position == old(position) && saved == old(saved)
    {
      c := Get();
      if c != EOF && c != ERROR { saved := saved + [c]; }
    }

    /** lex_unget_unsave. */
    method UngetUnsave(c: int)
      requires Valid()
      requires c != EOF && c != ERROR ==> state == 0 && bufferPos > 0 && saved != []
      modifies `bufferPos, `position, `saved
      ensures Valid()
      ensures c == EOF || c == ERROR ==> position == old(position) && saved == old(saved)
      ensures c != EOF && c != ERROR ==> position == old(position) - 1 && saved == old(saved)[..old(|saved|) - 1]
    {
      if c != EOF && c != ERROR {
        Unget(c);
        saved := saved[..|saved| - 1];
      }
    }

    /** The character c has just been read and saved, behind what was saved before. */
    ghost predicate Current(c: int, q: nat, before: seq<byte>)
      reads this`position, this`saved, this`state, this`bufferPos
    {
      && q <= |text|
      && (q < |text| ==> c == text[q] && position == q + 1 && saved == before + [text[q]] && state == 0 && bufferPos > 0)
      && (q == |text| ==> c == End() && position == q && saved == before)
    }

    /** Reading on to the next character. */
    method Advance(ghost q: nat, ghost before: seq<byte>, c0: int) returns (c: int)
      requires Valid() && Current(c0, q, before)
      modifies `dataPos, `bufferPos, `state, `position, `count, buffer, `saved
      ensures Valid()
      ensures q < |text| ==> Current(c, q + 1, before + [text[q]])
      ensures q == |text| ==> Current(c, q, before)
    {
      hide Valid;
      EndsBelow();
      c := GetSave();
    }

    /** Giving the character read last back, so that only what was before it is saved. */
    method GiveBack(c: int, ghost q: nat, ghost before: seq<byte>)
      requires Valid() && Current(c, q, before)
      modifies `bufferPos, `position, `saved
      ensures Valid() && saved == before && position == q <= |text|
    {
      hide Valid;
      if q < |text| { assert saved[..|saved| - 1] == before; }
      UngetUnsave(c);
    }

    lemma EndsBelow()
      requires Valid()
      ensures position <= |text|
    {
      hide Streaming;
      if state == 0 { StreamBounds(data, text, buffer[..], count, bufferPos, dataPos, position); }
    }

    /** The string that began at p0 has been looked through up to q, where c stands. */
    ghost predicate Collecting(c: int, p0: nat, q: nat)
      reads this`position, this`saved, this`state, this`bufferPos
    {
      && p0 <= q <= |text| && Current(c, q, [QUOTE] + text[p0..q])
      && RawLen(text[p0..]) == After(q - p0, RawLen(text[q..]))
    }

    /** The first half of lex_scan_string: collecting the text up to the closing quote. */
    method CollectString() returns (ok: bool)
      requires Valid() && saved == [QUOTE] && position <= |text|
      modifies `dataPos, `bufferPos, `state, `position, `count, buffer, `saved
      ensures Valid() && old(position) <= |text|
      ensures ok <==> RawLen(text[old(position)..]) >= 0
      ensures ok ==> var n := RawLen(text[old(position)..]);
        position == old(position) + n + 1 && position <= |text|
        && saved == [QUOTE] + text[old(position)..old(position) + n] + [QUOTE]
    {
      hide Valid, RawLen, Current, ShortLetter;
      ghost var p0, q := position, position;
      var c := CollectFirst();
      while c != QUOTE
        invariant Valid() && Collecting(c, p0, q)
        decreases |text| - q
      {
        RawSteps(text, q);
        CurrentChar(c, q, [QUOTE] + text[p0..q]);
        if c == ERROR || c == EOF { return false; }
        if 0 <= c <= 0x1F {
          UngetUnsave(c);
          return false;
        }
        c, q, ok := CollectNext(c, p0, q);
        if !ok { return; }
      }
      RawSteps(text, q);
      CurrentChar(c, q, [QUOTE] + text[p0..q]);
      ok := true;
    }

    lemma CollectStart(p0: nat)
      requires p0 <= |text|
      ensures [QUOTE] + text[p0..p0] == [QUOTE]
    {
    }

    method CollectFirst() returns (c: int)
      requires Valid() && saved == [QUOTE] && position <= |text|
      modifies `dataPos, `bufferPos, `state, `position, `count, buffer, `saved
      ensures Valid() && Collecting(c, old(position), old(position))
    {
      hide Valid, RawLen;
      CollectStart(position);
      c := GetSave();
    }

    lemma CurrentChar(c: int, q: nat, before: seq<byte>)
      requires Current(c, q, before)
      ensures q <= |text| && (q < |text| ==> c == text[q] && position == q + 1 && saved == before + [text[q]] && state == 0 && bufferPos > 0)
      ensures q == |text| ==> c == End() && position == q
    {
    }

    /** Going on by one plain character or one escape. */
    method CollectNext(c0: int, ghost p0: nat, ghost q0: nat) returns (c: int, ghost q: nat, ok: bool)
      requires Valid() && Collecting(c0, p0, q0) && q0 < |text| && c0 != QUOTE && c0 > 0x1F
      modifies `dataPos, `bufferPos, `state, `position, `count, buffer, `saved
      ensures Valid()
      ensures ok ==> Collecting(c, p0, q) && q0 < q
      ensures !ok ==> RawLen(text[p0..]) == -1
    {
      hide Valid, RawLen, Current;
      RawSteps(text, q0);
      CurrentChar(c0, q0, [QUOTE] + text[p0..q0]);
      c, q, ok := c0, q0, true;
      c, q := CollectOne([QUOTE], c, p0, q);
      if c0 == BACKSLASH {
        CurrentChar(c, q, [QUOTE] + text[p0..q]);
        if c == LETTER_U {
          c, q := CollectOne([QUOTE], c, p0, q);
          var i := 0;
          while i < 4
            invariant 0 <= i <= 4 && Valid() && p0 <= q <= |text| && Current(c, q, [QUOTE] + text[p0..q])
            invariant q == if q0 + 2 + i <= |text| then q0 + 2 + i else |text|
          {
            // the test for a hexadecimal digit at this place is always true
            c, q := CollectOne([QUOTE], c, p0, q);
            i := i + 1;
          }
          RawSteps(text, |text|);
        } else if c == QUOTE || c == BACKSLASH || c == SLASH || c == 0x62 || c == 0x66 || c == 0x6E || c == 0x72 || c == 0x74 {
          c, q := CollectOne([QUOTE], c, p0, q);
        } else {
          ok := false;
        }
      }
    }

    /** Reading on, with what was saved since p0 behind a prefix. */
    method CollectOne(ghost prefix: seq<byte>, c0: int, ghost p0: nat, ghost q0: nat) returns (c: int, ghost q: nat)
      requires Valid() && p0 <= q0 <= |text| && Current(c0, q0, prefix + text[p0..q0])
      modifies `dataPos, `bufferPos, `state, `position, `count, buffer, `saved
      ensures Valid() && q == (if q0 < |text| then q0 + 1 else q0) && Current(c, q, prefix + text[p0..q])
    {
      hide Valid, Current;
      if q0 < |text| { assert prefix + text[p0..q0] + [text[q0]] == prefix + text[p0..q0 + 1]; }
      c := Advance(q0, prefix + text[p0..q0], c0);
      q := if q0 < |text| then q0 + 1 else q0;
    }

    /** The token just scanned is the one the text gives, and what is left is left. */
    ghost predicate ScannedAs(r: Scanned)
      reads this`token, this`position
    {
      && token == r.token && position <= |text|
      && (token != TInvalid && token != TEof ==> text[position..] == r.rest)
    }

    /** lex_scan_string, behind the opening quote. */
    method LexString()
      requires Valid() && saved == [QUOTE] && position <= |text|
      modifies `dataPos, `bufferPos, `state, `position, `count, buffer, `saved, `token
      ensures Valid() && ScannedAs(ScanString(text[old(position)..]))
    {
      hide Valid, RawLen, Decode;
      token := TInvalid;
      ghost var p0 := position;
      var ok := CollectString();
      EndsBelow();
      if !ok { return; }
      ghost var t, n := text[p0..], RawLen(text[p0..]);
      RawLenLocal(t, n);
      Quoted(saved, text, p0, n);
      var good, value := DecodeSaved(saved);
      if good { token := TString(value); }
    }

    // ---- numbers and words ---------------------------------------------------------------

    /** Reading on over digits. */
    method LexDigits(c0: int, ghost p0: nat, ghost q0: nat) returns (c: int, ghost q: nat)
      requires Valid() && p0 <= q0 <= |text| && Current(c0, q0, [] + text[p0..q0])
      modifies `dataPos, `bufferPos, `state, `position, `count, buffer, `saved
      ensures Valid() && q == q0 + DigitRun(text[q0..]) && q <= |text| && Current(c, q, [] + text[p0..q])
      ensures !(0x30 <= c <= 0x39)
    {
      hide Valid, Current;
      c, q := c0, q0;
      CurrentChar(c, q, [] + text[p0..q]);
      while 0x30 <= c <= 0x39
        invariant Valid() && q0 <= q <= |text| && Current(c, q, [] + text[p0..q])
        invariant DigitRun(text[q0..]) == q - q0 + DigitRun(text[q..])
        decreases |text| - q
      {
        CurrentChar(c, q, [] + text[p0..q]);
        assert text[q..][1..] == text[q + 1..];
        c, q := CollectOne([], c, p0, q);
      }
      CurrentChar(c, q, [] + text[p0..q]);
      if q < |text| { assert text[q..][0] == text[q]; }
    }

    /** The integer part; 0 for m stands for none. */
    method LexInteger(c0: int, ghost p0: nat) returns (ok: bool, c: int, ghost q: nat)
      requires Valid() && p0 < |text| && Current(c0, p0, [] + text[p0..p0])
      modifies `dataPos, `bufferPos, `state, `position, `count, buffer, `saved
      ensures Valid() && (ok <==> IntegerEnd(text[p0..]) > 0)
      ensures ok ==> q == p0 + IntegerEnd(text[p0..]) && q <= |text| && Current(c, q, [] + text[p0..q])
    {
      hide Valid, Current, DigitRun;
      ghost var t := text[p0..];
      c, q, ok := c0, p0, true;
      CurrentChar(c, q, [] + text[p0..q]);
      assert t[0] == text[p0] && t[0..] == t;
      if c == 0x2D {
        c, q := CollectOne([], c, p0, q);
        assert t[1..] == text[p0 + 1..];
      }
      CurrentChar(c, q, [] + text[p0..q]);
      NoDigits(text, q);
      if c == 0x30 {
        c, q := CollectOne([], c, p0, q);
        CurrentChar(c, q, [] + text[p0..q]);
        NoDigits(text, q);
        if 0x30 <= c <= 0x39 {
          UngetUnsave(c);
          ok := false;
        }
      } else if 0x30 <= c <= 0x39 {
        c, q := LexDigits(c, p0, q);
      } else {
        UngetUnsave(c);
        ok := false;
      }
    }

    /** The fraction and the exponent, if they are there. */
    method LexFraction(c0: int, ghost p0: nat, ghost q0: nat) returns (ok: bool, c: int, ghost q: nat)
      requires Valid() && p0 < q0 <= |text| && Current(c0, q0, [] + text[p0..q0])
      modifies `dataPos, `bufferPos, `state, `position, `count, buffer, `saved
      ensures Valid()
      ensures ok <==> FractionEnd(text, q0) > 0
      ensures ok ==> q0 <= q <= |text| && q == FractionEnd(text, q0) && Current(c, q, [] + text[p0..q])
    {
      hide Valid, Current, DigitRun;
      c, q, ok := c0, q0, true;
      CurrentChar(c, q, [] + text[p0..q]);
      if c == 0x2E {
        NoDigits(text, q + 1);
        // the source saves this character only after looking at it
        c, q := CollectOne([], c, p0, q);
        CurrentChar(c, q, [] + text[p0..q]);
        if !(0x30 <= c <= 0x39) {
          UngetUnsave(c);
          return false, c, q;
        }
        c, q := LexDigits(c, p0, q);
      }
    }

    method LexExponent(c0: int, ghost p0: nat, ghost q0: nat) returns (ok: bool, c: int, ghost q: nat)
      requires Valid() && p0 < q0 <= |text| && Current(c0, q0, [] + text[p0..q0])
      modifies `dataPos, `bufferPos, `state, `position, `count, buffer, `saved
      ensures Valid()
      ensures ok <==> ExponentEnd(text, q0) > 0
      ensures ok ==> q0 <= q <= |text| && q == ExponentEnd(text, q0) && Current(c, q, [] + text[p0..q])
    {
      hide Valid, Current, DigitRun;
      c, q, ok := c0, q0, true;
      CurrentChar(c, q, [] + text[p0..q]);
      if c == 0x45 || c == 0x65 {
        c, q := CollectOne([], c, p0, q);
        CurrentChar(c, q, [] + text[p0..q]);
        if c == 0x2B || c == 0x2D {
          c, q := CollectOne([], c, p0, q);
        }
        CurrentChar(c, q, [] + text[p0..q]);
        NoDigits(text, q);
        if !(0x30 <= c <= 0x39) {
          UngetUnsave(c);
          return false, c, q;
        }
        c, q := LexDigits(c, p0, q);
      }
    }

    /** An integer, its end reached. */
    method FinishInteger(c: int, ghost p0: nat, ghost q: nat)
      requires Valid() && p0 < q <= |text| && Current(c, q, [] + text[p0..q])
      requires q - p0 == IntegerEnd(text[p0..]) && !IsPoint(text[p0..], q - p0) && !IsExponent(text[p0..], q - p0)
      modifies `bufferPos, `position, `saved, `token
      ensures Valid() && ScannedAs(ScanNumber(text[p0..]))
    {
      hide Valid, Current, DigitRun, IntegerEnd, FractionEnd, ExponentEnd, IntegerToken, IsPoint, IsExponent;
      ghost var t := text[p0..];
      Within(text, p0, q);
      GiveBack(c, q, [] + text[p0..q]);
      assert saved == text[p0..q];
      IntegerSaved(text, p0);
      var k := if saved[0] == 0x2D then 1 else 0;
      // strtoll, where it does not overflow
      token := IntegerToken(saved[0] == 0x2D, saved[k..]);
      EndsBelow();
    }

    /** The text of a real number becomes the token. */
    method TakeReal(c: int, ghost p0: nat, ghost q: nat)
      requires Valid() && p0 <= q <= |text| && Current(c, q, [] + text[p0..q])
      modifies `bufferPos, `position, `saved, `token
      ensures Valid() && position == q && token == TReal(text[p0..q])
      ensures text[p0..][..q - p0] == text[p0..q] && text[p0..][q - p0..] == text[q..]
    {
      hide Valid, Current;
      Within(text, p0, q);
      GiveBack(c, q, [] + text[p0..q]);
      assert saved == text[p0..q];
      token := TReal(saved);
    }

    /** A real, behind its integer part. */
    method LexReal(c0: int, ghost p0: nat, ghost q0: nat)
      requires Valid() && p0 < q0 <= |text| && Current(c0, q0, [] + text[p0..q0])
      requires q0 - p0 == IntegerEnd(text[p0..]) && (IsPoint(text[p0..], q0 - p0) || IsExponent(text[p0..], q0 - p0))
      modifies `dataPos, `bufferPos, `state, `position, `count, buffer, `saved, `token
      ensures Valid() && ScannedAs(ScanNumber(text[p0..]))
    {
      hide Valid, Current, DigitRun, IntegerEnd, FractionEnd, ExponentEnd, ScanNumber, IsPoint, IsExponent;
      token := TInvalid;
      RealScan(text[p0..], q0 - p0);
      EndsShift(text, p0, q0 - p0);
      var ok, c, q := LexFraction(c0, p0, q0);
      if ok {
        EndsShift(text, p0, q - p0);
        ok, c, q := LexExponent(c, p0, q);
        if ok { TakeReal(c, p0, q); }
      }
      EndsBelow();
    }

    /** lex_scan_number. */
    method LexNumber(c0: int, ghost p0: nat)
      requires Valid() && p0 < |text| && Current(c0, p0, [] + text[p0..p0])
      modifies `dataPos, `bufferPos, `state, `position, `count, buffer, `saved, `token
      ensures Valid() && ScannedAs(ScanNumber(text[p0..]))
    {
      hide Valid, Current, DigitRun, IntegerEnd, FractionEnd, ExponentEnd, IntegerToken;
      token := TInvalid;
      var ok, c, q := LexInteger(c0, p0);
      EndsBelow();
      if ok {
        CurrentChar(c, q, [] + text[p0..q]);
        EndsShift(text, p0, q - p0);
        if c != 0x2E && c != 0x45 && c != 0x65 {
          FinishInteger(c, p0, q);
        } else {
          LexReal(c, p0, q);
        }
      }
    }

    /** An identifier, eaten up whole. */
    method LexWord(c0: int, ghost p0: nat)
      requires Valid() && p0 < |text| && Current(c0, p0, [] + text[p0..p0]) && IsAlpha(text[p0])
      modifies `dataPos, `bufferPos, `state, `position, `count, buffer, `saved, `token
      ensures Valid()
      ensures ScannedAs(Scanned(WordToken(text[p0..][..AlphaRun(text[p0..])]), text[p0..][AlphaRun(text[p0..])..]))
    {
      hide Valid, Current, WordToken, AlphaRun;
      var c: int;
      ghost var q: nat;
      Letters(text, p0);
      c, q := CollectOne([], c0, p0, p0);
      CurrentChar(c, q, [] + text[p0..q]);
      while 0x41 <= c <= 0x5A || 0x61 <= c <= 0x7A
        invariant Valid() && p0 <= q <= |text| && Current(c, q, [] + text[p0..q])
        invariant AlphaRun(text[p0..]) == q - p0 + AlphaRun(text[q..])
        decreases |text| - q
      {
        CurrentChar(c, q, [] + text[p0..q]);
        Letters(text, q);
        c, q := CollectOne([], c, p0, q);
      }
      CurrentChar(c, q, [] + text[p0..q]);
      Letters(text, q);
      Within(text, p0, q);
      GiveBack(c, q, [] + text[p0..q]);
      assert saved == text[p0..q];
      token := WordToken(saved);
    }

    /** Reading a character without saving it. */
    method GetNext() returns (c: int)
      requires Valid()
      modifies `dataPos, `bufferPos, `state, `position, `count, buffer
      ensures Valid() && old(position) <= |text| && Got(c, old(position))
    {
      hide Valid;
      EndsBelow();
      c := Get();
    }

    /** Reading on to the first character that is no white space. */
    method SkipBlanks() returns (c: int, ghost q: nat)
      requires Valid()
      modifies `dataPos, `bufferPos, `state, `position, `count, buffer
      ensures Valid() && old(position) <= q <= |text| && Got(c, q)
      ensures SkipSpace(text[old(position)..]) == SkipSpace(text[q..])
      ensures q < |text| ==> !IsSpace(text[q])
    {
      hide Valid, SkipSpace;
      EndsBelow();
      ghost var p0 := position;
      q := position;
      c := GetNext();
      while c == 0x20 || c == 0x09 || c == 0x0A || c == 0x0D
        invariant Valid() && p0 <= q <= |text| && Got(c, q)
        invariant SkipSpace(text[p0..]) == SkipSpace(text[q..])
        decreases |text| - q
      {
        OneBlank(text, q);
        q := q + 1;
        c := GetNext();
      }
    }

    /** lex_scan: the next token of the text. */
    method LexScan()
      requires Valid()
      modifies `dataPos, `bufferPos, `state, `position, `count, buffer, `saved, `token
      ensures Valid() && old(position) <= |text|
      ensures ScannedAs(Scan(text[old(position)..], text == data))
    {
      hide Valid, Scan, TokenOf, SkipSpace;
      saved := [];
      var c: int;
      ghost var q: nat;
      c, q := SkipBlanks();
      AtToken(text, old(position), q);
      if c == EOF || c == ERROR {
        token := if c == EOF then TEof else TInvalid;
      } else {
        saved := [c];
        LexToken(c, q);
      }
    }

    /** The character c has just been read, and not saved. */
    ghost predicate Got(c: int, q: nat)
      reads this`position, this`state, this`bufferPos
    {
      && q <= |text|
      && (q < |text| ==> c == text[q] && position == q + 1 && state == 0 && bufferPos > 0)
      && (q == |text| ==> c == End() && position == q)
    }

    /** Dispatching on the first character of a token. */
    method LexToken(c: int, ghost q: nat)
      requires Valid() && q < |text| && Got(c, q) && saved == [text[q]]
      modifies `dataPos, `bufferPos, `state, `position, `count, buffer, `saved, `token
      ensures Valid() && ScannedAs(TokenOf(text[q..]))
    {
      hide Valid, ScanNumber, ScanString, WordToken, AlphaRun;
      assert text[q..][0] == text[q] && text[q..][1..] == text[q + 1..];
      assert [] + text[q..q] + [text[q]] == [text[q]];
      if c == 0x7B || c == 0x7D || c == 0x5B || c == 0x5D || c == 0x3A || c == 0x2C {
        token := TChar(c);
      } else if c == QUOTE {
        LexString();
      } else if 0x30 <= c <= 0x39 || c == 0x2D {
        LexNumber(c, q);
      } else if 0x41 <= c <= 0x5A || 0x61 <= c <= 0x7A {
        LexWord(c, q);
      } else {
        // the source saves the rest of the character for its error message
        token := TInvalid;
      }
    }

    // ---- the parser ----------------------------------------------------------------------

    /** The parser has come to p: the value, and what is left, or a failure. */
    ghost predicate Came(p: Parsed, ok: bool, v: Json)
      reads this`position
    {
      && position <= |text| && (ok <==> p.Parsed?)
      && (ok ==> v == p.v && text[position..] == p.rest)
    }

    /** parse_value: the first token of the value has been scanned. */
    method ReadValue(f: LoadFlags) returns (ok: bool, v: Json)
      requires Valid() && position <= |text|
      modifies `dataPos, `bufferPos, `state, `position, `count, buffer, `saved, `token
      ensures Valid() && Came(ParseValue(old(token), text[old(position)..], text == data, f), ok, v)
      ensures ok ==> old(position) <= position
      decreases |text| - position, 1
    {
      hide Valid, Scan, ParseItems, ParseFields;
      ok, v := true, Null;
      match token {
        case TString(s) => v := String(s);
        case TInteger(n) => v := Integer(n);
        case TReal(x) => v := Real(x);
        case TTrue => v := True;
        case TFalse => v := False;
        case TNull => v := Null;
        case TChar(c) =>
          if c == 0x7B {
            ok, v := ReadObject(f);
          } else if c == 0x5B {
            ok, v := ReadArray(f);
          } else {
            ok := false;
          }
        case TInvalid => ok := false;
        case TEof => ok := false;
      }
    }

    /** What comes of the elements, with the token just scanned as the next one's first. */
    ghost predicate ItemsAhead(whole: Parsed, f: LoadFlags, items: seq<Json>)
      reads this`token, this`position
    {
      position <= |text| &&
      whole == if token == TEof || token == TInvalid then Failed else ParseItems(token, text[position..], text == data, f, items)
    }

    /** Scanning on from behind p0. */
    method ScanOn(ghost p0: nat)
      requires Valid() && position == p0
      modifies `dataPos, `bufferPos, `state, `position, `count, buffer, `saved, `token
      ensures Valid() && p0 <= |text| && position <= |text| && token == Scan(text[p0..], text == data).token
      ensures token != TEof && token != TInvalid ==> p0 < position && text[position..] == Scan(text[p0..], text == data).rest
    {
      hide Valid, Scan;
      LexScan();
    }

    /** One turn of the loop of parse_array. */
    method ReadItem(f: LoadFlags, items0: seq<Json>, ghost whole: Parsed) returns (ok: bool, items: seq<Json>)
      requires Valid() && token != TEof && token != TInvalid && ItemsAhead(whole, f, items0)
      modifies `dataPos, `bufferPos, `state, `position, `count, buffer, `saved, `token
      ensures Valid() && position <= |text| && (ok && token == TChar(0x2C) ==> old(position) <= position)
      ensures !ok ==> whole == Failed
      ensures ok && token == TChar(0x2C) ==> ItemsAfterComma(whole, f, items)
      ensures ok && token != TChar(0x2C) ==>
        whole == if token == TChar(0x5D) then Parsed(Array(items), text[position..]) else Failed
      decreases |text| - position, 2
    {
      hide Valid, Scan, ParseValue;
      var elem: Json;
      items := items0;
      ok, elem := ReadValue(f);
      if !ok { EndsBelow(); return; }
      items := items0 + [elem];
      ScanOn(position);
    }

    ghost predicate ItemsAfterComma(whole: Parsed, f: LoadFlags, items: seq<Json>)
      reads this`position
    {
      position <= |text| &&
      var s := Scan(text[position..], text == data);
      whole == if s.token == TEof then Failed else ParseItems(s.token, s.rest, text == data, f, items)
    }

    /** parse_array, behind the opening bracket. */
    method ReadArray(f: LoadFlags) returns (ok: bool, v: Json)
      requires Valid() && position <= |text|
      modifies `dataPos, `bufferPos, `state, `position, `count, buffer, `saved, `token
      ensures Valid() && (ok ==> old(position) <= position) && Came(ParseValue(TChar(0x5B), text[old(position)..], text == data, f), ok, v)
      decreases |text| - position, 0
    {
      hide Valid, Scan, ParseItems, ParseFields;
      ghost var p0, whole := position, ParseValue(TChar(0x5B), text[position..], text == data, f);
      var items: seq<Json> := [];
      ok, v := true, Array([]);
      ScanOn(position);
      if token == TChar(0x5D) { return; }
      while token != TEof
        invariant Valid() && position <= |text| && ItemsAhead(whole, f, items)
        invariant token != TEof && token != TInvalid ==> p0 < position
        decreases token != TInvalid && token != TEof, |text| - position
      {
        // parse_value fails at once on an invalid token
        if token == TInvalid { ok := false; return; }
        ok, items := ReadItem(f, items, whole);
        if !ok { return; }
        if token != TChar(0x2C) {
          ok, v := token == TChar(0x5D), Array(items);
          return;
        }
        InvalidItem(Scan(text[position..], text == data).rest, text == data, f, items);
        ScanOn(position);
      }
      ok := false;
    }

    // ---- objects -----------------------------------------------------------------------------

    /** What comes of the pairs, with the token just scanned where a key should be. */
    ghost predicate FieldsAhead(whole: Parsed, f: LoadFlags, fields: seq<Field>, serial: nat)
      reads this`token, this`position
    {
      position <= |text| &&
      whole == if token == TEof || token == TInvalid then Failed else ParseFields(token, text[position..], text == data, f, fields, serial)
    }

    ghost predicate FieldsAfterComma(whole: Parsed, f: LoadFlags, fields: seq<Field>, serial: nat)
      reads this`position
    {
      position <= |text| &&
      var s := Scan(text[position..], text == data);
      whole == ParseFields(s.token, s.rest, text == data, f, fields, serial)
    }

    /** One turn of the loop of parse_object. */
    method ReadField(f: LoadFlags, fields0: seq<Field>, serial: nat, ghost whole: Parsed) returns (ok: bool, fields: seq<Field>)
      requires Valid() && token != TEof && token != TInvalid && FieldsAhead(whole, f, fields0, serial)
      modifies `dataPos, `bufferPos, `state, `position, `count, buffer, `saved, `token
      ensures Valid() && position <= |text| && (ok && token == TChar(0x2C) ==> old(position) <= position)
      ensures !ok ==> whole == Failed
      ensures ok && token == TChar(0x2C) ==> FieldsAfterComma(whole, f, fields, serial + 1)
      ensures ok && token != TChar(0x2C) ==>
        whole == if token == TChar(0x7D) then Parsed(Object(fields), text[position..]) else Failed
      decreases |text| - position, 2
    {
      hide Valid, Scan, ParseValue, Find, SetField;
      ok, fields := false, fields0;
      if !token.TString? { return; }
      var key := token.s;
      if f.rejectDuplicates && Find(fields, key) >= 0 { return; }
      ScanOn(position);
      if token != TChar(0x3A) { return; }
      ghost var rest := Scan(text[position..], text == data).rest;
      ScanOn(position);
      // parse_value fails at once on either
      if token == TInvalid || token == TEof { NoValue(token, rest, text == data, f); return; }
      var value: Json;
      ok, value := ReadValue(f);
      if !ok { EndsBelow(); return; }
      fields := SetField(fields, key, serial, value);
      ScanOn(position);
    }

    /** parse_object, behind the opening brace. */
    method ReadObject(f: LoadFlags) returns (ok: bool, v: Json)
      requires Valid() && position <= |text|
      modifies `dataPos, `bufferPos, `state, `position, `count, buffer, `saved, `token
      ensures Valid() && (ok ==> old(position) <= position) && Came(ParseValue(TChar(0x7B), text[old(position)..], text == data, f), ok, v)
      decreases |text| - position, 0
    {
      hide Valid, Scan, ParseItems, ParseFields;
      ghost var p0, whole := position, ParseValue(TChar(0x7B), text[position..], text == data, f);
      var fields: seq<Field> := [];
      var serial := 0;
      ok, v := true, Object([]);
      ScanOn(position);
      if token == TChar(0x7D) { return; }
      while true
        invariant Valid() && position <= |text| && FieldsAhead(whole, f, fields, serial)
        invariant token != TEof && token != TInvalid ==> p0 < position
        decreases token != TInvalid && token != TEof, |text| - position
      {
        // neither is a key
        if token == TInvalid || token == TEof { ok := false; return; }
        ok, fields := ReadField(f, fields, serial, whole);
        if !ok { return; }
        serial := serial + 1;
        if token != TChar(0x2C) {
          ok, v := token == TChar(0x7D), Object(fields);
          return;
        }
        NoField(Scan(text[position..], text == data).rest, text == data, f, fields, serial);
        ScanOn(position);
      }
    }

    /** parse_json: what json_loads returns. */
    method ReadJson(f: LoadFlags) returns (ok: bool, v: Json)
      requires Valid() && position == 0
      modifies `dataPos, `bufferPos, `state, `position, `count, buffer, `saved, `token
      ensures ok <==> Load(data, f).Parsed?
      ensures ok ==> v == Load(data, f).v
    {
      hide Valid, Scan, ParseValue;
      TextIs();
      assert text[0..] == text;
      v := Null;
      ScanOn(0);
      if !f.decodeAny && token != TChar(0x5B) && token != TChar(0x7B) { return false, v; }
      if token == TInvalid || token == TEof {
        NoValue(token, Scan(text, text == data).rest, text == data, f);
        NoValue(token, text[position..], text == data, f);
      }
      ok, v := ReadValue(f);
      if !ok { return; }
      if !f.disableEofCheck {
        ScanOn(position);
        ok := token == TEof;
      }
    }

    lemma TextIs()
      requires Valid()
      ensures text == ValidPrefix(data) && (text == data <==> Utf8.Valid(data))
    {
      PrefixIsWhole(data);
    }
  }

  lemma {:induction false} StreamBounds(data: seq<byte>, text: seq<byte>, buf: seq<byte>, count: nat, at: nat, pos: nat, position: nat)
    requires Streaming(data, text, buf, count, at, pos, position)
    ensures |buf| == 5 && at <= count <= 4 && pos <= |data| && position <= |text|
  {
  }

  /** Positions in the whole text and in the part that begins with the number. */
  lemma {:induction false} OneByte(b: seq<byte>, data: seq<byte>, pos: nat)
    requires |b| > 0 && pos < |data| && b[0] == data[pos]
    ensures b[..1] == data[pos..pos + 1]
  {
    assert b[..1] == [b[0]] && data[pos..pos + 1] == [data[pos]];
  }

  /** A string of n bytes from p on, with both its quotes. */
  lemma {:induction false} Quoted(saved: seq<byte>, t: seq<byte>, p: nat, n: nat)
    requires p + n < |t| && t[p + n] == QUOTE && saved == [QUOTE] + t[p..p + n] + [QUOTE]
    ensures |saved| == n + 2 && saved[1..] == t[p..][..n + 1] && saved[1..|saved| - 1] == t[p..][..n]
    ensures t[p..][n + 1..] == t[p + n + 1..]
  {
    var x := t[p..p + n];
    assert saved[1..] == x + [QUOTE] && saved[1..|saved| - 1] == x;
    assert t[p..][..n] == x;
    assert t[p..][..n + 1] == x + [QUOTE];
  }

  /** A number with a fraction or an exponent. */
  lemma {:induction false} RealScan(t: seq<byte>, n: nat)
    requires 0 < n == IntegerEnd(t) && (IsPoint(t, n) || IsExponent(t, n))
    ensures ScanNumber(t) ==
      if FractionEnd(t, n) == 0 || ExponentEnd(t, FractionEnd(t, n)) == 0 then Scanned(TInvalid, [])
      else Scanned(TReal(t[..ExponentEnd(t, FractionEnd(t, n))]), t[ExponentEnd(t, FractionEnd(t, n))..])
  {
    hide IntegerEnd, FractionEnd, ExponentEnd, IsPoint, IsExponent, IntegerToken;
  }

  lemma {:induction false} EndsShift(t: seq<byte>, p: nat, n: nat)
    requires p + n <= |t| && n > 0
    ensures IsPoint(t[p..], n) <==> IsPoint(t, p + n)
    ensures IsExponent(t[p..], n) <==> IsExponent(t, p + n)
    ensures FractionEnd(t, p + n) == if FractionEnd(t[p..], n) == 0 then 0 else p + FractionEnd(t[p..], n)
    ensures ExponentEnd(t, p + n) == if ExponentEnd(t[p..], n) == 0 then 0 else p + ExponentEnd(t[p..], n)
  {
    hide DigitRun;
    var u := t[p..];
    if p + n < |t| {
      assert u[n] == t[p + n] && u[n + 1..] == t[p + n + 1..];
      if p + n + 1 < |t| { assert u[n + 1] == t[p + n + 1] && u[n + 2..] == t[p + n + 2..]; }
    }
  }

  lemma {:induction false} Within(t: seq<byte>, p: nat, q: nat)
    requires p <= q <= |t|
    ensures t[p..][..q - p] == t[p..q] && t[p..][q - p..] == t[q..]
  {
  }

  lemma {:induction false} IntegerSaved(t: seq<byte>, p: nat)
    requires p < |t| && IntegerEnd(t[p..]) > 0
    ensures var s := t[p..][..IntegerEnd(t[p..])];
      var k := if s[0] == 0x2D then 1 else 0;
      && s[0] == t[p] && k <= |s| && s[k..] == t[p..][k..IntegerEnd(t[p..])]
      && forall i :: 0 <= i < |s[k..]| ==> IsDigit(s[k..][i])
  {
    hide IsDigit;
    var u := t[p..];
    var n := IntegerEnd(u);
    var k := if u[0] == 0x2D then 1 else 0;
    assert n == k + DigitRun(u[k..]);
    forall i | 0 <= i < n - k ensures IsDigit(u[..n][k..][i]) {
      assert u[..n][k..][i] == u[k..][i];
    }
  }

  lemma {:induction false} Letters(t: seq<byte>, q: nat)
    requires q <= |t|
    ensures AlphaRun(t[q..]) == 0 <==> q == |t| || !IsAlpha(t[q])
    ensures q < |t| && IsAlpha(t[q]) ==> AlphaRun(t[q..]) == 1 + AlphaRun(t[q + 1..])
  {
    if q < |t| { assert t[q..][0] == t[q] && t[q..][1..] == t[q + 1..]; }
  }

  lemma {:induction false} OneBlank(t: seq<byte>, q: nat)
    requires q < |t| && IsSpace(t[q])
    ensures SkipSpace(t[q..]) == SkipSpace(t[q + 1..])
  {
    assert t[q..][0] == t[q] && t[q..][1..] == t[q + 1..];
  }

  /** The token that begins right here. */
  ghost function TokenOf(t: seq<byte>): Scanned
    requires |t| > 0
  {
    if IsPunctuation(t[0]) then Scanned(TChar(t[0]), t[1..])
    else if t[0] == QUOTE then ScanString(t[1..])
    else if IsDigit(t[0]) || t[0] == 0x2D then ScanNumber(t)
    else if IsAlpha(t[0]) then Scanned(WordToken(t[..AlphaRun(t)]), t[AlphaRun(t)..])
    else Scanned(TInvalid, [])
  }

  /** White space skipped, the token is the one that begins here. */
  lemma {:induction false} AtToken(t: seq<byte>, p: nat, q: nat)
    requires p <= q <= |t| && SkipSpace(t[p..]) == SkipSpace(t[q..])
    ensures q == |t| ==> forall complete :: Scan(t[p..], complete) == Scanned(if complete then TEof else TInvalid, [])
    ensures q < |t| && !IsSpace(t[q]) ==> forall complete :: Scan(t[p..], complete) == TokenOf(t[q..])
  {
    hide ScanNumber, ScanString, WordToken, AlphaRun, SkipSpace;
    if q < |t| {
      assert t[q..][0] == t[q];
      if !IsSpace(t[q]) { NoSpaceHere(t[q..]); }
    } else {
      NoSpaceHere(t[q..]);
    }
  }

  lemma {:induction false} NoSpaceHere(t: seq<byte>)
    requires t == [] || !IsSpace(t[0])
    ensures SkipSpace(t) == t
  {
  }

  lemma {:induction false} NoValue(tok: Token, t: seq<byte>, complete: bool, f: LoadFlags)
    requires tok == TInvalid || tok == TEof
    ensures ParseValue(tok, t, complete, f) == Failed
  {
  }

  lemma {:induction false} InvalidItem(t: seq<byte>, complete: bool, f: LoadFlags, items: seq<Json>)
    ensures ParseItems(TInvalid, t, complete, f, items) == Failed
  {
  }

  lemma {:induction false} NoField(t: seq<byte>, complete: bool, f: LoadFlags, fields: seq<Field>, serial: nat)
    ensures ParseFields(TInvalid, t, complete, f, fields, serial) == Failed
    ensures ParseFields(TEof, t, complete, f, fields, serial) == Failed
  {
  }

  lemma {:induction false} NoDigits(t: seq<byte>, q: nat)
    requires q <= |t|
    ensures DigitRun(t[q..]) == 0 <==> q == |t| || !IsDigit(t[q])
    ensures q < |t| && IsDigit(t[q]) ==> DigitRun(t[q..]) == 1 + DigitRun(t[q + 1..])
  {
    if q < |t| { assert t[q..][0] == t[q] && t[q..][1..] == t[q + 1..]; }
  }

  /** How the text before a closing quote is taken apart. */
  lemma {:induction false} RawSteps(t: seq<byte>, q: nat)
    requires q <= |t|
    ensures q == |t| ==> RawLen(t[q..]) == -1
    ensures q < |t| && t[q] == QUOTE ==> RawLen(t[q..]) == 0
    ensures q < |t| && t[q] <= 0x1F ==> RawLen(t[q..]) == -1
    ensures q < |t| && t[q] > 0x1F && t[q] != QUOTE && t[q] != BACKSLASH ==> RawLen(t[q..]) == After(1, RawLen(t[q + 1..]))
    ensures q < |t| && t[q] == BACKSLASH ==>
      if q + 1 == |t| then RawLen(t[q..]) == -1
      else if t[q + 1] == LETTER_U then
        RawLen(t[q..]) == if q + 6 > |t| then -1 else After(6, RawLen(t[q + 6..]))
      else RawLen(t[q..]) == if ShortLetter(t[q + 1]) then After(2, RawLen(t[q + 2..])) else -1
  {
    var u := t[q..];
    if |u| >= 1 { assert u[0] == t[q] && u[1..] == t[q + 1..]; }
    if |u| >= 2 { assert u[1] == t[q + 1] && u[2..] == t[q + 2..]; }
    if |u| >= 6 { assert u[6..] == t[q + 6..]; }
  }

  lemma {:induction false} FirstByte(data: seq<byte>, pos: nat)
    requires pos <= |data|
    ensures pos < |data| && data[pos] < 0x80 ==> Char(data[pos..]).0 == 1
    ensures pos < |data| && CheckFirst(data[pos]) == 0 ==> Char(data[pos..]).0 == 0
    ensures pos < |data| && data[pos] >= 0x80 ==> CheckFirst(data[pos]) != 1
  {
  }

  /** The bytes collected in the buffer make a valid sequence just when the data do. */
  lemma {:induction false} LongChar(data: seq<byte>, pos: nat, buf: seq<byte>, k: nat)
    requires pos < |data| && |buf| == 5 && data[pos] >= 0x80 && k == CheckFirst(data[pos]) && k >= 2
    requires buf[0] == data[pos] && forall i :: 1 <= i < k ==> buf[i] == if pos + i < |data| then data[pos + i] else 0xFF
    ensures var ok := (forall i :: 1 <= i < k ==> Continuation(buf[i])) && Acceptable(Value(buf, k, k), k);
      if ok then Char(data[pos..]).0 == k && pos + k <= |data| && buf[..k] == data[pos..pos + k]
      else Char(data[pos..]).0 == 0
  {
    var s := data[pos..];
    if pos + k <= |data| {
      assert buf[..k] == s[..k];
      SameValue(buf, s, k, k);
    } else {
      assert !Continuation(buf[|s|]);
    }
  }

  lemma {:induction false} SameValue(a: seq<byte>, b: seq<byte>, n: nat, k: nat)
    requires 1 <= k <= |a| && k <= |b| && a[..k] == b[..k]
    ensures Value(a, n, k) == Value(b, n, k)
    ensures forall i :: 0 <= i < k ==> a[i] == b[i]
    decreases k
  {
    assert a[k - 1] == a[..k][k - 1] == b[k - 1];
    if k > 1 {
      assert a[..k - 1] == a[..k][..k - 1] && b[..k - 1] == b[..k][..k - 1];
      SameValue(a, b, n, k - 1);
    }
  }
}
