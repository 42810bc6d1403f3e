/** Websocket framing in parsers.c: the writer on the client side and the
    byte-at-a-time receiver on the server side (section 5 of RFC 6455). */
module WsFrame {
  import Arith
  import opened Bits

  const MAX_USER_RX_BUFFER: nat := 4096

  /** What both ends agree on: the protocol revision and, for revision 4, the
      connection's masking key. */
  datatype Config = Config(revision: nat, key: seq<byte>)

  predicate Agreed(cfg: Config)
  {
    (cfg.revision == 4 || cfg.revision == 5 || cfg.revision == 6 || cfg.revision == 7 || cfg.revision == 8 || cfg.revision == 13)
    && |cfg.key| == 20
  }

  // ---- masking -------------------------------------------------------------------------

  function XorByte(a: byte, b: byte): (c: byte)
    ensures IsXor(c, a, b)
  {
    BytePowers();
    XorBound(a, b, 8);
    Xor(a, b)
  }

  predicate IsXor(c: byte, a: byte, b: byte) { c == Xor(a, b) }

  lemma {:induction false} XorTwice(a: byte, b: byte)
    ensures XorByte(XorByte(a, b), b) == a
  {
    hide Xor;
    XorCancel(a, b);
  }

  lemma {:induction false} XorNone(a: byte)
    ensures XorByte(a, 0) == a
  {
    hide Xor;
    XorComm(a, 0);
    XorZero(a);
  }

  /** The mask byte for the k-th masked byte of a frame. */
  function MaskAt(cfg: Config, nonce: seq<byte>, k: nat): byte
    requires |cfg.key| == 20 && |nonce| == 4
  {
    if cfg.revision == 4 then cfg.key[k % 20] else nonce[k % 4]
  }

  /** s masked, its first byte being the k-th masked one of the frame. */
  function Masked(cfg: Config, nonce: seq<byte>, k: nat, s: seq<byte>): (r: seq<byte>)
    requires |cfg.key| == 20 && |nonce| == 4
    ensures |r| == |s|
    decreases |s|
  {
    if |s| == 0 then [] else [XorByte(s[0], MaskAt(cfg, nonce, k))] + Masked(cfg, nonce, k + 1, s[1..])
  }

  /** frame_mask_index, an unsigned char, after k masked bytes. */
  function IndexAfter(cfg: Config, k: nat): nat { if cfg.revision == 4 then k % 20 else k % 256 }

  /** xor_mask_04 and xor_mask_05: the mask byte that the index selects, and the next index. */
  function MaskByte(cfg: Config, nonce: seq<byte>, index: nat): byte
    requires |cfg.key| == 20 && |nonce| == 4
  {
    if cfg.revision == 4 then (if index < 20 then cfg.key[index] else 0) else nonce[index % 4]
  }

  function NextIndex(cfg: Config, index: nat): nat
  {
    if cfg.revision == 4 then (if index + 1 == 20 then 0 else index + 1) else (index + 1) % 256
  }

  /** That the index wraps around at 256 does no harm. */
  lemma {:induction false} IndexIsPosition(cfg: Config, nonce: seq<byte>, k: nat)
    requires |cfg.key| == 20 && |nonce| == 4
    ensures MaskByte(cfg, nonce, IndexAfter(cfg, k)) == MaskAt(cfg, nonce, k)
    ensures NextIndex(cfg, IndexAfter(cfg, k)) == IndexAfter(cfg, k + 1)
  {
    if cfg.revision == 4 { NextMod(k, 20); } else { NextMod(k, 256); ModOfMod(k); }
  }

  lemma {:induction false} NextMod(k: nat, w: nat)
    requires w > 1
    ensures (k + 1) % w == if k % w + 1 == w then 0 else k % w + 1
    ensures (k % w + 1) % w == (k + 1) % w
  {
    Arith.DivMod(k, w);
    var r := k % w;
    if r + 1 == w {
      assert k + 1 == w * (k / w + 1) + 0;
      Arith.ModUnique(k + 1, w, k / w + 1, 0);
      Arith.ModUnique(r + 1, w, 1, 0);
    } else {
      Arith.ModUnique(k + 1, w, k / w, r + 1);
      Arith.ModUnique(r + 1, w, 0, r + 1);
    }
  }

  lemma {:induction false} ModOfMod(k: nat)
    ensures k % 256 % 4 == k % 4
  {
    Arith.DivMod(k, 256);
    Arith.DivMod(k % 256, 4);
    Arith.ModUnique(k, 4, 64 * (k / 256) + k % 256 / 4, k % 256 % 4);
  }

  // ---- frames ----------------------------------------------------------------------------

  datatype Kind = Text | Binary

  /** The opcode on the wire, and the one both ends use internally. */
  function WireOpcode(cfg: Config, kind: Kind): byte
  {
    if cfg.revision < 7 then (if kind.Text? then 4 else 5) else (if kind.Text? then 1 else 2)
  }

  function Opcode07(kind: Kind): byte { if kind.Text? then 1 else 2 }

  /** The frame header: FIN and opcode, mask bit and length. */
  function Header(cfg: Config, kind: Kind, fin: bool, len: nat): (h: seq<byte>)
    requires 1 <= len < 0x8000_0000
    ensures |h| == 2 || |h| == 4 || |h| == 10
  {
    var first: byte := WireOpcode(cfg, kind) + (if fin then 0x80 else 0);
    var mask: byte := if cfg.revision < 7 then 0 else 0x80;
    if len < 126 then [first, len + mask]
    else if len < 65536 then [first, 126 + mask, len / 0x100, len % 0x100]
    else [first, 127 + mask, 0, 0, 0, 0, len / 0x100 / 0x100 / 0x100, len / 0x100 / 0x100 % 0x100, len / 0x100 % 0x100, len % 0x100]
  }

  /** A client frame.  Before revision 7 the nonce comes first and everything behind it
      is masked; from then on it stands behind the header and only the payload is. */
  function Frame(cfg: Config, nonce: seq<byte>, kind: Kind, fin: bool, payload: seq<byte>): seq<byte>
    requires |cfg.key| == 20 && |nonce| == 4 && 1 <= |payload| < 0x8000_0000
  {
    var h := Header(cfg, kind, fin, |payload|);
    if cfg.revision < 7 then nonce + Masked(cfg, nonce, 0, h + payload)
    else h + nonce + Masked(cfg, nonce, 0, payload)
  }

  // ---- the receiver ------------------------------------------------------------------------

  datatype ParseState =
    | New | Nonce1 | Nonce2 | Nonce3 | Hdr1 | HdrLen | Len16_2 | Len16_1
    | Len64_8 | Len64_7 | Len64_6 | Len64_5 | Len64_4 | Len64_3 | Len64_2 | Len64_1
    | Key1 | Key2 | Key3 | Key4 | Payload

  /** What the callback gets. */
  datatype Piece = Piece(opcode: byte, final: bool, data: seq<byte>)

  /** The receiver's state: rx_user_buffer up to its head, and what was called back;
      `pongs` are the payloads sent back for pings. */
  datatype Rx = Rx(parse: ParseState, nonce: seq<byte>, allZero: bool, index: nat, opcode: byte, final: bool,
                   masked: bool, length: nat, buffer: seq<byte>, pieces: seq<Piece>, pongs: seq<seq<byte>>, alive: bool)

  predicate Sane(s: Rx) { |s.nonce| == 4 }

  /** The opcode of a frame header before revision 7 in terms of revision 7, or none. */
  function Translated(c: byte): int
  {
    if c % 16 == 0 then 0 else if c % 16 == 1 then 8 else if c % 16 == 2 then 9 else if c % 16 == 3 then 10
    else if c % 16 == 4 then 1 else if c % 16 == 5 then 2 else -1
  }

  /** Collecting byte i of the nonce or key. */
  function TakeNonce(s: Rx, i: nat, c: byte, first: bool, next: ParseState): (r: Rx)
    requires Sane(s) && i < 4
    ensures Sane(r) && r.parse == next && r.alive == s.alive
  {
    s.(nonce := s.nonce[i := c], allZero := (first || s.allZero) && c == 0, parse := next)
  }

  /** The first header byte, unmasked. */
  function FirstByte(cfg: Config, s: Rx, c: byte): (r: Rx)
    requires Sane(s)
    ensures Sane(r)
  {
    if cfg.revision < 7 && Translated(c) < 0 then s.(alive := false)
    else s.(opcode := if cfg.revision < 7 then Translated(c) else c % 16, final := c >= 0x80, parse := HdrLen)
  }

  function BodyState(masked: bool): ParseState { if masked then Key1 else Payload }

  /** The second header byte, unmasked. */
  function LengthByte(cfg: Config, s: Rx, c: byte): (r: Rx)
    requires Sane(s)
    ensures Sane(r)
  {
    if c >= 0x80 && cfg.revision < 7 then s.(alive := false)
    else
      var s' := s.(masked := c >= 0x80);
      if c % 0x80 == 126 then
        if s.opcode >= 8 then s'.(alive := false) else s'.(parse := Len16_2)
      else if c % 0x80 == 127 then
        if s.opcode >= 8 then s'.(alive := false) else s'.(parse := Len64_8)
      else s'.(length := c % 0x80, parse := BodyState(s'.masked))
  }

  /** What a byte of the extended length adds, and the state behind it. */
  function LenWith(p: ParseState, len: nat, c: byte): nat
  {
    match p
    case Len16_2 => c * 0x100
    case Len64_8 => c * 0x100_0000_0000_0000
    case Len64_7 => len + c * 0x1_0000_0000_0000
    case Len64_6 => len + c * 0x100_0000_0000
    case Len64_5 => len + c * 0x1_0000_0000
    case Len64_4 => len + c * 0x100_0000
    case Len64_3 => len + c * 0x1_0000
    case Len64_2 => len + c * 0x100
    case _ => len + c
  }

  function Behind(p: ParseState, masked: bool): ParseState
  {
    match p
    case Len16_2 => Len16_1
    case Len64_8 => Len64_7
    case Len64_7 => Len64_6
    case Len64_6 => Len64_5
    case Len64_5 => Len64_4
    case Len64_4 => Len64_3
    case Len64_3 => Len64_2
    case Len64_2 => Len64_1
    case _ => BodyState(masked)
  }

  /** A byte of the extended length, unmasked; its top bit must be clear. */
  function LengthMore(s: Rx, c: byte): (r: Rx)
    requires Sane(s)
    ensures Sane(r)
  {
    if s.parse.Len64_8? && c >= 0x80 then s.(alive := false)
    else s.(length := LenWith(s.parse, s.length, c), parse := Behind(s.parse, s.masked))
  }

  /** The buffer is full or the frame at its end: control frames are dealt with here,
      text and binary data go to the callback. */
  function Spill(s: Rx): (r: Rx)
    requires Sane(s)
    ensures Sane(r)
  {
    if s.opcode == 8 then s.(alive := false)
    else if s.opcode == 9 then s.(pongs := s.pongs + [s.buffer], buffer := [])
    else if s.opcode == 1 || s.opcode == 2 then
      s.(pieces := s.pieces + [Piece(s.opcode, s.final, s.buffer)], buffer := [])
    else s.(buffer := [])
  }

  /** A payload byte as it is stored. */
  function Stored(cfg: Config, s: Rx, c: byte): byte
    requires Sane(s) && |cfg.key| == 20
  {
    if s.allZero && cfg.revision >= 5 then c else XorByte(c, MaskByte(cfg, s.nonce, s.index))
  }

  function Buffer(cfg: Config, s: Rx, c: byte): (r: Rx)
    requires Sane(s) && |cfg.key| == 20
    ensures Sane(r) && r.length == s.length
  {
    s.(buffer := s.buffer + [Stored(cfg, s, c)],
       index := if s.allZero && cfg.revision >= 5 then s.index else NextIndex(cfg, s.index))
  }

  function PayloadByte(cfg: Config, s: Rx, c: byte): (r: Rx)
    requires Sane(s) && |cfg.key| == 20
    ensures Sane(r)
  {
    var s1 := Buffer(cfg, s, c);
    if s.length == 1 then Spill(s1.(length := 0, parse := New))
    else
      var s2 := s1.(length := if s.length > 0 then s.length - 1 else 0xFFFF_FFFF_FFFF_FFFF);
      if |s2.buffer| == MAX_USER_RX_BUFFER then Spill(s2) else s2
  }

  predicate InHeader(p: ParseState)
  {
    p.Hdr1? || p.HdrLen? || p.Len16_2? || p.Len16_1? || p.Len64_8? || p.Len64_7? || p.Len64_6? || p.Len64_5?
    || p.Len64_4? || p.Len64_3? || p.Len64_2? || p.Len64_1?
  }

  /** A header byte, unmasked. */
  function HeaderByte(cfg: Config, s: Rx, c: byte): (r: Rx)
    requires Sane(s)
    ensures Sane(r)
  {
    if s.parse.Hdr1? then FirstByte(cfg, s, c) else if s.parse.HdrLen? then LengthByte(cfg, s, c) else LengthMore(s, c)
  }

  /** libwebsocket_rx_sm for the revisions that frame as RFC 6455 does. */
  function Step(cfg: Config, s: Rx, c: byte): (r: Rx)
    requires Sane(s) && |cfg.key| == 20
    ensures Sane(r)
  {
    if !s.alive then s
    else if s.parse.New? then
      if cfg.revision < 7 then TakeNonce(s, 0, c, true, Nonce1) else FirstByte(cfg, s.(allZero := true), c)
    else if s.parse.Nonce1? then TakeNonce(s, 1, c, false, Nonce2)
    else if s.parse.Nonce2? then TakeNonce(s, 2, c, false, Nonce3)
    else if s.parse.Nonce3? then TakeNonce(s, 3, c, false, Hdr1).(index := 0)
    else if InHeader(s.parse) then
      if cfg.revision < 7 then
        HeaderByte(cfg, s.(index := NextIndex(cfg, s.index)), XorByte(c, MaskByte(cfg, s.nonce, s.index)))
      else HeaderByte(cfg, s, c)
    else if s.parse.Key1? then TakeNonce(s, 0, c, false, Key2)
    else if s.parse.Key2? then TakeNonce(s, 1, c, false, Key3)
    else if s.parse.Key3? then TakeNonce(s, 2, c, false, Key4)
    else if s.parse.Key4? then TakeNonce(s, 3, c, false, Payload).(index := 0)
    else PayloadByte(cfg, s, c)
  }

  /** Feeding a stretch of the stream. */
  function Run(cfg: Config, s: Rx, t: seq<byte>): (r: Rx)
    requires Sane(s) && |cfg.key| == 20
    ensures Sane(r)
    decreases |t|
  {
    if |t| == 0 then s else Run(cfg, Step(cfg, s, t[0]), t[1..])
  }

  /** However the stream is cut, feeding its parts is feeding the whole. */
  lemma {:induction false} RunParts(cfg: Config, s: Rx, a: seq<byte>, b: seq<byte>)
    requires Sane(s) && |cfg.key| == 20
    ensures Run(cfg, s, a + b) == Run(cfg, Run(cfg, s, a), b)
    decreases |a|
  {
    hide Step;
    if |a| == 0 {
      assert a + b == b;
    } else {
      assert (a + b)[1..] == a[1..] + b;
      RunParts(cfg, Step(cfg, s, a[0]), a[1..], b);
    }
  }

  // ---- receiving undoes writing ------------------------------------------------------------

  /** The pieces in which data arrive behind what is already buffered. */
  function PiecesOf(opcode: byte, final: bool, head: seq<byte>, data: seq<byte>): (r: seq<Piece>)
    requires |data| > 0
    decreases |data|
  {
    var h := head + [data[0]];
    if |data| == 1 then [Piece(opcode, final, h)]
    else if |h| == MAX_USER_RX_BUFFER then [Piece(opcode, final, h)] + PiecesOf(opcode, final, [], data[1..])
    else PiecesOf(opcode, final, h, data[1..])
  }

  /** The data of the pieces, put together. */
  function DataOf(pieces: seq<Piece>): seq<byte>
  {
    if |pieces| == 0 then [] else pieces[0].data + DataOf(pieces[1..])
  }

  /** Together the pieces are the data; none is empty or longer than the buffer, and all
      carry the opcode and FIN of the frame. */
  lemma {:induction false} PiecesAreData(opcode: byte, final: bool, head: seq<byte>, data: seq<byte>)
    requires |data| > 0 && |head| < MAX_USER_RX_BUFFER
    ensures var ps := PiecesOf(opcode, final, head, data);
      && DataOf(ps) == head + data
      && forall i :: 0 <= i < |ps| ==> ps[i].opcode == opcode && ps[i].final == final && 1 <= |ps[i].data| <= MAX_USER_RX_BUFFER
    decreases |data|
  {
    var h := head + [data[0]];
    var p := Piece(opcode, final, h);
    assert h + data[1..] == head + data;
    if |data| == 1 {
      assert DataOf([p]) == h + DataOf([]);
    } else if |h| == MAX_USER_RX_BUFFER {
      PiecesAreData(opcode, final, [], data[1..]);
      var rest := PiecesOf(opcode, final, [], data[1..]);
      assert ([p] + rest)[1..] == rest;
      assert h + ([] + data[1..]) == head + data;
    } else {
      PiecesAreData(opcode, final, h, data[1..]);
    }
  }

  ghost predicate MaskState(cfg: Config, s: Rx, k: nat)
    requires Sane(s) && |cfg.key| == 20
  {
    if s.allZero && cfg.revision >= 5 then forall i :: 0 <= i < 4 ==> s.nonce[i] == 0 else s.index == IndexAfter(cfg, k)
  }

  lemma {:induction false} StoredIsPlain(cfg: Config, s: Rx, k: nat, c: byte)
    requires Sane(s) && |cfg.key| == 20 && MaskState(cfg, s, k)
    ensures Stored(cfg, s, XorByte(c, MaskAt(cfg, s.nonce, k))) == c
  {
    hide XorByte;
    if s.allZero && cfg.revision >= 5 {
      XorNone(c);
    } else {
      IndexIsPosition(cfg, s.nonce, k);
      XorTwice(c, MaskAt(cfg, s.nonce, k));
    }
  }

  lemma {:induction false} RunNext(cfg: Config, s: Rx, c: byte, t: seq<byte>)
    requires Sane(s) && |cfg.key| == 20
    ensures Run(cfg, s, [c] + t) == Run(cfg, Step(cfg, s, c), t)
  {
    hide Step;
    assert ([c] + t)[1..] == t;
  }

  lemma {:induction false} RunNone(cfg: Config, s: Rx)
    requires Sane(s) && |cfg.key| == 20
    ensures Run(cfg, s, []) == s
  {
  }

  /** The payload. */
  lemma {:induction false} PayloadRun(cfg: Config, s: Rx, k: nat, data: seq<byte>)
    requires Sane(s) && |cfg.key| == 20 && s.alive && s.parse.Payload? && (s.opcode == 1 || s.opcode == 2)
    requires |data| == s.length > 0 && |s.buffer| < MAX_USER_RX_BUFFER && MaskState(cfg, s, k)
    ensures var r := Run(cfg, s, Masked(cfg, s.nonce, k, data));
      r.alive && r.parse.New? && r.buffer == [] && r.pongs == s.pongs
      && r.pieces == s.pieces + PiecesOf(s.opcode, s.final, s.buffer, data)
    decreases |data|
  {
    hide Stored, XorByte, MaskAt, Run, MaskByte;
    var c := XorByte(data[0], MaskAt(cfg, s.nonce, k));
    var s' := Step(cfg, s, c);
    var rest := Masked(cfg, s.nonce, k + 1, data[1..]);
    StoredIsPlain(cfg, s, k, data[0]);
    IndexIsPosition(cfg, s.nonce, k);
    RunNext(cfg, s, c, rest);
    var h := s.buffer + [data[0]];
    if |data| == 1 {
      assert rest == [];
      RunNone(cfg, s');
    } else {
      PayloadRun(cfg, s', k + 1, data[1..]);
      if |h| == MAX_USER_RX_BUFFER {
        var p := Piece(s.opcode, s.final, h);
        var ps := PiecesOf(s.opcode, s.final, [], data[1..]);
        assert s.pieces + [p] + ps == s.pieces + ([p] + ps);
      }
    }
  }

  // ---- headers -------------------------------------------------------------------------------

  /** What plain header bytes do. */
  function HeaderRun(cfg: Config, s: Rx, k: nat, h: seq<byte>): (r: Rx)
    requires Sane(s)
    ensures Sane(r)
    decreases |h|
  {
    if |h| == 0 then s else HeaderRun(cfg, HeaderByte(cfg, Moved(cfg, s, k + 1), h[0]), k + 1, h[1..])
  }

  /** Before revision 7 header bytes are masked, so the mask index moves on. */
  function Moved(cfg: Config, s: Rx, k: nat): (r: Rx)
    requires Sane(s)
    ensures Sane(r)
  {
    if cfg.revision < 7 then s.(index := IndexAfter(cfg, k)) else s
  }

  /** All the bytes are taken for header bytes. */
  ghost predicate AllHeader(cfg: Config, s: Rx, k: nat, h: seq<byte>)
    requires Sane(s)
    decreases |h|
  {
    |h| == 0 || (s.alive && InHeader(s.parse) && AllHeader(cfg, HeaderByte(cfg, Moved(cfg, s, k + 1), h[0]), k + 1, h[1..]))
  }

  lemma {:induction false} HeaderKeepsNonce(cfg: Config, s: Rx, c: byte)
    requires Sane(s)
    ensures HeaderByte(cfg, s, c).nonce == s.nonce && HeaderByte(cfg, s, c).index == s.index
  {
  }

  /** A masked header is read as the plain one. */
  lemma {:induction false} MaskedHeader(cfg: Config, s: Rx, k: nat, h: seq<byte>)
    requires Sane(s) && |cfg.key| == 20 && cfg.revision < 7 && s.index == IndexAfter(cfg, k) && AllHeader(cfg, s, k, h)
    ensures Run(cfg, s, Masked(cfg, s.nonce, k, h)) == HeaderRun(cfg, s, k, h)
    decreases |h|
  {
    hide XorByte, MaskAt, MaskByte, HeaderByte, Run, IndexAfter, NextIndex;
    if |h| == 0 {
      RunNone(cfg, s);
    } else {
      var c := XorByte(h[0], MaskAt(cfg, s.nonce, k));
      IndexIsPosition(cfg, s.nonce, k);
      XorTwice(h[0], MaskAt(cfg, s.nonce, k));
      var s' := HeaderByte(cfg, Moved(cfg, s, k + 1), h[0]);
      HeaderKeepsNonce(cfg, Moved(cfg, s, k + 1), h[0]);
      assert Step(cfg, s, c) == s';
      RunNext(cfg, s, c, Masked(cfg, s.nonce, k + 1, h[1..]));
      MaskedHeader(cfg, s', k + 1, h[1..]);
    }
  }

  /** From revision 7 on the header is not masked. */
  lemma {:induction false} PlainHeader(cfg: Config, s: Rx, k: nat, h: seq<byte>)
    requires Sane(s) && |cfg.key| == 20 && cfg.revision >= 7 && AllHeader(cfg, s, k, h)
    ensures Run(cfg, s, h) == HeaderRun(cfg, s, k, h)
    decreases |h|
  {
    hide HeaderByte, Run;
    if |h| == 0 {
      RunNone(cfg, s);
    } else {
      assert h == [h[0]] + h[1..];
      RunNext(cfg, s, h[0], h[1..]);
      PlainHeader(cfg, HeaderByte(cfg, s, h[0]), k + 1, h[1..]);
    }
  }

  lemma {:induction false} HeaderNext(cfg: Config, s: Rx, k: nat, c: byte, t: seq<byte>)
    requires Sane(s)
    ensures HeaderRun(cfg, s, k, [c] + t) == HeaderRun(cfg, HeaderByte(cfg, Moved(cfg, s, k + 1), c), k + 1, t)
    ensures AllHeader(cfg, s, k, [c] + t) <==>
      s.alive && InHeader(s.parse) && AllHeader(cfg, HeaderByte(cfg, Moved(cfg, s, k + 1), c), k + 1, t)
  {
    hide HeaderByte;
    assert ([c] + t)[1..] == t;
  }

  lemma {:induction false} HeaderEnd(cfg: Config, s: Rx, k: nat)
    requires Sane(s)
    ensures HeaderRun(cfg, s, k, []) == s && AllHeader(cfg, s, k, [])
  {
  }

  /** s with the length and parse state that the header gave so far, k bytes in. */
  function At(cfg: Config, s: Rx, k: nat, len: nat, parse: ParseState): (r: Rx)
    requires Sane(s)
    ensures Sane(r) && r.alive == s.alive && r.parse == parse
  {
    Moved(cfg, s, k).(length := len, parse := parse)
  }

  predicate InLength(p: ParseState)
  {
    p.Len16_2? || p.Len16_1? || p.Len64_8? || p.Len64_7? || p.Len64_6? || p.Len64_5? || p.Len64_4? || p.Len64_3? || p.Len64_2? || p.Len64_1?
  }

  lemma {:induction false} LengthStep(cfg: Config, s: Rx, k: nat, len: nat, p: ParseState, c: byte, t: seq<byte>)
    requires Sane(s) && s.alive && InLength(p) && (p.Len64_8? ==> c < 0x80)
    ensures var s', s'' := At(cfg, s, k, len, p), At(cfg, s, k + 1, LenWith(p, len, c), Behind(p, s.masked));
      && HeaderRun(cfg, s', k, [c] + t) == HeaderRun(cfg, s'', k + 1, t)
      && (AllHeader(cfg, s'', k + 1, t) ==> AllHeader(cfg, s', k, [c] + t))
  {
    hide HeaderRun, AllHeader, IndexAfter;
    HeaderNext(cfg, At(cfg, s, k, len, p), k, c, t);
    LengthByteStep(cfg, s, k, len, p, c);
  }

  lemma {:induction false} LengthByteStep(cfg: Config, s: Rx, k: nat, len: nat, p: ParseState, c: byte)
    requires Sane(s) && s.alive && InLength(p) && (p.Len64_8? ==> c < 0x80)
    ensures HeaderByte(cfg, Moved(cfg, At(cfg, s, k, len, p), k + 1), c) == At(cfg, s, k + 1, LenWith(p, len, c), Behind(p, s.masked))
  {
    hide IndexAfter, LenWith, Behind;
    var x := Moved(cfg, At(cfg, s, k, len, p), k + 1);
    assert x == At(cfg, s, k + 1, len, p);
  }

  lemma {:induction false} LengthEnd(cfg: Config, s: Rx, k: nat, len: nat, p: ParseState)
    requires Sane(s)
    ensures HeaderRun(cfg, At(cfg, s, k, len, p), k, []) == At(cfg, s, k, len, p) && AllHeader(cfg, At(cfg, s, k, len, p), k, [])
  {
    HeaderEnd(cfg, At(cfg, s, k, len, p), k);
  }

  /** The extended length of 64 bits, its upper half being zero. */
  lemma {:induction false} Length64(cfg: Config, s: Rx, len: nat, k: nat, b3: byte, b2: byte, b1: byte, b0: byte)
    requires Sane(s) && s.alive
    ensures var s', h := At(cfg, s, k, len, Len64_8), [0, 0, 0, 0] + [b3, b2, b1, b0];
      && AllHeader(cfg, s', k, h)
      && HeaderRun(cfg, s', k, h) == At(cfg, s, k + 8, b3 * 0x100_0000 + b2 * 0x1_0000 + b1 * 0x100 + b0, BodyState(s.masked))
  {
    hide HeaderRun, AllHeader, At, BodyState;
    var t := [b3, b2, b1, b0];
    Length32(cfg, s, k + 4, b3, b2, b1, b0);
    assert [0, 0, 0, 0] + t == [0] + ([0] + ([0] + ([0] + t)));
    ZeroPair(cfg, s, k, len, Len64_8, [0] + ([0] + t));
    ZeroPair(cfg, s, k + 2, 0, Len64_6, t);
  }

  lemma {:induction false} ZeroPair(cfg: Config, s: Rx, k: nat, len: nat, p: ParseState, t: seq<byte>)
    requires Sane(s) && s.alive && (p.Len64_8? || (p.Len64_6? && len == 0))
    ensures var s', s'' := At(cfg, s, k, len, p), At(cfg, s, k + 2, 0, if p.Len64_8? then Len64_6 else Len64_4);
      && HeaderRun(cfg, s', k, [0] + ([0] + t)) == HeaderRun(cfg, s'', k + 2, t)
      && (AllHeader(cfg, s'', k + 2, t) ==> AllHeader(cfg, s', k, [0] + ([0] + t)))
  {
    hide HeaderRun, AllHeader, At, BodyState;
    LengthStep(cfg, s, k, len, p, 0, [0] + t);
    LengthStep(cfg, s, k + 1, 0, if p.Len64_8? then Len64_7 else Len64_5, 0, t);
  }

  lemma {:induction false} Length32(cfg: Config, s: Rx, k: nat, b3: byte, b2: byte, b1: byte, b0: byte)
    requires Sane(s) && s.alive
    ensures var s', h := At(cfg, s, k, 0, Len64_4), [b3, b2, b1, b0];
      && AllHeader(cfg, s', k, h)
      && HeaderRun(cfg, s', k, h) == At(cfg, s, k + 4, b3 * 0x100_0000 + b2 * 0x1_0000 + b1 * 0x100 + b0, BodyState(s.masked))
  {
    hide HeaderRun, AllHeader, At, BodyState;
    assert [b3, b2, b1, b0] == [b3] + ([b2] + [b1, b0]);
    var l3 := b3 * 0x100_0000;
    var l2 := l3 + b2 * 0x1_0000;
    LengthStep(cfg, s, k, 0, Len64_4, b3, [b2] + [b1, b0]);
    LengthStep(cfg, s, k + 1, l3, Len64_3, b2, [b1, b0]);
    LastTwo(cfg, s, k + 2, l2, b1, b0);
  }

  lemma {:induction false} LastTwo(cfg: Config, s: Rx, k: nat, len: nat, b1: byte, b0: byte)
    requires Sane(s) && s.alive
    ensures var s' := At(cfg, s, k, len, Len64_2);
      && AllHeader(cfg, s', k, [b1, b0])
      && HeaderRun(cfg, s', k, [b1, b0]) == At(cfg, s, k + 2, len + b1 * 0x100 + b0, BodyState(s.masked))
  {
    hide HeaderRun, AllHeader, At, BodyState;
    assert [b1, b0] == [b1] + ([b0] + []);
    var l1 := len + b1 * 0x100;
    LengthStep(cfg, s, k, len, Len64_2, b1, [b0] + []);
    LengthStep(cfg, s, k + 1, l1, Len64_1, b0, []);
    LengthEnd(cfg, s, k + 2, l1 + b0, BodyState(s.masked));
  }

  lemma {:induction false} Length16(cfg: Config, s: Rx, len: nat, k: nat, b1: byte, b0: byte)
    requires Sane(s) && s.alive
    ensures var s' := At(cfg, s, k, len, Len16_2);
      && AllHeader(cfg, s', k, [b1, b0])
      && HeaderRun(cfg, s', k, [b1, b0]) == At(cfg, s, k + 2, b1 * 0x100 + b0, BodyState(s.masked))
  {
    hide HeaderRun, AllHeader, At, BodyState;
    assert [b1, b0] == [b1] + ([b0] + []);
    LengthStep(cfg, s, k, len, Len16_2, b1, [b0] + []);
    LengthStep(cfg, s, k + 1, b1 * 0x100, Len16_1, b0, []);
    LengthEnd(cfg, s, k + 2, b1 * 0x100 + b0, BodyState(s.masked));
  }

  /** s with what the first two header bytes say. */
  function Opened(cfg: Config, s: Rx, kind: Kind, fin: bool): (r: Rx)
    requires Sane(s)
    ensures Sane(r) && r.alive == s.alive && r.masked == (cfg.revision >= 7)
  {
    s.(opcode := Opcode07(kind), final := fin, masked := cfg.revision >= 7)
  }

  /** The state behind a whole header. */
  function Headed(cfg: Config, s: Rx, kind: Kind, fin: bool, len: nat, size: nat): (r: Rx)
    requires Sane(s)
    ensures Sane(r)
  {
    At(cfg, Opened(cfg, s, kind, fin), size, len, BodyState(cfg.revision >= 7))
  }

  /** The first two bytes of a header. */
  lemma {:induction false} TwoBytes(cfg: Config, s: Rx, kind: Kind, fin: bool, c: byte, t: seq<byte>)
    requires Sane(s) && s.alive && s.parse.Hdr1? && Agreed(cfg) && c < 0x80
    ensures var first: byte := WireOpcode(cfg, kind) + (if fin then 0x80 else 0);
      var second: byte := c + if cfg.revision < 7 then 0 else 0x80;
      var o := Opened(cfg, s, kind, fin);
      var s' := At(cfg, o, 2, if c < 126 then c else s.length, if c < 126 then BodyState(o.masked) else if c == 126 then Len16_2 else Len64_8);
      && HeaderRun(cfg, s, 0, [first] + ([second] + t)) == HeaderRun(cfg, s', 2, t)
      && (AllHeader(cfg, s', 2, t) ==> AllHeader(cfg, s, 0, [first] + ([second] + t)))
  {
    hide HeaderRun, AllHeader, IndexAfter;
    var first: byte := WireOpcode(cfg, kind) + (if fin then 0x80 else 0);
    var second: byte := c + if cfg.revision < 7 then 0 else 0x80;
    HeaderNext(cfg, s, 0, first, [second] + t);
    var s1 := HeaderByte(cfg, Moved(cfg, s, 1), first);
    FirstStep(cfg, s, kind, fin);
    HeaderNext(cfg, s1, 1, second, t);
    SecondStep(cfg, s, kind, fin, c);
  }

  lemma {:induction false} FirstStep(cfg: Config, s: Rx, kind: Kind, fin: bool)
    requires Sane(s) && s.alive && s.parse.Hdr1?
    ensures HeaderByte(cfg, Moved(cfg, s, 1), WireOpcode(cfg, kind) + (if fin then 0x80 else 0))
      == Moved(cfg, s, 1).(opcode := Opcode07(kind), final := fin, parse := HdrLen)
  {
    hide IndexAfter;
  }

  lemma {:induction false} SecondStep(cfg: Config, s: Rx, kind: Kind, fin: bool, c: byte)
    requires Sane(s) && s.alive && s.parse.Hdr1? && c < 0x80
    ensures var s1 := Moved(cfg, s, 1).(opcode := Opcode07(kind), final := fin, parse := HdrLen);
      var o := Opened(cfg, s, kind, fin);
      HeaderByte(cfg, Moved(cfg, s1, 2), c + if cfg.revision < 7 then 0 else 0x80)
      == At(cfg, o, 2, if c < 126 then c else s.length, if c < 126 then BodyState(o.masked) else if c == 126 then Len16_2 else Len64_8)
  {
    hide IndexAfter;
  }

  lemma {:induction false} ShortHeader(cfg: Config, s: Rx, kind: Kind, fin: bool, len: nat)
    requires Sane(s) && s.alive && s.parse.Hdr1? && 1 <= len < 126 && Agreed(cfg)
    ensures var h := Header(cfg, kind, fin, len);
      AllHeader(cfg, s, 0, h) && HeaderRun(cfg, s, 0, h) == Headed(cfg, s, kind, fin, len, |h|)
  {
    hide HeaderRun, AllHeader, At, Opened;
    var h, o := Header(cfg, kind, fin, len), Opened(cfg, s, kind, fin);
    assert h == [h[0]] + ([h[1]] + h[2..]);
    assert h[2..] == [];
    TwoBytes(cfg, s, kind, fin, len, h[2..]);
    LengthEnd(cfg, o, 2, len, BodyState(o.masked));
  }

  lemma {:induction false} MediumHeader(cfg: Config, s: Rx, kind: Kind, fin: bool, len: nat)
    requires Sane(s) && s.alive && s.parse.Hdr1? && 126 <= len < 65536 && Agreed(cfg)
    ensures var h := Header(cfg, kind, fin, len);
      AllHeader(cfg, s, 0, h) && HeaderRun(cfg, s, 0, h) == Headed(cfg, s, kind, fin, len, |h|)
  {
    hide HeaderRun, AllHeader, At, Opened;
    var h, o := Header(cfg, kind, fin, len), Opened(cfg, s, kind, fin);
    assert h == [h[0]] + ([h[1]] + h[2..]);
    assert h[2..] == [h[2], h[3]];
    TwoBytes(cfg, s, kind, fin, 126, h[2..]);
    Length16(cfg, o, s.length, 2, h[2], h[3]);
  }

  lemma {:induction false} LongHeader(cfg: Config, s: Rx, kind: Kind, fin: bool, len: nat)
    requires Sane(s) && s.alive && s.parse.Hdr1? && 65536 <= len < 0x8000_0000 && Agreed(cfg)
    ensures var h := Header(cfg, kind, fin, len);
      AllHeader(cfg, s, 0, h) && HeaderRun(cfg, s, 0, h) == Headed(cfg, s, kind, fin, len, |h|)
  {
    hide HeaderRun, AllHeader, At, Opened;
    var h, o := Header(cfg, kind, fin, len), Opened(cfg, s, kind, fin);
    assert h == [h[0]] + ([h[1]] + h[2..]);
    assert h[2..] == [0, 0, 0, 0] + [h[6], h[7], h[8], h[9]];
    TwoBytes(cfg, s, kind, fin, 127, h[2..]);
    Length64(cfg, o, s.length, 2, h[6], h[7], h[8], h[9]);
    BytesOfLength(len);
  }

  lemma {:induction false} HeaderMeans(cfg: Config, s: Rx, kind: Kind, fin: bool, len: nat)
    requires Sane(s) && s.alive && s.parse.Hdr1? && 1 <= len < 0x8000_0000 && Agreed(cfg)
    ensures var h := Header(cfg, kind, fin, len);
      AllHeader(cfg, s, 0, h) && HeaderRun(cfg, s, 0, h) == Headed(cfg, s, kind, fin, len, |h|)
  {
    hide HeaderRun, AllHeader, At, Opened, Header, Headed;
    if len < 126 {
      ShortHeader(cfg, s, kind, fin, len);
    } else if len < 65536 {
      MediumHeader(cfg, s, kind, fin, len);
    } else {
      LongHeader(cfg, s, kind, fin, len);
    }
  }

  lemma {:induction false} BytesOfLength(len: nat)
    ensures len / 0x100 / 0x100 / 0x100 * 0x100_0000 + len / 0x100 / 0x100 % 0x100 * 0x1_0000 + len / 0x100 % 0x100 * 0x100 + len % 0x100 == len
  {
    var a := len / 0x100;
    var b := a / 0x100;
    assert len == a * 0x100 + len % 0x100 && a == b * 0x100 + a % 0x100 && b == b / 0x100 * 0x100 + b % 0x100;
  }

  // ---- whole frames ----------------------------------------------------------------------------

  predicate Zeros(nonce: seq<byte>) { forall i :: 0 <= i < |nonce| ==> nonce[i] == 0 }

  /** s with the nonce collected. */
  function Keyed(s: Rx, nonce: seq<byte>, allZero: bool, parse: ParseState): (r: Rx)
    requires Sane(s) && |nonce| == 4
    ensures Sane(r)
  {
    s.(nonce := nonce, allZero := allZero && Zeros(nonce), index := 0, parse := parse)
  }

  lemma {:induction false} Run4(cfg: Config, s: Rx, t: seq<byte>)
    requires Sane(s) && |cfg.key| == 20 && |t| == 4
    ensures Run(cfg, s, t) == Step(cfg, Step(cfg, Step(cfg, Step(cfg, s, t[0]), t[1]), t[2]), t[3])
  {
    hide Step, Run;
    assert t == [t[0]] + ([t[1]] + ([t[2]] + ([t[3]] + [])));
    RunNext(cfg, s, t[0], [t[1]] + ([t[2]] + ([t[3]] + [])));
    var s1 := Step(cfg, s, t[0]);
    RunNext(cfg, s1, t[1], [t[2]] + ([t[3]] + []));
    var s2 := Step(cfg, s1, t[1]);
    RunNext(cfg, s2, t[2], [t[3]] + []);
    var s3 := Step(cfg, s2, t[2]);
    RunNext(cfg, s3, t[3], []);
    RunNone(cfg, Step(cfg, s3, t[3]));
  }

  lemma {:induction false} NonceStep(cfg: Config, s: Rx, c: byte)
    requires Sane(s) && |cfg.key| == 20 && s.alive && cfg.revision < 7
    ensures s.parse.New? ==> Step(cfg, s, c) == TakeNonce(s, 0, c, true, Nonce1)
    ensures s.parse.Nonce1? ==> Step(cfg, s, c) == TakeNonce(s, 1, c, false, Nonce2)
    ensures s.parse.Nonce2? ==> Step(cfg, s, c) == TakeNonce(s, 2, c, false, Nonce3)
    ensures s.parse.Nonce3? ==> Step(cfg, s, c) == TakeNonce(s, 3, c, false, Hdr1).(index := 0)
  {
    hide TakeNonce, HeaderByte, PayloadByte, FirstByte;
  }

  lemma {:induction false} NonceRun(cfg: Config, s: Rx, nonce: seq<byte>)
    requires Sane(s) && |cfg.key| == 20 && |nonce| == 4 && s.alive && s.parse.New? && cfg.revision < 7
    ensures Run(cfg, s, nonce) == Keyed(s, nonce, true, Hdr1)
  {
    hide Run, HeaderByte, PayloadByte;
    var s1 := TakeNonce(s, 0, nonce[0], true, Nonce1);
    var s2 := TakeNonce(s1, 1, nonce[1], false, Nonce2);
    var s3 := TakeNonce(s2, 2, nonce[2], false, Nonce3);
    var s4 := TakeNonce(s3, 3, nonce[3], false, Hdr1).(index := 0);
    assert Run(cfg, s, nonce) == s4 by {
      hide TakeNonce, Step;
      Run4(cfg, s, nonce);
      NonceStep(cfg, s, nonce[0]);
      NonceStep(cfg, s1, nonce[1]);
      NonceStep(cfg, s2, nonce[2]);
      NonceStep(cfg, s3, nonce[3]);
    }
    assert s4.nonce == nonce;
    assert Zeros(nonce) <==> nonce[0] == 0 && nonce[1] == 0 && nonce[2] == 0 && nonce[3] == 0;
  }

  lemma {:induction false} KeyStep(cfg: Config, s: Rx, c: byte)
    requires Sane(s) && |cfg.key| == 20 && s.alive
    ensures s.parse.Key1? ==> Step(cfg, s, c) == TakeNonce(s, 0, c, false, Key2)
    ensures s.parse.Key2? ==> Step(cfg, s, c) == TakeNonce(s, 1, c, false, Key3)
    ensures s.parse.Key3? ==> Step(cfg, s, c) == TakeNonce(s, 2, c, false, Key4)
    ensures s.parse.Key4? ==> Step(cfg, s, c) == TakeNonce(s, 3, c, false, Payload).(index := 0)
  {
    hide TakeNonce, HeaderByte, PayloadByte, FirstByte;
  }

  lemma {:induction false} KeyRun(cfg: Config, s: Rx, nonce: seq<byte>)
    requires Sane(s) && |cfg.key| == 20 && |nonce| == 4 && s.alive && s.parse.Key1?
    ensures Run(cfg, s, nonce) == Keyed(s, nonce, s.allZero, Payload)
  {
    hide Run, HeaderByte, PayloadByte;
    var s1 := TakeNonce(s, 0, nonce[0], false, Key2);
    var s2 := TakeNonce(s1, 1, nonce[1], false, Key3);
    var s3 := TakeNonce(s2, 2, nonce[2], false, Key4);
    var s4 := TakeNonce(s3, 3, nonce[3], false, Payload).(index := 0);
    assert Run(cfg, s, nonce) == s4 by {
      hide TakeNonce, Step;
      Run4(cfg, s, nonce);
      KeyStep(cfg, s, nonce[0]);
      KeyStep(cfg, s1, nonce[1]);
      KeyStep(cfg, s2, nonce[2]);
      KeyStep(cfg, s3, nonce[3]);
    }
    assert s4.nonce == nonce;
    assert Zeros(nonce) <==> nonce[0] == 0 && nonce[1] == 0 && nonce[2] == 0 && nonce[3] == 0;
  }

  lemma {:induction false} MaskedParts(cfg: Config, nonce: seq<byte>, k: nat, a: seq<byte>, b: seq<byte>)
    requires |cfg.key| == 20 && |nonce| == 4
    ensures Masked(cfg, nonce, k, a + b) == Masked(cfg, nonce, k, a) + Masked(cfg, nonce, k + |a|, b)
    decreases |a|
  {
    hide XorByte, MaskAt;
    if |a| == 0 {
      assert a + b == b;
    } else {
      assert (a + b)[1..] == a[1..] + b;
      MaskedParts(cfg, nonce, k + 1, a[1..], b);
    }
  }

  /** A masked byte undone by masking it again. */
  lemma {:induction false} MaskedTwice(cfg: Config, nonce: seq<byte>, k: nat, s: seq<byte>)
    requires |cfg.key| == 20 && |nonce| == 4
    ensures Masked(cfg, nonce, k, Masked(cfg, nonce, k, s)) == s
    decreases |s|
  {
    hide XorByte, MaskAt;
    if |s| > 0 {
      XorTwice(s[0], MaskAt(cfg, nonce, k));
      MaskedTwice(cfg, nonce, k + 1, s[1..]);
    }
  }

  /** Between frames: alive, nothing buffered. */
  predicate Ready(s: Rx) { Sane(s) && s.alive && s.parse.New? && s.buffer == [] }

  /** What one frame leaves behind. */
  ghost predicate Delivered(s: Rx, r: Rx, kind: Kind, fin: bool, payload: seq<byte>)
    requires |payload| > 0
  {
    Ready(r) && r.pongs == s.pongs && r.pieces == s.pieces + PiecesOf(Opcode07(kind), fin, [], payload)
  }

  lemma {:induction false} OldFrameRun(cfg: Config, s: Rx, nonce: seq<byte>, kind: Kind, fin: bool, payload: seq<byte>)
    requires Agreed(cfg) && Ready(s) && |nonce| == 4 && 1 <= |payload| < 0x8000_0000 && cfg.revision < 7
    ensures Delivered(s, Run(cfg, s, Frame(cfg, nonce, kind, fin, payload)), kind, fin, payload)
  {
    hide Run, Masked, HeaderRun, AllHeader, Header, PiecesOf, IndexAfter;
    var h := Header(cfg, kind, fin, |payload|);
    var s0 := Keyed(s, nonce, true, Hdr1);
    NonceRun(cfg, s, nonce);
    RunParts(cfg, s, nonce, Masked(cfg, nonce, 0, h + payload));
    MaskedParts(cfg, nonce, 0, h, payload);
    RunParts(cfg, s0, Masked(cfg, nonce, 0, h), Masked(cfg, nonce, |h|, payload));
    HeaderMeans(cfg, s0, kind, fin, |payload|);
    IndexZero(cfg);
    MaskedHeader(cfg, s0, 0, h);
    PayloadRun(cfg, Headed(cfg, s0, kind, fin, |payload|, |h|), |h|, payload);
  }

  lemma {:induction false} IndexZero(cfg: Config)
    ensures IndexAfter(cfg, 0) == 0
  {
  }

  /** From revision 7 on a frame starts with its header. */
  lemma {:induction false} StartsWithHeader(cfg: Config, s: Rx, t: seq<byte>)
    requires Sane(s) && |cfg.key| == 20 && s.alive && s.parse.New? && cfg.revision >= 7 && |t| > 0
    ensures Run(cfg, s, t) == Run(cfg, s.(allZero := true, parse := Hdr1), t)
  {
    hide Run;
    assert t == [t[0]] + t[1..];
    var s0 := s.(allZero := true, parse := Hdr1);
    RunNext(cfg, s, t[0], t[1..]);
    RunNext(cfg, s0, t[0], t[1..]);
    assert Step(cfg, s, t[0]) == Step(cfg, s0, t[0]);
  }

  lemma {:induction false} NewFrameRun(cfg: Config, s: Rx, nonce: seq<byte>, kind: Kind, fin: bool, payload: seq<byte>)
    requires Agreed(cfg) && Ready(s) && |nonce| == 4 && 1 <= |payload| < 0x8000_0000 && cfg.revision >= 7
    ensures Delivered(s, Run(cfg, s, Frame(cfg, nonce, kind, fin, payload)), kind, fin, payload)
  {
    hide Run, Masked, HeaderRun, AllHeader, Header, PiecesOf, IndexAfter;
    var h := Header(cfg, kind, fin, |payload|);
    var m := Masked(cfg, nonce, 0, payload);
    var s0 := s.(allZero := true, parse := Hdr1);
    var s1 := Headed(cfg, s0, kind, fin, |payload|, |h|);
    var s2 := Keyed(s1, nonce, true, Payload);
    StartsWithHeader(cfg, s, h + nonce + m);
    assert h + nonce + m == h + (nonce + m);
    RunParts(cfg, s0, h, nonce + m);
    HeaderMeans(cfg, s0, kind, fin, |payload|);
    PlainHeader(cfg, s0, 0, h);
    RunParts(cfg, s1, nonce, m);
    KeyRun(cfg, s1, nonce);
    IndexZero(cfg);
    PayloadRun(cfg, s2, 0, payload);
  }

  /** Whatever frame the client writes, the server gives its payload to the callback. */
  lemma {:induction false} FrameRun(cfg: Config, s: Rx, nonce: seq<byte>, kind: Kind, fin: bool, payload: seq<byte>)
    requires Agreed(cfg) && Ready(s) && |nonce| == 4 && 1 <= |payload| < 0x8000_0000
    ensures Delivered(s, Run(cfg, s, Frame(cfg, nonce, kind, fin, payload)), kind, fin, payload)
  {
    hide Run, Frame, Delivered;
    if cfg.revision < 7 { OldFrameRun(cfg, s, nonce, kind, fin, payload); }
    else { NewFrameRun(cfg, s, nonce, kind, fin, payload); }
  }

  // ---- any number of frames, in any chunks -------------------------------------------------------

  /** One call of the client's: what it writes, and the nonce it drew. */
  datatype Message = Message(nonce: seq<byte>, kind: Kind, fin: bool, payload: seq<byte>)

  predicate Writable(m: Message) { |m.nonce| == 4 && 1 <= |m.payload| < 0x8000_0000 }

  type Sent = m: Message | Writable(m) witness Message([0, 0, 0, 0], Text, true, [0])

  function Wire(cfg: Config, ms: seq<Sent>): seq<byte>
    requires |cfg.key| == 20
  {
    if |ms| == 0 then []
    else Frame(cfg, ms[0].nonce, ms[0].kind, ms[0].fin, ms[0].payload) + Wire(cfg, ms[1..])
  }

  function AllPieces(ms: seq<Sent>): seq<Piece>
  {
    if |ms| == 0 then []
    else PiecesOf(Opcode07(ms[0].kind), ms[0].fin, [], ms[0].payload) + AllPieces(ms[1..])
  }

  lemma {:induction false} FramesRun(cfg: Config, s: Rx, ms: seq<Sent>)
    requires Agreed(cfg) && Ready(s)
    ensures var r := Run(cfg, s, Wire(cfg, ms)); Ready(r) && r.pongs == s.pongs && r.pieces == s.pieces + AllPieces(ms)
    decreases |ms|
  {
    hide Run, Frame, PiecesOf;
    if |ms| == 0 {
      RunNone(cfg, s);
    } else {
      var m := ms[0];
      var f := Frame(cfg, m.nonce, m.kind, m.fin, m.payload);
      var s' := Run(cfg, s, f);
      FrameRun(cfg, s, m.nonce, m.kind, m.fin, m.payload);
      RunParts(cfg, s, f, Wire(cfg, ms[1..]));
      FramesRun(cfg, s', ms[1..]);
      var p := PiecesOf(Opcode07(m.kind), m.fin, [], m.payload);
      assert s.pieces + p + AllPieces(ms[1..]) == s.pieces + (p + AllPieces(ms[1..]));
    }
  }

  function Joined(chunks: seq<seq<byte>>): seq<byte>
  {
    if |chunks| == 0 then [] else chunks[0] + Joined(chunks[1..])
  }

  /** One call of libwebsocket_interpret_incoming_packet for each chunk. */
  function RunChunks(cfg: Config, s: Rx, chunks: seq<seq<byte>>): (r: Rx)
    requires Sane(s) && |cfg.key| == 20
    ensures Sane(r)
    decreases |chunks|
  {
    if |chunks| == 0 then s else RunChunks(cfg, Run(cfg, s, chunks[0]), chunks[1..])
  }

  lemma {:induction false} ChunksDoNotMatter(cfg: Config, s: Rx, chunks: seq<seq<byte>>)
    requires Sane(s) && |cfg.key| == 20
    ensures RunChunks(cfg, s, chunks) == Run(cfg, s, Joined(chunks))
    decreases |chunks|
  {
    hide Run;
    if |chunks| == 0 {
      RunNone(cfg, s);
    } else {
      ChunksDoNotMatter(cfg, Run(cfg, s, chunks[0]), chunks[1..]);
      RunParts(cfg, s, chunks[0], Joined(chunks[1..]));
    }
  }

  /** The frame round trip: however the stream of any number of client frames is cut into
      packets, the server stays alive and calls back, frame by frame, with the pieces of
      its payload (see PiecesAreData), its opcode and its FIN. */
  lemma {:induction false} RoundTrip(cfg: Config, s: Rx, ms: seq<Sent>, chunks: seq<seq<byte>>)
    requires Agreed(cfg) && Ready(s)
    requires Joined(chunks) == Wire(cfg, ms)
    ensures var r := RunChunks(cfg, s, chunks); Ready(r) && r.pongs == s.pongs && r.pieces == s.pieces + AllPieces(ms)
  {
    ChunksDoNotMatter(cfg, s, chunks);
    FramesRun(cfg, s, ms);
  }

  /** The callbacks for all the frames hold all the payloads, in order. */
  lemma {:induction false} AllData(ms: seq<Sent>)
    ensures DataOf(AllPieces(ms)) == Joined(seq(|ms|, i requires 0 <= i < |ms| => ms[i].payload))
    decreases |ms|
  {
    hide PiecesOf;
    if |ms| > 0 {
      var p := PiecesOf(Opcode07(ms[0].kind), ms[0].fin, [], ms[0].payload);
      PiecesAreData(Opcode07(ms[0].kind), ms[0].fin, [], ms[0].payload);
      DataOfBoth(p, AllPieces(ms[1..]));
      AllData(ms[1..]);
      var all, rest := seq(|ms|, i requires 0 <= i < |ms| => ms[i].payload), seq(|ms| - 1, i requires 0 <= i < |ms| - 1 => ms[1..][i].payload);
      assert all[1..] == rest;
      assert [] + ms[0].payload == ms[0].payload;
    }
  }

  lemma {:induction false} DataOfBoth(a: seq<Piece>, b: seq<Piece>)
    ensures DataOf(a + b) == DataOf(a) + DataOf(b)
    decreases |a|
  {
    if |a| == 0 {
      assert a + b == b;
    } else {
      assert (a + b)[1..] == a[1..] + b;
      DataOfBoth(a[1..], b);
    }
  }

  // ---- the writer ---------------------------------------------------------------------------------

  const PRE_PADDING: nat := 18

  lemma {:induction false} MaskedMore(cfg: Config, nonce: seq<byte>, s: seq<byte>, c: byte)
    requires |cfg.key| == 20 && |nonce| == 4
    ensures Masked(cfg, nonce, 0, s + [c]) == Masked(cfg, nonce, 0, s) + [XorByte(c, MaskAt(cfg, nonce, |s|))]
  {
    hide XorByte, MaskAt;
    MaskedParts(cfg, nonce, 0, s, [c]);
    assert Masked(cfg, nonce, |s| + 1, [c][1..]) == [];
  }

  /** b became c, changing in lo..hi only. */
  predicate Changed(b: seq<byte>, c: seq<byte>, lo: nat, hi: nat)
  {
    lo <= hi <= |b| && |c| == |b| && c[..lo] == b[..lo] && c[hi..] == b[hi..]
  }

  lemma {:induction false} ChangedIsBoth(b: seq<byte>, c: seq<byte>, lo: nat, mid: nat, end: nat)
    requires Changed(b, c, lo, mid) && mid <= end <= |b|
    ensures c[lo..end] == c[lo..mid] + b[mid..end]
  {
    assert c[mid..end] == c[mid..][..end - mid];
    assert b[mid..end] == b[mid..][..end - mid];
  }

  lemma {:induction false} ChangedWider(b: seq<byte>, c: seq<byte>, lo: nat, hi: nat, lo': nat, hi': nat)
    requires Changed(b, c, lo, hi) && lo' <= lo && hi <= hi' <= |b|
    ensures Changed(b, c, lo', hi')
  {
    assert c[..lo'] == c[..lo][..lo'];
    assert b[..lo'] == b[..lo][..lo'];
    assert c[hi'..] == c[hi..][hi' - hi..];
    assert b[hi'..] == b[hi..][hi' - hi..];
  }

  lemma {:induction false} Fields(b0: seq<byte>, b1: seq<byte>, b2: seq<byte>, b3: seq<byte>, lo: nat, mid: nat, end: nat)
    requires 4 <= lo && mid <= end <= |b0| && Changed(b0, b1, lo, mid) && Changed(b1, b2, lo, end) && Changed(b2, b3, lo - 4, lo)
    ensures b1[lo..end] == b1[lo..mid] + b0[mid..end]
    ensures b3[lo - 4..end] == b3[lo - 4..lo] + b2[lo..end]
    ensures b3[..lo - 4] == b0[..lo - 4] && b3[end..] == b0[end..]
  {
    ChangedIsBoth(b0, b1, lo, mid, end);
    ChangedIsBoth(b2, b3, lo - 4, lo, end);
    ChangedWider(b0, b1, lo, mid, lo - 4, end);
    ChangedWider(b1, b2, lo, end, lo - 4, end);
    ChangedWider(b2, b3, lo - 4, lo, lo - 4, end);
  }

  lemma {:induction false} FieldsBehind(b0: seq<byte>, b1: seq<byte>, b2: seq<byte>, b3: seq<byte>, lo: nat, mid: nat, end: nat)
    requires 4 <= mid <= end <= |b0| && Changed(b0, b1, lo, mid - 4) && Changed(b1, b2, mid, end) && Changed(b2, b3, mid - 4, mid)
    ensures b1[mid..end] == b0[mid..end]
    ensures b3[lo..end] == b1[lo..mid - 4] + b3[mid - 4..mid] + b2[mid..end]
    ensures b3[..lo] == b0[..lo] && b3[end..] == b0[end..]
  {
    ChangedIsBoth(b0, b1, lo, mid - 4, mid);
    ChangedIsBoth(b0, b1, lo, mid - 4, end);
    assert b1[mid..end] == b1[lo..end][mid - lo..] && b0[mid..end] == b0[mid - 4..end][4..];
    ChangedIsBoth(b2, b3, mid - 4, mid, end);
    assert b3[lo..mid - 4] == b3[..mid - 4][lo..] == b2[..mid - 4][lo..] == b2[..mid][lo..mid - 4] == b1[..mid][lo..mid - 4];
    assert b3[lo..end] == b3[lo..mid - 4] + b3[mid - 4..end];
    ChangedWider(b0, b1, lo, mid - 4, lo, end);
    ChangedWider(b1, b2, mid, end, lo, end);
    ChangedWider(b2, b3, mid - 4, mid, lo, end);
  }

  /** The client's end of a connection. */
  class Sender {
    const cfg: Config
    var nonce: seq<byte>
    var index: nat

    constructor (cfg: Config)
      requires Agreed(cfg)
      ensures this.cfg == cfg
    {
      this.cfg := cfg;
      nonce := [0, 0, 0, 0];
      index := 0;
    }

    /** xor_mask_04 or xor_mask_05. */
    method XorMask(c: byte) returns (r: byte)
      requires |cfg.key| == 20 && |nonce| == 4
      modifies this`index
      ensures r == XorByte(c, MaskByte(cfg, nonce, old(index))) && index == NextIndex(cfg, old(index))
    {
      r := XorByte(c, MaskByte(cfg, nonce, index));
      index := NextIndex(cfg, index);
    }

    /** The masking loops: buf[lo..hi] is masked in place. */
    method MaskInPlace(buf: array<byte>, lo: nat, hi: nat)
      requires |cfg.key| == 20 && |nonce| == 4 && index == 0 && lo <= hi <= buf.Length
      modifies this`index, buf
      ensures buf[lo..hi] == Masked(cfg, nonce, 0, old(buf[lo..hi]))
      ensures buf[..lo] == old(buf[..lo]) && buf[hi..] == old(buf[hi..])
    {
      hide XorByte, MaskAt, MaskByte, IndexAfter, NextIndex, Masked;
      IndexZero(cfg);
      assert Masked(cfg, nonce, 0, []) == [] by { MaskedParts(cfg, nonce, 0, [], []); }
      var n := lo;
      while n < hi
        invariant lo <= n <= hi && index == IndexAfter(cfg, n - lo)
        invariant buf[lo..n] == Masked(cfg, nonce, 0, old(buf[lo..n]))
        invariant buf[..lo] == old(buf[..lo]) && buf[n..] == old(buf[n..])
      {
        assert buf[n] == old(buf[n..])[0];
        IndexIsPosition(cfg, nonce, n - lo);
        MaskedMore(cfg, nonce, old(buf[lo..n]), old(buf[n]));
        assert old(buf[lo..n + 1]) == old(buf[lo..n]) + [old(buf[n])];
        ghost var rest := buf[n + 1..];
        assert rest == old(buf[n + 1..]) by { assert buf[n..][1..] == rest; }
        buf[n] := XorMask(buf[n]);
        assert buf[lo..n + 1] == buf[lo..n] + [buf[n]];
        n := n + 1;
      }
    }

    /** The header is put in front of buf[hi]. */
    method WriteHeader(buf: array<byte>, hi: nat, len: nat, kind: Kind, fin: bool) returns (lo: nat)
      requires 10 <= hi <= buf.Length && 1 <= len < 0x8000_0000
      modifies buf
      ensures lo <= hi && hi - lo <= 10
      ensures buf[lo..hi] == Header(cfg, kind, fin, len)
      ensures buf[..lo] == old(buf[..lo]) && buf[hi..] == old(buf[hi..])
    {
      var first: byte := WireOpcode(cfg, kind) + if fin then 0x80 else 0;
      var mask: byte := if cfg.revision < 7 then 0 else 0x80;
      if len < 126 {
        lo := hi - 2;
        Put2(buf, lo, first, len + mask);
      } else if len < 65536 {
        lo := hi - 4;
        WriteLength16(buf, lo, first, 126 + mask, len);
      } else {
        lo := hi - 10;
        WriteLength64(buf, lo, first, 127 + mask, len);
      }
    }

    method Put2(buf: array<byte>, lo: nat, first: byte, second: byte)
      requires lo + 2 <= buf.Length
      modifies buf
      ensures buf[lo..lo + 2] == [first, second]
      ensures buf[..lo] == old(buf[..lo]) && buf[lo + 2..] == old(buf[lo + 2..])
    {
      buf[lo], buf[lo + 1] := first, second;
    }

    method WriteLength16(buf: array<byte>, lo: nat, first: byte, second: byte, len: nat)
      requires lo + 4 <= buf.Length && len < 65536
      modifies buf
      ensures buf[lo..lo + 4] == [first, second, len / 0x100, len % 0x100]
      ensures buf[..lo] == old(buf[..lo]) && buf[lo + 4..] == old(buf[lo + 4..])
    {
      buf[lo], buf[lo + 1], buf[lo + 2], buf[lo + 3] := first, second, len / 0x100, len % 0x100;
    }

    method WriteLength64(buf: array<byte>, lo: nat, first: byte, second: byte, len: nat)
      requires lo + 10 <= buf.Length && len < 0x8000_0000
      modifies buf
      ensures buf[lo..lo + 10] == [first, second, 0, 0, 0, 0,
        len / 0x100 / 0x100 / 0x100, len / 0x100 / 0x100 % 0x100, len / 0x100 % 0x100, len % 0x100]
      ensures buf[..lo] == old(buf[..lo]) && buf[lo + 10..] == old(buf[lo + 10..])
    {
      buf[lo], buf[lo + 1] := first, second;
      buf[lo + 2], buf[lo + 3], buf[lo + 4], buf[lo + 5] := 0, 0, 0, 0;
      buf[lo + 6], buf[lo + 7] := len / 0x100 / 0x100 / 0x100, len / 0x100 / 0x100 % 0x100;
      buf[lo + 8], buf[lo + 9] := len / 0x100 % 0x100, len % 0x100;
    }

    method PutNonce(buf: array<byte>, lo: nat)
      requires |nonce| == 4 && lo + 4 <= buf.Length
      modifies buf
      ensures buf[lo..lo + 4] == nonce
      ensures buf[..lo] == old(buf[..lo]) && buf[lo + 4..] == old(buf[lo + 4..])
    {
      buf[lo], buf[lo + 1], buf[lo + 2], buf[lo + 3] := nonce[0], nonce[1], nonce[2], nonce[3];
    }

    /** libwebsocket_write: the payload buf[at..at + len] becomes a frame where it stands,
        in the padding in front of it; `random` is what get_random gives. */
    method Write(buf: array<byte>, at: nat, len: nat, kind: Kind, fin: bool, random: seq<byte>) returns (lo: nat)
      requires Agreed(cfg) && |random| == 4 && 1 <= len < 0x8000_0000 && PRE_PADDING <= at && at + len <= buf.Length
      modifies this, buf
      ensures lo <= at && at - lo <= 14
      ensures buf[lo..at + len] == Frame(cfg, random, kind, fin, old(buf[at..at + len]))
      ensures buf[..lo] == old(buf[..lo]) && buf[at + len..] == old(buf[at + len..])
    {
      if cfg.revision < 7 { lo := WriteOld(buf, at, len, kind, fin, random); }
      else { lo := WriteNew(buf, at, len, kind, fin, random); }
    }

    /** Before revision 7: header and payload are masked, the nonce goes in front of them. */
    method WriteOld(buf: array<byte>, at: nat, len: nat, kind: Kind, fin: bool, random: seq<byte>) returns (lo: nat)
      requires Agreed(cfg) && |random| == 4 && 1 <= len < 0x8000_0000 && 14 <= at && at + len <= buf.Length
      requires cfg.revision < 7
      modifies this, buf
      ensures lo <= at && at - lo <= 14
      ensures buf[lo..at + len] == Frame(cfg, random, kind, fin, old(buf[at..at + len]))
      ensures buf[..lo] == old(buf[..lo]) && buf[at + len..] == old(buf[at + len..])
    {
      hide Masked, Header;
      ghost var b0 := buf[..];
      var l := WriteHeader(buf, at, len, kind, fin);
      ghost var b1 := buf[..];
      nonce, index := random, 0;
      MaskInPlace(buf, l, at + len);
      ghost var b2 := buf[..];
      lo := l - 4;
      PutNonce(buf, lo);
      ghost var b3 := buf[..];
      Fields(b0, b1, b2, b3, l, at, at + len);
      assert b1[l..at + len] == Header(cfg, kind, fin, len) + b0[at..at + len];
    }

    /** From revision 7 on: only the payload is masked, the nonce goes behind the header. */
    method WriteNew(buf: array<byte>, at: nat, len: nat, kind: Kind, fin: bool, random: seq<byte>) returns (lo: nat)
      requires Agreed(cfg) && |random| == 4 && 1 <= len < 0x8000_0000 && 14 <= at && at + len <= buf.Length
      requires cfg.revision >= 7
      modifies this, buf
      ensures lo <= at && at - lo <= 14
      ensures buf[lo..at + len] == Frame(cfg, random, kind, fin, old(buf[at..at + len]))
      ensures buf[..lo] == old(buf[..lo]) && buf[at + len..] == old(buf[at + len..])
    {
      hide Masked, Header;
      ghost var b0 := buf[..];
      lo := WriteHeader(buf, at - 4, len, kind, fin);
      ghost var b1 := buf[..];
      nonce, index := random, 0;
      MaskInPlace(buf, at, at + len);
      ghost var b2 := buf[..];
      PutNonce(buf, at - 4);
      FieldsBehind(b0, b1, b2, buf[..], lo, at, at + len);
    }
  }

  /** The server's end of a connection. */
  class Receiver {
    const cfg: Config
    const user: array<byte>
    var head: nat
    var parse: ParseState
    var nonce: seq<byte>
    var allZero: bool
    var index: nat
    var opcode: byte
    var final: bool
    var masked: bool
    var length: nat
    var alive: bool
    /** What was called back and what was sent back for pings. */
    var pieces: seq<Piece>
    var pongs: seq<seq<byte>>

    predicate Shaped()
      reads this`nonce, this`head
    {
      Agreed(cfg) && |nonce| == 4 && user.Length == PRE_PADDING + MAX_USER_RX_BUFFER + 1 && head <= MAX_USER_RX_BUFFER
    }

    /** There is room for a byte as long as the connection lives. */
    predicate Valid()
      reads this`nonce, this`head, this`alive
    {
      Shaped() && (alive ==> head < MAX_USER_RX_BUFFER)
    }

    /** rx_user_buffer, up to its head. */
    function Buffered(): seq<byte>
      requires user.Length == PRE_PADDING + MAX_USER_RX_BUFFER + 1 && head <= MAX_USER_RX_BUFFER
      reads this`head, user
    {
      user[PRE_PADDING..PRE_PADDING + head]
    }

    function State(): (s: Rx)
      requires Shaped()
      reads this, user
      ensures Sane(s) && s.alive == alive
    {
      Rx(parse, nonce, allZero, index, opcode, final, masked, length, Buffered(), pieces, pongs, alive)
    }

    constructor (cfg: Config)
      requires Agreed(cfg)
      ensures Valid() && this.cfg == cfg && Ready(State()) && pieces == [] && pongs == []
      ensures fresh(user)
    {
      this.cfg := cfg;
      user := new byte[PRE_PADDING + MAX_USER_RX_BUFFER + 1];
      head, parse, nonce, allZero, index := 0, New, [0, 0, 0, 0], false, 0;
      opcode, final, masked, length, alive := 0, false, false, 0, true;
      pieces, pongs := [], [];
    }

    /** xor_mask_04 or xor_mask_05. */
    method XorMask(c: byte) returns (r: byte)
      requires Valid()
      modifies this`index
      ensures r == XorByte(c, MaskByte(cfg, nonce, old(index))) && index == NextIndex(cfg, old(index))
    {
      r := XorByte(c, MaskByte(cfg, nonce, index));
      index := NextIndex(cfg, index);
    }

    method Collect(i: nat, c: byte, first: bool, next: ParseState)
      requires Valid() && alive && i < 4
      modifies this`nonce, this`allZero, this`parse
      ensures Valid() && State() == TakeNonce(old(State()), i, c, first, next)
    {
      if first { allZero := true; }
      nonce := nonce[i := c];
      if c != 0 { allZero := false; }
      parse := next;
    }

    method FirstIn(c: byte)
      requires Valid() && alive
      modifies this`opcode, this`final, this`parse, this`alive
      ensures Valid() && State() == FirstByte(cfg, old(State()), c)
    {
      if cfg.revision < 7 {
        if Translated(c) < 0 { alive := false; return; }
        opcode := Translated(c);
      } else {
        opcode := c % 16;
      }
      final := c >= 0x80;
      parse := HdrLen;
    }

    method LengthIn(c: byte)
      requires Valid() && alive
      modifies this`masked, this`length, this`parse, this`alive
      ensures Valid() && State() == LengthByte(cfg, old(State()), c)
    {
      if c >= 0x80 && cfg.revision < 7 { alive := false; return; }
      masked := c >= 0x80;
      if c % 0x80 == 126 {
        if opcode >= 8 { alive := false; } else { parse := Len16_2; }
      } else if c % 0x80 == 127 {
        if opcode >= 8 { alive := false; } else { parse := Len64_8; }
      } else {
        length := c % 0x80;
        parse := if masked then Key1 else Payload;
      }
    }

    method MoreIn(c: byte)
      requires Valid() && alive
      modifies this`length, this`parse, this`alive
      ensures Valid() && State() == LengthMore(old(State()), c)
    {
      if parse.Len64_8? && c >= 0x80 { alive := false; return; }
      length := LenWith(parse, length, c);
      parse := Behind(parse, masked);
    }

    method HeaderIn(c: byte)
      requires Valid() && alive && InHeader(parse)
      modifies this
      ensures Valid() && State() == Step(cfg, old(State()), c)
    {
      hide FirstByte, LengthByte, LengthMore, XorByte, MaskByte, NextIndex;
      var d := c;
      if cfg.revision < 7 { d := XorMask(c); }
      if parse.Hdr1? { FirstIn(d); } else if parse.HdrLen? { LengthIn(d); } else { MoreIn(d); }
    }

    /** The spill: the buffer is handed on and emptied. */
    method SpillBuffer()
      requires Shaped() && alive
      modifies this`pieces, this`pongs, this`head, this`alive, user
      ensures Valid()
      ensures State() == Spill(old(State()))
    {
      if opcode == 8 {
        alive := false;
      } else if opcode == 9 {
        pongs := pongs + [Buffered()];
        head := 0;
      } else if opcode == 1 || opcode == 2 {
        ghost var b := Buffered();
        user[PRE_PADDING + head] := 0;
        assert Buffered() == b;
        pieces := pieces + [Piece(opcode, final, Buffered())];
        head := 0;
      } else {
        head := 0;
      }
    }

    /** The byte goes into rx_user_buffer. */
    method Store(c: byte)
      requires Valid() && alive
      modifies this`index, this`head, user
      ensures Shaped() && State() == Buffer(cfg, old(State()), c)
    {
      hide XorByte, MaskByte, NextIndex;
      ghost var s := State();
      var d := c;
      if !(allZero && cfg.revision >= 5) { d := XorMask(c); }
      user[PRE_PADDING + head] := d;
      head := head + 1;
      assert Buffered() == s.buffer + [d];
    }

    method PayloadUntilLengthExhausted(c: byte)
      requires Valid() && alive
      modifies this, user
      ensures Valid() && State() == PayloadByte(cfg, old(State()), c)
    {
      hide Buffer, Spill;
      Store(c);
      length := if length > 0 then length - 1 else 0xFFFF_FFFF_FFFF_FFFF;
      if length == 0 {
        parse := New;
        SpillBuffer();
      } else if head == MAX_USER_RX_BUFFER {
        SpillBuffer();
      }
    }

    /** libwebsocket_rx_sm. */
    method RxSm(c: byte)
      requires Valid() && alive
      modifies this, user
      ensures Valid() && State() == Step(cfg, old(State()), c)
    {
      hide PayloadByte, FirstByte, TakeNonce;
      if InHeader(parse) {
        HeaderIn(c);
      } else {
        if parse.New? {
          if cfg.revision < 7 { Collect(0, c, true, Nonce1); }
          else { allZero := true; FirstIn(c); }
        }
        else if parse.Nonce1? { Collect(1, c, false, Nonce2); }
        else if parse.Nonce2? { Collect(2, c, false, Nonce3); }
        else if parse.Nonce3? { Collect(3, c, false, Hdr1); index := 0; }
        else if parse.Key1? { Collect(0, c, false, Key2); }
        else if parse.Key2? { Collect(1, c, false, Key3); }
        else if parse.Key3? { Collect(2, c, false, Key4); }
        else if parse.Key4? { Collect(3, c, false, Payload); index := 0; }
        else { PayloadUntilLengthExhausted(c); }
      }
    }

    /** libwebsocket_interpret_incoming_packet. */
    method Interpret(buf: seq<byte>) returns (ok: bool)
      requires Valid() && alive
      modifies this, user
      ensures Valid() && ok == alive && State() == Run(cfg, old(State()), buf)
    {
      hide Step, Run;
      ghost var s := State();
      var n := 0;
      RunNone(cfg, s);
      while n < |buf|
        invariant 0 <= n <= |buf| && Valid() && alive
        invariant State() == Run(cfg, s, buf[..n])
      {
        RunParts(cfg, s, buf[..n], [buf[n]]);
        RunNext(cfg, State(), buf[n], []);
        assert [buf[n]] + [] == [buf[n]];
        RunNone(cfg, Step(cfg, State(), buf[n]));
        assert buf[..n + 1] == buf[..n] + [buf[n]];
        RxSm(buf[n]);
        n := n + 1;
        if !alive {
          DeadStays(cfg, State(), buf[n..]);
          RunParts(cfg, s, buf[..n], buf[n..]);
          assert buf == buf[..n] + buf[n..];
          return false;
        }
      }
      assert buf[..n] == buf;
      return true;
    }
  }

  /** The client writes all its messages, each from a buffer of its own. */
  method SendAll(client: Sender, ms: seq<Sent>) returns (wire: seq<byte>)
    requires Agreed(client.cfg)
    modifies client
    ensures wire == Wire(client.cfg, ms)
  {
    hide Frame, Agreed;
    wire := [];
    assert |client.cfg.key| == 20 by { KeySize(client.cfg); }
    var i := 0;
    WireMore(client.cfg, ms, 0);
    while i < |ms|
      invariant i <= |ms| && wire == Wire(client.cfg, ms[..i])
    {
      var m: Sent := ms[i];
      var len := |m.payload|;
      var buf := new byte[PRE_PADDING + len](j requires 0 <= j < PRE_PADDING + len => if j < PRE_PADDING then 0 else m.payload[j - PRE_PADDING]);
      assert buf[PRE_PADDING..PRE_PADDING + len] == m.payload;
      var lo := client.Write(buf, PRE_PADDING, len, m.kind, m.fin, m.nonce);
      WireMore(client.cfg, ms, i);
      wire := wire + buf[lo..PRE_PADDING + len];
      i := i + 1;
    }
    assert ms[..i] == ms;
  }

  lemma {:induction false} KeySize(cfg: Config)
    requires Agreed(cfg)
    ensures |cfg.key| == 20
  {
  }

  lemma {:induction false} WireMore(cfg: Config, ms: seq<Sent>, i: nat)
    requires |cfg.key| == 20 && i <= |ms|
    ensures Wire(cfg, ms[..0]) == []
    ensures i < |ms| ==> Wire(cfg, ms[..i + 1]) == Wire(cfg, ms[..i]) + Frame(cfg, ms[i].nonce, ms[i].kind, ms[i].fin, ms[i].payload)
    decreases i
  {
    hide Frame;
    if i < |ms| {
      assert ms[..i + 1] == ms[..i] + [ms[i]];
      WireBoth(cfg, ms[..i], [ms[i]]);
      assert [ms[i]][1..] == [] && Wire(cfg, [ms[i]][1..]) == [];
    }
  }

  lemma {:induction false} WireBoth(cfg: Config, a: seq<Sent>, b: seq<Sent>)
    requires |cfg.key| == 20
    ensures Wire(cfg, a + b) == Wire(cfg, a) + Wire(cfg, b)
    decreases |a|
  {
    hide Frame;
    if |a| == 0 {
      assert a + b == b;
    } else {
      assert (a + b)[1..] == a[1..] + b;
      WireBoth(cfg, a[1..], b);
    }
  }

  /** The server takes the packets as they come, until it closes the connection. */
  method ReceiveAll(server: Receiver, chunks: seq<seq<byte>>)
    requires server.Valid() && server.alive
    modifies server, server.user
    ensures server.Valid() && server.State() == RunChunks(server.cfg, old(server.State()), chunks)
  {
    hide Run;
    ghost var s := server.State();
    var i := 0;
    assert chunks[0..] == chunks;
    while i < |chunks| && server.alive
      invariant i <= |chunks| && server.Valid()
      invariant RunChunks(server.cfg, s, chunks) == RunChunks(server.cfg, server.State(), chunks[i..])
    {
      assert chunks[i..][1..] == chunks[i + 1..];
      var _ := server.Interpret(chunks[i]);
      i := i + 1;
    }
    if !server.alive { DeadChunks(server.cfg, server.State(), chunks[i..]); }
  }

  lemma {:induction false} DeadChunks(cfg: Config, s: Rx, chunks: seq<seq<byte>>)
    requires Sane(s) && |cfg.key| == 20 && !s.alive
    ensures RunChunks(cfg, s, chunks) == s
    decreases |chunks|
  {
    hide Run;
    if |chunks| > 0 {
      DeadStays(cfg, s, chunks[0]);
      DeadChunks(cfg, s, chunks[1..]);
    }
  }

  /** The network: the stream is cut after each of the given numbers of bytes. */
  function Cut(wire: seq<byte>, cuts: seq<nat>): (chunks: seq<seq<byte>>)
    decreases |cuts|
  {
    if |cuts| == 0 || cuts[0] > |wire| then [wire] else [wire[..cuts[0]]] + Cut(wire[cuts[0]..], cuts[1..])
  }

  lemma {:induction false} CutJoins(wire: seq<byte>, cuts: seq<nat>)
    ensures Joined(Cut(wire, cuts)) == wire
    decreases |cuts|
  {
    if |cuts| == 0 || cuts[0] > |wire| {
      assert Joined([wire]) == wire + Joined([wire][1..]);
      assert [wire][1..] == [];
    } else {
      var rest := Cut(wire[cuts[0]..], cuts[1..]);
      CutJoins(wire[cuts[0]..], cuts[1..]);
      assert ([wire[..cuts[0]]] + rest)[1..] == rest;
    }
  }

  /** The round trip on the two state machines: what the client writes in place, cut up in
      any way, the server gives to its callback. */
  method Exchange(client: Sender, server: Receiver, ms: seq<Sent>, cuts: seq<nat>)
    requires client.cfg == server.cfg && server.Valid() && Ready(server.State())
    modifies client, server, server.user
    ensures server.Valid() && Ready(server.State())
    ensures server.pieces == old(server.pieces) + AllPieces(ms) && server.pongs == old(server.pongs)
  {
    hide Run, Wire, AllPieces, RunChunks;
    var wire := SendAll(client, ms);
    CutJoins(wire, cuts);
    RoundTrip(server.cfg, server.State(), ms, Cut(wire, cuts));
    ReceiveAll(server, Cut(wire, cuts));
  }

  lemma {:induction false} DeadStays(cfg: Config, s: Rx, t: seq<byte>)
    requires Sane(s) && |cfg.key| == 20 && !s.alive
    ensures Run(cfg, s, t) == s
    decreases |t|
  {
    if |t| > 0 { DeadStays(cfg, s, t[1..]); }
  }
}