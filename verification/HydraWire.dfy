/** The wire format of Hydra packets: what txpkt() puts on the line for a packet, and what
    rxpkt() makes of each byte that arrives. */
module HydraWire {
  import opened Bits
  import opened HydraTypes
  import opened HydraCrc

  const DLE: Byte := 24
  const XON: Byte := 17
  const XOFF: Byte := 19
  const CR: Byte := 13
  const LF: Byte := 10
  const AT: Byte := 64
  const BACKSLASH: Byte := 92

  const PKTEND: Byte := 97
  const BINPKT: Byte := 98
  const HEXPKT: Byte := 99
  const ASCPKT: Byte := 100
  const UUEPKT: Byte := 101

  const KIND_DATA: Byte := 70

  /** Longest encoded packet that the receiver stores, and the size of both buffers. */
  const MAXPKTLEN := 6183
  const BUFLEN := 6199
  /** Longest packet body before the type byte. */
  const MAXPAYLOAD := 2056

  // ----- transparency ------------------------------------------------------

  /** c ^ 0x40 */
  function Flip6(c: Byte): Byte {
    if c / 64 % 2 == 0 then c + 64 else c - 64
  }

  /** The byte by which the line is assumed to judge c. */
  function Masked(o: Options, c: Byte): Byte {
    if HighCtl in o then c % 128 else c
  }

  /** Bytes that the line may swallow or insert. */
  predicate Special(o: Options, n: Byte) {
    || (XonXoff in o && (n == XON || n == XOFF))
    || (CtlChrs in o && (n < 32 || n == 127))
  }

  predicate NeedsEscape(o: Options, last: Byte, n: Byte) {
    n == DLE || Special(o, n) || (Telenet in o && n == CR && last == AT)
  }

  /** put_binbyte(): last is the masked byte put before. */
  function PutByte(o: Options, last: Byte, c: Byte): Bytes {
    if NeedsEscape(o, last, Masked(o, c)) then [DLE, Flip6(c)] else [c]
  }

  function PutAll(o: Options, last: Byte, s: Bytes): Bytes
    decreases |s|
  {
    if s == [] then [] else PutByte(o, last, s[0]) + PutAll(o, Masked(o, s[0]), s[1..])
  }

  // ----- HEX ---------------------------------------------------------------

  function HexDigit(n: nat): Byte
    requires n < 16
  {
    if n < 10 then 48 + n else 87 + n
  }

  /** One byte of a HEX packet, before control characters are escaped. */
  function HexByte(c: Byte): Bytes {
    if c >= 128 then [BACKSLASH, HexDigit(c / 16), HexDigit(c % 16)]
    else if c == BACKSLASH then [BACKSLASH, BACKSLASH]
    else [c]
  }

  function HexText(s: Bytes): Bytes {
    if s == [] then [] else HexByte(s[0]) + HexText(s[1..])
  }

  /** HEX packets escape all 7-bit control characters, whatever the options are. */
  function HexPut(c: Byte): Bytes {
    if c < 32 || c == 127 then [DLE, Flip6(c)] else [c]
  }

  function HexPutAll(s: Bytes): Bytes {
    if s == [] then [] else HexPut(s[0]) + HexPutAll(s[1..])
  }

  /** The value of a hexadecimal digit as rxpkt() computes it, or -1. */
  function HexVal(c: Byte): int {
    if 48 <= c <= 57 then c - 48 else if 87 <= c <= 102 then c - 87 else -1
  }

  // ----- decoding in the receive buffer ------------------------------------

  /** A decoded packet body: whether the format was acceptable, the bytes written to the start
      of the buffer, and where the reading pointer stopped. */
  datatype Decoded = Decoded(ok: bool, out: Bytes, p: nat)

  function Prepend(s: Bytes, d: Decoded): Decoded {
    d.(out := s + d.out)
  }

  /** The HEX loop. A bad digit ends it without rejecting the packet; reading past the end
      rejects it. */
  function HexRead(b: Bytes, p: nat, end: nat): Decoded
    requires end + 2 < |b|
    decreases |b| - p
  {
    if p >= end then Decoded(p == end, [], p)
    else if b[p] != BACKSLASH then Prepend([b[p]], HexRead(b, p + 1, end))
    else if b[p + 1] == BACKSLASH then Prepend([b[p + 1]], HexRead(b, p + 2, end))
    else
      var high, low := HexVal(b[p + 1]), HexVal(b[p + 2]);
      if high < 0 || low < 0 then Decoded(p + 2 <= end, [], p + 2)
      else Prepend([16 * high + low], HexRead(b, p + 3, end))
  }

  // ----- ASC: 8-bit bytes as 7-bit ones ------------------------------------

  /** The encoder with n bits, of value c, still to be sent. */
  function Septets(c: nat, n: nat, s: Bytes): Bytes
    requires n < 7
    decreases |s|
  {
    if s == [] then if n > 0 then [c % 128] else []
    else
      var v := c + s[0] * Power(n);
      if n + 1 >= 7 then [v % 128, v / 128 % 128] + Septets(0, 0, s[1..])
      else [v % 128] + Septets(v / 128, n + 1, s[1..])
  }

  /** i |= (c & 0x7f) << n, where i has fewer than n bits */
  function Added(i: nat, n: nat, c: Byte): nat
    requires n < 8
  {
    i + c % 128 * Power(n)
  }

  /** The decoder with n bits, of value i, received so far. */
  function Octets(i: nat, n: nat, t: Bytes): Bytes
    requires n < 8
    decreases |t|
  {
    if t == [] then []
    else
      var v := Added(i, n, t[0]);
      if n + 7 >= 8 then [v % 256] + Octets(v / 256, n - 1, t[1..]) else Octets(v, n + 7, t[1..])
  }

  // ----- UUE ---------------------------------------------------------------

  /** h_uuenc() */
  function UueChar(c: nat): Byte {
    c % 64 + 33
  }

  /** h_uudec() */
  function UueVal(c: Byte): nat {
    (c - 33) % 64
  }

  function UueText(s: Bytes): Bytes {
    if |s| >= 3 then
      [UueChar(s[0] / 4), UueChar(s[0] % 4 * 16 + s[1] / 16), UueChar(s[1] % 16 * 4 + s[2] / 64), UueChar(s[2] % 64)]
      + UueText(s[3..])
    else if |s| == 2 then [UueChar(s[0] / 4), UueChar(s[0] % 4 * 16 + s[1] / 16), UueChar(s[1] % 16 * 4)]
    else if |s| == 1 then [UueChar(s[0] / 4), UueChar(s[0] % 4 * 16)]
    else []
  }

  predicate UueBad(c: Byte) {
    c <= 32 || c >= 97
  }

  function UueFirst(a: Byte, b: Byte): Byte {
    UueVal(a) * 4 + UueVal(b) / 16
  }

  function UueSecond(b: Byte, c: Byte): Byte {
    UueVal(b) % 16 * 16 + UueVal(c) / 4
  }

  function UueThird(c: Byte, d: Byte): Byte {
    UueVal(c) % 4 * 64 + UueVal(d)
  }

  /** The UUE loop. It looks at three characters of a group of four, and at the first one of
      what is left at the end. */
  function UueRead(b: Bytes, p: nat, end: nat): Decoded
    requires p <= end <= |b|
    decreases end - p
  {
    if end - p >= 4 then
      if UueBad(b[p]) then Decoded(false, [], p)
      else if UueBad(b[p + 1]) || UueBad(b[p + 2]) then Decoded(false, [UueFirst(b[p], b[p + 1])], p)
      else
        Prepend([UueFirst(b[p], b[p + 1]), UueSecond(b[p + 1], b[p + 2]), UueThird(b[p + 2], b[p + 3])],
                UueRead(b, p + 4, end))
    else if end - p >= 2 then
      if UueBad(b[p]) then Decoded(false, [], p)
      else
        var first := [UueFirst(b[p], b[p + 1])];
        Decoded(true, if end - p == 3 then first + [UueSecond(b[p + 1], b[p + 2])] else first, p)
    else Decoded(true, [], p)
  }

  // ----- the sender --------------------------------------------------------

  predicate AlwaysHexKind(kind: Byte) {
    kind == 65 || kind == 66 || kind == 67 || kind == 75 || kind == 76
  }

  function Format(o: Options, kind: Byte): Byte {
    if AlwaysHexKind(kind) then HEXPKT
    else if HighBit in o then
      if CtlChrs in o && CanUue in o then UUEPKT else if CanAsc in o then ASCPKT else HEXPKT
    else BINPKT
  }

  predicate LongCrc(o: Options, format: Byte) {
    format != HEXPKT && Crc32 in o
  }

  /** The packet data followed by its complemented CRC. */
  function Sealed(o: Options, format: Byte, data: Bytes): Bytes {
    Widths();
    if LongCrc(o, format) then
      Residue32Bound(data);
      data + LittleEndian(0xffff_ffff - HydraCrc.Crc32(data), 4)
    else
      Residue16Bound(data);
      data + LittleEndian(0xffff - HydraCrc.Crc16(data), 2)
  }

  /** What the receiver will have stored when the body of a packet has arrived. */
  function Text(format: Byte, s: Bytes): Bytes {
    if format == HEXPKT then HexText(s)
    else if format == ASCPKT then Septets(0, 0, s)
    else if format == UUEPKT then UueText(s)
    else s
  }

  /** The text as it goes over the line. */
  function Transparent(o: Options, format: Byte, text: Bytes): Bytes {
    if format == HEXPKT then HexPutAll(text)
    else if format == UUEPKT then text
    else PutAll(o, 0, text)
  }

  function Trailer(format: Byte, kind: Byte): Bytes {
    if kind != KIND_DATA && format != BINPKT then [CR, LF] else []
  }

  /** txpkt() */
  function Encode(o: Options, kind: Byte, payload: Bytes): Bytes {
    var f := Format(o, kind);
    [DLE, f] + Transparent(o, f, Text(f, Sealed(o, f, payload + [kind]))) + [DLE, PKTEND] + Trailer(f, kind)
  }

  // ----- the receiver ------------------------------------------------------

  /** The receive buffer, the store pointer (-1 for NULL), rxdle and rxpktformat. */
  datatype Wire = Wire(buf: Bytes, ptr: int, dle: nat, fmt: Byte)

  predicate ValidWire(w: Wire) {
    |w.buf| == BUFLEN && -1 <= w.ptr <= BUFLEN
  }

  /** What rxpkt() returns for a byte: nothing yet, H_CANCEL, or a packet. */
  datatype Got = Nothing | Cancel | Good(kind: Byte, payload: Bytes)

  datatype Fed = Fed(w: Wire, got: Got)

  /** The byte as the receiver sees it. */
  function Seen(o: Options, c: Byte): Byte {
    if HighBit in o then c % 128 else c
  }

  predicate Ignored(o: Options, c: Byte) {
    var n := Masked(o, Seen(o, c));
    n != DLE && Special(o, n)
  }

  function Store(w: Wire, c: Byte): (w': Wire)
    requires ValidWire(w)
    ensures ValidWire(w')
  {
    if w.ptr < 0 then w
    else if w.ptr < MAXPKTLEN then w.(buf := w.buf[w.ptr := c], ptr := w.ptr + 1)
    else w.(ptr := -1)
  }

  function DecodeBody(w: Wire): Decoded
    requires ValidWire(w) && 0 <= w.ptr < BUFLEN - 2
  {
    if w.fmt == HEXPKT then HexRead(w.buf, 0, w.ptr)
    else if w.fmt == ASCPKT then Decoded(true, Octets(0, 0, w.buf[..w.ptr]), w.ptr)
    else if w.fmt == UUEPKT then UueRead(w.buf, 0, w.ptr)
    else Decoded(w.fmt == BINPKT, w.buf[..w.ptr], w.ptr)
  }

  /** The length and CRC tests on a decoded body. */
  function Check(o: Options, format: Byte, s: Bytes): Got {
    if LongCrc(o, format) then
      if |s| >= 5 && HydraCrc.Crc32(s) == 0xdebb_20e3 then Good(s[|s| - 5], s[..|s| - 5]) else Nothing
    else
      if |s| >= 3 && HydraCrc.Crc16(s) == 0xf0b8 then Good(s[|s| - 3], s[..|s| - 3]) else Nothing
  }

  /** An accepted packet closes the buffer; after a rejected one the store pointer stays where
      the decoder left it. Without an open packet the HEX and ASC decoders leave it at the start
      of the buffer. */
  function PacketEnd(o: Options, w: Wire): (f: Fed)
    requires ValidWire(w)
    ensures ValidWire(f.w)
  {
    if 0 <= w.ptr < BUFLEN - 2 then
      DecodeFits(w);
      var d := DecodeBody(w);
      var got := if d.ok then Check(o, w.fmt, d.out) else Nothing;
      Fed(w.(buf := d.out + w.buf[|d.out|..], ptr := if got.Good? then -1 else d.p), got)
    else if w.ptr < 0 && (w.fmt == HEXPKT || w.fmt == ASCPKT) then Fed(w.(ptr := 0), Nothing)
    else Fed(w, Nothing)
  }

  /** One byte from the line. */
  function Receive(o: Options, w: Wire, raw: Byte): (f: Fed)
    requires ValidWire(w)
    ensures ValidWire(f.w)
  {
    var c := Seen(o, raw);
    if Ignored(o, raw) then Fed(w, Nothing)
    else if w.dle > 0 || c == DLE then
      if c == DLE then Fed(w.(dle := w.dle + 1), if w.dle + 1 >= 5 then Cancel else Nothing)
      else if c == PKTEND then PacketEnd(o, w)
      else if BINPKT <= c <= UUEPKT then Fed(w.(fmt := c, ptr := 0, dle := 0), Nothing)
      else Fed(Store(w, Flip6(c)).(dle := 0), Nothing)
    else Fed(Store(w, c), Nothing)
  }

  /** A stretch of bytes, and everything that comes out of it in order. */
  datatype Progress = Progress(w: Wire, got: seq<Got>)

  function Feed(o: Options, w: Wire, s: Bytes): (r: Progress)
    requires ValidWire(w)
    ensures ValidWire(r.w)
    decreases |s|
  {
    if s == [] then Progress(w, [])
    else
      var f := Receive(o, w, s[0]);
      var rest := Feed(o, f.w, s[1..]);
      Progress(rest.w, if f.got.Nothing? then rest.got else [f.got] + rest.got)
  }

  /** What the static store pointer is after a byte; within rxpkt() a copy of it moves on, and it is
      set only where packets start and end. */
  function StaticPtr(o: Options, w: Wire, raw: Byte, ptr: int): (p: int)
    ensures p == ptr || -1 <= p <= 0
  {
    var c := Seen(o, raw);
    if Ignored(o, raw) || (w.dle == 0 && c != DLE) then ptr
    else if c == PKTEND then -1
    else if BINPKT <= c <= UUEPKT then 0
    else ptr
  }

  function StaticAfter(o: Options, w: Wire, s: Bytes, ptr: int): (p: int)
    requires ValidWire(w)
    ensures p == ptr || -1 <= p <= 0
    decreases |s|
  {
    if s == [] then ptr else StaticAfter(o, Receive(o, w, s[0]).w, s[1..], StaticPtr(o, w, s[0], ptr))
  }

  /** The receiver as rxpkt() leaves it: a cancel throws the copy away. */
  function Left(o: Options, w: Wire, s: Bytes): (w': Wire)
    requires ValidWire(w)
    ensures ValidWire(w')
  {
    var r := Feed(o, w, s);
    if r.got != [] && r.got[0].Cancel? then r.w.(ptr := StaticAfter(o, w, s, w.ptr)) else r.w
  }

  lemma FeedNothing(o: Options, w: Wire)
    requires ValidWire(w)
    ensures Feed(o, w, []) == Progress(w, [])
  {
  }

  // ----- the decoders stay behind their reading pointers -------------------

  lemma {:induction false} HexReadFits(b: Bytes, p: nat, end: nat)
    requires end + 2 < |b| && p <= end + 2
    ensures var d := HexRead(b, p, end); p + |d.out| <= d.p <= end + 2 && (p <= end ==> p + |d.out| <= d.p)
    decreases |b| - p
  {
    if p < end {
      if b[p] != BACKSLASH {
        HexReadFits(b, p + 1, end);
      } else if b[p + 1] == BACKSLASH {
        HexReadFits(b, p + 2, end);
      } else if HexVal(b[p + 1]) >= 0 && HexVal(b[p + 2]) >= 0 {
        HexReadFits(b, p + 3, end);
      }
    }
  }

  lemma {:induction false} OctetsFit(i: nat, n: nat, t: Bytes)
    requires n < 8
    ensures 8 * |Octets(i, n, t)| <= n + 7 * |t|
    decreases |t|
  {
    if t != [] {
      var v := Added(i, n, t[0]);
      if n + 7 >= 8 {
        OctetsFit(v / 256, n - 1, t[1..]);
      } else {
        OctetsFit(v, n + 7, t[1..]);
      }
    }
  }

  lemma {:induction false} UueReadFits(b: Bytes, p: nat, end: nat)
    requires p <= end <= |b|
    ensures var d := UueRead(b, p, end); p <= d.p <= end && p + |d.out| <= end
    decreases end - p
  {
    if end - p >= 4 && !UueBad(b[p]) && !UueBad(b[p + 1]) && !UueBad(b[p + 2]) {
      UueReadFits(b, p + 4, end);
    }
  }

  lemma DecodeFits(w: Wire)
    requires ValidWire(w) && 0 <= w.ptr < BUFLEN - 2
    ensures var d := DecodeBody(w); |d.out| <= w.ptr + 2 && d.p <= w.ptr + 2
  {
    if w.fmt == HEXPKT {
      HexReadFits(w.buf, 0, w.ptr);
    } else if w.fmt == ASCPKT {
      OctetsFit(0, 0, w.buf[..w.ptr]);
    } else if w.fmt == UUEPKT {
      UueReadFits(w.buf, 0, w.ptr);
    }
  }

  lemma Residue16Bound(s: Bytes)
    ensures HydraCrc.Crc16(s) <= 0xffff
  {
    Widths();
    FromBound(POLY16, 0xffff, s, 16);
  }

  lemma Residue32Bound(s: Bytes)
    ensures HydraCrc.Crc32(s) <= 0xffff_ffff
  {
    Widths();
    FromBound(POLY32, 0xffff_ffff, s, 32);
  }
}
