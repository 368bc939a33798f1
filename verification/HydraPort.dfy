/** txpkt() and rxpkt() as they are written: encoding and decoding in place in fixed buffers,
    proved equal to the wire format of HydraWire. */
module HydraPort {
  import opened Bits
  import opened HydraTypes
  import opened HydraCrc
  import opened HydraWire
  import opened HydraBodies

  /** What rxpkt() returns. */
  datatype PktType =
    | Packet(kind: Byte, payload: Bytes)
    | Cancelled
    | SysAbort
    | CarrierLost
    | BrainTime
    | TxTime
    | DevTxTime
    | NoPkt

  /** What rxpkt() looks at beside the line: the operator, the carrier, and the timers that run out. */
  datatype Around = Around(keyabort: bool, carrier: bool, braindead: bool, txtimer: bool, devtimer: bool)

  /** What is returned when the line has given these results. */
  function Outcome(got: seq<Got>, around: Around): PktType {
    if around.keyabort then SysAbort
    else if !around.carrier then CarrierLost
    else if got != [] && got[0].Good? then Packet(got[0].kind, got[0].payload)
    else if got != [] && got[0].Cancel? then Cancelled
    else if around.braindead then BrainTime
    else if around.txtimer then TxTime
    else if around.devtimer then DevTxTime
    else NoPkt
  }

  /** Where the body of an outgoing packet starts in the transmit buffer. */
  const TXBUFIN := 4122

  // ----- facts about one step of the encoders ------------------------------

  lemma {:induction false} HexPutAllConcat(s: Bytes, t: Bytes)
    ensures HexPutAll(s + t) == HexPutAll(s) + HexPutAll(t)
  {
    if s == [] {
      assert s + t == t;
    } else {
      assert (s + t)[1..] == s[1..] + t;
      HexPutAllConcat(s[1..], t);
    }
  }

  lemma HexPutAllPrintable(s: Bytes)
    requires forall i :: 0 <= i < |s| ==> 32 <= s[i] < 127
    ensures HexPutAll(s) == s
  {
    if s != [] {
      HexPutAllPrintable(s[1..]);
      assert s == [s[0]] + s[1..];
    }
  }

  /** What the HEX loop of txpkt() writes for one byte. */
  function HexOut(c: Byte): Bytes {
    if c >= 128 then [BACKSLASH, HexDigit(c / 16), HexDigit(c % 16)]
    else if c < 32 || c == 127 then [DLE, Flip6(c)]
    else if c == BACKSLASH then [BACKSLASH, BACKSLASH]
    else [c]
  }

  lemma HexOutIsPut(c: Byte)
    ensures HexOut(c) == HexPutAll(HexByte(c)) && 1 <= |HexOut(c)| <= 3
  {
    if c >= 128 {
      HexDigitValue(c / 16);
      HexDigitValue(c % 16);
      HexPutAllPrintable(HexByte(c));
    } else if c == BACKSLASH {
      HexPutAllPrintable(HexByte(c));
    } else {
      assert HexPutAll([c]) == HexPut(c) + HexPutAll([]);
    }
  }

  /** The HEX form of a body, one byte at a time. */
  lemma HexNext(s: Bytes)
    requires s != []
    ensures HexPutAll(HexText(s)) == HexOut(s[0]) + HexPutAll(HexText(s[1..]))
  {
    HexPutAllConcat(HexByte(s[0]), HexText(s[1..]));
    HexOutIsPut(s[0]);
  }

  lemma PutAllNext(o: Options, last: Byte, c: Byte, s: Bytes)
    ensures PutAll(o, last, [c] + s) == PutByte(o, last, c) + PutAll(o, Masked(o, c), s)
  {
    assert ([c] + s)[1..] == s;
  }

  lemma SeptetBound(c: nat, n: nat, x: Byte)
    requires n < 7 && c < Power(n)
    ensures var v := c + x * Power(n); v / 128 < Power(n + 1) && (n == 6 ==> v / 128 < 128)
  {
    if n == 0 {
    } else if n == 1 {
    } else if n == 2 {
    } else if n == 3 {
    } else if n == 4 {
    } else if n == 5 {
    }
  }

  // ----- the two buffers ---------------------------------------------------

  class Port {
    const txbuf: array<Byte>
    const rxbuf: array<Byte>
    const tables: Tables
    var txoptions: Options
    var rxoptions: Options
    var txlastc: Byte
    var rxbufptr: int         // -1 for NULL
    var rxdle: nat
    var rxpktformat: Byte

    ghost predicate Valid()
      reads this, txbuf, rxbuf, tables.crc16tab, tables.crc32tab
    {
      && txbuf != rxbuf && txbuf.Length == BUFLEN && rxbuf.Length == BUFLEN
      && Apart() && tables.Valid()
      && -1 <= rxbufptr <= BUFLEN
    }

    /** The tables are not the buffers. */
    ghost predicate Apart() {
      var buffers: set<object> := {txbuf, rxbuf};
      tables.crc16tab !in buffers && tables.crc32tab !in buffers
    }

    ghost function State(): Wire
      reads this, rxbuf
    {
      Wire(rxbuf[..], rxbufptr, rxdle, rxpktformat)
    }

    constructor ()
      ensures Valid() && fresh(txbuf) && fresh(rxbuf)
      ensures txoptions == TXI_OPTIONS && rxoptions == RXI_OPTIONS && rxbufptr == -1 && rxdle == 0
    {
      txbuf := new Byte[BUFLEN](_ => 0);
      rxbuf := new Byte[BUFLEN](_ => 0);
      tables := new Tables();
      txoptions, rxoptions := TXI_OPTIONS, RXI_OPTIONS;
      txlastc, rxbufptr, rxdle, rxpktformat := 0, -1, 0, 0;
    }

    // ----- sending ---------------------------------------------------------

    /** put_binbyte() */
    method PutBinByte(out: nat, c: Byte) returns (p: nat)
      requires txbuf.Length == BUFLEN && out + 2 <= BUFLEN
      modifies txbuf, `txlastc
      ensures out < p <= out + 2 && txlastc == Masked(txoptions, c)
      ensures txbuf[..p] == old(txbuf[..out]) + PutByte(txoptions, old(txlastc), c)
      ensures txbuf[p..] == old(txbuf[..])[p..]
    {
      hide Flip6, Special, Masked;
      var n := if HighCtl in txoptions then c % 128 else c;
      assert n == Masked(txoptions, c) by { MaskedIs(txoptions, c); }
      p := out;
      if n == DLE || Special(txoptions, n) || (Telenet in txoptions && n == CR && txlastc == AT) {
        txbuf[p] := DLE;
        txbuf[p + 1] := Flip6(c);
        p := p + 2;
      } else {
        txbuf[p] := c;
        p := p + 1;
      }
      txlastc := n;
    }

    static lemma MaskedIs(o: Options, c: Byte)
      ensures Masked(o, c) == if HighCtl in o then c % 128 else c
    {
    }

    /** Bytes written at p. */
    method PutRaw(p: nat, s: Bytes)
      requires txbuf.Length == BUFLEN && p + |s| <= BUFLEN
      modifies txbuf
      ensures txbuf[..p + |s|] == old(txbuf[..p]) + s
      ensures txbuf[p + |s|..] == old(txbuf[..])[p + |s|..]
    {
      var i := 0;
      while i < |s|
        invariant 0 <= i <= |s|
        invariant txbuf[..p + i] == old(txbuf[..p]) + s[..i]
        invariant txbuf[p + i..] == old(txbuf[..])[p + i..]
      {
        txbuf[p + i] := s[i];
        i := i + 1;
      }
    }

    /** The HEX loop of txpkt(). It writes at most 2 + 3k bytes for the first k bytes it reads. */
    method EncodeHex(len: nat, head: Bytes, ghost data: Bytes) returns (out: nat)
      requires txbuf.Length == BUFLEN && len <= MAXPAYLOAD + 3 && |head| == 2 && txbuf[..2] == head
      requires |data| == len && txbuf[TXBUFIN..TXBUFIN + len] == data
      modifies txbuf
      ensures out <= 2 + 3 * len && txbuf[..out] == head + HexPutAll(HexText(data))
    {
      hide HexText, HexPutAll, HexOut;
      out := 2;
      var k := 0;
      assert data[0..] == data;
      while k < len
        invariant 0 <= k <= len && 2 <= out <= 2 + 3 * k
        invariant txbuf[TXBUFIN + k..TXBUFIN + len] == data[k..]
        invariant txbuf[..out] + HexPutAll(HexText(data[k..])) == head + HexPutAll(HexText(data))
      {
        var c := txbuf[TXBUFIN + k];
        assert c == data[k..][0] == data[k];
        var s := HexOut(c);
        HexNext(data[k..]);
        HexOutIsPut(c);
        assert data[k..][1..] == data[k + 1..];
        ghost var before, rest := txbuf[..], HexPutAll(HexText(data[k + 1..]));
        PutRaw(out, s);
        assert before[..out] + (s + rest) == (before[..out] + s) + rest;
        StillUnread(before, txbuf[..], out + |s|, TXBUFIN + k, TXBUFIN + len, data[k..]);
        out := out + |s|;
        k := k + 1;
      }
      HexNothing();
      assert data[len..] == [];
    }

    static lemma HexNothing()
      ensures HexPutAll(HexText([])) == []
    {
    }

    /** Writing below p leaves the unread input from there on as it was. */
    static lemma StillUnread(before: Bytes, after: Bytes, p: nat, at: nat, end: nat, data: Bytes)
      requires |before| == |after| && p <= at + 1 <= end <= |after| && after[p..] == before[p..]
      requires data == before[at..end]
      ensures after[at + 1..end] == data[1..]
    {
      assert forall i {:trigger after[i]} :: p <= i < |after| ==> after[i] == after[p..][i - p] == before[i];
    }

    /** The BIN loop. */
    method EncodeBin(len: nat, head: Bytes, ghost data: Bytes) returns (out: nat)
      requires txbuf.Length == BUFLEN && len <= MAXPAYLOAD + 5 && |head| == 2 && txbuf[..2] == head && txlastc == 0
      requires |data| == len && txbuf[TXBUFIN..TXBUFIN + len] == data
      modifies txbuf, `txlastc
      ensures out <= 2 + 2 * len && txbuf[..out] == head + PutAll(txoptions, 0, data)
    {
      hide PutAll, PutByte, Masked;
      out := 2;
      var k := 0;
      assert data[0..] == data;
      while k < len
        invariant 0 <= k <= len && 2 <= out <= 2 + 2 * k
        invariant txbuf[TXBUFIN + k..TXBUFIN + len] == data[k..]
        invariant txbuf[..out] + PutAll(txoptions, txlastc, data[k..]) == head + PutAll(txoptions, 0, data)
      {
        var c := txbuf[TXBUFIN + k];
        assert c == data[k..][0] == data[k];
        assert data[k..] == [c] + data[k + 1..];
        PutAllNext(txoptions, txlastc, c, data[k + 1..]);
        ghost var before, s := txbuf[..], PutByte(txoptions, txlastc, c);
        ghost var rest := PutAll(txoptions, Masked(txoptions, c), data[k + 1..]);
        var p := PutBinByte(out, c);
        assert before[..out] + (s + rest) == (before[..out] + s) + rest;
        StillUnread(before, txbuf[..], p, TXBUFIN + k, TXBUFIN + len, data[k..]);
        out := p;
        k := k + 1;
      }
      PutNothing(txoptions, txlastc);
      assert data[len..] == [];
    }

    static lemma PutNothing(o: Options, last: Byte)
      ensures PutAll(o, last, []) == []
    {
    }

    /** Adding one byte to a text in the ASC loop. */
    static lemma AscPut(o: Options, before: Bytes, last: Byte, c: Byte, text: Bytes, all: Bytes)
      requires before + PutAll(o, last, [c] + text) == all
      ensures before + PutByte(o, last, c) + PutAll(o, Masked(o, c), text) == all
    {
      hide PutAll, PutByte, Masked;
      PutAllNext(o, last, c, text);
      assert before + (PutByte(o, last, c) + PutAll(o, Masked(o, c), text))
          == before + PutByte(o, last, c) + PutAll(o, Masked(o, c), text);
    }

    /** One turn of the ASC loop: byte x when n bits of value c are waiting to be sent. */
    method AscByte(out: nat, bits: nat, count: nat, x: Byte, ghost rest: Bytes) returns (p: nat, c: nat, n: nat)
      requires txbuf.Length == BUFLEN && out + 4 <= BUFLEN && count < 7 && bits < Power(count)
      modifies txbuf, `txlastc
      ensures n == (if count == 6 then 0 else count + 1) && c < Power(n)
      ensures out < p <= out + if count == 6 then 4 else 2
      ensures txbuf[p..] == old(txbuf[..])[p..]
      ensures txbuf[..p] + PutAll(txoptions, txlastc, Septets(c, n, rest))
           == old(txbuf[..out]) + PutAll(txoptions, old(txlastc), Septets(bits, count, [x] + rest))
    {
      hide PutAll, PutByte, Masked, Septets, Power;
      ghost var all := txbuf[..out] + PutAll(txoptions, txlastc, Septets(bits, count, [x] + rest));
      assert ([x] + rest)[1..] == rest;
      SeptetsNext(bits, count, [x] + rest);
      SeptetBound(bits, count, x);
      n := count;
      c := bits + x * Power(n);
      ghost var tail := if n == 6 then [c / 128 % 128] + Septets(0, 0, rest) else Septets(c / 128, n + 1, rest);
      AscPut(txoptions, txbuf[..out], txlastc, c % 128, tail, all);
      p := PutBinByte(out, c % 128);
      c := c / 128;
      n := n + 1;
      if n >= 7 {
        ghost var middle, at := txbuf[..], p;
        AscPut(txoptions, middle[..p], txlastc, c % 128, Septets(0, 0, rest), all);
        p := PutBinByte(p, c % 128);
        assert middle[p..] == middle[at..][p - at..];
        c, n := 0, 0;
        PowerOne();
      }
    }

    /** The ASC loop. Every seven bytes make eight septets, and each septet takes at most two
        bytes. */
    method EncodeAsc(len: nat, head: Bytes, ghost data: Bytes) returns (out: nat)
      requires txbuf.Length == BUFLEN && len <= MAXPAYLOAD + 5 && |head| == 2 && txbuf[..2] == head && txlastc == 0
      requires |data| == len && txbuf[TXBUFIN..TXBUFIN + len] == data
      modifies txbuf, `txlastc
      ensures out <= 4 * len + 4 && out + 4 <= BUFLEN
      ensures txbuf[..out] == head + PutAll(txoptions, 0, Septets(0, 0, data))
    {
      hide PutAll, PutByte, Masked, Septets, Power;
      out := 2;
      var c: nat, n: nat, k: nat := 0, 0, 0;
      ghost var sent := 0;
      ghost var all := head + PutAll(txoptions, 0, Septets(0, 0, data));
      PowerOne();
      assert data[0..] == data;
      while k < len
        invariant k <= len && n < 7 && c < Power(n) && 7 * sent + n == 8 * k && 2 <= out <= 2 + 2 * sent
        invariant txbuf[TXBUFIN + k..TXBUFIN + len] == data[k..]
        invariant txbuf[..out] + PutAll(txoptions, txlastc, Septets(c, n, data[k..])) == all
      {
        ghost var before := txbuf[..];
        var x := txbuf[TXBUFIN + k];
        assert x == data[k..][0];
        assert data[k..] == [x] + data[k + 1..];
        sent := sent + if n == 6 then 2 else 1;
        out, c, n := AscByte(out, c, n, x, data[k + 1..]);
        StillUnread(before, txbuf[..], out, TXBUFIN + k, TXBUFIN + len, data[k..]);
        k := k + 1;
      }
      assert data[len..] == [];
      out := AscEnd(out, c, n);
    }

    /** The septet with the bits that are left over. */
    method AscEnd(out: nat, c: nat, n: nat) returns (p: nat)
      requires txbuf.Length == BUFLEN && out + 2 <= BUFLEN && n < 7
      modifies txbuf, `txlastc
      ensures out <= p <= out + 2
      ensures txbuf[..p] == old(txbuf[..out]) + PutAll(txoptions, old(txlastc), Septets(c, n, []))
    {
      hide PutAll, PutByte, Masked, Septets;
      p := out;
      SeptetsLast(c, n);
      PutNothing(txoptions, txlastc);
      if n > 0 {
        assert [c % 128] + [] == [c % 128];
        AscPut(txoptions, txbuf[..out], txlastc, c % 128, [], txbuf[..out] + PutAll(txoptions, txlastc, [c % 128]));
        p := PutBinByte(out, c % 128);
        PutNothing(txoptions, txlastc);
      }
    }

    static lemma PowerOne()
      ensures Power(0) == 1
    {
    }

    /** The UUE loop: groups of three bytes, then what is left. */
    method EncodeUue(len: nat, head: Bytes, ghost data: Bytes) returns (out: nat)
      requires txbuf.Length == BUFLEN && len <= MAXPAYLOAD + 5 && |head| == 2 && txbuf[..2] == head
      requires |data| == len && txbuf[TXBUFIN..TXBUFIN + len] == data
      modifies txbuf
      ensures out <= 2 * len + 4 && txbuf[..out] == head + UueText(data)
    {
      hide UueText, UueChar, UueGroupOf, UueTailOf;
      out := 2;
      var k := 0;
      assert data[0..] == data;
      while len - k >= 3
        invariant 0 <= k <= len && 3 * (out - 2) == 4 * k
        invariant txbuf[TXBUFIN + k..TXBUFIN + len] == data[k..]
        invariant txbuf[..out] + UueText(data[k..]) == head + UueText(data)
      {
        assert data[k..][3..] == data[k + 3..];
        EncodeGroup(out, TXBUFIN + k, TXBUFIN + len, data[k..]);
        out := out + 4;
        k := k + 3;
      }
      UueLast(data[k..]);
      if len - k > 0 {
        var x := txbuf[TXBUFIN + k];
        assert x == data[k..][0];
        var y := if len - k == 2 then txbuf[TXBUFIN + k + 1] else 0;
        assert len - k == 2 ==> y == data[k..][1];
        var s := UueTailOf(x, y, len - k == 2);
        ghost var before := txbuf[..];
        PutRaw(out, s);
        out := out + |s|;
      }
    }

    /** One turn of the UUE loop. */
    method EncodeGroup(out: nat, at: nat, end: nat, ghost rest: Bytes)
      requires txbuf.Length == BUFLEN && out + 4 <= at + 3 <= end <= BUFLEN && rest == txbuf[at..end]
      modifies txbuf
      ensures txbuf[at + 3..end] == rest[3..]
      ensures txbuf[..out + 4] + UueText(rest[3..]) == old(txbuf[..out]) + UueText(rest)
    {
      hide UueText, UueChar, UueGroupOf;
      var x, y, z := txbuf[at], txbuf[at + 1], txbuf[at + 2];
      assert x == rest[0] && y == rest[1] && z == rest[2];
      var s := UueGroupOf(x, y, z);
      UueNext(rest);
      ghost var before := txbuf[..];
      PutRaw(out, s);
      assert before[..out] + (s + UueText(rest[3..])) == (before[..out] + s) + UueText(rest[3..]);
      LaterUnread(before, txbuf[..], out + 4, at, end, rest);
    }

    static function UueGroupOf(x: Byte, y: Byte, z: Byte): (s: Bytes)
      ensures |s| == 4
    {
      [UueChar(x / 4), UueChar(x % 4 * 16 + y / 16), UueChar(y % 16 * 4 + z / 64), UueChar(z % 64)]
    }

    /** What is left is one byte, or two. */
    static function UueTailOf(x: Byte, y: Byte, two: bool): (s: Bytes)
      ensures |s| == if two then 3 else 2
    {
      if two then [UueChar(x / 4), UueChar(x % 4 * 16 + y / 16), UueChar(y % 16 * 4)]
      else [UueChar(x / 4), UueChar(x % 4 * 16)]
    }

    static lemma UueNext(s: Bytes)
      requires |s| >= 3
      ensures UueText(s) == UueGroupOf(s[0], s[1], s[2]) + UueText(s[3..])
    {
    }

    static lemma UueLast(s: Bytes)
      requires |s| < 3
      ensures |s| == 0 ==> UueText(s) == []
      ensures |s| == 1 ==> UueText(s) == UueTailOf(s[0], 0, false)
      ensures |s| == 2 ==> UueText(s) == UueTailOf(s[0], s[1], true)
    {
      hide UueChar;
    }

    static lemma LaterUnread(before: Bytes, after: Bytes, p: nat, at: nat, end: nat, data: Bytes)
      requires |before| == |after| && p <= at + 3 <= end <= |after| && after[p..] == before[p..]
      requires data == before[at..end]
      ensures after[at + 3..end] == data[3..]
    {
      assert forall i {:trigger after[i]} :: p <= i < |after| ==> after[i] == after[p..][i - p] == before[i];
    }

    /** Append the type byte and the complemented CRC to the body. */
    method Seal(payload: nat, kind: Byte, format: Byte) returns (len: nat)
      requires Valid() && payload <= MAXPAYLOAD
      modifies txbuf
      ensures len == payload + 1 + if LongCrc(txoptions, format) then 4 else 2
      ensures txbuf[TXBUFIN..TXBUFIN + len]
        == Sealed(txoptions, format, old(txbuf[TXBUFIN..TXBUFIN + payload]) + [kind])
    {
      hide LittleEndian, HydraCrc.Crc16, HydraCrc.Crc32, Sealed;
      ghost var data := txbuf[TXBUFIN..TXBUFIN + payload] + [kind];
      txbuf[TXBUFIN + payload] := kind;
      len := payload + 1;
      assert txbuf[TXBUFIN..TXBUFIN + len] == data;
      SealedIs(txoptions, format, data);
      var long := format != HEXPKT && Crc32 in txoptions;
      var crc := Complement(len, long);
      ghost var before := txbuf[..TXBUFIN + len];
      PutCrc(TXBUFIN + len, crc, long);
      Appended(txbuf[..], before, TXBUFIN, data, LittleEndian(crc, if long then 4 else 2));
      len := len + if long then 4 else 2;
    }

    /** The complemented CRC of the body. */
    method Complement(len: nat, long: bool) returns (crc: nat)
      requires Valid() && TXBUFIN + len <= BUFLEN
      ensures var data := txbuf[TXBUFIN..TXBUFIN + len];
        crc == if long then 0xffff_ffff - HydraCrc.Crc32(data) else 0xffff - HydraCrc.Crc16(data)
    {
      hide HydraCrc.Crc16, HydraCrc.Crc32;
      Residue32Bound(txbuf[TXBUFIN..TXBUFIN + len]);
      Residue16Bound(txbuf[TXBUFIN..TXBUFIN + len]);
      if long {
        crc := tables.Block32(txbuf, TXBUFIN, len);
        crc := 0xffff_ffff - crc;
      } else {
        crc := tables.Block16(txbuf, TXBUFIN, len);
        crc := 0xffff - crc;
      }
    }

    static lemma SealedIs(o: Options, format: Byte, data: Bytes)
      ensures HydraCrc.Crc32(data) <= 0xffff_ffff && HydraCrc.Crc16(data) <= 0xffff
      ensures Sealed(o, format, data) == data +
        if LongCrc(o, format) then LittleEndian(0xffff_ffff - HydraCrc.Crc32(data), 4)
        else LittleEndian(0xffff - HydraCrc.Crc16(data), 2)
    {
      hide HydraCrc.Crc16, HydraCrc.Crc32, LittleEndian;
      Residue32Bound(data);
      Residue16Bound(data);
    }

    /** A CRC, lowest byte first. */
    method PutCrc(at: nat, crc: nat, long: bool)
      requires txbuf.Length == BUFLEN && at + 4 <= BUFLEN
      modifies txbuf
      ensures var k := if long then 4 else 2; txbuf[..at + k] == old(txbuf[..at]) + LittleEndian(crc, k)
    {
      hide LittleEndian;
      if long {
        LittleEndianFour(crc);
        PutRaw(at, [crc % 256, crc / 256 % 256, crc / 256 / 256 % 256, crc / 256 / 256 / 256 % 256]);
      } else {
        LittleEndianTwo(crc);
        PutRaw(at, [crc % 256, crc / 256 % 256]);
      }
    }

    static lemma LittleEndianTwo(x: nat)
      ensures LittleEndian(x, 2) == [x % 256, x / 256 % 256]
    {
      assert LittleEndian(x / 256 / 256, 0) == [];
      assert LittleEndian(x / 256, 1) == [x / 256 % 256];
    }

    static lemma LittleEndianFour(x: nat)
      ensures LittleEndian(x, 4) == [x % 256, x / 256 % 256, x / 256 / 256 % 256, x / 256 / 256 / 256 % 256]
    {
      LittleEndianTwo(x / 256 / 256);
      assert LittleEndian(x / 256, 3) == [x / 256 % 256] + LittleEndian(x / 256 / 256, 2);
    }

    static lemma Appended(b: Bytes, before: Bytes, at: nat, s: Bytes, t: Bytes)
      requires |before| == at + |s| && |before| + |t| <= |b|
      requires b[..|before| + |t|] == before + t && before[at..] == s
      ensures b[at..at + |s| + |t|] == s + t
    {
      assert b[at..at + |s| + |t|] == b[..|before| + |t|][at..];
    }

    /** The format switch of txpkt(). */
    method ChooseFormat(kind: Byte) returns (format: Byte)
      ensures format == Format(txoptions, kind)
    {
      if kind == 65 || kind == 66 || kind == 67 || kind == 75 || kind == 76 {
        format := HEXPKT;
      } else if HighBit in txoptions {
        if CtlChrs in txoptions && CanUue in txoptions {
          format := UUEPKT;
        } else if CanAsc in txoptions {
          format := ASCPKT;
        } else {
          format := HEXPKT;
        }
      } else {
        format := BINPKT;
      }
    }

    /** txpkt(): the body is in the transmit buffer at TXBUFIN; the first n bytes of the buffer
        are then what goes over the line. */
    method TxPkt(len: nat, kind: Byte) returns (n: nat)
      requires Valid() && len <= MAXPAYLOAD
      modifies txbuf, `txlastc
      ensures Valid() && n <= BUFLEN
      ensures txbuf[..n] == Encode(txoptions, kind, old(txbuf[TXBUFIN..TXBUFIN + len]))
    {
      hide Sealed, Encode, Transparent, Text;
      var format := ChooseFormat(kind);
      ghost var payload := txbuf[TXBUFIN..TXBUFIN + len];
      var all := Seal(len, kind, format);
      ghost var data := txbuf[TXBUFIN..TXBUFIN + all];
      txlastc := 0;
      ghost var before := txbuf[..];
      PutHeader(format);
      SliceKept(txbuf[..], before, 2, TXBUFIN, TXBUFIN + all);
      n := EncodeBody(format, all, data);
      n := PutEnd(n, kind, format);
      EncodeIs(txoptions, kind, payload);
    }

    method PutEnd(at: nat, kind: Byte, format: Byte) returns (n: nat)
      requires txbuf.Length == BUFLEN && at + 4 <= BUFLEN
      modifies txbuf
      ensures n <= BUFLEN && txbuf[..n] == old(txbuf[..at]) + [DLE, PKTEND] + Trailer(format, kind)
    {
      PutRaw(at, [DLE, PKTEND]);
      n := at + 2;
      if kind != KIND_DATA && format != BINPKT {
        PutRaw(n, [CR, LF]);
        n := n + 2;
      }
    }

    /** The start of a packet. */
    method PutHeader(format: Byte)
      requires txbuf.Length == BUFLEN
      modifies txbuf
      ensures txbuf[..2] == [DLE, format] && txbuf[2..] == old(txbuf[..])[2..]
    {
      txbuf[0] := DLE;
      txbuf[1] := format;
    }

    static lemma SliceKept(after: Bytes, before: Bytes, from: nat, p: nat, end: nat)
      requires |after| == |before| && from <= p <= end <= |after| && after[from..] == before[from..]
      ensures after[p..end] == before[p..end]
    {
      forall i | p <= i < end ensures after[i] == before[i] {
        assert after[i] == after[from..][i - from] && before[i] == before[from..][i - from];
      }
    }

    static lemma EncodeIs(o: Options, kind: Byte, payload: Bytes)
      ensures var f := Format(o, kind);
        Encode(o, kind, payload)
          == [DLE, f] + Transparent(o, f, Text(f, Sealed(o, f, payload + [kind]))) + [DLE, PKTEND] + Trailer(f, kind)
    {
    }

    method EncodeBody(format: Byte, len: nat, ghost data: Bytes) returns (n: nat)
      requires txbuf.Length == BUFLEN && txbuf[..2] == [DLE, format] && txlastc == 0
      requires IsFormat(format) && len <= MAXPAYLOAD + if format == HEXPKT then 3 else 5
      requires |data| == len && txbuf[TXBUFIN..TXBUFIN + len] == data
      modifies txbuf, `txlastc
      ensures n + 4 <= BUFLEN
      ensures txbuf[..n] == [DLE, format] + Transparent(txoptions, format, Text(format, data))
    {
      if format == HEXPKT {
        n := EncodeHex(len, [DLE, format], data);
      } else if format == BINPKT {
        n := EncodeBin(len, [DLE, format], data);
      } else if format == ASCPKT {
        n := EncodeAsc(len, [DLE, format], data);
      } else {
        n := EncodeUue(len, [DLE, format], data);
      }
    }

    // ----- receiving -------------------------------------------------------

    /** The decoded bytes lie at the start of the buffer; the rest of it is as it was. */
    static ghost predicate Overwrites(after: Bytes, before: Bytes, out: Bytes) {
      |out| <= |before| && after == out + before[|out|..]
    }

    /** *q++ = c, where q has not passed the reading pointer. */
    method WriteDecoded(q: nat, c: Byte, ghost before: Bytes)
      requires q < rxbuf.Length == |before| && Overwrites(rxbuf[..], before, rxbuf[..q])
      modifies rxbuf
      ensures rxbuf[..q + 1] == old(rxbuf[..q]) + [c] && Overwrites(rxbuf[..], before, rxbuf[..q + 1])
    {
      ghost var was := rxbuf[..];
      rxbuf[q] := c;
      assert rxbuf[q + 1..] == was[q + 1..] == was[q..][1..] == before[q..][1..] == before[q + 1..];
      assert rxbuf[..] == rxbuf[..q + 1] + rxbuf[q + 1..];
    }

    static lemma Unread(after: Bytes, before: Bytes, q: nat, p: nat)
      requires q <= p < |after| && Overwrites(after, before, after[..q])
      ensures |before| == |after| && after[p] == before[p]
    {
      assert after[p] == before[q..][p - q];
    }

    static lemma NothingDecoded(b: Bytes)
      ensures Overwrites(b, b, b[..0])
    {
    }

    static lemma Prepended(d: Decoded, s: Bytes, c: Byte, rest: Decoded)
      requires d == Prepend(s, Prepend([c], rest))
      ensures d == Prepend(s + [c], rest)
    {
      assert s + ([c] + rest.out) == s + [c] + rest.out;
    }

    /** What the reading pointer sees has not been overwritten. */
    static lemma UnreadFrom(after: Bytes, before: Bytes, q: nat, p: nat)
      requires q <= p <= |after| && Overwrites(after, before, after[..q])
      ensures |before| == |after| && after[p..] == before[p..]
    {
      assert after[q..] == before[q..];
      assert after[p..] == after[q..][p - q..];
      assert before[p..] == before[q..][p - q..];
    }

    /** One turn of the HEX loop of rxpkt(): where reading goes on, and the byte that was read
        unless there was a bad digit. */
    method HexTurn(from: nat, end: nat, ghost b: Bytes) returns (bad: bool, p: nat, c: Byte)
      requires from < end && end + 2 < rxbuf.Length == |b| && rxbuf[from..] == b[from..]
      ensures bad ==> HexRead(b, from, end) == Decoded(p <= end, [], p) && p <= end + 2
      ensures !bad ==> HexRead(b, from, end) == Prepend([c], HexRead(b, p, end)) && from < p <= end + 2
    {
      hide HexVal;
      assert rxbuf[from] == rxbuf[from..][0] && rxbuf[from + 1] == rxbuf[from..][1];
      assert rxbuf[from + 2] == rxbuf[from..][2];
      p, bad, c := from, false, rxbuf[from];
      if c == BACKSLASH {
        p := p + 1;
        if rxbuf[p] != BACKSLASH {
          var i, n := HexVal(rxbuf[p]), HexVal(rxbuf[p + 1]);
          p := p + 1;
          if i < 0 || n < 0 {
            bad := true;
            return;
          }
          HexValBound(rxbuf[p - 1]);
          HexValBound(rxbuf[p]);
          c := 16 * i + n;
        }
      }
      p := p + 1;
    }

    /** The HEX loop: p reads, q writes behind it. */
    method DecodeHex(end: nat) returns (p: nat, q: nat)
      requires rxbuf.Length == BUFLEN && end + 2 < BUFLEN
      modifies rxbuf
      ensures q <= BUFLEN && HexRead(old(rxbuf[..]), 0, end) == Decoded(p <= end, rxbuf[..q], p)
      ensures Overwrites(rxbuf[..], old(rxbuf[..]), rxbuf[..q])
    {
      hide Overwrites, HexRead, Prepend;
      ghost var b := rxbuf[..];
      p, q := 0, 0;
      NothingDecoded(b);
      PrependNothing(HexRead(b, 0, end), rxbuf[..0]);
      while p < end
        invariant q <= p <= end + 2
        invariant HexRead(b, 0, end) == Prepend(rxbuf[..q], HexRead(b, p, end))
        invariant Overwrites(rxbuf[..], b, rxbuf[..q])
        decreases BUFLEN - p
      {
        UnreadFrom(rxbuf[..], b, q, p);
        ghost var at := p;
        var bad, next, c := HexTurn(p, end, b);
        p := next;
        if bad {
          PrependLast(rxbuf[..q], p <= end, p);
          return;
        }
        Prepended(HexRead(b, 0, end), rxbuf[..q], c, HexRead(b, p, end));
        WriteDecoded(q, c, b);
        q := q + 1;
      }
      HexReadEnds(b, p, end);
      PrependLast(rxbuf[..q], p <= end, p);
    }

    static lemma HexReadEnds(b: Bytes, p: nat, end: nat)
      requires end <= p && end + 2 < |b|
      ensures HexRead(b, p, end) == Decoded(p <= end, [], p)
    {
    }

    static lemma PrependLast(s: Bytes, ok: bool, p: nat)
      ensures Prepend(s, Decoded(ok, [], p)) == Decoded(ok, s, p)
    {
    }

    static lemma PrependNothing(d: Decoded, s: Bytes)
      requires s == []
      ensures Prepend(s, d) == d
    {
    }

    static lemma HexValBound(c: Byte)
      ensures HexVal(c) < 16
    {
    }

    /** One turn of the ASC loop: the byte at p when n bits of value bits have been received. */
    method AscTurn(p: nat, at: nat, bits: nat, count: nat, ghost t: Bytes, ghost b: Bytes)
      returns (q: nat, i: nat, n: nat)
      requires at <= p < |t| <= rxbuf.Length == |b| && count < 8
      requires rxbuf[p] == t[p] && Overwrites(rxbuf[..], b, rxbuf[..at])
      modifies rxbuf
      ensures q <= p + 1 && n < 8 && 8 * q + n == 8 * at + count + 7 && Overwrites(rxbuf[..], b, rxbuf[..q])
      ensures rxbuf[..q] + Octets(i, n, t[p + 1..]) == old(rxbuf[..at]) + Octets(bits, count, t[p..])
    {
      hide Overwrites, Octets, Added;
      assert t[p] == t[p..][0] && t[p..][1..] == t[p + 1..];
      OctetsStep(bits, count, t[p..]);
      q, n := at, count + 7;
      i := Added(bits, count, rxbuf[p]);
      if n >= 8 {
        ghost var done, rest := rxbuf[..q], Octets(i / 256, n - 8, t[p + 1..]);
        assert done + ([i % 256] + rest) == done + [i % 256] + rest;
        WriteDecoded(q, i % 256, b);
        q := q + 1;
        i := i / 256;
        n := n - 8;
      }
    }

    /** The ASC loop, with n bits of value i received. */
    method DecodeAsc(end: nat) returns (q: nat)
      requires rxbuf.Length == BUFLEN && end <= BUFLEN
      modifies rxbuf
      ensures q <= BUFLEN && rxbuf[..q] == Octets(0, 0, old(rxbuf[..end]))
      ensures Overwrites(rxbuf[..], old(rxbuf[..]), rxbuf[..q])
    {
      hide Overwrites, Octets;
      ghost var b := rxbuf[..];
      ghost var t := rxbuf[..end];
      var i: nat, n: nat, p: nat := 0, 0, 0;
      q := 0;
      NothingDecoded(b);
      assert t[0..] == t;
      while p < end
        invariant p <= end && n < 8 && 8 * q + n == 7 * p
        invariant Octets(0, 0, t) == rxbuf[..q] + Octets(i, n, t[p..])
        invariant Overwrites(rxbuf[..], b, rxbuf[..q])
      {
        Unread(rxbuf[..], b, q, p);
        q, i, n := AscTurn(p, q, i, n, t, b);
        p := p + 1;
      }
      OctetsOfNothing(i, n);
      assert t[end..] == [];
    }

    /** A group of three decoded bytes. */
    method WriteThree(q: nat, x: Byte, y: Byte, z: Byte, ghost before: Bytes)
      requires q + 3 <= rxbuf.Length == |before| && Overwrites(rxbuf[..], before, rxbuf[..q])
      modifies rxbuf
      ensures rxbuf[..q + 3] == old(rxbuf[..q]) + [x, y, z] && Overwrites(rxbuf[..], before, rxbuf[..q + 3])
    {
      hide Overwrites;
      WriteDecoded(q, x, before);
      WriteDecoded(q + 1, y, before);
      WriteDecoded(q + 2, z, before);
    }

    /** The UUE loop; it stops at a group with a bad character. */
    method DecodeUueGroups(end: nat) returns (ok: bool, p: nat, q: nat)
      requires rxbuf.Length == BUFLEN && end <= BUFLEN
      modifies rxbuf
      ensures q <= p <= end && Overwrites(rxbuf[..], old(rxbuf[..]), rxbuf[..q])
      ensures UueRead(old(rxbuf[..]), 0, end) == Prepend(rxbuf[..q], UueRead(old(rxbuf[..]), p, end))
      ensures ok ==> end - p < 4
      ensures !ok ==> end - p >= 4 && (UueBad(rxbuf[p]) || UueBad(rxbuf[p + 1]) || UueBad(rxbuf[p + 2]))
    {
      hide Overwrites, UueBad, UueFirst, UueSecond, UueThird, UueRead, Prepend;
      ghost var b := rxbuf[..];
      ok, p, q := true, 0, 0;
      NothingDecoded(b);
      PrependNothing(UueRead(b, 0, end), rxbuf[..0]);
      while end - p >= 4
        invariant q <= p <= end
        invariant UueRead(b, 0, end) == Prepend(rxbuf[..q], UueRead(b, p, end))
        invariant Overwrites(rxbuf[..], b, rxbuf[..q])
      {
        UnreadFrom(rxbuf[..], b, q, p);
        if UueBad(rxbuf[p]) || UueBad(rxbuf[p + 1]) || UueBad(rxbuf[p + 2]) {
          ok := false;
          return;
        }
        UueReadGroup(rxbuf[..], b, p, end);
        var first, second, third :=
          UueFirst(rxbuf[p], rxbuf[p + 1]), UueSecond(rxbuf[p + 1], rxbuf[p + 2]), UueThird(rxbuf[p + 2], rxbuf[p + 3]);
        PrependThree(rxbuf[..q], [first, second, third], UueRead(b, p + 4, end));
        WriteThree(q, first, second, third, b);
        p, q := p + 4, q + 3;
      }
    }

    static lemma UueReadGroup(b': Bytes, b: Bytes, p: nat, end: nat)
      requires p + 4 <= end <= |b| == |b'| && b'[p..] == b[p..]
      requires !UueBad(b'[p]) && !UueBad(b'[p + 1]) && !UueBad(b'[p + 2])
      ensures UueRead(b, p, end) == Prepend(
        [UueFirst(b'[p], b'[p + 1]), UueSecond(b'[p + 1], b'[p + 2]), UueThird(b'[p + 2], b'[p + 3])],
        UueRead(b, p + 4, end))
    {
      hide UueBad, UueFirst, UueSecond, UueThird;
      FourSame(b', b, p);
    }

    static lemma FourSame(b': Bytes, b: Bytes, p: nat)
      requires p + 4 <= |b| == |b'| && b'[p..] == b[p..]
      ensures b'[p] == b[p] && b'[p + 1] == b[p + 1] && b'[p + 2] == b[p + 2] && b'[p + 3] == b[p + 3]
    {
      assert b'[p..][0] == b[p..][0] && b'[p..][1] == b[p..][1] && b'[p..][2] == b[p..][2] && b'[p..][3] == b[p..][3];
    }

    static lemma PrependThree(s: Bytes, t: Bytes, d: Decoded)
      ensures Prepend(s, Prepend(t, d)) == Prepend(s + t, d)
    {
      assert s + (t + d.out) == s + t + d.out;
    }

    /** The UUE loop and what follows it. */
    method DecodeUue(end: nat) returns (ok: bool, p: nat, q: nat)
      requires rxbuf.Length == BUFLEN && end <= BUFLEN
      modifies rxbuf
      ensures q <= BUFLEN && UueRead(old(rxbuf[..]), 0, end) == Decoded(ok, rxbuf[..q], p)
      ensures Overwrites(rxbuf[..], old(rxbuf[..]), rxbuf[..q])
    {
      hide Overwrites, UueBad, UueFirst, UueSecond, UueRead, Prepend;
      ghost var b := rxbuf[..];
      ok, p, q := DecodeUueGroups(end);
      UnreadFrom(rxbuf[..], b, q, p);
      UueReadRest(rxbuf[..], b, p, end);
      ghost var done := rxbuf[..q];
      if end - p >= 2 {
        if UueBad(rxbuf[p]) {
          ok := false;
        } else {
          var first := UueFirst(rxbuf[p], rxbuf[p + 1]);
          var three := end - p == 3;
          var second := if three then UueSecond(rxbuf[p + 1], rxbuf[p + 2]) else 0;
          WriteDecoded(q, first, b);
          q := q + 1;
          if three {
            WriteDecoded(q, second, b);
            q := q + 1;
          }
        }
      }
      PrependPlain(done, UueRead(b, p, end));
    }

    static lemma PrependPlain(s: Bytes, d: Decoded)
      ensures Prepend(s, d) == Decoded(d.ok, s + d.out, d.p)
    {
    }

    /** The end of the UUE text, seen in the partly overwritten buffer b'. */
    static lemma UueReadRest(b': Bytes, b: Bytes, p: nat, end: nat)
      requires p <= end <= |b| == |b'| && b'[p..] == b[p..]
      requires end - p >= 4 ==> UueBad(b'[p]) || UueBad(b'[p + 1]) || UueBad(b'[p + 2])
      ensures UueRead(b, p, end).p == p
      ensures UueRead(b, p, end).ok == (end - p < 4 && (end - p >= 2 ==> !UueBad(b'[p])))
      ensures end - p < 2 || UueBad(b'[p]) ==> UueRead(b, p, end).out == []
      ensures end - p >= 2 && !UueBad(b'[p]) && end - p != 3 ==> UueRead(b, p, end).out == [UueFirst(b'[p], b'[p + 1])]
      ensures end - p == 3 && !UueBad(b'[p]) ==>
        UueRead(b, p, end).out == [UueFirst(b'[p], b'[p + 1])] + [UueSecond(b'[p + 1], b'[p + 2])]
    {
      hide UueBad, UueFirst, UueSecond, UueThird;
      assert forall i :: p <= i < end ==> b'[i] == b'[p..][i - p] == b[p..][i - p] == b[i];
    }

    /** The format switch at the end of a packet. */
    method DecodeInPlace() returns (ok: bool, p: nat, q: nat)
      requires Valid() && 0 <= rxbufptr < BUFLEN - 2
      modifies rxbuf
      ensures q <= BUFLEN && DecodeBody(old(State())) == Decoded(ok, rxbuf[..q], p)
      ensures Overwrites(rxbuf[..], old(rxbuf[..]), rxbuf[..q])
    {
      hide Overwrites;
      p, ok := rxbufptr, true;
      if rxpktformat == HEXPKT {
        p, q := DecodeHex(rxbufptr);
        ok := p <= rxbufptr;
      } else if rxpktformat == ASCPKT {
        q := DecodeAsc(rxbufptr);
      } else if rxpktformat == UUEPKT {
        ok, p, q := DecodeUue(rxbufptr);
      } else {
        q := rxbufptr;
        ok := rxpktformat == BINPKT;
        AllUnread(rxbuf[..], q);
      }
    }

    static lemma AllUnread(b: Bytes, q: nat)
      requires q <= |b|
      ensures Overwrites(b, b, b[..q])
    {
    }

    /** The length and CRC tests on the first q bytes of the buffer. */
    method CheckInPlace(q: nat) returns (got: Got)
      requires Valid() && q <= BUFLEN
      ensures got == Check(rxoptions, rxpktformat, rxbuf[..q])
    {
      hide HydraCrc.Crc16, HydraCrc.Crc32;
      got := Nothing;
      assert rxbuf[0..0 + q] == rxbuf[..q];
      if rxpktformat != HEXPKT && Crc32 in rxoptions {
        if q >= 5 {
          var crc := tables.Block32(rxbuf, 0, q);
          if crc == 0xdebb_20e3 {
            got := Good(rxbuf[q - 5], rxbuf[..q - 5]);
            assert rxbuf[..q][..q - 5] == rxbuf[..q - 5];
          }
        }
      } else if q >= 3 {
        var crc := tables.Block16(rxbuf, 0, q);
        if crc == 0xf0b8 {
          got := Good(rxbuf[q - 3], rxbuf[..q - 3]);
          assert rxbuf[..q][..q - 3] == rxbuf[..q - 3];
        }
      }
    }

    /** HCHR_PKTEND has arrived after a DLE. */
    method EndPacket() returns (got: Got)
      requires Valid()
      modifies rxbuf, `rxbufptr
      ensures Valid() && PacketEnd(rxoptions, old(State())) == Fed(State(), got)
    {
      hide DecodeBody, Check;
      got := Nothing;
      if 0 <= rxbufptr < BUFLEN - 2 {
        DecodeFits(State());
        var ok, p, q := DecodeInPlace();
        if ok {
          got := CheckInPlace(q);
        }
        rxbufptr := if got.Good? then -1 else p;
      } else if rxbufptr < 0 && (rxpktformat == HEXPKT || rxpktformat == ASCPKT) {
        rxbufptr := 0;
      }
    }

    /** Append a byte to the open packet, or give the packet up when it is too long. */
    method StoreByte(c: Byte)
      requires Valid()
      modifies rxbuf, `rxbufptr
      ensures Valid() && State() == Store(old(State()), c)
    {
      if rxbufptr >= 0 {
        if rxbufptr < MAXPKTLEN {
          rxbuf[rxbufptr] := c;
          rxbufptr := rxbufptr + 1;
        } else {
          rxbufptr := -1;
        }
      }
    }

    /** One turn of the loop of rxpkt(). */
    method RxByte(raw: Byte) returns (got: Got)
      requires Valid()
      modifies rxbuf, `rxbufptr, `rxdle, `rxpktformat
      ensures Valid() && Receive(rxoptions, old(State()), raw) == Fed(State(), got)
    {
      hide PacketEnd, Store, Flip6, Special;
      var c := if HighBit in rxoptions then raw % 128 else raw;
      assert c == Seen(rxoptions, raw);
      var n := if HighCtl in rxoptions then c % 128 else c;
      assert n == Masked(rxoptions, c);
      got := Nothing;
      if n != DLE && Special(rxoptions, n) {
        return;
      }
      assert !Ignored(rxoptions, raw);
      if rxdle > 0 || c == DLE {
        if c == DLE {
          rxdle := rxdle + 1;
          if rxdle >= 5 {
            got := Cancel;
          }
        } else if c == PKTEND {
          got := EndPacket();
        } else if BINPKT <= c <= UUEPKT {
          rxpktformat, rxbufptr, rxdle := c, 0, 0;
        } else {
          StoreByte(Flip6(c));
          rxdle := 0;
        }
      } else {
        StoreByte(c);
      }
    }

    /** rxpkt() on the bytes that have arrived, when these are the given line. */
    method RxPkt(line: Bytes, around: Around) returns (result: PktType, used: nat)
      requires Valid()
      modifies rxbuf, `rxbufptr, `rxdle, `rxpktformat
      ensures Valid() && used <= |line|
      ensures around.keyabort || !around.carrier ==> used == 0 && State() == old(State())
      ensures State() == Left(rxoptions, old(State()), line[..used])
      ensures result == Outcome(Feed(rxoptions, old(State()), line[..used]).got, around)
      ensures var got := Feed(rxoptions, old(State()), line[..used]).got;
        if got == [] then around.keyabort || !around.carrier || used == |line| else |got| == 1 && !got[0].Nothing?
    {
      hide Feed;
      FeedNothing(rxoptions, State());
      assert line[..0] == [];
      used := 0;
      if around.keyabort {
        result := SysAbort;
      } else if !around.carrier {
        result := CarrierLost;
      } else {
        var entry := rxbufptr;
        var got: Got, saved: int;
        got, used, saved := RxBytes(line, entry);
        if got.Good? {
          result := Packet(got.kind, got.payload);
        } else if got.Cancel? {
          rxbufptr := saved;
          result := Cancelled;
        } else if around.braindead {
          result := BrainTime;
        } else if around.txtimer {
          result := TxTime;
        } else if around.devtimer {
          result := DevTxTime;
        } else {
          result := NoPkt;
        }
      }
    }

    /** The loop of rxpkt(): it ends at the first packet or cancel, after the given number of bytes;
        saved is what the static pointer has come to. */
    method RxBytes(line: Bytes, entry: int) returns (got: Got, used: nat, saved: int)
      requires Valid() && -1 <= entry <= BUFLEN
      modifies rxbuf, `rxbufptr, `rxdle, `rxpktformat
      ensures Valid() && used <= |line| && (got.Nothing? ==> used == |line|)
      ensures Feed(rxoptions, old(State()), line[..used]) == Progress(State(), if got.Nothing? then [] else [got])
      ensures saved == StaticAfter(rxoptions, old(State()), line[..used], entry)
    {
      hide Receive, Feed, StaticAfter, StaticPtr;
      got, used, saved := Nothing, 0, entry;
      assert line[..0] == [];
      StaticNothing(rxoptions, State(), entry);
      FeedNothing(rxoptions, State());
      while used < |line| && got.Nothing?
        invariant used <= |line| && Valid() && rxoptions == old(rxoptions)
        invariant Feed(rxoptions, old(State()), line[..used]) == Progress(State(), if got.Nothing? then [] else [got])
        invariant saved == StaticAfter(rxoptions, old(State()), line[..used], entry)
        decreases |line| - used
      {
        ghost var w := State();
        StaticLast(rxoptions, old(State()), line[..used], line[used], entry);
        saved := Saved(line[used], saved);
        got := RxByte(line[used]);
        FeedLast(rxoptions, old(State()), line[..used], line[used]);
        assert line[..used] + [line[used]] == line[..used + 1];
        used := used + 1;
      }
    }

    /** The static pointer before the byte is dealt with. */
    method Saved(raw: Byte, ptr: int) returns (p: int)
      requires Valid()
      ensures p == StaticPtr(rxoptions, State(), raw, ptr)
    {
      hide Special;
      var c := if HighBit in rxoptions then raw % 128 else raw;
      var n := if HighCtl in rxoptions then c % 128 else c;
      p := ptr;
      if n != DLE && Special(rxoptions, n) {
        return;
      }
      if rxdle > 0 || c == DLE {
        if c == PKTEND {
          p := -1;
        } else if BINPKT <= c <= UUEPKT {
          p := 0;
        }
      }
    }

    static lemma StaticNothing(o: Options, w: Wire, ptr: int)
      requires ValidWire(w)
      ensures StaticAfter(o, w, [], ptr) == ptr
    {
    }

    static lemma {:induction false} StaticLast(o: Options, w: Wire, s: Bytes, c: Byte, ptr: int)
      requires ValidWire(w)
      ensures StaticAfter(o, w, s + [c], ptr) == StaticPtr(o, Feed(o, w, s).w, c, StaticAfter(o, w, s, ptr))
      decreases |s|
    {
      hide Receive, StaticPtr;
      if s == [] {
        assert s + [c] == [c] && [c][1..] == [];
        StaticNothing(o, Receive(o, w, c).w, StaticPtr(o, w, c, ptr));
      } else {
        assert (s + [c])[1..] == s[1..] + [c];
        StaticLast(o, Receive(o, w, s[0]).w, s[1..], c, StaticPtr(o, w, s[0], ptr));
      }
    }

    static lemma {:induction false} FeedLast(o: Options, w: Wire, s: Bytes, c: Byte)
      requires ValidWire(w) && Feed(o, w, s).got == []
      ensures var f := Receive(o, Feed(o, w, s).w, c);
        Feed(o, w, s + [c]) == Progress(f.w, if f.got.Nothing? then [] else [f.got])
      decreases |s|
    {
      hide Receive;
      if s == [] {
        assert s + [c] == [c] && [c][1..] == [];
        FeedNothing(o, Receive(o, w, c).w);
      } else {
        assert (s + [c])[1..] == s[1..] + [c];
        FeedLast(o, Receive(o, w, s[0]).w, s[1..], c);
      }
    }
  }
}
