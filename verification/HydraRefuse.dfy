/** What rxpkt() refuses: the end of a packet yields a packet if and only if the decoded body is its
    payload and type followed by their complemented CRC, so a body that was damaged within the
    width of the CRC yields nothing. */
module HydraRefuse {
  import opened Bits
  import opened HydraTypes
  import HydraCrc
  import opened HydraResidue
  import opened HydraWire
  import opened HydraBodies
  import opened HydraStream
  import opened HydraPort

  // ----- the converse of the residues --------------------------------------

  /** Only the complemented CRC-16 behind a message leaves the register that the test looks for. */
  lemma Only16(s: Bytes, tail: Bytes)
    requires |tail| == 2 && HydraCrc.Crc16(s + tail) == 0xf0b8
    ensures HydraCrc.Crc16(s) <= 0xffff && tail == HydraCrc.LittleEndian(0xffff - HydraCrc.Crc16(s), 2)
  {
    hide HydraCrc.Crc16, HydraCrc.Crc32, HydraCrc.LittleEndian;
    Residue16(s);
    var good := HydraCrc.LittleEndian(0xffff - HydraCrc.Crc16(s), 2);
    assert |good| == 2 by { EndianLength(0xffff - HydraCrc.Crc16(s), 2); }
    assert s + tail + [] == s + tail && s + good + [] == s + good;
    if tail != good {
      HydraCrc.HydraDetectsBursts(s, tail, good, []);
    }
  }

  lemma Only32(s: Bytes, tail: Bytes)
    requires |tail| == 4 && HydraCrc.Crc32(s + tail) == 0xdebb_20e3
    ensures HydraCrc.Crc32(s) <= 0xffff_ffff && tail == HydraCrc.LittleEndian(0xffff_ffff - HydraCrc.Crc32(s), 4)
  {
    hide HydraCrc.Crc16, HydraCrc.Crc32, HydraCrc.LittleEndian;
    Residue32(s);
    var good := HydraCrc.LittleEndian(0xffff_ffff - HydraCrc.Crc32(s), 4);
    assert |good| == 4 by { EndianLength(0xffff_ffff - HydraCrc.Crc32(s), 4); }
    assert s + tail + [] == s + tail && s + good + [] == s + good;
    if tail != good {
      HydraCrc.HydraDetectsBursts(s, tail, good, []);
    }
  }

  lemma {:induction false} EndianLength(x: nat, n: nat)
    ensures |HydraCrc.LittleEndian(x, n)| == n
    decreases n
  {
    if n > 0 {
      EndianLength(x / 256, n - 1);
    }
  }

  // ----- the end of a packet -----------------------------------------------

  /** The body is payload and type, and the complemented CRC of both, low byte first: 32 bits wide
      if the options allow it and the packet is not a HEX packet, 16 otherwise. */
  predicate Intact(o: Options, f: Byte, body: Bytes, kind: Byte, payload: Bytes) {
    var data := payload + [kind];
    if f != HEXPKT && Crc32 in o then
      HydraCrc.Crc32(data) <= 0xffff_ffff && body == data + HydraCrc.LittleEndian(0xffff_ffff - HydraCrc.Crc32(data), 4)
    else
      HydraCrc.Crc16(data) <= 0xffff && body == data + HydraCrc.LittleEndian(0xffff - HydraCrc.Crc16(data), 2)
  }

  lemma CheckExactly(o: Options, f: Byte, body: Bytes, kind: Byte, payload: Bytes)
    ensures Check(o, f, body) == Good(kind, payload) <==> Intact(o, f, body, kind, payload)
    ensures Check(o, f, body) != Cancel
  {
    hide HydraCrc.Crc16, HydraCrc.Crc32, HydraCrc.LittleEndian;
    var n := if f != HEXPKT && Crc32 in o then 4 else 2;
    var data := payload + [kind];
    if Check(o, f, body) == Good(kind, payload) {
      assert body == data + body[|body| - n..];
      if n == 4 {
        Only32(data, body[|body| - n..]);
      } else {
        Only16(data, body[|body| - n..]);
      }
    }
    if Intact(o, f, body, kind, payload) {
      IntactLength(o, f, body, kind, payload);
      assert body[|body| - n - 1] == kind && body[..|body| - n - 1] == payload;
      Residue16(data);
      Residue32(data);
    }
  }

  lemma IntactLength(o: Options, f: Byte, body: Bytes, kind: Byte, payload: Bytes)
    requires Intact(o, f, body, kind, payload)
    ensures |body| == |payload| + 1 + if f != HEXPKT && Crc32 in o then 4 else 2
  {
    hide HydraCrc.Crc16, HydraCrc.Crc32, HydraCrc.LittleEndian;
    var data := payload + [kind];
    if f != HEXPKT && Crc32 in o {
      EndianLength(0xffff_ffff - HydraCrc.Crc32(data), 4);
    } else {
      EndianLength(0xffff - HydraCrc.Crc16(data), 2);
    }
  }

  /** The end of a packet, in every state in which one is open: a packet comes out if and only if the
      decoder accepts the text and the decoded body is intact; otherwise nothing does. */
  lemma EndExactly(o: Options, w: Wire, kind: Byte, payload: Bytes)
    requires ValidWire(w) && w.dle > 0 && 0 <= w.ptr < BUFLEN - 2
    ensures var d := DecodeBody(w); var got := Feed(o, w, [PKTEND]).got;
      && (got == [Good(kind, payload)] <==> d.ok && Intact(o, w.fmt, d.out, kind, payload))
      && (got == [] || (|got| == 1 && got[0].Good?))
  {
    hide DecodeBody, Check, Intact;
    assert Seen(o, PKTEND) == PKTEND && !Ignored(o, PKTEND);
    assert [PKTEND][1..] == [];
    var f := Receive(o, w, PKTEND);
    assert f == PacketEnd(o, w);
    FeedNothing(o, f.w);
    assert Feed(o, w, [PKTEND]).got == if f.got.Nothing? then [] else [f.got];
    CheckExactly(o, w.fmt, DecodeBody(w).out, kind, payload);
  }

  // ----- a whole packet ----------------------------------------------------

  /** What is on the line when the given body is sent as a packet of the format. */
  function Carried(o: Options, f: Byte, kind: Byte, body: Bytes): Bytes {
    [DLE, f] + Transparent(o, f, Text(f, body)) + [DLE, PKTEND] + Trailer(f, kind)
  }

  lemma AnyTrailerPasses(o: Options, w: Wire, f: Byte, kind: Byte)
    requires ValidWire(w) && w.dle == 1
    ensures Feed(o, w, Trailer(f, kind)).got == []
  {
    hide Receive;
    if Trailer(f, kind) == [CR, LF] {
      ControlByte(o, w, CR);
      ControlByte(o, Receive(o, w, CR).w, LF);
      FeedTwo(o, w, CR, LF);
    } else {
      FeedNothing(o, w);
    }
  }

  lemma ControlByte(o: Options, w: Wire, c: Byte)
    requires ValidWire(w) && w.dle <= 1 && (c == CR || c == LF)
    ensures var f := Receive(o, w, c); f.got == Nothing && f.w.dle <= 1
  {
    hide Special, Flip6;
    assert Seen(o, c) == c;
  }

  lemma AnyBodyStops(rxo: Options, w: Wire, f: Byte, body: Bytes, kind: Byte, payload: Bytes)
    requires IsFormat(f) && Holding(w, f, Text(f, body))
    ensures var r := Feed(rxo, w, [DLE, PKTEND]);
      && r.w.dle == 1 && (r.got == [Good(kind, payload)] <==> Intact(rxo, f, body, kind, payload))
      && (r.got == [] || (|r.got| == 1 && r.got[0].Good?))
  {
    hide Text, Check, DecodeBody, Intact, Feed;
    DleSeen(rxo);
    assert Seen(rxo, PKTEND) == PKTEND && !Ignored(rxo, PKTEND);
    var x := w.(dle := 1);
    assert Receive(rxo, w, DLE) == Fed(x, Nothing);
    BodyRoundTrip(x, body);
    EndExactly(rxo, x, kind, payload);
    FeedOne(rxo, w, DLE, [PKTEND]);
    assert [DLE] + [PKTEND] == [DLE, PKTEND];
    EndsAtOne(rxo, x);
  }

  lemma FeedOne(o: Options, w: Wire, c: Byte, s: Bytes)
    requires ValidWire(w) && Receive(o, w, c).got.Nothing?
    ensures Feed(o, w, [c] + s) == Feed(o, Receive(o, w, c).w, s)
  {
    hide Receive;
    assert ([c] + s)[1..] == s;
  }

  lemma EndsAtOne(o: Options, w: Wire)
    requires ValidWire(w) && w.dle == 1
    ensures Feed(o, w, [PKTEND]).w.dle == 1
  {
    hide DecodeBody, Check;
    assert Seen(o, PKTEND) == PKTEND && !Ignored(o, PKTEND);
    assert [PKTEND][1..] == [];
  }

  /** Whatever body is carried, by any sender of the format: the receiver returns exactly the packet
      that the body is intact for, or nothing. */
  lemma BodyDecides(rxo: Options, txo: Options, w: Wire, kind: Byte, body: Bytes, kind': Byte, payload: Bytes)
    requires ValidWire(w) && w.dle <= 3
    requires var f := Format(txo, kind); Understands(rxo, txo, f) && |Text(f, body)| <= MAXPKTLEN
    ensures var f := Format(txo, kind); var got := Feed(rxo, w, Carried(txo, f, kind, body)).got;
      && (got == [Good(kind', payload)] <==> Intact(rxo, f, body, kind', payload))
      && (got == [] || (|got| == 1 && got[0].Good?))
  {
    hide Feed, Text, Transparent, Trailer, Holding, Sendable, Intact;
    var f := Format(txo, kind);
    var text := Text(f, body);
    var line := Transparent(txo, f, text);
    PacketStart(rxo, w, f);
    var a := Feed(rxo, w, [DLE, f]);
    TextSendable(txo, kind, body);
    BodyArrives(rxo, txo, a.w, f, text);
    var b := Feed(rxo, a.w, line);
    AnyBodyStops(rxo, b.w, f, body, kind', payload);
    AnyTrailerPasses(rxo, Feed(rxo, b.w, [DLE, PKTEND]).w, f, kind);
    FeedConcat(rxo, w, [DLE, f], line);
    FeedConcat(rxo, w, [DLE, f] + line, [DLE, PKTEND]);
    FeedConcat(rxo, w, [DLE, f] + line + [DLE, PKTEND], Trailer(f, kind));
  }

  /** A body that was sealed, and then changed only within the width of its CRC. */
  predicate Damaged(o: Options, f: Byte, good: Bytes, before: Bytes, x: Bytes, y: Bytes, after: Bytes) {
    && good == before + x + after && |x| == |y| && x != y
    && |x| <= if f != HEXPKT && Crc32 in o then 4 else 2
  }

  lemma DamagedIsNotIntact(o: Options, f: Byte, kind: Byte, payload: Bytes,
                           before: Bytes, x: Bytes, y: Bytes, after: Bytes, kind': Byte, payload': Bytes)
    requires Damaged(o, f, Sealed(o, f, payload + [kind]), before, x, y, after)
    ensures !Intact(o, f, before + y + after, kind', payload')
  {
    hide HydraCrc.Crc16, HydraCrc.Crc32, HydraCrc.LittleEndian;
    if Intact(o, f, before + y + after, kind', payload') {
      Residue16(payload + [kind]);
      Residue32(payload + [kind]);
      Residue16(payload' + [kind']);
      Residue32(payload' + [kind']);
      HydraCrc.HydraDetectsBursts(before, x, y, after);
    }
  }

  /** A packet of which two adjacent bytes of the body, or four if it has a CRC-32, were changed on the
      way yields no packet, and no cancel, in any state of the receiver. */
  lemma DamagedIsRefused(rxo: Options, txo: Options, w: Wire, kind: Byte, payload: Bytes,
                         before: Bytes, x: Bytes, y: Bytes, after: Bytes)
    requires ValidWire(w) && w.dle <= 3
    requires var f := Format(txo, kind);
      && Understands(rxo, txo, f) && |Text(f, before + y + after)| <= MAXPKTLEN
      && Damaged(txo, f, Sealed(txo, f, payload + [kind]), before, x, y, after)
    ensures Feed(rxo, w, Carried(txo, Format(txo, kind), kind, before + y + after)).got == []
  {
    hide Feed, Text, Carried, Intact, Sealed;
    var f, body := Format(txo, kind), before + y + after;
    var got := Feed(rxo, w, Carried(txo, f, kind, body)).got;
    BodyDecides(rxo, txo, w, kind, body, kind, payload);
    if got != [] {
      BodyDecides(rxo, txo, w, kind, body, got[0].kind, got[0].payload);
      assert got == [Good(got[0].kind, got[0].payload)];
      DamagedIsNotIntact(txo, f, kind, payload, before, x, y, after, got[0].kind, got[0].payload);
      SameWidth(rxo, txo, f, body, got[0].kind, got[0].payload);
    }
  }

  lemma SameWidth(rxo: Options, txo: Options, f: Byte, body: Bytes, kind: Byte, payload: Bytes)
    requires Understands(rxo, txo, f)
    ensures Intact(rxo, f, body, kind, payload) <==> Intact(txo, f, body, kind, payload)
  {
    hide HydraCrc.Crc16, HydraCrc.Crc32, HydraCrc.LittleEndian;
  }

  // ----- the code ----------------------------------------------------------

  lemma NothingBefore(o: Options, w: Wire, line: Bytes, used: nat)
    requires ValidWire(w) && used <= |line| && Feed(o, w, line).got == []
    ensures Feed(o, w, line[..used]).got == []
  {
    hide Feed;
    assert line == line[..used] + line[used..];
    FeedConcat(o, w, line[..used], line[used..]);
  }

  /** rxpkt() on such a line returns no packet. */
  method RefuseDamaged(b: Port, around: Around, ghost txo: Options, kind: Byte, ghost payload: Bytes,
                       ghost before: Bytes, ghost x: Bytes, ghost y: Bytes, ghost after: Bytes, line: Bytes)
    returns (result: PktType)
    requires b.Valid() && b.rxdle <= 3
    requires var f := Format(txo, kind);
      && Understands(b.rxoptions, txo, f) && |Text(f, before + y + after)| <= MAXPKTLEN
      && Damaged(txo, f, Sealed(txo, f, payload + [kind]), before, x, y, after)
      && line == Carried(txo, f, kind, before + y + after)
    modifies b.rxbuf, b`rxbufptr, b`rxdle, b`rxpktformat
    ensures !result.Packet? && !result.Cancelled?
  {
    hide Feed, Sealed, Carried, Text, Left;
    DamagedIsRefused(b.rxoptions, txo, b.State(), kind, payload, before, x, y, after);
    ghost var w := b.State();
    var used: nat;
    result, used := b.RxPkt(line, around);
    NothingBefore(b.rxoptions, w, line, used);
  }
}
