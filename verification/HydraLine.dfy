/** What txpkt() never puts on the line. */
module HydraLine {
  import opened Bits
  import opened HydraTypes
  import opened HydraWire
  import opened HydraBodies
  import opened HydraStream

  // ----- bytes that the line might swallow ---------------------------------

  /** A byte that the line leaves alone under these options. */
  predicate QuietByte(o: Options, c: Byte) {
    c == DLE || !Special(o, Masked(o, c))
  }

  predicate Quiet(o: Options, s: Bytes) {
    forall i :: 0 <= i < |s| ==> QuietByte(o, s[i])
  }

  lemma QuietConcat(o: Options, s: Bytes, t: Bytes)
    requires Quiet(o, s) && Quiet(o, t)
    ensures Quiet(o, s + t)
  {
    hide QuietByte;
  }

  lemma PutByteQuiet(o: Options, last: Byte, c: Byte)
    ensures Quiet(o, PutByte(o, last, c))
  {
    var n := Masked(o, c);
    if NeedsEscape(o, last, n) {
      if c < 128 {
        assert 63 <= Flip6(c) < 96;
      } else {
        assert 191 <= Flip6(c) < 224 && HighCtl in o;
      }
    }
  }

  lemma {:induction false} PutAllQuiet(o: Options, last: Byte, text: Bytes)
    ensures Quiet(o, PutAll(o, last, text))
    decreases |text|
  {
    hide PutByte, QuietByte, Quiet;
    if text == [] {
      QuietNothing(o);
    } else {
      PutByteQuiet(o, last, text[0]);
      PutAllQuiet(o, Masked(o, text[0]), text[1..]);
      QuietConcat(o, PutByte(o, last, text[0]), PutAll(o, Masked(o, text[0]), text[1..]));
    }
  }

  lemma QuietNothing(o: Options)
    ensures Quiet(o, [])
  {
  }

  lemma {:induction false} HexPutAllPrintable(text: Bytes)
    requires forall i :: 0 <= i < |text| ==> text[i] < 128
    ensures forall c :: c in HexPutAll(text) ==> c == DLE || 32 <= c < 127
  {
    if text != [] {
      HexPutAllPrintable(text[1..]);
      var c := text[0];
      assert c < 32 || c == 127 ==> 63 <= Flip6(c) < 96;
    }
  }

  lemma PrintableQuiet(o: Options, s: Bytes)
    requires forall c :: c in s ==> c == DLE || 32 <= c < 127
    ensures Quiet(o, s)
  {
    forall i | 0 <= i < |s| ensures QuietByte(o, s[i]) {
      assert s[i] in s;
    }
  }

  /** The packet up to and including its end mark. */
  function Proper(o: Options, kind: Byte, payload: Bytes): Bytes {
    var f := Format(o, kind);
    [DLE, f] + Transparent(o, f, Text(f, Sealed(o, f, payload + [kind]))) + [DLE, PKTEND]
  }

  lemma BodyQuiet(o: Options, f: Byte, text: Bytes)
    requires Sendable(o, f, text)
    ensures Quiet(o, Transparent(o, f, text))
  {
    if f == HEXPKT {
      HexPutAllPrintable(text);
      PrintableQuiet(o, HexPutAll(text));
    } else if f == UUEPKT {
      PrintableQuiet(o, text);
    } else {
      PutAllQuiet(o, 0, text);
    }
  }

  /** No packet contains a byte that its options say the line may swallow, except the DLEs; the
      carriage return and line feed after it are not part of it. */
  lemma EncoderIsQuiet(o: Options, kind: Byte, payload: Bytes)
    ensures Encode(o, kind, payload) == Proper(o, kind, payload) + Trailer(Format(o, kind), kind)
    ensures Quiet(o, Proper(o, kind, payload))
  {
    hide Quiet, Transparent, Text, Sealed, Sendable;
    var f := Format(o, kind);
    var text := Text(f, Sealed(o, f, payload + [kind]));
    TextSendable(o, kind, Sealed(o, f, payload + [kind]));
    BodyQuiet(o, f, text);
    PrintableQuiet(o, [DLE, f]);
    PrintableQuiet(o, [DLE, PKTEND]);
    QuietConcat(o, [DLE, f], Transparent(o, f, text));
    QuietConcat(o, [DLE, f] + Transparent(o, f, text), [DLE, PKTEND]);
  }

  /** With flow control negotiated, no XON or XOFF is ever sent as part of a packet, nor one
      with its high bit set if the line would take that for the same. */
  lemma NoFlowControl(o: Options, prefix: Bytes, packets: seq<Got>)
    requires Legal(packets) && XonXoff in o && Harmless(prefix)
    ensures forall c | c in EncodeAll(o, prefix, packets) :: Masked(o, c) !in {XON, XOFF}
    decreases |packets|
  {
    hide Encode;
    if packets != [] {
      NoFlowControl(o, prefix, packets[1..]);
      var p := packets[0];
      NoFlowControlInPacket(o, p.kind, p.payload);
      var head, tail := Encode(o, p.kind, p.payload), EncodeAll(o, prefix, packets[1..]);
      forall c | c in prefix + head + tail ensures Masked(o, c) !in {XON, XOFF} {
        assert c in prefix || c in head || c in tail;
      }
    }
  }

  lemma NoFlowControlInPacket(o: Options, kind: Byte, payload: Bytes)
    requires XonXoff in o
    ensures forall c | c in Encode(o, kind, payload) :: Masked(o, c) !in {XON, XOFF}
  {
    hide Proper, Encode;
    EncoderIsQuiet(o, kind, payload);
    var s, t := Proper(o, kind, payload), Trailer(Format(o, kind), kind);
    forall i | 0 <= i < |s + t| ensures Masked(o, (s + t)[i]) !in {XON, XOFF} {
      if i < |s| {
        assert QuietByte(o, s[i]);
      }
    }
  }

  // ----- the Telenet escape ------------------------------------------------

  /** No carriage return follows an '@'; last is the byte before s. */
  predicate NoEscape(o: Options, last: Byte, s: Bytes)
    decreases |s|
  {
    s == [] || (!(last == AT && Masked(o, s[0]) == CR) && NoEscape(o, Masked(o, s[0]), s[1..]))
  }

  function Last(o: Options, last: Byte, s: Bytes): Byte {
    if s == [] then last else Masked(o, s[|s| - 1])
  }

  lemma {:induction false} NoEscapeConcat(o: Options, last: Byte, s: Bytes, t: Bytes)
    requires NoEscape(o, last, s) && NoEscape(o, Last(o, last, s), t)
    ensures NoEscape(o, last, s + t)
    decreases |s|
  {
    if s == [] {
      assert s + t == t;
    } else {
      assert (s + t)[1..] == s[1..] + t;
      NoEscapeConcat(o, Masked(o, s[0]), s[1..], t);
    }
  }

  lemma {:induction false} NoEscapeWithoutCR(o: Options, last: Byte, s: Bytes)
    requires forall i :: 0 <= i < |s| ==> Masked(o, s[i]) != CR
    ensures NoEscape(o, last, s)
    decreases |s|
  {
    if s != [] {
      NoEscapeWithoutCR(o, Masked(o, s[0]), s[1..]);
    }
  }

  lemma PutByteNoEscape(o: Options, line: Byte, last: Byte, c: Byte)
    requires Telenet in o && CtlChrs !in o && (line == AT ==> last == AT)
    ensures NoEscape(o, line, PutByte(o, last, c))
    ensures Last(o, line, PutByte(o, last, c)) == AT ==> Masked(o, c) == AT
  {
    var n := Masked(o, c);
    if NeedsEscape(o, last, n) {
      assert n in {DLE, XON, XOFF, CR};
      assert Masked(o, Flip6(c)) == n + 64;
      assert [DLE, Flip6(c)][1..] == [Flip6(c)] && [Flip6(c)][1..] == [];
    } else {
      assert [c][1..] == [];
    }
  }

  lemma {:induction false} PutAllNoEscape(o: Options, line: Byte, last: Byte, text: Bytes)
    requires Telenet in o && CtlChrs !in o && (line == AT ==> last == AT)
    ensures NoEscape(o, line, PutAll(o, last, text))
    decreases |text|
  {
    hide PutByte;
    if text != [] {
      var head := PutByte(o, last, text[0]);
      PutByteNoEscape(o, line, last, text[0]);
      PutAllNoEscape(o, Last(o, line, head), Masked(o, text[0]), text[1..]);
      NoEscapeConcat(o, line, head, PutAll(o, Masked(o, text[0]), text[1..]));
    }
  }

  lemma BodyNoEscape(o: Options, f: Byte, text: Bytes)
    requires Telenet in o && IsFormat(f) && Sendable(o, f, text)
    ensures NoEscape(o, Masked(o, f), Transparent(o, f, text))
  {
    var s := Transparent(o, f, text);
    if CtlChrs in o {
      BodyQuiet(o, f, text);
      forall i | 0 <= i < |s| ensures Masked(o, s[i]) != CR {
        assert QuietByte(o, s[i]);
      }
      NoEscapeWithoutCR(o, Masked(o, f), s);
    } else if f == HEXPKT || f == UUEPKT {
      PrintableBody(o, f, text);
      forall i | 0 <= i < |s| ensures Masked(o, s[i]) != CR {
        assert s[i] in s;
      }
      NoEscapeWithoutCR(o, Masked(o, f), s);
    } else {
      PutAllNoEscape(o, Masked(o, f), 0, text);
    }
  }

  lemma PrintableBody(o: Options, f: Byte, text: Bytes)
    requires (f == HEXPKT || f == UUEPKT) && Sendable(o, f, text)
    ensures forall c :: c in Transparent(o, f, text) ==> c == DLE || 32 <= c < 127
  {
    if f == HEXPKT {
      HexPutAllPrintable(text);
    }
  }

  lemma PacketNoEscape(o: Options, last: Byte, kind: Byte, payload: Bytes)
    requires Telenet in o
    ensures NoEscape(o, last, Encode(o, kind, payload))
  {
    hide Transparent, Text, Sealed, Sendable, NoEscape;
    var f := Format(o, kind);
    var text := Text(f, Sealed(o, f, payload + [kind]));
    var body := Transparent(o, f, text);
    TextSendable(o, kind, Sealed(o, f, payload + [kind]));
    BodyNoEscape(o, f, text);
    NoEscapeWithoutCR(o, last, [DLE, f]);
    NoEscapeConcat(o, last, [DLE, f], body);
    var a := [DLE, f] + body;
    NoEscapeWithoutCR(o, Last(o, last, a), [DLE, PKTEND]);
    NoEscapeConcat(o, last, a, [DLE, PKTEND]);
    TrailerNoEscape(o, f, kind);
    assert Last(o, last, a + [DLE, PKTEND]) == PKTEND;
    NoEscapeConcat(o, last, a + [DLE, PKTEND], Trailer(f, kind));
  }

  lemma TrailerNoEscape(o: Options, f: Byte, kind: Byte)
    ensures NoEscape(o, PKTEND, Trailer(f, kind))
  {
    if Trailer(f, kind) == [CR, LF] {
      assert [CR, LF][1..] == [LF] && [LF][1..] == [];
    }
  }

  lemma {:induction false} NoEscapeAt(o: Options, last: Byte, s: Bytes, i: nat)
    requires NoEscape(o, last, s) && i + 1 < |s| && Masked(o, s[i]) == AT
    ensures Masked(o, s[i + 1]) != CR
    decreases |s|
  {
    if i > 0 {
      NoEscapeAt(o, Masked(o, s[0]), s[1..], i - 1);
    }
  }

  /** With the Telenet option, no carriage return ever directly follows an '@' on the line. */
  lemma NoTelenetEscape(o: Options, prefix: Bytes, packets: seq<Got>, i: nat)
    requires Legal(packets) && Telenet in o && Harmless(prefix)
    requires var line := EncodeAll(o, prefix, packets); i + 1 < |line| && Masked(o, line[i]) == AT
    ensures Masked(o, EncodeAll(o, prefix, packets)[i + 1]) != CR
  {
    StreamNoEscape(o, 0, prefix, packets);
    NoEscapeAt(o, 0, EncodeAll(o, prefix, packets), i);
  }

  lemma {:induction false} StreamNoEscape(o: Options, last: Byte, prefix: Bytes, packets: seq<Got>)
    requires Legal(packets) && Telenet in o && Harmless(prefix)
    ensures NoEscape(o, last, EncodeAll(o, prefix, packets))
    decreases |packets|
  {
    hide Encode;
    if packets != [] {
      var p := packets[0];
      forall i | 0 <= i < |prefix| ensures Masked(o, prefix[i]) != CR {
        assert prefix[i] in prefix;
      }
      NoEscapeWithoutCR(o, last, prefix);
      PacketNoEscape(o, Last(o, last, prefix), p.kind, p.payload);
      var first := Encode(o, p.kind, p.payload);
      NoEscapeConcat(o, last, prefix, first);
      StreamNoEscape(o, Last(o, last, prefix + first), prefix, packets[1..]);
      NoEscapeConcat(o, last, prefix + first, EncodeAll(o, prefix, packets[1..]));
    }
  }
}
