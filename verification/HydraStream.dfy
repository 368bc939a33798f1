/** Packets sent one after the other arrive as they were, whatever the options, and whatever
    the line inserts of the bytes that the options tell it to be careful with. */
module HydraStream {
  import opened Bits
  import opened HydraTypes
  import opened HydraCrc
  import opened HydraResidue
  import opened HydraWire
  import opened HydraBodies

  lemma {:induction false} FeedConcat(o: Options, w: Wire, s: Bytes, t: Bytes)
    requires ValidWire(w)
    ensures var a := Feed(o, w, s); var b := Feed(o, a.w, t); Feed(o, w, s + t) == Progress(b.w, a.got + b.got)
    decreases |s|
  {
    hide Receive;
    if s == [] {
      assert s + t == t;
    } else {
      assert (s + t)[1..] == s[1..] + t;
      FeedConcat(o, Receive(o, w, s[0]).w, s[1..], t);
    }
  }

  // ----- one byte of a packet body -----------------------------------------

  /** A packet of format f is open and its text so far is stored. */
  predicate Holding(w: Wire, f: Byte, text: Bytes) {
    ValidWire(w) && w.dle == 0 && w.fmt == f && w.ptr == |text| <= MAXPKTLEN && w.buf[..|text|] == text
  }

  /** The byte is stored as it is. */
  predicate PassesPlain(o: Options, c: Byte) {
    c != DLE && !Ignored(o, c) && Seen(o, c) == c
  }

  /** The byte after a DLE is stored as c. */
  predicate PassesEscaped(o: Options, c: Byte) {
    var e := Flip6(c);
    e != DLE && !(PKTEND <= e <= UUEPKT) && !Ignored(o, e) && Seen(o, e) == e
  }

  predicate Passes(o: Options, s: Bytes, c: Byte) {
    (s == [c] && PassesPlain(o, c)) || (s == [DLE, Flip6(c)] && PassesEscaped(o, c))
  }

  lemma FlipTwice(c: Byte)
    ensures Flip6(Flip6(c)) == c
  {
  }

  lemma PlainByte(o: Options, w: Wire, f: Byte, text: Bytes, c: Byte)
    requires Holding(w, f, text) && |text| < MAXPKTLEN && PassesPlain(o, c)
    ensures Feed(o, w, [c]).got == [] && Holding(Feed(o, w, [c]).w, f, text + [c])
  {
    var x := Receive(o, w, c);
    assert Feed(o, x.w, []) == Progress(x.w, []);
    assert Feed(o, w, [c]).w == x.w;
  }

  lemma DleSeen(o: Options)
    ensures Seen(o, DLE) == DLE && !Ignored(o, DLE)
  {
  }

  lemma EscapedByte(o: Options, w: Wire, f: Byte, text: Bytes, c: Byte)
    requires Holding(w, f, text) && |text| < MAXPKTLEN && PassesEscaped(o, c)
    ensures Feed(o, w, [DLE, Flip6(c)]).got == [] && Holding(Feed(o, w, [DLE, Flip6(c)]).w, f, text + [c])
  {
    hide Seen, Ignored, Flip6;
    DleSeen(o);
    FlipTwice(c);
    var x := Receive(o, w, DLE);
    var y := Receive(o, x.w, Flip6(c));
    FeedTwo(o, w, DLE, Flip6(c));
  }

  lemma FeedTwo(o: Options, w: Wire, c: Byte, d: Byte)
    requires ValidWire(w)
    ensures var x := Receive(o, w, c); var y := Receive(o, x.w, d);
      && Feed(o, w, [c, d]).w == y.w
      && (x.got.Nothing? && y.got.Nothing? ==> Feed(o, w, [c, d]).got == [])
      && (x.got.Nothing? && !y.got.Nothing? ==> Feed(o, w, [c, d]).got == [y.got])
  {
    hide Receive;
    var x := Receive(o, w, c);
    var y := Receive(o, x.w, d);
    assert [c, d][1..] == [d] && [d][1..] == [];
    assert Feed(o, y.w, []) == Progress(y.w, []);
    assert Feed(o, x.w, [d]).w == y.w;
  }

  lemma PassedByte(o: Options, w: Wire, f: Byte, text: Bytes, s: Bytes, c: Byte)
    requires Holding(w, f, text) && |text| < MAXPKTLEN && Passes(o, s, c)
    ensures Feed(o, w, s).got == [] && Holding(Feed(o, w, s).w, f, text + [c])
  {
    if s == [c] && PassesPlain(o, c) {
      PlainByte(o, w, f, text, c);
    } else {
      EscapedByte(o, w, f, text, c);
    }
  }

  // ----- transparency ------------------------------------------------------

  lemma PutBytePasses(o: Options, last: Byte, c: Byte)
    requires HighBit in o ==> c < 128
    ensures Passes(o, PutByte(o, last, c), c)
  {
    if NeedsEscape(o, last, Masked(o, c)) {
      EscapedIsOrdinary(o, last, c);
    } else {
      assert HighBit in o ==> c % 128 == c;
    }
  }

  lemma FlipRange(c: Byte)
    ensures c < 32 || c == 127 ==> 63 <= Flip6(c) < 96
    ensures 128 <= c < 160 || c == 255 ==> 191 <= Flip6(c) < 224
  {
  }

  /** What follows a DLE is a letter, a punctuation character, or such a character with its
      high bit set. */
  lemma EscapedIsOrdinary(o: Options, last: Byte, c: Byte)
    requires NeedsEscape(o, last, Masked(o, c)) && (HighBit in o ==> c < 128)
    ensures PassesEscaped(o, c)
  {
    hide Flip6;
    FlipRange(c);
    var n := Masked(o, c);
    assert n < 32 || n == 127;
    assert c >= 128 ==> HighCtl in o;
  }

  lemma HexPutPasses(o: Options, c: Byte)
    requires c < 128
    ensures Passes(o, HexPut(c), c)
  {
    if c < 32 || c == 127 {
      assert 63 <= Flip6(c) < 96;
    }
  }

  lemma UueCharPasses(o: Options, c: Byte)
    requires 33 <= c <= 96
    ensures Passes(o, [c], c)
  {
  }

  predicate Sendable(o: Options, f: Byte, text: Bytes) {
    if f == HEXPKT then forall i :: 0 <= i < |text| ==> text[i] < 128
    else if f == UUEPKT then forall i :: 0 <= i < |text| ==> 33 <= text[i] <= 96
    else HighBit in o ==> forall i :: 0 <= i < |text| ==> text[i] < 128
  }

  lemma AddByte(done: Bytes, text: Bytes)
    requires text != []
    ensures done + [text[0]] + text[1..] == done + text
  {
    assert text == [text[0]] + text[1..];
  }

  lemma {:induction false} PutAllArrives(o: Options, w: Wire, f: Byte, done: Bytes, last: Byte, text: Bytes)
    requires Holding(w, f, done) && |done| + |text| <= MAXPKTLEN
    requires HighBit in o ==> forall i :: 0 <= i < |text| ==> text[i] < 128
    ensures var r := Feed(o, w, PutAll(o, last, text)); r.got == [] && Holding(r.w, f, done + text)
    decreases |text|
  {
    hide Receive, Passes, PutByte;
    if text == [] {
      assert done + text == done;
    } else {
      var head := PutByte(o, last, text[0]);
      PutBytePasses(o, last, text[0]);
      PassedByte(o, w, f, done, head, text[0]);
      PutAllArrives(o, Feed(o, w, head).w, f, done + [text[0]], Masked(o, text[0]), text[1..]);
      FeedConcat(o, w, head, PutAll(o, Masked(o, text[0]), text[1..]));
      AddByte(done, text);
    }
  }

  lemma {:induction false} HexPutAllArrives(o: Options, w: Wire, f: Byte, done: Bytes, text: Bytes)
    requires Holding(w, f, done) && |done| + |text| <= MAXPKTLEN
    requires forall i :: 0 <= i < |text| ==> text[i] < 128
    ensures var r := Feed(o, w, HexPutAll(text)); r.got == [] && Holding(r.w, f, done + text)
    decreases |text|
  {
    hide Receive, Passes, HexPut;
    if text == [] {
      assert done + text == done;
    } else {
      var head := HexPut(text[0]);
      HexPutPasses(o, text[0]);
      PassedByte(o, w, f, done, head, text[0]);
      HexPutAllArrives(o, Feed(o, w, head).w, f, done + [text[0]], text[1..]);
      FeedConcat(o, w, head, HexPutAll(text[1..]));
      AddByte(done, text);
    }
  }

  lemma {:induction false} UueArrives(o: Options, w: Wire, f: Byte, done: Bytes, text: Bytes)
    requires Holding(w, f, done) && |done| + |text| <= MAXPKTLEN
    requires forall i :: 0 <= i < |text| ==> 33 <= text[i] <= 96
    ensures var r := Feed(o, w, text); r.got == [] && Holding(r.w, f, done + text)
    decreases |text|
  {
    hide Receive, Passes;
    if text == [] {
      assert done + text == done;
    } else {
      UueCharPasses(o, text[0]);
      PassedByte(o, w, f, done, [text[0]], text[0]);
      UueArrives(o, Feed(o, w, [text[0]]).w, f, done + [text[0]], text[1..]);
      FeedConcat(o, w, [text[0]], text[1..]);
      assert [text[0]] + text[1..] == text;
      AddByte(done, text);
    }
  }

  // ----- one packet --------------------------------------------------------

  /** The receiver can decode what the sender encodes: it uses the same options, or the packet
      is a HEX packet. */
  predicate Understands(rxo: Options, txo: Options, f: Byte) {
    rxo == txo || f == HEXPKT
  }

  lemma TextSendable(o: Options, kind: Byte, s: Bytes)
    ensures Sendable(o, Format(o, kind), Text(Format(o, kind), s))
  {
    HexTextIsAscii(s);
    SeptetsAreAscii(0, 0, s);
    UueTextShape(s);
  }

  lemma BodyArrives(rxo: Options, txo: Options, w: Wire, f: Byte, text: Bytes)
    requires Understands(rxo, txo, f) && Holding(w, f, []) && |text| <= MAXPKTLEN && Sendable(txo, f, text)
    ensures var r := Feed(rxo, w, Transparent(txo, f, text)); r.got == [] && Holding(r.w, f, text)
  {
    hide Feed, Holding;
    assert [] + text == text;
    if f == HEXPKT {
      HexPutAllArrives(rxo, w, f, [], text);
    } else if f == UUEPKT {
      UueArrives(rxo, w, f, [], text);
    } else {
      PutAllArrives(rxo, w, f, [], 0, text);
    }
  }

  lemma PacketStart(o: Options, w: Wire, f: Byte)
    requires ValidWire(w) && w.dle <= 3 && IsFormat(f)
    ensures var r := Feed(o, w, [DLE, f]); r.got == [] && Holding(r.w, f, [])
  {
    DleSeen(o);
    assert Seen(o, f) == f && !Ignored(o, f);
    FeedTwo(o, w, DLE, f);
  }

  /** The tests at the end of a packet accept what the sender has sealed. */
  lemma CheckSealed(o: Options, rxo: Options, f: Byte, kind: Byte, payload: Bytes)
    requires Understands(rxo, o, f)
    ensures Check(rxo, f, Sealed(o, f, payload + [kind])) == Good(kind, payload)
    ensures |Sealed(o, f, payload + [kind])| == |payload| + 1 + if LongCrc(o, f) then 4 else 2
  {
    hide HydraCrc.Crc16, HydraCrc.Crc32, LittleEndian;
    var data := payload + [kind];
    var s := Sealed(o, f, data);
    Residue32(data);
    Residue16(data);
    if LongCrc(o, f) {
      assert s[|s| - 5] == kind && s[..|s| - 5] == payload;
    } else {
      assert s[|s| - 3] == kind && s[..|s| - 3] == payload;
    }
  }

  lemma PacketStops(rxo: Options, txo: Options, w: Wire, f: Byte, kind: Byte, payload: Bytes)
    requires Understands(rxo, txo, f) && IsFormat(f)
    requires Holding(w, f, Text(f, Sealed(txo, f, payload + [kind])))
    ensures var r := Feed(rxo, w, [DLE, PKTEND]);
      r.got == [Good(kind, payload)] && r.w.ptr == -1 && r.w.dle == 1
  {
    hide Text, Sealed, Check, DecodeBody;
    DleSeen(rxo);
    assert Seen(rxo, PKTEND) == PKTEND && !Ignored(rxo, PKTEND);
    var x := w.(dle := 1);
    assert Receive(rxo, w, DLE) == Fed(x, Nothing);
    BodyRoundTrip(x, Sealed(txo, f, payload + [kind]));
    CheckSealed(txo, rxo, f, kind, payload);
    FeedTwo(rxo, w, DLE, PKTEND);
  }

  lemma TrailerPasses(o: Options, w: Wire, f: Byte, kind: Byte)
    requires ValidWire(w) && w.ptr == -1 && w.dle <= 1
    ensures var r := Feed(o, w, Trailer(f, kind)); r.got == [] && r.w.ptr == -1 && r.w.dle <= 1
  {
    if Trailer(f, kind) == [CR, LF] {
      FeedTwo(o, w, CR, LF);
    }
  }

  /** One packet, from any state of the receiver in which at most three DLEs have come in. */
  lemma PacketArrives(rxo: Options, txo: Options, w: Wire, kind: Byte, payload: Bytes)
    requires ValidWire(w) && w.dle <= 3 && |payload| <= MAXPAYLOAD
    requires Understands(rxo, txo, Format(txo, kind))
    ensures var r := Feed(rxo, w, Encode(txo, kind, payload));
      r.got == [Good(kind, payload)] && r.w.ptr == -1 && r.w.dle <= 1
  {
    hide Feed, Sealed, Text, Transparent, Trailer, Holding, Sendable;
    var f := Format(txo, kind);
    var s := Sealed(txo, f, payload + [kind]);
    var text := Text(f, s);
    var body := Transparent(txo, f, text);
    PacketStart(rxo, w, f);
    var a := Feed(rxo, w, [DLE, f]);
    CheckSealed(txo, rxo, f, kind, payload);
    TextFits(f, s);
    TextSendable(txo, kind, s);
    BodyArrives(rxo, txo, a.w, f, text);
    var b := Feed(rxo, a.w, body);
    PacketStops(rxo, txo, b.w, f, kind, payload);
    var c := Feed(rxo, b.w, [DLE, PKTEND]);
    TrailerPasses(rxo, c.w, f, kind);
    FeedConcat(rxo, w, [DLE, f], body);
    FeedConcat(rxo, w, [DLE, f] + body, [DLE, PKTEND]);
    FeedConcat(rxo, w, [DLE, f] + body + [DLE, PKTEND], Trailer(f, kind));
  }

  // ----- prefixes ----------------------------------------------------------

  /** Digits and letters, none of which means anything after a DLE if it comes first. */
  predicate Harmless(s: Bytes) {
    && (forall c | c in s :: 48 <= c <= 57 || 65 <= c <= 90 || 97 <= c <= 102)
    && (s != [] ==> s[0] < 97)
  }

  lemma HarmlessByte(o: Options, w: Wire, c: Byte)
    requires ValidWire(w) && (48 <= c <= 57 || 65 <= c <= 90 || 97 <= c <= 102) && (w.dle > 0 ==> c < 97)
    ensures var f := Receive(o, w, c); f.got == Nothing && f.w.dle == 0
  {
    hide Seen, Ignored, Flip6;
    HarmlessSeen(o, c);
  }

  lemma HarmlessSeen(o: Options, c: Byte)
    requires 48 <= c <= 57 || 65 <= c <= 90 || 97 <= c <= 102
    ensures Seen(o, c) == c && !Ignored(o, c)
  {
  }

  /** A prefix goes by in every state of the receiver. */
  lemma {:induction false} HarmlessPasses(o: Options, w: Wire, s: Bytes)
    requires ValidWire(w) && (s != [] && w.dle > 0 ==> s[0] < 97)
    requires forall c | c in s :: 48 <= c <= 57 || 65 <= c <= 90 || 97 <= c <= 102
    ensures var r := Feed(o, w, s); r.got == [] && r.w.dle == if s == [] then w.dle else 0
    decreases |s|
  {
    hide Receive;
    if s != [] {
      assert s[0] in s;
      HarmlessByte(o, w, s[0]);
      assert forall c | c in s[1..] :: c in s;
      HarmlessPasses(o, Receive(o, w, s[0]).w, s[1..]);
    }
  }

  /** A packet with the prefix that the other side has asked for. */
  lemma PrefixedArrives(rxo: Options, txo: Options, w: Wire, prefix: Bytes, kind: Byte, payload: Bytes)
    requires ValidWire(w) && w.dle <= 3 && |payload| <= MAXPAYLOAD && Harmless(prefix)
    requires Understands(rxo, txo, Format(txo, kind))
    ensures var r := Feed(rxo, w, prefix + Encode(txo, kind, payload));
      r.got == [Good(kind, payload)] && r.w.ptr == -1 && r.w.dle <= 1
  {
    hide Feed, Encode;
    HarmlessPasses(rxo, w, prefix);
    PacketArrives(rxo, txo, Feed(rxo, w, prefix).w, kind, payload);
    FeedConcat(rxo, w, prefix, Encode(txo, kind, payload));
  }

  // ----- a stream of packets -----------------------------------------------

  predicate Legal(packets: seq<Got>) {
    forall i :: 0 <= i < |packets| ==> packets[i].Good? && |packets[i].payload| <= MAXPAYLOAD
  }

  /** Every packet goes out behind the prefix. */
  function EncodeAll(o: Options, prefix: Bytes, packets: seq<Got>): Bytes
    requires Legal(packets)
  {
    if packets == [] then []
    else prefix + Encode(o, packets[0].kind, packets[0].payload) + EncodeAll(o, prefix, packets[1..])
  }

  /** Every packet can be decoded: both sides share their options, or only HEX packets are sent. */
  predicate AllUnderstood(rxo: Options, txo: Options, packets: seq<Got>)
    requires Legal(packets)
  {
    forall i :: 0 <= i < |packets| ==> Understands(rxo, txo, Format(txo, packets[i].kind))
  }

  /** The receiver returns exactly the packets that were sent, in order, and never a cancel. */
  lemma {:induction false} StreamRoundTrip(rxo: Options, txo: Options, w: Wire, prefix: Bytes, packets: seq<Got>)
    requires ValidWire(w) && w.dle <= 3 && Legal(packets) && AllUnderstood(rxo, txo, packets) && Harmless(prefix)
    ensures Feed(rxo, w, EncodeAll(txo, prefix, packets)).got == packets
    decreases |packets|
  {
    hide Feed, Encode, Harmless;
    if packets == [] {
      FeedNothing(rxo, w);
    } else {
      var p := packets[0];
      var first := prefix + Encode(txo, p.kind, p.payload);
      PrefixedArrives(rxo, txo, w, prefix, p.kind, p.payload);
      StreamRoundTrip(rxo, txo, Feed(rxo, w, first).w, prefix, packets[1..]);
      FeedConcat(rxo, w, first, EncodeAll(txo, prefix, packets[1..]));
      assert packets == [p] + packets[1..];
    }
  }

  // ----- between packets ---------------------------------------------------

  /** The string that goes before a START packet. */
  const AUTOSTR: Bytes := [104, 121, 100, 114, 97, 13]

  /** The start of the string that breaks off a session. */
  const ABORTSTR: Bytes := [DLE, DLE, DLE, DLE, DLE]

  lemma {:induction false} IdleBytes(o: Options, w: Wire, s: Bytes)
    requires ValidWire(w) && w.ptr == -1 && w.dle == 0
    requires forall i :: 0 <= i < |s| ==> s[i] < 128 && s[i] != DLE
    ensures Feed(o, w, s) == Progress(w, [])
    decreases |s|
  {
    if s != [] {
      assert Receive(o, w, s[0]) == Fed(w, Nothing);
      IdleBytes(o, w, s[1..]);
    }
  }

  /** The autostart string between packets is not taken for anything, although it contains the
      characters that, after a DLE, end and start packets. */
  lemma AutoStartPasses(o: Options, w: Wire)
    requires ValidWire(w) && w.ptr == -1
    ensures var r := Feed(o, w, AUTOSTR); r.got == [] && r.w.ptr == -1 && r.w.dle == 0
  {
    var rest := AUTOSTR[1..];
    var x := Receive(o, w, AUTOSTR[0]);
    assert x == Fed(w.(dle := 0), Nothing);
    IdleBytes(o, x.w, rest);
    assert AUTOSTR[1..] == rest;
  }

  /** Five DLEs in a row always cancel, in whatever state they find the receiver. */
  lemma CancelArrives(o: Options, w: Wire)
    requires ValidWire(w)
    ensures Cancel in Feed(o, w, ABORTSTR).got
  {
    DleSeen(o);
    Dles(o, w, 5);
  }

  lemma {:induction false} Dles(o: Options, w: Wire, n: nat)
    requires ValidWire(w) && n > 0 && w.dle + n >= 5 && Seen(o, DLE) == DLE && !Ignored(o, DLE)
    ensures var s: Bytes := seq(n, _ => DLE); Cancel in Feed(o, w, s).got
    ensures n == 5 ==> seq(n, _ => DLE) == ABORTSTR
    decreases n
  {
    hide Seen, Ignored;
    var s: Bytes := seq(n, _ => DLE);
    var x := Receive(o, w, DLE);
    assert x.w == w.(dle := w.dle + 1);
    assert s[0] == DLE;
    if n > 1 {
      Dles(o, x.w, n - 1);
      assert s[1..] == seq(n - 1, _ => DLE);
    }
  }

  // ----- noise -------------------------------------------------------------

  /** A stream without the bytes that the receiver ignores. */
  function Clean(o: Options, s: Bytes): Bytes {
    if s == [] then [] else (if Ignored(o, s[0]) then [] else [s[0]]) + Clean(o, s[1..])
  }

  /** Ignored bytes make no difference, even between a DLE and what it escapes. */
  lemma {:induction false} FeedClean(o: Options, w: Wire, s: Bytes)
    requires ValidWire(w)
    ensures Feed(o, w, s) == Feed(o, w, Clean(o, s))
    decreases |s|
  {
    hide Ignored;
    if s != [] {
      if Ignored(o, s[0]) {
        FeedClean(o, w, s[1..]);
        assert [] + Clean(o, s[1..]) == Clean(o, s[1..]);
      } else {
        FeedClean(o, Receive(o, w, s[0]).w, s[1..]);
        assert ([s[0]] + Clean(o, s[1..]))[1..] == Clean(o, s[1..]);
      }
    }
  }

  /** A line that inserts or drops nothing but ignored bytes delivers every packet. */
  lemma NoiseImmunity(rxo: Options, txo: Options, w: Wire, prefix: Bytes, packets: seq<Got>, noisy: Bytes)
    requires ValidWire(w) && w.dle <= 3 && Legal(packets) && AllUnderstood(rxo, txo, packets) && Harmless(prefix)
    requires Clean(rxo, noisy) == Clean(rxo, EncodeAll(txo, prefix, packets))
    ensures Feed(rxo, w, noisy).got == packets
  {
    FeedClean(rxo, w, noisy);
    FeedClean(rxo, w, EncodeAll(txo, prefix, packets));
    StreamRoundTrip(rxo, txo, w, prefix, packets);
  }
}
