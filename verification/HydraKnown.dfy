/** What Hydra puts on the line, byte by byte, for packets that can be worked out by hand. */
module HydraKnown {
  import opened Bits
  import opened HydraTypes
  import opened HydraCrc
  import opened HydraResidue
  import opened HydraWire
  import opened HydraFlags
  import HydraText
  import HydraInit
  import HydraEndpoint

  // ----- the two CRCs ------------------------------------------------------

  /** One byte enters the register. */
  lemma OneByte(poly: bv32, crc: bv32, b: bv32, x: bv32, half: bv32, next: bv32, n: Byte, rest: Bytes,
                s: Bytes)
    requires s == [n] + rest && Value(b) == n && x == XorWord(crc, b)
    requires half == WordBit(poly, WordBit(poly, WordBit(poly, WordBit(poly, x))))
    requires next == WordBit(poly, WordBit(poly, WordBit(poly, WordBit(poly, half))))
    ensures From(Value(poly), Value(crc), s) == From(Value(poly), Value(next), rest)
  {
    hide Value, Steps, WordBit, XorWord, Xor, WordSteps;
    ValueXor(crc, b);
    ValueSteps(poly, x, 8);
    FourSteps(poly, x, 8, half);
    FourSteps(poly, half, 4, next);
    assert s[1..] == rest;
    HydraResidue.NoSteps(poly, next);
  }

  lemma NoBytes(poly: nat, crc: nat)
    ensures From(poly, crc, []) == crc
  {
  }

  lemma ByteValues()
    ensures Value(0) == 0 && Value(49) == 49 && Value(50) == 50 && Value(51) == 51 && Value(52) == 52
    ensures Value(53) == 53 && Value(54) == 54 && Value(55) == 55 && Value(56) == 56 && Value(57) == 57
    ensures Value(65) == 65 && Value(70) == 70 && Value(74) == 74
  {
    hide Value;
    NoValue(0);
    ValueHex(3);
    ValueHex(49);
    ValueHex(50);
    ValueHex(51);
    ValueHex(52);
    ValueHex(53);
    ValueHex(54);
    ValueHex(55);
    ValueHex(56);
    ValueHex(57);
    ValueHex(4);
    ValueHex(65);
    ValueHex(70);
    ValueHex(74);
  }

  /** The customary check of a CRC: the register after "123456789", before it is complemented. */
  lemma Check16()
    ensures HydraCrc.Crc16([49, 50, 51, 52, 53, 54, 55, 56, 57]) == 0x6f91
  {
    hide Value, Steps, From;
    Values16();
    ByteValues();
    NoValue(0);
    ValueHex(0x6);
    ValueHex(0x6f);
    ValueHex(0x6f9);
    ValueHex(0x6f91);
    OneByte(0x8408, 0xffff, 49, 0xffce, 0xe8f2, 0x2f8d, 49, [50, 51, 52, 53, 54, 55, 56, 57],
            [49, 50, 51, 52, 53, 54, 55, 56, 57]);
    OneByte(0x8408, 0x2f8d, 50, 0x2fbf, 0xf574, 0x4d53, 50, [51, 52, 53, 54, 55, 56, 57],
            [50, 51, 52, 53, 54, 55, 56, 57]);
    OneByte(0x8408, 0x4d53, 51, 0x4d60, 0x4d6, 0x634b, 51, [52, 53, 54, 55, 56, 57], [51, 52, 53, 54, 55, 56, 57]);
    OneByte(0x8408, 0x634b, 52, 0x637f, 0xf1b8, 0x8b13, 52, [53, 54, 55, 56, 57], [52, 53, 54, 55, 56, 57]);
    OneByte(0x8408, 0x8b13, 53, 0x8b26, 0x6bb4, 0x44bf, 53, [54, 55, 56, 57], [53, 54, 55, 56, 57]);
    OneByte(0x8408, 0x44bf, 54, 0x4489, 0x90c1, 0x198d, 54, [55, 56, 57], [54, 55, 56, 57]);
    OneByte(0x8408, 0x198d, 55, 0x19ba, 0xa491, 0x1ac8, 55, [56, 57], [55, 56, 57]);
    OneByte(0x8408, 0x1ac8, 56, 0x1af0, 0x1af, 0xf795, 56, [57], [56, 57]);
    OneByte(0x8408, 0xf795, 57, 0xf7ac, 0xc976, 0x6f91, 57, [], [57]);
    NoBytes(POLY16, 0x6f91);
  }

  lemma Check32()
    ensures HydraCrc.Crc32([49, 50, 51, 52, 53, 54, 55, 56, 57]) == 0x340bc6d9
  {
    hide Value, Steps, From;
    Values32();
    ByteValues();
    NoValue(0);
    ValueHex(0x3);
    ValueHex(0x34);
    ValueHex(0x340);
    ValueHex(0x340b);
    ValueHex(0x340bc);
    ValueHex(0x340bc6);
    ValueHex(0x340bc6d);
    ValueHex(0x340bc6d9);
    OneByte(0xedb88320, 0xffffffff, 49, 0xffffffce, 0xaff51d84, 0x7c231048, 49, [50, 51, 52, 53, 54, 55, 56, 57],
            [49, 50, 51, 52, 53, 54, 55, 56, 57]);
    OneByte(0xedb88320, 0x7c231048, 50, 0x7c23107a, 0xd11492ef, 0xb0acbb32, 50, [51, 52, 53, 54, 55, 56, 57],
            [50, 51, 52, 53, 54, 55, 56, 57]);
    OneByte(0xedb88320, 0xb0acbb32, 51, 0xb0acbb01, 0x16bddbd4, 0x77b79c2d, 51, [52, 53, 54, 55, 56, 57],
            [51, 52, 53, 54, 55, 56, 57]);
    OneByte(0xedb88320, 0x77b79c2d, 52, 0x77b79c19, 0xf774ea85, 0x641c1f5c, 52, [53, 54, 55, 56, 57],
            [52, 53, 54, 55, 56, 57]);
    OneByte(0xedb88320, 0x641c1f5c, 53, 0x641c1f69, 0xf64e52b2, 0x340ac5e3, 53, [54, 55, 56, 57], [53, 54, 55, 56, 57]);
    OneByte(0xedb88320, 0x340ac5e3, 54, 0x340ac5d5, 0x682bfda9, 0xf68d2c9e, 54, [55, 56, 57], [54, 55, 56, 57]);
    OneByte(0xedb88320, 0xf68d2c9e, 55, 0xf68d2ca9, 0xff67418e, 0xaffc9660, 55, [56, 57], [55, 56, 57]);
    OneByte(0xedb88320, 0xaffc9660, 56, 0xaffc9658, 0xe7474a45, 0x651f2550, 56, [57], [56, 57]);
    OneByte(0xedb88320, 0x651f2550, 57, 0x651f2569, 0xf65e6112, 0x340bc6d9, 57, [], [57]);
    NoBytes(POLY32, 0x340bc6d9);
  }

  lemma Crc16OfStart()
    ensures HydraCrc.Crc16([65]) == 0x5c0a
  {
    hide Value, Steps, From;
    Values16();
    ByteValues();
    NoValue(0);
    ValueHex(0x5);
    ValueHex(0x5c);
    ValueHex(0x5c0);
    ValueHex(0x5c0a);
    OneByte(0x8408, 0xffff, 65, 0xffbe, 0xe8f5, 0x5c0a, 65, [], [65]);
    NoBytes(POLY16, 0x5c0a);
  }

  lemma Crc16OfData()
    ensures HydraCrc.Crc16([0, 0, 0, 0, 65, 70]) == 0x70fc
  {
    hide Value, Steps, From;
    Values16();
    ByteValues();
    NoValue(0);
    ValueHex(0x7);
    ValueHex(0x70);
    ValueHex(0x70f);
    ValueHex(0x70fc);
    OneByte(0x8408, 0xffff, 0, 0xffff, 0xf870, 0xf87, 0, [0, 0, 0, 65, 70], [0, 0, 0, 0, 65, 70]);
    OneByte(0x8408, 0xf87, 0, 0xf87, 0x737f, 0xf0b8, 0, [0, 0, 65, 70], [0, 0, 0, 65, 70]);
    OneByte(0x8408, 0xf0b8, 0, 0xf0b8, 0x8b03, 0x3933, 0, [0, 65, 70], [0, 0, 65, 70]);
    OneByte(0x8408, 0x3933, 0, 0x3933, 0x3210, 0x321, 0, [65, 70], [0, 65, 70]);
    OneByte(0x8408, 0x321, 65, 0x360, 0x36, 0x6305, 65, [70], [65, 70]);
    OneByte(0x8408, 0x6305, 70, 0x6343, 0x37b7, 0x70fc, 70, [], [70]);
    NoBytes(POLY16, 0x70fc);
  }

  lemma Crc16OfEofAck()
    ensures HydraCrc.Crc16([74]) == 0xe2d9
  {
    hide Value, Steps, From;
    Values16();
    ByteValues();
    NoValue(0);
    ValueHex(0xe);
    ValueHex(0xe2);
    ValueHex(0xe2d);
    ValueHex(0xe2d9);
    OneByte(0x8408, 0xffff, 74, 0xffb5, 0x5d7e, 0xe2d9, 74, [], [74]);
    NoBytes(POLY16, 0xe2d9);
  }

  lemma Crc32OfEofAck()
    ensures HydraCrc.Crc32([74]) == 0xbbf4b8fc
  {
    hide Value, Steps, From;
    Values32();
    ByteValues();
    NoValue(0);
    ValueHex(0xb);
    ValueHex(0xbb);
    ValueHex(0xbbf);
    ValueHex(0xbbf4);
    ValueHex(0xbbf4b);
    ValueHex(0xbbf4b8);
    ValueHex(0xbbf4b8f);
    ValueHex(0xbbf4b8fc);
    OneByte(0xedb88320, 0xffffffff, 74, 0xffffffb5, 0x6494ae0f, 0xbbf4b8fc, 74, [], [74]);
    NoBytes(POLY32, 0xbbf4b8fc);
  }

  // ----- whole packets -----------------------------------------------------

  /** The start of a HEX text, and of what goes over the line of it. */
  lemma HexStarts(c: Byte, s: Bytes, t: Bytes)
    requires t == [c] + s
    ensures HexText(t) == HexByte(c) + HexText(s) && HexPutAll(t) == HexPut(c) + HexPutAll(s)
  {
    assert t[1..] == s;
  }

  lemma HexEnds()
    ensures HexText([]) == [] && HexPutAll([]) == []
  {
  }

  lemma {:induction false} PrintableStays(s: Bytes)
    requires forall i | 0 <= i < |s| :: 32 <= s[i] < 127
    ensures HexPutAll(s) == s
  {
    if s != [] {
      PrintableStays(s[1..]);
    }
  }

  lemma HexStart()
    ensures HexText([65, 0xf5, 0xa3]) == [65, 92, 102, 53, 92, 97, 51]
  {
    hide HexText;
    HexEnds();
    HexStarts(0xa3, [], [0xa3]);
    HexStarts(0xf5, [0xa3], [0xf5, 0xa3]);
    HexStarts(65, [0xf5, 0xa3], [65, 0xf5, 0xa3]);
  }

  lemma TwoOf(x: nat)
    ensures LittleEndian(x, 2) == [x % 256, x / 256 % 256]
  {
  }

  lemma FourOf(x: nat)
    ensures LittleEndian(x, 4) == [x % 256, x / 256 % 256, x / 256 / 256 % 256, x / 256 / 256 / 256 % 256]
  {
    hide LittleEndian;
    TwoOf(x);
    TwoOf(x / 256 / 256);
    assert LittleEndian(x, 4) == [x % 256] + ([x / 256 % 256] + LittleEndian(x / 256 / 256, 2)) by { Unrolled(x); }
  }

  lemma Unrolled(x: nat)
    ensures LittleEndian(x, 4) == [x % 256] + ([x / 256 % 256] + LittleEndian(x / 256 / 256, 2))
  {
  }

  lemma SealedStart(o: Options)
    ensures Sealed(o, HEXPKT, [] + [65]) == [65, 0xf5, 0xa3]
  {
    hide HydraCrc.Crc16, LittleEndian;
    Crc16OfStart();
    assert [] + [65] == [65];
    TwoOf(0xa3f5);
  }

  /** The START packet is the same under all options, and it is what the program that is being called
      looks for to start a session by itself: DLE, "cA", "\\f5", "\\a3", DLE, "a". */
  lemma StartPacket(o: Options)
    ensures Encode(o, 65, []) == [24, 99, 65, 92, 102, 53, 92, 97, 51, 24, 97, 13, 10]
  {
    hide Sealed, HexText, HexPutAll;
    SealedStart(o);
    HexStart();
    PrintableStays([65, 92, 102, 53, 92, 97, 51]);
  }

  /** Bytes that need no escape go over the line as they are: all but DLE when no options are asked
      for, and all that can be printed in any case. */
  lemma {:induction false} PlainBytes(o: Options, last: Byte, s: Bytes)
    requires XonXoff !in o && Telenet !in o && CtlChrs !in o && HighCtl !in o && forall i | 0 <= i < |s| :: s[i] != DLE
    ensures PutAll(o, last, s) == s
    decreases |s|
  {
    if s != [] {
      PlainBytes(o, Masked(o, s[0]), s[1..]);
    }
  }

  lemma {:induction false} PrintableBytes(o: Options, last: Byte, s: Bytes)
    requires forall i | 0 <= i < |s| :: 32 <= s[i] < 127
    ensures PutAll(o, last, s) == s
    decreases |s|
  {
    if s != [] {
      PrintableBytes(o, Masked(o, s[0]), s[1..]);
    }
  }

  lemma SealedData()
    ensures Sealed({}, BINPKT, [0, 0, 0, 0, 65] + [70]) == [0, 0, 0, 0, 65, 70, 0x03, 0x8f]
  {
    hide HydraCrc.Crc16, LittleEndian;
    Crc16OfData();
    assert [0, 0, 0, 0, 65] + [70] == [0, 0, 0, 0, 65, 70];
    TwoOf(0x8f03);
  }

  /** A block with one 'A' at position 0. */
  lemma DataPacket()
    ensures Encode({}, 70, [0, 0, 0, 0, 65]) == [24, 98, 0, 0, 0, 0, 65, 70, 0x03, 0x8f, 24, 97]
  {
    hide Sealed, PutAll;
    SealedData();
    PlainBytes({}, 0, [0, 0, 0, 0, 65, 70, 0x03, 0x8f]);
  }

  lemma SealedLong()
    ensures Sealed({Crc32}, BINPKT, [] + [74]) == [74, 0x03, 0x47, 0x0b, 0x44]
  {
    hide HydraCrc.Crc32, LittleEndian;
    Crc32OfEofAck();
    assert [] + [74] == [74];
    FourOf(0x440b_4703);
  }

  /** EOFACK with a CRC of 32 bits. */
  lemma LongEofAck()
    ensures Encode({Crc32}, 74, []) == [24, 98, 74, 0x03, 0x47, 0x0b, 0x44, 24, 97]
  {
    hide Sealed, PutAll;
    SealedLong();
    PlainBytes({Crc32}, 0, [74, 0x03, 0x47, 0x0b, 0x44]);
  }

  lemma SealedShort(o: Options, format: Byte)
    requires Crc32 !in o
    ensures Sealed(o, format, [] + [74]) == [74, 38, 29]
  {
    hide HydraCrc.Crc16, LittleEndian;
    Crc16OfEofAck();
    assert [] + [74] == [74];
    TwoOf(0x1d26);
  }

  /** EOFACK on a 7-bit line: as HEX, */
  lemma HexEofAck()
    ensures Encode({HighBit}, 74, []) == [24, 99, 74, 38, 24, 93, 24, 97, 13, 10]
  {
    hide Sealed, HexText, HexPutAll;
    SealedShort({HighBit}, HEXPKT);
    HexEnds();
    HexStarts(29, [], [29]);
    HexStarts(38, [29], [38, 29]);
    HexStarts(74, [38, 29], [74, 38, 29]);
  }

  lemma ThreeOctets()
    ensures Septets(0, 0, [74, 38, 29]) == [74, 76, 116, 0]
  {
    assert [74, 38, 29][1..] == [38, 29] && [38, 29][1..] == [29] && [29][1..] == [];
    assert Septets(0, 3, []) == [0];
    assert Septets(0, 2, [29]) == [116] + Septets(0, 3, []);
  }

  /** as ASC, */
  lemma AscEofAck()
    ensures Encode({HighBit, CanAsc}, 74, []) == [24, 100, 74, 76, 116, 0, 24, 97, 13, 10]
  {
    hide Sealed, PutAll, Septets;
    SealedShort({HighBit, CanAsc}, ASCPKT);
    ThreeOctets();
    PlainBytes({HighBit, CanAsc}, 0, [74, 76, 116, 0]);
  }

  lemma OneGroup()
    ensures UueText([74, 38, 29]) == [51, 67, 57, 62]
  {
    assert [74, 38, 29][3..] == [] && UueText([]) == [];
  }

  /** and as UUE. */
  lemma UueEofAck()
    ensures Encode({HighBit, CtlChrs, CanUue}, 74, []) == [24, 101, 51, 67, 57, 62, 24, 97, 13, 10]
  {
    hide Sealed, UueText;
    SealedShort({HighBit, CtlChrs, CanUue}, UUEPKT);
    OneGroup();
  }

  // ----- which bytes are escaped -------------------------------------------

  /** The bytes that are escaped are, in turn: DLE; XON and XOFF when asked for, and with HIC those with
      the high bit set; all control characters when asked for; and a carriage return behind '@'. */
  lemma EscapedExactly(o: Options, last: Byte, c: Byte)
    ensures PutByte(o, last, c) == [c] || PutByte(o, last, c) == [24, if c / 64 % 2 == 0 then c + 64 else c - 64]
    ensures HighCtl !in o ==>
      (PutByte(o, last, c) != [c] <==>
       || c == 24 || (XonXoff in o && c in {17, 19}) || (CtlChrs in o && (c < 32 || c == 127))
       || (Telenet in o && c == 13 && last == 64))
    ensures HighCtl in o ==>
      (PutByte(o, last, c) != [c] <==>
       || c in {24, 152} || (XonXoff in o && c in {17, 19, 145, 147})
       || (CtlChrs in o && (c < 32 || 128 <= c < 160 || c == 127 || c == 255))
       || (Telenet in o && c in {13, 141} && last == 64))
  {
    assert |PutByte(o, last, c)| == 1 || |PutByte(o, last, c)| == 2;
  }

  // ----- numbers and names -------------------------------------------------

  /** Longs go with the low byte first. */
  lemma Longs()
    ensures HydraText.Long(0x0102_0304) == [4, 3, 2, 1]
    ensures HydraText.Long(-2) == [254, 255, 255, 255]
  {
  }

  lemma NextName(val: Options, n: nat, before: string)
    requires 0 < n <= |FLAGS| && Names(FLAGS, val, n - 1) == before
    ensures Names(FLAGS, val, n) == if FLAGS[n - 1].flag in val then Longer(before, FLAGS[n - 1].name) else before
  {
  }

  lemma FirstNames()
    ensures Names(FLAGS, CAN_OPTIONS, 6) == "XON,TLN,CTL,HIC,HI8"
  {
    hide Names;
    NoNames(CAN_OPTIONS);
    NextName(CAN_OPTIONS, 1, "");
    NextName(CAN_OPTIONS, 2, "XON");
    NextName(CAN_OPTIONS, 3, "XON,TLN");
    NextName(CAN_OPTIONS, 4, "XON,TLN,CTL");
    NextName(CAN_OPTIONS, 5, "XON,TLN,CTL,HIC");
    NextName(CAN_OPTIONS, 6, "XON,TLN,CTL,HIC,HI8");
  }

  /** What this side says it can do, in every session. */
  lemma CanString()
    ensures Names(FLAGS, CAN_OPTIONS, |FLAGS|) == "XON,TLN,CTL,HIC,HI8,ASC,UUE,C32,DEV"
  {
    hide Names;
    FirstNames();
    NextName(CAN_OPTIONS, 7, "XON,TLN,CTL,HIC,HI8");
    NextName(CAN_OPTIONS, 8, "XON,TLN,CTL,HIC,HI8,ASC");
    NextName(CAN_OPTIONS, 9, "XON,TLN,CTL,HIC,HI8,ASC,UUE");
    NextName(CAN_OPTIONS, 10, "XON,TLN,CTL,HIC,HI8,ASC,UUE,C32");
    NextName(CAN_OPTIONS, 11, "XON,TLN,CTL,HIC,HI8,ASC,UUE,C32,DEV");
  }

  lemma NoNames(val: Options)
    ensures Names(FLAGS, val, 0) == ""
  {
  }

  /** The link uses what either operator asks for, and what both programs can do for nothing. */
  lemma LinkOptionsExactly(mine: Options, theirs: Options, f: Flag)
    requires Wanted(mine) && Wanted(theirs)
    ensures f in LinkOptions(mine, theirs) <==> f in mine || f in theirs || f in {CanAsc, CanUue, Crc32, Device}
  {
    assert mine <= CAN_OPTIONS && theirs <= CAN_OPTIONS;
    assert UNN_OPTIONS <= CAN_OPTIONS;
  }

  lemma MoreDigits(w: nat, n: nat, before: Bytes)
    requires HydraText.Digits(w / 16, n) == before
    ensures HydraText.Digits(w, n + 1) == before + [HexDigit(w % 16)]
  {
  }

  lemma NoDigits()
    ensures HydraText.Digits(0, 0) == []
  {
  }

  lemma FourZeros()
    ensures HydraText.Digits(0, 4) == [48, 48, 48, 48]
  {
    hide HydraText.Digits;
    NoDigits();
    MoreDigits(0, 0, []);
    MoreDigits(0, 1, [48]);
    MoreDigits(0, 2, [48, 48]);
    MoreDigits(0, 3, [48, 48, 48]);
  }

  lemma EightZeros()
    ensures HydraText.Digits(0, 8) == [48, 48, 48, 48, 48, 48, 48, 48]
  {
    hide HydraText.Digits;
    FourZeros();
    MoreDigits(0, 4, [48, 48, 48, 48]);
    MoreDigits(0, 5, [48, 48, 48, 48, 48]);
    MoreDigits(0, 6, [48, 48, 48, 48, 48, 48]);
    MoreDigits(0, 7, [48, 48, 48, 48, 48, 48, 48]);
  }

  lemma DigitsOf()
    ensures HydraText.Digits(0x100f, 8) == [48, 48, 48, 48, 49, 48, 48, 102]
  {
    hide HydraText.Digits;
    FourZeros();
    MoreDigits(1, 4, [48, 48, 48, 48]);
    MoreDigits(0x10, 5, [48, 48, 48, 48, 49]);
    MoreDigits(0x100, 6, [48, 48, 48, 48, 49, 48]);
    MoreDigits(0x100f, 7, [48, 48, 48, 48, 49, 48, 48]);
  }

  /** A limit of 4096 + 15 for sending and none for receiving: "0000100f00000000". */
  lemma Windows()
    ensures HydraInit.WindowText(0x100f, 0) == [48, 48, 48, 48, 49, 48, 48, 102, 48, 48, 48, 48, 48, 48, 48, 48]
  {
    hide HydraText.Digits;
    DigitsOf();
    EightZeros();
  }

  /** Device tags are at most three characters, none of them a small letter, and otherwise the name as
      far as it goes. */
  lemma TagIs(name: string, i: nat)
    ensures |HydraEndpoint.DeviceTag(name)| == (if |name| < 3 then |name| else 3)
    ensures i < |HydraEndpoint.DeviceTag(name)| ==>
      var c := HydraEndpoint.DeviceTag(name)[i];
      if 'a' <= name[i] <= 'z' then 'A' <= c <= 'Z' && c as int == name[i] as int - 32 else c == name[i]
  {
  }
}
