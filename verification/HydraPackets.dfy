/** The bodies of Hydra packets: the bytes that are put into the transmit buffer for a packet, and
    what the other side reads from its receive buffer. */
module HydraPackets {
  import opened Bits
  import opened HydraTypes
  import opened HydraText
  import opened HydraFlags
  import opened HydraInit
  import opened HydraEndpoint
  import opened HydraSystem
  import opened HydraSizes
  import HydraFile
  import HydraOptions
  import HydraWindows
  import HydraWire
  import HydraStream

  // ----- bodies ------------------------------------------------------------

  /** What goes into a body and is not looked at by the session: name, size and times of the file
      that is offered, and what an earlier packet has left where the tag of a device goes. */
  datatype Details = Details(info: string, stale: Bytes) {
    predicate Good() {
      Plain(info) && 0 < |info| < HydraWire.MAXPAYLOAD && |stale| == 4
    }
  }

  /** strcpy() of a tag into the four bytes kept for it. */
  function TagField(tag: string, stale: Bytes): (s: Bytes)
    requires |tag| <= 3 && |stale| == 4
    ensures |s| == 4
  {
    Ended(tag) + stale[|tag| + 1..]
  }

  function Body(p: Packet, d: Details): Bytes
    requires d.Good() && (p.DevSend? ==> |p.msg.device| <= 3)
  {
    match p
    case Start => []
    case Init(can, want, txwindow, rxwindow) => InitBody(can, want, txwindow, rxwindow)
    case InitAck => []
    case FInfo(endOfBatch) => if endOfBatch then [0] else Ended(d.info)
    case FInfoAck(pos) => Long(pos)
    case Data(pos, bytes) => Long(pos) + bytes
    case DataAck(pos) => Long(pos)
    case RPos(pos, blklen, syncid) => Long(pos) + Long(blklen) + Long(syncid)
    case Eof(pos) => Long(pos)
    case EofAck => []
    case End => []
    case Idle => []
    case DevSend(id, msg) => Long(id) + TagField(msg.device, d.stale) + msg.data
    case DevAck(id) => Long(id)
  }

  // ----- reading bodies ----------------------------------------------------

  /** What the session takes from a packet: the packet as it is, the fields of an INIT packet, or the
      number of a device message and what of it reaches a device function. */
  datatype Taken = Known(p: Packet) | Session(f: Fields) | Message(id: int, handed: seq<DevMsg>) | Unknown

  /** hydra_devrecv(): three characters are compared with the device table; the data begins behind
      the NUL of the tag. */
  function Handed(buf: Bytes, len: nat, devices: set<string>): seq<DevMsg>
    requires len <= |buf|
  {
    var tag := Text(buf, 4);
    var p := 4 + StrLen(buf, 4) + 1;
    if Registered(devices, tag) then [DevMsg(tag, if p <= len then buf[p..len] else [])] else []
  }

  /** What the session takes from its receive buffer for a packet of the given type and length; what
      stands behind the packet is left from earlier ones. */
  function Parse(kind: Byte, buf: Bytes, len: nat, devices: set<string>): Taken
    requires len <= |buf|
  {
    match kind
    case 65 => Known(Start)
    case 66 => Session(ReadInit(buf))
    case 67 => Known(InitAck)
    case 68 => Known(FInfo(At(buf, 0) == 0))
    case 69 => Known(FInfoAck(ReadLong(buf, 0)))
    case 70 => Known(Data(ReadLong(buf, 0), if 4 <= len then buf[4..len] else []))
    case 71 => Known(DataAck(ReadLong(buf, 0)))
    case 72 => Known(RPos(ReadLong(buf, 0), ReadLong(buf, 4), ReadLong(buf, 8)))
    case 73 => Known(Eof(ReadLong(buf, 0)))
    case 74 => Known(EofAck)
    case 75 => Known(End)
    case 76 => Known(Idle)
    case 77 => Message(ReadLong(buf, 0), Handed(buf, len, devices))
    case 78 => Known(DevAck(ReadLong(buf, 0)))
    case _ => Unknown
  }

  /** And what the endpoint makes of the packet that was sent. */
  function Meant(p: Packet, devices: set<string>): Taken {
    match p
    case Init(_, _, _, _) => Session(Said(p))
    case DevSend(id, msg) => Message(id, HandedOut(devices, msg))
    case _ => Known(p)
  }

  /** An INIT packet as an endpoint sends it. */
  ghost predicate RegularInit(p: Packet)
    requires p.Init?
  {
    && InLong(p.txwindow) && InLong(p.rxwindow) && p.can == Names(FLAGS, CAN_OPTIONS, |FLAGS|)
    && exists o :: Wanted(o) && p.want == Names(FLAGS, o, |FLAGS|)
  }

  /** Every number of the packet is a long and every string a string of C. */
  ghost predicate Regular(p: Packet) {
    match p
    case Init(_, _, _, _) => RegularInit(p)
    case FInfoAck(pos) => InLong(pos)
    case Data(pos, _) => InLong(pos)
    case DataAck(pos) => InLong(pos)
    case RPos(pos, blklen, syncid) => InLong(pos) && InLong(blklen) && InLong(syncid)
    case Eof(pos) => InLong(pos)
    case DevSend(id, msg) => InLong(id) && |msg.device| <= 3 && Plain(msg.device)
    case DevAck(id) => InLong(id)
    case _ => true
  }

  /** An INIT packet is read in the same way whatever stands behind it. */
  lemma InitBack(p: Packet, rest: Bytes)
    requires p.Init? && RegularInit(p)
    ensures ReadInit(InitBody(p.can, p.want, p.txwindow, p.rxwindow) + rest) == Said(p)
  {
    hide Names, ReadInit, InitBody, Wanted, AsRead, PrefixRead, InLong;
    var o :| Wanted(o) && p.want == Names(FLAGS, o, |FLAGS|);
    InitRead(o, p.txwindow, p.rxwindow, rest);
    InitRead(o, p.txwindow, p.rxwindow, []);
    var body := InitBody(p.can, p.want, p.txwindow, p.rxwindow);
    assert body + [] == body;
  }

  /** A message to a device: exactly what was sent is handed out if a function is registered for the
      tag, and nothing otherwise, whatever was in the buffer before. */
  lemma DevBack(id: int, msg: DevMsg, stale: Bytes, rest: Bytes, devices: set<string>)
    requires InLong(id) && |msg.device| <= 3 && Plain(msg.device) && |stale| == 4
    ensures var body := Long(id) + TagField(msg.device, stale) + msg.data;
      && ReadLong(body + rest, 0) == id
      && Handed(body + rest, |body|, devices) == if Registered(devices, msg.device) then [msg] else []
  {
    hide Long, ReadLong, StrLen, Text, Chars, InLong;
    var body := Long(id) + TagField(msg.device, stale) + msg.data;
    var buf := body + rest;
    var behind := stale[|msg.device| + 1..] + msg.data + rest;
    assert buf == Long(id) + (TagField(msg.device, stale) + msg.data + rest);
    FirstLong(id, TagField(msg.device, stale) + msg.data + rest);
    assert buf == Long(id) + Chars(msg.device) + [0] + behind;
    TextBack(Long(id), msg.device, behind);
    if Registered(devices, msg.device) {
      var p := 4 + |msg.device| + 1;
      assert |Chars(msg.device)| == |msg.device| by { CharsLength(); }
      assert buf == (Long(id) + Chars(msg.device) + [0]) + (stale[|msg.device| + 1..] + msg.data) + rest;
      assert buf[p..|body|] == msg.data;
    }
  }

  /** So for whatever name and data are given to hydra_devsend(). */
  lemma DevMessage(id: int, name: string, data: Bytes, stale: Bytes, rest: Bytes, devices: set<string>)
    requires InLong(id) && Plain(name) && |stale| == 4
    ensures |DeviceTag(name)| <= 3
    ensures var body := Long(id) + TagField(DeviceTag(name), stale) + data;
      Handed(body + rest, |body|, devices)
        == if Registered(devices, DeviceTag(name)) then [DevMsg(DeviceTag(name), data)] else []
  {
    hide Handed, TagField, Long, ReadLong, Registered, InLong;
    TagIsPlain(name);
    DevBack(id, DevMsg(DeviceTag(name), data), stale, rest, devices);
  }

  lemma TagIsPlain(name: string)
    requires Plain(name)
    ensures Plain(DeviceTag(name)) && |DeviceTag(name)| <= 3
  {
    var s := if |name| > 3 then name[..3] else name;
    forall i | 0 <= i < |s| ensures 0 < Upper(s)[i] as int < 256 {
      assert s[i] in name;
    }
  }

  /** The law of the packet bodies: whatever stands behind a body in the receive buffer, and whatever
      stood in the transmit buffer before, a packet is taken as the endpoint takes it. */
  lemma ParseBody(p: Packet, d: Details, rest: Bytes, devices: set<string>)
    requires d.Good() && Regular(p)
    ensures var body := Body(p, d); Parse(Kind(p), body + rest, |body|, devices) == Meant(p, devices)
  {
    hide Long, ReadLong, ReadInit, InitBody, Handed, TagField, RegularInit;
    if p.Init? {
      InitBack(p, rest);
    } else if p.DevSend? {
      DevBack(p.id, p.msg, d.stale, rest, devices);
    } else {
      OtherBack(p, d, rest, devices);
    }
  }

  lemma FirstLong(x: int, after: Bytes)
    requires InLong(x)
    ensures ReadLong(Long(x) + after, 0) == x
  {
    hide Long, ReadLong;
    LongRoundTrip(x, [], after);
    assert [] + Long(x) + after == Long(x) + after;
  }

  lemma OtherBack(p: Packet, d: Details, rest: Bytes, devices: set<string>)
    requires d.Good() && Regular(p) && !p.Init? && !p.DevSend?
    ensures var body := Body(p, d); Parse(Kind(p), body + rest, |body|, devices) == Known(p)
  {
    hide Long, ReadLong, ReadInit, InitBody, Handed, TagField, InLong;
    match p
    case FInfoAck(pos) => FirstLong(pos, rest);
    case DataAck(pos) => FirstLong(pos, rest);
    case Eof(pos) => FirstLong(pos, rest);
    case DevAck(id) => FirstLong(id, rest);
    case Data(pos, bytes) =>
      FirstLong(pos, bytes + rest);
      assert Long(pos) + bytes + rest == Long(pos) + (bytes + rest);
      assert (Long(pos) + bytes + rest)[4..4 + |bytes|] == bytes;
    case RPos(pos, blklen, syncid) => RPosBack(pos, blklen, syncid, rest);
    case FInfo(endOfBatch) => FInfoBack(endOfBatch, d, rest);
    case _ =>
  }

  lemma RPosBack(pos: int, blklen: int, syncid: int, rest: Bytes)
    requires InLong(pos) && InLong(blklen) && InLong(syncid)
    ensures var buf := Long(pos) + Long(blklen) + Long(syncid) + rest;
      ReadLong(buf, 0) == pos && ReadLong(buf, 4) == blklen && ReadLong(buf, 8) == syncid
  {
    hide Long, ReadLong;
    var buf := Long(pos) + Long(blklen) + Long(syncid) + rest;
    FirstLong(pos, Long(blklen) + Long(syncid) + rest);
    assert buf == Long(pos) + (Long(blklen) + Long(syncid) + rest);
    LongRoundTrip(blklen, Long(pos), Long(syncid) + rest);
    assert buf == Long(pos) + Long(blklen) + (Long(syncid) + rest);
    LongRoundTrip(syncid, Long(pos) + Long(blklen), rest);
  }

  lemma FInfoBack(endOfBatch: bool, d: Details, rest: Bytes)
    requires d.Good()
    ensures At(Body(FInfo(endOfBatch), d) + rest, 0) == 0 <==> endOfBatch
  {
    if !endOfBatch {
      assert d.info[0] in d.info;
      assert (Body(FInfo(endOfBatch), d) + rest)[0] == Chars(d.info)[0];
    }
  }

  // ----- bodies of packets in transit --------------------------------------

  /** The numbers of the operator and of the file system are longs. */
  predicate GoodNumbers(u: Setup) {
    && |HydraFile.SourceOf(u.firstA)| < 0x8000_0000 && |HydraFile.SourceOf(u.firstB)| < 0x8000_0000
    && InLong(u.cfgA.txwindow) && InLong(u.cfgA.rxwindow) && InLong(u.cfgB.txwindow) && InLong(u.cfgB.rxwindow)
  }

  /** A packet that travels from the side that starts with cfg. */
  predicate Sent(p: Packet, cfg: Config) {
    && Fits(p)
    && (p.Init? ==> p.can == Names(FLAGS, CAN_OPTIONS, |FLAGS|) && p.want == Names(FLAGS, cfg.options, |FLAGS|))
    && (p.Init? ==> p.txwindow == cfg.txwindow && p.rxwindow == cfg.rxwindow)
    && (p.FInfoAck? || p.Data? || p.DataAck? || p.RPos? || p.Eof? ==> InLong(p.pos))
  }

  lemma SentIsRegular(p: Packet, cfg: Config, d: Details)
    requires Sent(p, cfg) && InLong(cfg.txwindow) && InLong(cfg.rxwindow) && Wanted(cfg.options) && d.Good()
    requires p.DevSend? ==> Plain(p.msg.device)
    ensures Regular(p) && |Body(p, d)| <= HydraWire.MAXPAYLOAD
  {
    hide Long, TagField, Digits, Names, InLong, Plain, Wanted;
    if p.Init? {
      NamesShape(CAN_OPTIONS, |FLAGS|);
      NamesShape(cfg.options, |FLAGS|);
    }
    assert p.RPos? ==> InLong(p.blklen) by { SmallIsLong(p); }
  }

  lemma SmallIsLong(p: Packet)
    requires Fits(p)
    ensures p.RPos? ==> InLong(p.blklen)
  {
  }

  /** Every packet on the line from A to B, in every run. */
  lemma InTransit(u: Setup, ls: seq<Label>, f: Frame)
    requires GoodSetup(u) && GoodNumbers(u) && !u.firstA.OpenFails? && !u.firstB.OpenFails?
    requires f in Run(Begin(u), ls).ab
    ensures Sent(f.p, u.cfgA)
  {
    hide Run, Fits, Sized, Names, GoodConfig;
    var s := Run(Begin(u), ls);
    SizedRun(u, ls);
    assert Fits(f.p);
    HydraWindows.SameConfigs(u, ls);
    HydraWindows.WindowRun(u, ls);
    HandshakeNames(u, ls, f);
    Positions(u, ls, f);
  }

  lemma HandshakeNames(u: Setup, ls: seq<Label>, f: Frame)
    requires GoodSetup(u) && !u.firstA.OpenFails? && !u.firstB.OpenFails?
    requires f in Run(Begin(u), ls).ab
    ensures f.p.Init? ==>
      f.p.can == Names(FLAGS, CAN_OPTIONS, |FLAGS|) && f.p.want == Names(FLAGS, u.cfgA.options, |FLAGS|)
  {
    hide Run, Begin, Names, HydraOptions.EndOk, GoodConfig;
    HydraOptions.AgreedRun(u, ls);
    HydraWindows.SameConfigs(u, ls);
    assert HydraOptions.FrameOk(f, Run(Begin(u), ls).a, Run(Begin(u), ls).b);
  }

  lemma Positions(u: Setup, ls: seq<Label>, f: Frame)
    requires GoodSetup(u) && GoodNumbers(u) && f in Run(Begin(u), ls).ab
    ensures f.p.FInfoAck? || f.p.Data? || f.p.DataAck? || f.p.RPos? || f.p.Eof? ==> InLong(f.p.pos)
  {
    hide Run, Begin, HydraFile.SenderOk, HydraFile.ReceiverOk, HydraFile.Together, GoodConfig;
    var s := Run(Begin(u), ls);
    HydraFile.FileRun(u, ls);
    RunFlips(u, ls);
    HydraFile.FileRun(FlipSetup(u), FlipLabels(ls));
    assert HydraFile.ForwardOk(f.p, s.a, s.b);
    assert HydraFile.BackwardOk(f.p, s.b, s.a);
  }

  /** What one side makes of a packet on its way to it, behind a prefix. */
  ghost predicate Decodes(to: Endpoint, f: Frame, prefix: string, d: Details, w: HydraWire.Wire, rest: Bytes)
    requires d.Good() && (f.p.DevSend? ==> |f.p.msg.device| <= 3) && HydraWire.ValidWire(w)
  {
    var body := Body(f.p, d);
    && |body| <= HydraWire.MAXPAYLOAD
    && HydraWire.Feed(to.rx.options, w, Chars(prefix) + HydraWire.Encode(f.opts, Kind(f.p), body)).got
       == [HydraWire.Good(Kind(f.p), body)]
    && Parse(Kind(f.p), body + rest, |body|, to.cfg.devices) == Meant(f.p, to.cfg.devices)
  }

  /** In every run, every packet on a line fits the buffers, and the bytes sent for it, behind every
      prefix that the program can come to, make the endpoint that it travels to return its type and
      body, from every state of the receive buffer with at most three DLEs pending; and what the
      session takes from that body is what the endpoint makes of the packet. */
  lemma InTransitIsDecoded(
      u: Setup, ls: seq<Label>, f: Frame, side: Side, prefix: string, d: Details, w: HydraWire.Wire, rest: Bytes)
    requires GoodSetup(u) && GoodNumbers(u) && !u.firstA.OpenFails? && !u.firstB.OpenFails?
    requires var s := Run(Begin(u), ls); f in if side == A then s.ab else s.ba
    requires f.p.DevSend? ==> Plain(f.p.msg.device)
    requires HydraWire.ValidWire(w) && w.dle <= 3 && d.Good() && HarmlessPrefix(prefix)
    ensures f.p.DevSend? ==> |f.p.msg.device| <= 3
    ensures var s := Run(Begin(u), ls); Decodes(if side == A then s.b else s.a, f, prefix, d, w, rest)
  {
    hide Run, Decodes, Begin, HarmlessPrefix;
    if side == A {
      FromA(u, ls, f, prefix, d, w, rest);
    } else {
      RunFlips(u, ls);
      FromA(FlipSetup(u), FlipLabels(ls), f, prefix, d, w, rest);
    }
  }

  lemma FromA(u: Setup, ls: seq<Label>, f: Frame, prefix: string, d: Details, w: HydraWire.Wire, rest: Bytes)
    requires GoodSetup(u) && GoodNumbers(u) && !u.firstA.OpenFails? && !u.firstB.OpenFails?
    requires f in Run(Begin(u), ls).ab
    requires f.p.DevSend? ==> Plain(f.p.msg.device)
    requires HydraWire.ValidWire(w) && w.dle <= 3 && d.Good() && HarmlessPrefix(prefix)
    ensures f.p.DevSend? ==> |f.p.msg.device| <= 3
    ensures Decodes(Run(Begin(u), ls).b, f, prefix, d, w, rest)
  {
    hide Run, Begin, HydraWire.Feed, HydraWire.Encode, Body, Parse, Regular, Sent, HarmlessPrefix, HydraStream.Harmless;
    var s := Run(Begin(u), ls);
    InTransit(u, ls, f);
    SentTag(f.p, u.cfgA);
    SentIsRegular(f.p, u.cfgA, d);
    ParseBody(f.p, d, rest, s.b.cfg.devices);
    HydraOptions.OptionAgreement(u);
    assert HydraOptions.OptionSafe(s);
    HexFrames(f);
    PrefixBytes(prefix);
    HydraStream.PrefixedArrives(s.b.rx.options, f.opts, w, Chars(prefix), Kind(f.p), Body(f.p, d));
  }

  lemma PrefixBytes(prefix: string)
    requires HarmlessPrefix(prefix)
    ensures HydraStream.Harmless(Chars(prefix))
  {
    var s := Chars(prefix);
    forall c | c in s ensures 48 <= c <= 57 || 65 <= c <= 90 || 97 <= c <= 102 {
      var i :| 0 <= i < |s| && s[i] == c;
      assert prefix[i] in prefix;
    }
    if prefix != "" {
      assert prefix[0] in prefix && s[0] == prefix[0] as int;
    }
  }

  lemma SentTag(p: Packet, cfg: Config)
    requires Sent(p, cfg)
    ensures p.DevSend? ==> |p.msg.device| <= 3
  {
  }
}
