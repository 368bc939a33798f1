/** Packets are never decoded under the wrong options: in every run, each packet in transit
    that is not HEX was encoded with exactly the options its receiver decodes with. */
module HydraOptions {
  import opened Bits
  import opened HydraTypes
  import opened HydraFlags
  import opened HydraInit
  import opened HydraEndpoint
  import opened HydraSystem

  /** The peer's INIT packet has been taken. */
  predicate Late(e: Endpoint) {
    e.rx.state != RxInit
  }

  function Link(x: Endpoint, y: Endpoint): Options {
    LinkOptions(x.cfg.options, y.cfg.options)
  }

  /** Packets that are sent only once both sides have taken the other's INIT packet. */
  predicate Request(p: Packet) {
    p.FInfo? || p.Data? || p.Eof? || p.DevSend?
  }

  /** What holds of a packet in transit from x to y. */
  predicate FrameOk(f: Frame, x: Endpoint, y: Endpoint) {
    && (f.p.Init? ==> f.p.can == Names(FLAGS, CAN_OPTIONS, |FLAGS|) && f.p.want == Names(FLAGS, x.cfg.options, |FLAGS|))
    && (f.p.InitAck? ==> Late(x))
    && (Request(f.p) ==> Late(x) && Late(y))
    && (!f.IsHex() ==> f.opts == Link(x, y) && Late(y))
  }

  /** What holds of endpoint x, whose peer is y. */
  predicate EndOk(x: Endpoint, y: Endpoint) {
    && Wanted(x.cfg.options)
    && x.rx.options == (if Late(x) then Link(x, y) else RXI_OPTIONS)
    && (if Late(x) then x.tx.options == Link(x, y) else x.tx.options == TXI_OPTIONS || x.tx.options == RXI_OPTIONS)
    && (x.tx.state >= HTX_RINIT ==> Late(y))
    && (x.tx.state > HTX_RINIT ==> Late(x))
  }

  predicate Agreed(s: System) {
    && EndOk(s.a, s.b) && EndOk(s.b, s.a)
    && (forall f | f in s.ab :: FrameOk(f, s.a, s.b))
    && (forall f | f in s.ba :: FrameOk(f, s.b, s.a))
  }

  /** The property itself, for the packets on one line. */
  predicate DecodedAsEncoded(line: seq<Frame>, receiver: Endpoint) {
    forall f | f in line :: !f.IsHex() ==> f.opts == receiver.rx.options
  }

  predicate OptionSafe(s: System) {
    DecodedAsEncoded(s.ab, s.b) && DecodedAsEncoded(s.ba, s.a)
  }

  // ----- one endpoint moves ------------------------------------------------

  /** Endpoint x moved to m.e and sent m.out, and everything about it still holds. */
  predicate Kept(x: Endpoint, m: Move, y: Endpoint) {
    && m.e.cfg == x.cfg
    && (Late(x) ==> Late(m.e))
    && EndOk(m.e, y)
    && (forall f | f in m.out :: FrameOk(f, m.e, y))
  }

  /** The move leaves the options and the progress of the handshake alone. */
  predicate Steady(x: Endpoint, e: Endpoint) {
    && e.cfg == x.cfg
    && e.rx.options == x.rx.options
    && e.tx.options == x.tx.options
    && (Late(x) <==> Late(e))
    && (e.tx.state >= HTX_RINIT ==> x.tx.state >= HTX_RINIT)
    && (e.tx.state > HTX_RINIT ==> x.tx.state > HTX_RINIT)
  }

  lemma KeptIfSteady(x: Endpoint, m: Move, y: Endpoint)
    requires EndOk(x, y) && Steady(x, m.e)
    requires forall f | f in m.out :: f.opts == x.tx.options && !f.p.Init?
    requires m.out != [] ==> Late(x) && Late(y)
    ensures Kept(x, m, y)
  {
  }

  lemma KeptByTransmit(x: Endpoint, y: Endpoint, env: Env)
    requires EndOk(x, y) && EndOk(y, x)
    ensures Kept(x, Transmit(x, env), y)
  {
    if x.tx.state != HTX_DONE {
      assert Steady(x, TransmitDev(x).e);
      KeptIfSteady(x, TransmitDev(x), y);
      KeptByTransmitTx(TransmitDev(x).e, y, env);
    }
  }

  lemma KeptByTransmitTx(x: Endpoint, y: Endpoint, env: Env)
    requires EndOk(x, y) && EndOk(y, x)
    ensures Kept(x, TransmitTx(x, env), y)
  {
    if x.tx.state == HTX_XDATA {
      TransmitDataIsSteady(x, env);
      KeptIfSteady(x, TransmitData(x, env), y);
    } else if x.tx.state > HTX_RINIT {
      TransmitIsSteady(x, env);
      KeptIfSteady(x, TransmitTx(x, env), y);
    } else {
      KeptByHandshake(x, y, env);
    }
  }

  lemma KeptByHandshake(x: Endpoint, y: Endpoint, env: Env)
    requires EndOk(x, y) && x.tx.state <= HTX_RINIT
    ensures Kept(x, TransmitTx(x, env), y)
  {
    var m := TransmitTx(x, env);
    if x.tx.state == HTX_INIT {
      KeptByInit(x, y, env);
    } else {
      assert Steady(x, m.e);
      assert m.out == [] || m.out == [Frame(Start, x.tx.options)];
    }
  }

  lemma KeptByInit(x: Endpoint, y: Endpoint, env: Env)
    requires EndOk(x, y) && x.tx.state == HTX_INIT
    ensures Kept(x, TransmitTx(x, env), y)
  {
    var m := TransmitTx(x, env);
    assert m.e.rx == x.rx && m.e.cfg == x.cfg && m.e.tx.options == x.rx.options && m.e.tx.state == HTX_INITACK;
    assert |m.out| == 1 && m.out[0].p.Init? && m.out[0].IsHex();
  }

  lemma TransmitIsSteady(x: Endpoint, env: Env)
    requires x.tx.state > HTX_RINIT && x.tx.state != HTX_XDATA
    ensures Steady(x, TransmitTx(x, env).e)
    ensures forall f | f in TransmitTx(x, env).out :: f.opts == x.tx.options && !f.p.Init?
  {
  }

  lemma TransmitDataIsSteady(x: Endpoint, env: Env)
    requires x.tx.state == HTX_XDATA
    ensures Steady(x, TransmitData(x, env).e)
    ensures forall f | f in TransmitData(x, env).out :: f.opts == x.tx.options && !f.p.Init?
  {
  }

  lemma KeptByOnInit(x: Endpoint, y: Endpoint, f: Frame)
    requires EndOk(x, y) && EndOk(y, x) && FrameOk(f, y, x) && f.p.Init?
    ensures Kept(x, OnInit(x, f.p), y)
  {
    hide ReadInit, InitBody, Names;
    NamesRead(y.cfg.options, f.p.txwindow, f.p.rxwindow);
    NegotiationAgrees(x.cfg.options, y.cfg.options);
  }

  lemma KeptByControl(x: Endpoint, y: Endpoint, f: Frame, env: Env)
    requires EndOk(x, y) && EndOk(y, x) && FrameOk(f, y, x)
    ensures f.p.Start? ==> Kept(x, OnStart(x), y)
    ensures f.p.InitAck? ==> Kept(x, OnInitAck(x), y)
    ensures f.p.Idle? ==> Kept(x, OnIdle(x), y)
    ensures f.p.End? ==> Kept(x, OnEnd(x, env), y)
  {
  }

  lemma KeptByAck(x: Endpoint, y: Endpoint, f: Frame, env: Env)
    requires EndOk(x, y) && EndOk(y, x) && FrameOk(f, y, x)
    ensures f.p.FInfoAck? ==> Kept(x, OnFInfoAck(x, f.p.pos, env), y)
    ensures f.p.DataAck? ==> Kept(x, OnDataAck(x, f.p.pos), y)
    ensures f.p.EofAck? ==> Kept(x, OnEofAck(x), y)
  {
    hide Kept, OnFInfoAck, OnDataAck, OnEofAck;
    if f.p.FInfoAck? {
      KeptByFInfoAck(x, y, f.p.pos, env);
    } else if f.p.DataAck? {
      KeptByDataAck(x, y, f.p.pos);
    } else if f.p.EofAck? {
      KeptByEofAck(x, y);
    }
  }

  lemma KeptByFInfoAck(x: Endpoint, y: Endpoint, pos: int, env: Env)
    requires EndOk(x, y)
    ensures Kept(x, OnFInfoAck(x, pos, env), y)
  {
    hide LinkOptions, Names;
  }

  lemma KeptByDataAck(x: Endpoint, y: Endpoint, pos: int)
    requires EndOk(x, y)
    ensures Kept(x, OnDataAck(x, pos), y)
  {
    hide LinkOptions, Names;
  }

  lemma KeptByEofAck(x: Endpoint, y: Endpoint)
    requires EndOk(x, y)
    ensures Kept(x, OnEofAck(x), y)
  {
    hide LinkOptions, Names;
  }

  lemma KeptByRPos(x: Endpoint, y: Endpoint, f: Frame, env: Env)
    requires EndOk(x, y) && f.p.RPos?
    ensures Kept(x, OnRPos(x, f.p.pos, f.p.blklen, f.p.syncid, env), y)
  {
    RPosIsSteady(x, f.p.pos, f.p.blklen, f.p.syncid, env);
    KeptIfSteady(x, OnRPos(x, f.p.pos, f.p.blklen, f.p.syncid, env), y);
  }

  lemma RPosIsSteady(x: Endpoint, pos: int, blklen: int, syncid: int, env: Env)
    ensures Steady(x, OnRPos(x, pos, blklen, syncid, env).e) && OnRPos(x, pos, blklen, syncid, env).out == []
  {
    hide Shrunk;
  }

  lemma KeptByFInfoOrDev(x: Endpoint, y: Endpoint, f: Frame, env: Env)
    requires EndOk(x, y) && EndOk(y, x) && FrameOk(f, y, x)
    ensures f.p.FInfo? ==> Kept(x, OnFInfo(x, f.p.endOfBatch, env), y)
    ensures f.p.DevSend? ==> Kept(x, OnDevSend(x, f.p.id, f.p.msg), y)
    ensures f.p.DevAck? ==> Kept(x, OnDevAck(x, f.p.id), y)
  {
    hide Kept, OnFInfo, OnDevSend, OnDevAck;
    if f.p.FInfo? {
      KeptByFInfo(x, y, f.p.endOfBatch, env);
    } else if f.p.DevSend? {
      KeptByDevSend(x, y, f.p.id, f.p.msg);
    } else if f.p.DevAck? {
      KeptByDevAck(x, y, f.p.id);
    }
  }

  lemma KeptByFInfo(x: Endpoint, y: Endpoint, endOfBatch: bool, env: Env)
    requires EndOk(x, y) && Late(x) && Late(y)
    ensures Kept(x, OnFInfo(x, endOfBatch, env), y)
  {
    hide LinkOptions, Names;
  }

  lemma KeptByDevSend(x: Endpoint, y: Endpoint, id: int, msg: DevMsg)
    requires EndOk(x, y) && Late(x) && Late(y)
    ensures Kept(x, OnDevSend(x, id, msg), y)
  {
    hide LinkOptions, Names;
  }

  lemma KeptByDevAck(x: Endpoint, y: Endpoint, id: int)
    requires EndOk(x, y)
    ensures Kept(x, OnDevAck(x, id), y)
  {
    hide LinkOptions, Names;
  }

  lemma KeptByData(x: Endpoint, y: Endpoint, f: Frame, env: Env)
    requires EndOk(x, y) && FrameOk(f, y, x) && f.p.Data?
    ensures Kept(x, OnData(x, f.p.pos, f.p.bytes, env), y)
  {
    DataIsSteady(x, f.p.pos, f.p.bytes, env);
    KeptIfSteady(x, OnData(x, f.p.pos, f.p.bytes, env), y);
  }

  lemma KeptByEof(x: Endpoint, y: Endpoint, f: Frame, env: Env)
    requires EndOk(x, y) && FrameOk(f, y, x) && f.p.Eof?
    ensures Kept(x, OnEof(x, f.p.pos, env), y)
  {
    EofIsSteady(x, f.p.pos, env);
    KeptIfSteady(x, OnEof(x, f.p.pos, env), y);
  }

  /** The move keeps to its options and sends packets under them. */
  predicate Quiet(x: Endpoint, m: Move) {
    Steady(x, m.e) && forall f | f in m.out :: f.opts == x.tx.options && !f.p.Init?
  }

  lemma ResyncIsSteady(x: Endpoint)
    ensures Quiet(x, Resync(x))
  {
  }

  lemma BadDataIsSteady(x: Endpoint, pos: int, env: Env)
    ensures Quiet(x, OnBadData(x, pos, env))
  {
    var noted := x.(rx := NoteBadPos(x.rx, pos));
    ResyncIsSteady(noted);
    ResyncIsSteady(noted.(hdxlink := true, rx := noted.rx.(retries := 0)));
  }

  lemma DataIsSteady(x: Endpoint, pos: int, bytes: Bytes, env: Env)
    ensures Quiet(x, OnData(x, pos, bytes, env))
  {
    BadDataIsSteady(x, pos, env);
  }

  lemma EofIsSteady(x: Endpoint, pos: int, env: Env)
    ensures Quiet(x, OnEof(x, pos, env))
  {
    hide Resync;
    ResyncIsSteady(x.(rx := NoteBadPos(x.rx, pos)));
    assert x.rx.state.RxData? ==> Quiet(x, OnEofInData(x, pos, env));
  }

  lemma KeptByPacket(x: Endpoint, y: Endpoint, f: Frame, env: Env)
    requires EndOk(x, y) && EndOk(y, x) && FrameOk(f, y, x)
    ensures Kept(x, OnPacket(x, f.p, env), y)
  {
    match f.p
    case Init(_, _, _, _) => KeptByOnInit(x, y, f);
    case Data(_, _) => KeptByData(x, y, f, env);
    case Eof(_) => KeptByEof(x, y, f, env);
    case RPos(_, _, _) => KeptByRPos(x, y, f, env);
    case FInfoAck(_) => KeptByAck(x, y, f, env);
    case DataAck(_) => KeptByAck(x, y, f, env);
    case EofAck => KeptByAck(x, y, f, env);
    case FInfo(_) => KeptByFInfoOrDev(x, y, f, env);
    case DevSend(_, _) => KeptByFInfoOrDev(x, y, f, env);
    case DevAck(_) => KeptByFInfoOrDev(x, y, f, env);
    case Start => KeptByControl(x, y, f, env);
    case InitAck => KeptByControl(x, y, f, env);
    case Idle => KeptByControl(x, y, f, env);
    case End => KeptByControl(x, y, f, env);
  }

  lemma KeptByEvent(x: Endpoint, y: Endpoint, ev: Event, f: Frame, env: Env)
    requires EndOk(x, y) && EndOk(y, x)
    requires ev.Received? ==> FrameOk(f, y, x) && ev.p == f.p
    ensures Kept(x, OnEvent(x, ev, env), y)
  {
    match ev
    case Received(_) => KeptByPacket(x, y, f, env);
    case TxTimeout => KeptByTxTimeout(x, y);
    case DevTimeout =>
      assert Steady(x, OnDevTimeout(x).e);
      KeptIfSteady(x, OnDevTimeout(x), y);
    case Fatal =>
      assert Steady(x, Finish(x, Aborted));
      KeptIfSteady(x, Stay(Finish(x, Aborted)), y);
  }

  lemma KeptByTxTimeout(x: Endpoint, y: Endpoint)
    requires EndOk(x, y)
    ensures Kept(x, OnTxTimeout(x), y)
  {
    assert Steady(x, OnTxTimeout(x).e);
  }

  lemma KeptAfterEvent(x: Endpoint, y: Endpoint, env: Env)
    requires EndOk(x, y)
    ensures EndOk(AfterEvent(x, env), y) && AfterEvent(x, env).cfg == x.cfg && AfterEvent(x, env).rx == x.rx
  {
  }

  // ----- the system --------------------------------------------------------

  lemma AgreedStepA(s: System, action: Action, env: Env)
    requires Agreed(s) && (action.Arrive? || action.Lose? ==> s.ba != [])
    ensures Agreed(StepA(s, action, env))
  {
    var m := Act(s.a, s.ba, action, env);
    match action {
      case Pass => KeptByTransmit(s.a, s.b, env);
      case Arrive => KeptByReceive(s.a, s.b, Received(s.ba[0].p), s.ba[0], env);
      case TxExpires => KeptByReceive(s.a, s.b, TxTimeout, Frame(Start, {}), env);
      case DevExpires => KeptByReceive(s.a, s.b, DevTimeout, Frame(Start, {}), env);
      case Break => KeptByReceive(s.a, s.b, Fatal, Frame(Start, {}), env);
      case Lose =>
      case Queue(msg) =>
    }
    assert Kept(s.a, m, s.b);
    var line := Consumed(s.ba, action);
    forall f | f in s.ab + m.out ensures FrameOk(f, m.e, s.b) {
      if f in s.ab {
      }
    }
    forall f | f in line ensures FrameOk(f, s.b, m.e) {
      assert f in s.ba;
    }
  }

  lemma KeptByReceive(x: Endpoint, y: Endpoint, ev: Event, f: Frame, env: Env)
    requires EndOk(x, y) && EndOk(y, x)
    requires ev.Received? ==> FrameOk(f, y, x) && ev.p == f.p
    ensures Kept(x, Receive(x, ev, env), y)
  {
    if x.tx.state != HTX_DONE {
      KeptByEvent(x, y, ev, f, env);
      KeptAfterEvent(OnEvent(x, ev, env).e, y, env);
    }
  }

  lemma AgreedStep(s: System, l: Label)
    requires Agreed(s)
    ensures Agreed(Step(s, l))
  {
    if Possible(s, l) {
      if l.side == A {
        AgreedStepA(s, l.action, l.env);
      } else {
        AgreedStepA(Flip(s), l.action, l.env);
      }
    }
  }

  lemma {:induction false} AgreedRun(u: Setup, ls: seq<Label>)
    requires GoodSetup(u) && !u.firstA.OpenFails? && !u.firstB.OpenFails?
    ensures Agreed(Run(Begin(u), ls))
    decreases |ls|
  {
    if ls != [] {
      AgreedRun(u, ls[..|ls| - 1]);
      AgreedStep(Run(Begin(u), ls[..|ls| - 1]), ls[|ls| - 1]);
    }
  }

  /** The handshake can be skipped: when the first file cannot be opened, the next call of
      hydra() starts at HTX_FINFO, and the FINFO packet goes out in binary to a receiver that
      still strips the eighth bit. */
  lemma SkippedHandshake(u: Setup, env: Env)
    requires u.firstA.OpenFails? && !env.accept.Open?
    ensures !OptionSafe(Run(Begin(u), [Label(A, Pass, env)]))
  {
    var l := Label(A, Pass, env);
    assert [l][..0] == [];
    var s := Step(Begin(u), l);
    assert Run(Begin(u), [l]) == s;
    assert s.ab == [] + [Frame(FInfo(true), TXI_OPTIONS)];
    assert s.ab[0] in s.ab;
  }

  /** Option agreement holds in every state of every run exactly when the first file of each
      side, if it has one, can be opened. */
  lemma OptionAgreement(u: Setup)
    requires GoodSetup(u)
    ensures (forall ls :: OptionSafe(Run(Begin(u), ls))) <==> !u.firstA.OpenFails? && !u.firstB.OpenFails?
  {
    if !u.firstA.OpenFails? && !u.firstB.OpenFails? {
      forall ls ensures OptionSafe(Run(Begin(u), ls)) {
        AgreedRun(u, ls);
      }
    } else {
      var env := Env(false, true, true, Wrote(0), false, false, CannotOpen);
      if u.firstA.OpenFails? {
        SkippedHandshake(u, env);
      } else {
        SkippedHandshake(FlipSetup(u), env);
        RunFlips(FlipSetup(u), [Label(A, Pass, env)]);
        assert FlipSetup(FlipSetup(u)) == u;
        assert !OptionSafe(Run(Begin(u), FlipLabels([Label(A, Pass, env)])));
      }
    }
  }
}
