/** The transmission windows. Each side is meant to send with the window that the other acknowledges
    by; whether it does depends on how many options the two operators have asked for, since the
    windows are looked for behind a string that has been cut into names. */
module HydraWindows {
  import opened Bits
  import opened HydraTypes
  import opened HydraText
  import opened HydraFlags
  import opened HydraInit
  import opened HydraEndpoint
  import opened HydraSystem

  /** The INIT packet of a side with this configuration. */
  function InitOf(cfg: Config): Packet {
    Init(Names(FLAGS, CAN_OPTIONS, |FLAGS|), Names(FLAGS, cfg.options, |FLAGS|), cfg.txwindow, cfg.rxwindow)
  }

  /** Windows and prefix of x once it has taken the INIT packet of y, and the prefix before that. */
  predicate WindowsSet(x: Endpoint, y: Endpoint) {
    if x.rx.state == RxInit then x.tx.prefix == "" && x.rx.window == 0
    else
      var f := Said(InitOf(y.cfg));
      && x.rx.window == Window(f.txwindow, x.cfg.rxwindow) && x.tx.window == Window(f.rxwindow, x.cfg.txwindow)
      && x.tx.prefix == f.prefix
  }

  /** An INIT packet carries what x is configured with. */
  predicate Announces(line: seq<Frame>, x: Endpoint) {
    forall f | f in line :: f.p.Init? ==> f.p == InitOf(x.cfg)
  }

  predicate WindowInv(s: System) {
    WindowsSet(s.a, s.b) && WindowsSet(s.b, s.a) && Announces(s.ab, s.a) && Announces(s.ba, s.b)
  }

  /** The move leaves windows, prefix and handshake alone. */
  predicate Same(x: Endpoint, e: Endpoint) {
    && e.cfg == x.cfg && e.rx.window == x.rx.window && e.tx.window == x.tx.window && e.tx.prefix == x.tx.prefix
    && (e.rx.state == RxInit <==> x.rx.state == RxInit)
  }

  /** Positions are acknowledged only by a side that has a window. */
  predicate AcksNothing(line: seq<Frame>) {
    forall f | f in line :: !f.p.DataAck?
  }

  predicate SameMove(x: Endpoint, m: Move) {
    Same(x, m.e) && Announces(m.out, x) && (x.rx.window == 0 ==> AcksNothing(m.out))
  }

  lemma SameTransmit(x: Endpoint, env: Env)
    ensures SameMove(x, Transmit(x, env))
  {
    hide TransmitDev, TransmitTx;
    if x.tx.state != HTX_DONE {
      var d := TransmitDev(x);
      SameTransmitDev(x);
      SameTransmitTx(d.e, env);
    }
  }

  lemma SameTransmitDev(x: Endpoint)
    ensures SameMove(x, TransmitDev(x))
  {
    hide InitOf;
  }

  lemma SameTransmitTx(x: Endpoint, env: Env)
    ensures SameMove(x, TransmitTx(x, env))
  {
    hide TransmitData, Names;
    SameData(x, env);
  }

  lemma SameData(x: Endpoint, env: Env)
    ensures SameMove(x, TransmitData(x, env))
  {
    hide InitOf;
  }

  lemma SameResync(x: Endpoint)
    ensures SameMove(x, Resync(x))
  {
    hide InitOf;
  }

  lemma SameOnData(x: Endpoint, pos: int, bytes: Bytes, env: Env)
    ensures SameMove(x, OnData(x, pos, bytes, env))
  {
    hide Resync, InitOf;
    var noted := x.(rx := NoteBadPos(x.rx, pos));
    SameResync(noted);
    SameResync(noted.(hdxlink := true, rx := noted.rx.(retries := 0)));
  }

  lemma SameOnEof(x: Endpoint, pos: int, env: Env)
    ensures SameMove(x, OnEof(x, pos, env))
  {
    hide Resync, InitOf;
    SameResync(x.(rx := NoteBadPos(x.rx, pos)));
  }

  lemma SameOnRPos(x: Endpoint, pos: int, blklen: int, syncid: int, env: Env)
    ensures SameMove(x, OnRPos(x, pos, blklen, syncid, env))
  {
    hide SameMove, OnRPos;
    if !Sending(x.tx.state) || syncid == x.tx.syncid || pos < 0 {
      SameOnRPosOnly(x, pos, blklen, syncid, env);
    } else {
      SameOnReposition(x, pos, blklen, syncid, env);
    }
  }

  lemma SameOnRPosOnly(x: Endpoint, pos: int, blklen: int, syncid: int, env: Env)
    requires !Sending(x.tx.state) || syncid == x.tx.syncid || pos < 0
    ensures SameMove(x, OnRPos(x, pos, blklen, syncid, env))
  {
    hide InitOf, Shrunk;
  }

  lemma SameOnReposition(x: Endpoint, pos: int, blklen: int, syncid: int, env: Env)
    requires Sending(x.tx.state) && syncid != x.tx.syncid && pos >= 0
    ensures SameMove(x, OnRPos(x, pos, blklen, syncid, env))
  {
    hide InitOf, Shrunk;
  }

  lemma SameOnFInfo(x: Endpoint, endOfBatch: bool, env: Env)
    ensures SameMove(x, OnFInfo(x, endOfBatch, env))
  {
    hide InitOf;
  }

  lemma SameOnFInfoAck(x: Endpoint, pos: int, env: Env)
    ensures SameMove(x, OnFInfoAck(x, pos, env))
  {
    hide InitOf;
  }

  lemma SameSession(x: Endpoint, env: Env)
    ensures SameMove(x, OnStart(x)) && SameMove(x, OnInitAck(x)) && SameMove(x, OnIdle(x)) && SameMove(x, OnEnd(x, env))
  {
    hide InitOf;
  }

  lemma SameAcks(x: Endpoint, pos: int)
    ensures SameMove(x, OnDataAck(x, pos)) && SameMove(x, OnEofAck(x))
  {
    hide InitOf;
  }

  lemma SameDev(x: Endpoint, id: int, msg: DevMsg)
    ensures SameMove(x, OnDevSend(x, id, msg)) && SameMove(x, OnDevAck(x, id))
  {
    hide InitOf;
  }

  lemma SamePacket(x: Endpoint, p: Packet, env: Env)
    requires !p.Init?
    ensures SameMove(x, OnPacket(x, p, env))
  {
    hide SameMove, OnData, OnEof, OnRPos, OnFInfo, OnFInfoAck, OnStart, OnInitAck, OnIdle, OnEnd;
    hide OnDataAck, OnEofAck, OnDevSend, OnDevAck;
    match p
    case Data(pos, bytes) => SameOnData(x, pos, bytes, env);
    case Eof(pos) => SameOnEof(x, pos, env);
    case RPos(pos, blklen, syncid) => SameOnRPos(x, pos, blklen, syncid, env);
    case FInfo(endOfBatch) => SameOnFInfo(x, endOfBatch, env);
    case FInfoAck(pos) => SameOnFInfoAck(x, pos, env);
    case DataAck(pos) => SameAcks(x, pos);
    case EofAck => SameAcks(x, 0);
    case DevSend(id, msg) => SameDev(x, id, msg);
    case DevAck(id) => SameDev(x, id, x.dev.msg);
    case _ => SameSession(x, env);
  }

  lemma SameTimeout(x: Endpoint, ev: Event, env: Env)
    requires !ev.Received?
    ensures SameMove(x, OnEvent(x, ev, env))
  {
    hide InitOf;
  }

  lemma SameAfter(x: Endpoint, env: Env)
    ensures Same(x, AfterEvent(x, env))
  {
  }

  /** The INIT packet sets windows and prefix, or the session ends, or nothing happens. */
  lemma InitSets(x: Endpoint, y: Endpoint)
    requires WindowsSet(x, y)
    ensures var m := OnInit(x, InitOf(y.cfg));
      && m.e.cfg == x.cfg && WindowsSet(m.e, y) && Announces(m.out, x) && AcksNothing(m.out) && !m.returned
  {
    hide Window, Said, InitOf, Negotiated, Incompatible;
  }

  lemma InvReceive(s: System, ev: Event, env: Env, ba: seq<Frame>)
    requires WindowInv(s) && (forall f | f in ba :: f in s.ba)
    requires ev.Received? && ev.p.Init? ==> ev.p == InitOf(s.b.cfg)
    ensures var m := Receive(s.a, ev, env); WindowInv(System(m.e, s.b, s.ab + m.out, ba))
  {
    hide OnPacket, OnInit, AfterEvent, Said, InitOf, Window;
    if s.a.tx.state != HTX_DONE {
      if ev.Received? && ev.p.Init? {
        assert OnPacket(s.a, ev.p, env) == OnInit(s.a, ev.p) by { InitIsInit(s.a, ev.p, env); }
        InitSets(s.a, s.b);
      } else if ev.Received? {
        SamePacket(s.a, ev.p, env);
      } else {
        SameTimeout(s.a, ev, env);
      }
      SameAfter(OnEvent(s.a, ev, env).e, env);
    }
  }

  lemma InitIsInit(x: Endpoint, p: Packet, env: Env)
    requires p.Init?
    ensures OnPacket(x, p, env) == OnInit(x, p)
  {
  }

  lemma InvStepA(s: System, action: Action, env: Env)
    requires WindowInv(s) && (action.Arrive? || action.Lose? ==> s.ba != [])
    ensures WindowInv(StepA(s, action, env))
  {
    hide Receive, Transmit, DevQueue, Said, InitOf, Window;
    match action {
      case Pass => SameTransmit(s.a, env);
      case Arrive =>
        assert s.ba[0] in s.ba;
        InvReceive(s, Received(s.ba[0].p), env, s.ba[1..]);
      case TxExpires => InvReceive(s, TxTimeout, env, s.ba);
      case DevExpires => InvReceive(s, DevTimeout, env, s.ba);
      case Break => InvReceive(s, Fatal, env, s.ba);
      case Lose =>
      case Queue(msg) => QueueSame(s.a, msg);
    }
  }

  lemma QueueSame(x: Endpoint, msg: DevMsg)
    ensures Same(x, DevQueue(x, msg))
  {
  }

  lemma {:induction false} WindowRun(u: Setup, ls: seq<Label>)
    ensures WindowInv(Run(Begin(u), ls))
    decreases |ls|
  {
    hide StepA, Said, InitOf;
    if ls != [] {
      var s, l := Run(Begin(u), ls[..|ls| - 1]), ls[|ls| - 1];
      WindowRun(u, ls[..|ls| - 1]);
      if Possible(s, l) {
        if l.side == A {
          InvStepA(s, l.action, l.env);
        } else {
          InvStepA(Flip(s), l.action, l.env);
        }
      }
    }
  }

  lemma {:induction false} SameConfigs(u: Setup, ls: seq<Label>)
    ensures var s := Run(Begin(u), ls); s.a.cfg == u.cfgA && s.b.cfg == u.cfgB
    decreases |ls|
  {
    hide StepA;
    if ls != [] {
      var s, l := Run(Begin(u), ls[..|ls| - 1]), ls[|ls| - 1];
      SameConfigs(u, ls[..|ls| - 1]);
      if Possible(s, l) {
        ConfigStays(if l.side == A then s else Flip(s), l.action, l.env);
      }
    }
  }

  lemma ConfigStays(s: System, action: Action, env: Env)
    requires action.Arrive? || action.Lose? ==> s.ba != []
    ensures StepA(s, action, env).a.cfg == s.a.cfg && StepA(s, action, env).b == s.b
  {
    hide Receive, Transmit, DevQueue;
    match action {
      case Pass => SameTransmit(s.a, env);
      case Arrive => ReceiveConfig(s.a, Received(s.ba[0].p), env);
      case TxExpires => ReceiveConfig(s.a, TxTimeout, env);
      case DevExpires => ReceiveConfig(s.a, DevTimeout, env);
      case Break => ReceiveConfig(s.a, Fatal, env);
      case Lose =>
      case Queue(msg) => QueueSame(s.a, msg);
    }
  }

  lemma ReceiveConfig(x: Endpoint, ev: Event, env: Env)
    ensures Receive(x, ev, env).e.cfg == x.cfg
  {
    hide OnPacket, AfterEvent;
    if x.tx.state != HTX_DONE {
      if ev.Received? && ev.p.Init? {
        InitConfig(x, ev.p, env);
      } else if ev.Received? {
        SamePacket(x, ev.p, env);
      } else {
        SameTimeout(x, ev, env);
      }
      SameAfter(OnEvent(x, ev, env).e, env);
    }
  }

  lemma InitConfig(x: Endpoint, p: Packet, env: Env)
    requires p.Init?
    ensures OnPacket(x, p, env).e.cfg == x.cfg
  {
    hide Window;
  }

  // ----- the windows of a session ------------------------------------------

  /** The operators' limits are longs and not negative, as the program reads them. */
  predicate GoodLimits(u: Setup) {
    && 0 <= u.cfgA.txwindow && InLong(u.cfgA.txwindow) && 0 <= u.cfgA.rxwindow && InLong(u.cfgA.rxwindow)
    && 0 <= u.cfgB.txwindow && InLong(u.cfgB.txwindow) && 0 <= u.cfgB.rxwindow && InLong(u.cfgB.rxwindow)
  }

  predicate Late(x: Endpoint) {
    x.rx.state != RxInit
  }

  /** Each side sends with the window that the other acknowledges by. */
  predicate OneWindow(x: Endpoint, y: Endpoint) {
    x.tx.window == y.rx.window && y.tx.window == x.rx.window
  }

  /** What the peer of a side with this configuration reads for its windows. */
  function Read(cfg: Config): Limits {
    AsRead(cfg.options, cfg.txwindow, cfg.rxwindow)
  }

  /** The window that x sends with is the one that y acknowledges by. With at most one option wanted
      on each side that is always so. A side that wants more announces 12 instead of its limit for
      sending, or nothing, and nothing for receiving. */
  predicate SameLimit(x: Config, y: Config) {
    var t, r := x.txwindow, y.rxwindow;
    if |x.options| <= 1 then |y.options| <= 1 || r == 0 || 0 < t <= r
    else if !SecondIsCtl(x.options) then
      if |y.options| <= 1 then t == 0 || 0 < r <= t else t == r
    else if |y.options| <= 1 then
      if 0 < r <= 12 then t == 0 || r <= t else t == 12
    else t == if 0 < r <= 12 then r else 12
  }

  lemma SameLimitIs(x: Config, y: Config)
    requires x.txwindow >= 0 && y.rxwindow >= 0
    ensures Window(Read(y).rxwindow, x.txwindow) == Window(Read(x).txwindow, y.rxwindow) <==> SameLimit(x, y)
  {
    hide SecondIsCtl;
  }

  lemma ReadIs(cfg: Config)
    requires Wanted(cfg.options) && InLong(cfg.txwindow) && InLong(cfg.rxwindow)
    ensures var f := Said(InitOf(cfg));
      && f.txwindow == Read(cfg).txwindow && f.rxwindow == Read(cfg).rxwindow
      && f.prefix == PrefixRead(cfg.options, cfg.txwindow, cfg.rxwindow)
  {
    hide Names, ReadInit, InitBody, InLong, AsRead, PrefixRead;
    InitRead(cfg.options, cfg.txwindow, cfg.rxwindow, []);
    var body := InitBody(InitOf(cfg).can, InitOf(cfg).want, cfg.txwindow, cfg.rxwindow);
    assert body + [] == body;
  }

  /** In every state of every run, once both sides have taken the other's INIT packet: the windows
      are the smaller of a side's own limit and what it has read, zero meaning none; and each side
      sends with exactly the window that the other acknowledges by if and only if the limits and
      options of the two operators allow it. */
  lemma WindowAgreement(u: Setup, ls: seq<Label>)
    requires GoodSetup(u) && GoodLimits(u)
    ensures var s := Run(Begin(u), ls);
      Late(s.a) && Late(s.b) ==>
        && s.a.tx.window == Window(Read(u.cfgB).rxwindow, u.cfgA.txwindow)
        && s.a.rx.window == Window(Read(u.cfgB).txwindow, u.cfgA.rxwindow)
        && s.b.tx.window == Window(Read(u.cfgA).rxwindow, u.cfgB.txwindow)
        && s.b.rx.window == Window(Read(u.cfgA).txwindow, u.cfgB.rxwindow)
        && (OneWindow(s.a, s.b) <==> SameLimit(u.cfgA, u.cfgB) && SameLimit(u.cfgB, u.cfgA))
  {
    hide Run, Begin, Announces, Said, InitOf, Read, Window, SameLimit, InLong;
    WindowRun(u, ls);
    SameConfigs(u, ls);
    assert Wanted(u.cfgA.options) && Wanted(u.cfgB.options);
    ReadIs(u.cfgA);
    ReadIs(u.cfgB);
    SameLimitIs(u.cfgA, u.cfgB);
    SameLimitIs(u.cfgB, u.cfgA);
  }

  /** What is sent before every packet: nothing until the other's INIT packet has been taken, and
      then what was read from it. It is letters and digits. */
  lemma PrefixRun(u: Setup, ls: seq<Label>)
    requires GoodSetup(u) && GoodLimits(u)
    ensures var s := Run(Begin(u), ls);
      && s.a.tx.prefix == (if Late(s.a) then PrefixRead(u.cfgB.options, u.cfgB.txwindow, u.cfgB.rxwindow) else "")
      && HarmlessPrefix(s.a.tx.prefix)
  {
    hide Run, Begin, Announces, Said, InitOf, Read, Window, InLong, HarmlessPrefix, PrefixRead;
    WindowRun(u, ls);
    SameConfigs(u, ls);
    assert Wanted(u.cfgB.options);
    ReadIs(u.cfgB);
    PrefixIsHarmless(u.cfgB.options, u.cfgB.txwindow, u.cfgB.rxwindow);
    NoPrefix();
  }

  lemma NoPrefix()
    ensures HarmlessPrefix("")
  {
  }
}
