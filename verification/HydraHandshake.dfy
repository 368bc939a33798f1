/** The option handshake can always be completed, and two sessions in which the windows of the two
    sides then differ. */
module HydraHandshake {
  import opened HydraTypes
  import opened HydraText
  import opened HydraFlags
  import opened HydraInit
  import opened HydraEndpoint
  import opened HydraSystem
  import opened HydraWindows

  const QUIET := Env(false, true, true, Wrote(0), false, false, CannotOpen)

  /** START to B, INIT to A, INIT to B. */
  const HANDSHAKE := [
    Label(A, Pass, QUIET), Label(B, Arrive, QUIET), Label(B, Pass, QUIET), Label(A, Arrive, QUIET),
    Label(A, Pass, QUIET), Label(B, Arrive, QUIET), Label(B, Arrive, QUIET)]

  /** How far a side has come. */
  predicate In(e: Endpoint, cfg: Config, state: int, rx: RxState) {
    && e.cfg == cfg && e.tx.state == state && e.rx.state == rx && e.dev.state == DevDone
    && e.tx.open == e.tx.named && e.tx.retries == 0
  }

  /** Nothing has happened yet to files: only how far the handshake is and what it has settled differs. */
  predicate NoFiles(e: Endpoint, after: Endpoint) {
    && after == e.(tx := after.tx, rx := after.rx)
    && after.tx == e.tx.(state := after.tx.state, options := after.tx.options, window := after.tx.window,
                         prefix := after.tx.prefix, retries := after.tx.retries, timer := after.tx.timer)
    && after.rx == e.rx.(state := after.rx.state, options := after.rx.options, window := after.rx.window)
  }

  lemma NoFilesTwice(e: Endpoint, f: Endpoint, g: Endpoint)
    requires NoFiles(e, f) && NoFiles(f, g)
    ensures NoFiles(e, g)
  {
  }

  /** The packet is the only one sent. */
  predicate Only(out: seq<Frame>, p: Packet) {
    |out| == 1 && out[0].p == p
  }

  // ----- the moves ---------------------------------------------------------

  lemma SendsStart(e: Endpoint)
    requires In(e, e.cfg, HTX_START, RxInit)
    ensures var m := Transmit(e, QUIET); In(m.e, e.cfg, HTX_SWAIT, RxInit) && Only(m.out, Start) && NoFiles(e, m.e)
  {
  }

  lemma TakesStart(e: Endpoint)
    requires In(e, e.cfg, HTX_START, RxInit)
    ensures var m := Receive(e, Received(Start), QUIET);
      In(m.e, e.cfg, HTX_INIT, RxInit) && m.out == [] && NoFiles(e, m.e)
  {
  }

  lemma SendsInit(e: Endpoint)
    requires In(e, e.cfg, HTX_INIT, e.rx.state)
    ensures var m := Transmit(e, QUIET);
      In(m.e, e.cfg, HTX_INITACK, e.rx.state) && Only(m.out, InitOf(e.cfg)) && NoFiles(e, m.e)
  {
    hide Names;
  }

  lemma TakesInitAck(e: Endpoint)
    requires In(e, e.cfg, HTX_INITACK, RxInit)
    ensures var m := Receive(e, Received(InitAck), QUIET);
      In(m.e, e.cfg, HTX_RINIT, RxInit) && m.out == [] && NoFiles(e, m.e)
  {
  }

  lemma TakesInit(e: Endpoint, peer: Config)
    requires In(e, e.cfg, e.tx.state, RxInit) && Wanted(e.cfg.options) && Wanted(peer.options)
    requires e.tx.state == HTX_SWAIT || e.tx.state == HTX_RINIT
    ensures var m := Receive(e, Received(InitOf(peer)), QUIET);
      && In(m.e, e.cfg, if e.tx.state == HTX_SWAIT then HTX_INIT else HTX_FINFO, RxFInfo)
      && Only(m.out, InitAck) && NoFiles(e, m.e)
  {
    hide Names, ReadInit, InitBody, Negotiated, Incompatible, Window;
    NamesRead(peer.options, peer.txwindow, peer.rxwindow);
    NegotiationAgrees(e.cfg.options, peer.options);
  }

  // ----- the run -----------------------------------------------------------

  lemma RunSteps(s: System, a: seq<Label>)
    requires |a| == 7
    ensures Run(s, a) == Step(Step(Step(Step(Step(Step(Step(s, a[0]), a[1]), a[2]), a[3]), a[4]), a[5]), a[6])
  {
    hide Step;
    assert a[..7] == a && a[..1][..0] == [] && Run(s, []) == s;
    assert a[..7][..6] == a[..6] && a[..6][..5] == a[..5] && a[..5][..4] == a[..4];
    assert a[..4][..3] == a[..3] && a[..3][..2] == a[..2] && a[..2][..1] == a[..1];
    assert Run(s, a[..1]) == Step(Run(s, []), a[0]);
    assert Run(s, a[..2]) == Step(Run(s, a[..1]), a[1]);
    assert Run(s, a[..3]) == Step(Run(s, a[..2]), a[2]);
    assert Run(s, a[..4]) == Step(Run(s, a[..3]), a[3]);
    assert Run(s, a[..5]) == Step(Run(s, a[..4]), a[4]);
    assert Run(s, a[..6]) == Step(Run(s, a[..5]), a[5]);
  }

  lemma {:induction false} RunOn(s: System, a: seq<Label>, b: seq<Label>)
    ensures Run(s, a + b) == Run(Run(s, a), b)
    decreases |b|
  {
    hide Step;
    if b == [] {
      assert a + b == a;
    } else {
      assert (a + b)[..|a + b| - 1] == a + b[..|b| - 1];
      RunOn(s, a, b[..|b| - 1]);
    }
  }

  lemma RunsOne(s: System, l: Label)
    ensures Run(s, [l]) == Step(s, l)
  {
    hide Step;
    assert [l][..0] == [] && Run(s, []) == s;
  }

  lemma StartIn(cfg: Config, first: FirstCall, msg: DevMsg)
    requires !first.OpenFails?
    ensures In(StartSession(cfg, first, msg), cfg, HTX_START, RxInit)
  {
  }

  /** Whatever the two operators ask for, the handshake can be completed. */
  lemma HandshakeRun(u: Setup)
    requires GoodSetup(u) && !u.firstA.OpenFails? && !u.firstB.OpenFails?
    ensures var s := Run(Begin(u), HANDSHAKE);
      && In(s.a, u.cfgA, HTX_INITACK, RxFInfo) && In(s.b, u.cfgB, HTX_FINFO, RxFInfo)
      && NoFiles(Begin(u).a, s.a) && NoFiles(Begin(u).b, s.b) && s.ab == [] && Only(s.ba, InitAck)
  {
    hide Transmit, Receive, StartSession, InitOf, Run, NoFiles;
    StartIn(u.cfgA, u.firstA, u.msg);
    StartIn(u.cfgB, u.firstB, u.msg);
    var s0 := Begin(u);
    RunSteps(s0, HANDSHAKE);
    SendsStart(s0.a);
    var s1 := Step(s0, HANDSHAKE[0]);
    TakesStart(s1.b);
    var s2 := Step(s1, HANDSHAKE[1]);
    SendsInit(s2.b);
    var s3 := Step(s2, HANDSHAKE[2]);
    TakesInit(s3.a, u.cfgB);
    var s4 := Step(s3, HANDSHAKE[3]);
    SendsInit(s4.a);
    var s5 := Step(s4, HANDSHAKE[4]);
    TakesInitAck(s5.b);
    var s6 := Step(s5, HANDSHAKE[5]);
    TakesInit(s6.b, u.cfgA);
    var s7 := Step(s6, HANDSHAKE[6]);
    NoFilesTwice(s0.a, s1.a, s4.a);
    NoFilesTwice(s0.a, s4.a, s7.a);
    NoFilesTwice(s0.b, s2.b, s3.b);
    NoFilesTwice(s0.b, s3.b, s6.b);
    NoFilesTwice(s0.b, s6.b, s7.b);
  }

  // ----- windows that differ -----------------------------------------------

  /** An operator with no limits at all. */
  function Streaming(originator: bool, options: Options): Config {
    Config(originator, false, options, 0, 0, 1024, {"MSG", "CON"})
  }

  /** A asks for XONXOFF and CTLCHRS; nobody limits anything. */
  const CTL_SECOND :=
    Setup(Streaming(true, {XonXoff, CtlChrs}), NoFile, Streaming(false, {}), NoFile, DevMsg("", []))

  /** B takes the C of "CTL" for a window of 12 bytes, and acknowledges what A never waits for. */
  lemma CtlIsTwelve()
    ensures GoodSetup(CTL_SECOND) && GoodLimits(CTL_SECOND)
    ensures var s := Run(Begin(CTL_SECOND), HANDSHAKE);
      Late(s.a) && Late(s.b) && s.a.tx.window == 0 && s.b.rx.window == 12
  {
    hide Run, Begin, Read, SameLimit, OneWindow;
    var u := CTL_SECOND;
    assert |u.cfgA.options| == 2 && |u.cfgB.options| == 0;
    HandshakeRun(u);
    WindowAgreement(u, HANDSHAKE);
    assert Read(u.cfgA) == Limits(12, 0) && Read(u.cfgB) == Limits(0, 0) by {
      ReadTwo(u.cfgA);
      ReadOne(u.cfgB);
    }
  }

  lemma ReadTwo(cfg: Config)
    requires |cfg.options| == 2
    ensures Read(cfg) == Limits(if SecondIsCtl(cfg.options) then 12 else 0, 0)
  {
  }

  lemma ReadOne(cfg: Config)
    requires |cfg.options| <= 1
    ensures Read(cfg) == Limits(cfg.txwindow, cfg.rxwindow)
  {
  }

  /** A asks for XONXOFF and TELENET and limits what it sends to 4096 bytes. */
  const TLN_SECOND :=
    Setup(Streaming(true, {XonXoff, Telenet}).(txwindow := 4096), NoFile, Streaming(false, {}), NoFile, DevMsg("", []))

  /** B finds no window, and never acknowledges what A waits for. */
  lemma TlnIsNothing(ls: seq<Label>)
    ensures GoodSetup(TLN_SECOND) && GoodLimits(TLN_SECOND)
    ensures var s := Run(Begin(TLN_SECOND), HANDSHAKE);
      Late(s.a) && Late(s.b) && s.a.tx.window == 4096 && s.b.rx.window == 0
    ensures AcksNothing(Run(Begin(TLN_SECOND), ls).ba)
  {
    hide Run, Begin, Read, SameLimit, OneWindow;
    var u := TLN_SECOND;
    assert |u.cfgA.options| == 2 && |u.cfgB.options| == 0;
    HandshakeRun(u);
    WindowAgreement(u, HANDSHAKE);
    assert Read(u.cfgA) == Limits(0, 0) && Read(u.cfgB) == Limits(0, 0) by {
      ReadTwo(u.cfgA);
      ReadOne(u.cfgB);
    }
    NoAcks(u, ls);
  }

  /** A side that comes to no window for receiving never acknowledges a position. */
  lemma NoAcks(u: Setup, ls: seq<Label>)
    requires GoodSetup(u) && GoodLimits(u) && Window(Read(u.cfgA).txwindow, u.cfgB.rxwindow) == 0
    ensures AcksNothing(Run(Begin(u), ls).ba)
    decreases |ls|
  {
    hide StepA, Begin, Window, Read, AcksNothing, InLong;
    if ls == [] {
      assert AcksNothing(Begin(u).ba) by { BeginsEmpty(u); }
    } else {
      var s, l := Run(Begin(u), ls[..|ls| - 1]), ls[|ls| - 1];
      NoAcks(u, ls[..|ls| - 1]);
      NoWindow(u, ls[..|ls| - 1]);
      if Possible(s, l) {
        if l.side == A {
          FewerAcks(s, l.action, l.env);
        } else {
          SilentStep(Flip(s), l.action, l.env);
        }
      }
    }
  }

  lemma BeginsEmpty(u: Setup)
    ensures Begin(u).ba == [] && AcksNothing([])
  {
  }

  lemma NoWindow(u: Setup, ls: seq<Label>)
    requires GoodSetup(u) && GoodLimits(u) && Window(Read(u.cfgA).txwindow, u.cfgB.rxwindow) == 0
    ensures Run(Begin(u), ls).b.rx.window == 0
  {
    hide Run, Begin, Announces, Said, InitOf, Read, Window, InLong;
    WindowRun(u, ls);
    SameConfigs(u, ls);
    ReadIs(u.cfgA);
  }

  lemma FewerAcks(s: System, action: Action, env: Env)
    requires AcksNothing(s.ba) && (action.Arrive? || action.Lose? ==> s.ba != [])
    ensures AcksNothing(StepA(s, action, env).ba)
  {
    hide Act;
  }

  lemma SilentStep(s: System, action: Action, env: Env)
    requires s.a.rx.window == 0 && AcksNothing(s.ab) && (action.Arrive? || action.Lose? ==> s.ba != [])
    ensures AcksNothing(StepA(s, action, env).ab)
  {
    hide Receive, Transmit, DevQueue, InitOf;
    match action
    case Pass => SameTransmit(s.a, env);
    case Arrive => SilentReceive(s.a, Received(s.ba[0].p), env);
    case TxExpires => SilentReceive(s.a, TxTimeout, env);
    case DevExpires => SilentReceive(s.a, DevTimeout, env);
    case Break => SilentReceive(s.a, Fatal, env);
    case Lose =>
    case Queue(msg) =>
  }

  lemma SilentReceive(x: Endpoint, ev: Event, env: Env)
    requires x.rx.window == 0
    ensures AcksNothing(Receive(x, ev, env).out)
  {
    hide OnPacket, AfterEvent, InitOf, OnInit;
    if x.tx.state != HTX_DONE {
      if ev.Received? && ev.p.Init? {
        InitIsInit(x, ev.p, env);
        InitAcksNothing(x, ev.p);
      } else if ev.Received? {
        SamePacket(x, ev.p, env);
      } else {
        SameTimeout(x, ev, env);
      }
    }
  }

  lemma InitAcksNothing(x: Endpoint, p: Packet)
    requires p.Init?
    ensures AcksNothing(OnInit(x, p).out)
  {
    hide Said, Negotiated, Incompatible, Window;
  }
}
