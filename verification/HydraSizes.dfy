/** Every packet that a run ever sends fits the buffers. */
module HydraSizes {
  import opened Bits
  import opened HydraTypes
  import opened HydraText
  import opened HydraFlags
  import opened HydraEndpoint
  import opened HydraSystem
  import HydraWire

  /** The data of the user fits the buffers, tags have at most three characters, and the numbers that
      identify messages and repositions are longs. */
  predicate Fits(p: Packet) {
    && (p.Data? ==> 4 + |p.bytes| <= HydraWire.MAXPAYLOAD)
    && (p.DevSend? ==> |p.msg.device| <= 3 && 4 + 4 + |p.msg.data| <= HydraWire.MAXPAYLOAD && InLong(p.id))
    && (p.DevAck? ==> InLong(p.id))
    && (p.RPos? ==> 0 <= p.blklen <= 1024 && InLong(p.syncid))
  }

  predicate Sized(e: Endpoint) {
    && GoodConfig(e.cfg)
    && 64 <= e.tx.blklen <= MAX_BLOCK
    && InLong(e.rx.syncid) && InLong(e.dev.txid) && InLong(e.dev.rxid)
    && (e.dev.state != DevDone || e.dev.timer ==> |e.dev.msg.device| <= 3 && |e.dev.msg.data| <= MAX_BLOCK)
  }

  predicate AllFit(line: seq<Frame>) {
    forall f | f in line :: Fits(f.p)
  }

  predicate SizedMove(m: Move) {
    Sized(m.e) && AllFit(m.out)
  }

  lemma SizedStart(cfg: Config, first: FirstCall, msg: DevMsg)
    requires GoodConfig(cfg)
    ensures Sized(StartSession(cfg, first, msg))
  {
  }

  lemma SizedTransmitDev(e: Endpoint)
    requires Sized(e)
    ensures SizedMove(TransmitDev(e))
  {
    hide GoodConfig;
  }

  lemma SizedTransmitTx(e: Endpoint, env: Env)
    requires Sized(e)
    ensures SizedMove(TransmitTx(e, env))
  {
    if e.tx.state == HTX_XDATA {
      SizedTransmitData(e, env);
    } else {
      hide GoodConfig, Names, TransmitData;
    }
  }

  lemma SizedTransmitData(e: Endpoint, env: Env)
    requires Sized(e)
    ensures SizedMove(TransmitData(e, env))
  {
    assert |Chunk(e)| <= e.tx.blklen;
  }

  lemma SizedTransmit(e: Endpoint, env: Env)
    requires Sized(e)
    ensures SizedMove(Transmit(e, env))
  {
    hide Sized, Fits, TransmitDev, TransmitTx;
    SizedTransmitDev(e);
    SizedTransmitTx(TransmitDev(e).e, env);
  }

  lemma SizedQueue(e: Endpoint, msg: DevMsg)
    requires Sized(e)
    ensures Sized(DevQueue(e, msg))
  {
    hide GoodConfig, DevFree;
  }

  lemma SizedTimeout(e: Endpoint, ev: Event, env: Env)
    requires Sized(e) && !ev.Received? && (ev.DevTimeout? ==> e.dev.timer)
    ensures SizedMove(OnEvent(e, ev, env))
  {
    hide GoodConfig;
  }

  lemma SizedReceiving(e: Endpoint, p: Packet, env: Env)
    requires Sized(e) && p.FInfo?
    ensures SizedMove(OnPacket(e, p, env))
  {
    hide GoodConfig;
  }

  lemma SizedResync(e: Endpoint)
    requires Sized(e)
    ensures SizedMove(Resync(e))
  {
    hide GoodConfig;
  }

  lemma NoteIsPosition(rx: Rx, pos: int)
    ensures NoteBadPos(rx, pos).syncid == rx.syncid
  {
  }

  lemma SizedEof(e: Endpoint, p: Packet, env: Env)
    requires Sized(e) && p.Eof?
    ensures SizedMove(OnPacket(e, p, env))
  {
    hide GoodConfig, NoteBadPos, Resync;
    NoteIsPosition(e.rx, p.pos);
    SizedResync(e.(rx := NoteBadPos(e.rx, p.pos)));
  }

  lemma SizedData(e: Endpoint, p: Packet, env: Env)
    requires Sized(e) && p.Data?
    ensures SizedMove(OnPacket(e, p, env))
  {
    hide GoodConfig, NoteBadPos, Resync;
    NoteIsPosition(e.rx, p.pos);
    var noted := e.(rx := NoteBadPos(e.rx, p.pos));
    SizedResync(noted);
    SizedResync(noted.(hdxlink := true, rx := noted.rx.(retries := 0)));
  }

  lemma SizedSending(e: Endpoint, p: Packet, env: Env)
    requires Sized(e) && (p.FInfoAck? || p.DataAck? || p.EofAck?)
    ensures SizedMove(OnPacket(e, p, env))
  {
    hide GoodConfig;
  }

  lemma ShrunkSize(blklen: int, asked: int)
    ensures 64 <= Shrunk(blklen, asked) <= 1024
  {
  }

  lemma SizedOnRPos(e: Endpoint, pos: int, blklen: int, syncid: int, env: Env)
    requires Sized(e)
    ensures SizedMove(OnRPos(e, pos, blklen, syncid, env))
  {
    hide GoodConfig, Fits, Shrunk;
    ShrunkSize(e.tx.blklen, blklen);
  }

  lemma SizedReposition(e: Endpoint, p: Packet, env: Env)
    requires Sized(e) && p.RPos?
    ensures SizedMove(OnPacket(e, p, env))
  {
    hide GoodConfig, Fits, Shrunk, OnRPos;
    assert OnPacket(e, p, env) == OnRPos(e, p.pos, p.blklen, p.syncid, env);
    SizedOnRPos(e, p.pos, p.blklen, p.syncid, env);
  }

  lemma SizedHandshake(e: Endpoint, p: Packet)
    requires Sized(e) && (p.Start? || p.Init? || p.InitAck?)
    ensures p.Start? ==> SizedMove(OnStart(e))
    ensures p.Init? ==> SizedMove(OnInit(e, p))
    ensures p.InitAck? ==> SizedMove(OnInitAck(e))
  {
    hide GoodConfig, Said, Negotiated, Incompatible, Window;
  }

  lemma SizedEnding(e: Endpoint, env: Env)
    requires Sized(e)
    ensures SizedMove(OnEnd(e, env)) && SizedMove(OnIdle(e))
  {
    hide GoodConfig;
  }

  lemma SizedDev(e: Endpoint, id: int, msg: DevMsg)
    requires Sized(e) && InLong(id)
    ensures SizedMove(OnDevSend(e, id, msg)) && SizedMove(OnDevAck(e, id))
  {
    hide GoodConfig;
  }

  lemma SizedSession(e: Endpoint, p: Packet, env: Env)
    requires Sized(e) && Fits(p)
    requires !p.FInfo? && !p.Data? && !p.Eof? && !p.FInfoAck? && !p.DataAck? && !p.RPos? && !p.EofAck?
    ensures SizedMove(OnPacket(e, p, env))
  {
    hide Sized, SizedMove, InLong, OnStart, OnInit, OnInitAck, OnEnd, OnIdle, OnDevSend, OnDevAck;
    match p
    case DevSend(id, msg) => SizedDev(e, id, msg);
    case DevAck(id) => SizedDev(e, id, e.dev.msg);
    case End => SizedEnding(e, env);
    case Idle => SizedEnding(e, env);
    case _ => SizedHandshake(e, p);
  }

  lemma SizedAfter(e: Endpoint, env: Env)
    requires Sized(e)
    ensures Sized(AfterEvent(e, env))
  {
    SizedQueue(e, HDX_MESSAGE);
    hide GoodConfig, DevQueue;
  }

  lemma SizedReceive(e: Endpoint, ev: Event, env: Env)
    requires Sized(e) && (ev.DevTimeout? ==> e.dev.timer) && (ev.Received? ==> Fits(ev.p))
    ensures SizedMove(Receive(e, ev, env))
  {
    hide Sized, AllFit, OnPacket, AfterEvent;
    NothingSent(e);
    if ev.Received? {
      if ev.p.FInfo? {
        SizedReceiving(e, ev.p, env);
      } else if ev.p.Eof? {
        SizedEof(e, ev.p, env);
      } else if ev.p.Data? {
        SizedData(e, ev.p, env);
      } else if ev.p.FInfoAck? || ev.p.DataAck? || ev.p.EofAck? {
        SizedSending(e, ev.p, env);
      } else if ev.p.RPos? {
        SizedReposition(e, ev.p, env);
      } else {
        SizedSession(e, ev.p, env);
      }
    } else {
      SizedTimeout(e, ev, env);
    }
    SizedAfter(OnEvent(e, ev, env).e, env);
  }

  lemma NothingSent(e: Endpoint)
    ensures AllFit(Stay(e).out)
  {
  }

  predicate SizedSystem(s: System) {
    Sized(s.a) && Sized(s.b) && AllFit(s.ab) && AllFit(s.ba)
  }

  lemma SizedStepA(s: System, action: Action, env: Env)
    requires SizedSystem(s) && (action.Arrive? || action.Lose? ==> s.ba != []) && (action.DevExpires? ==> s.a.dev.timer)
    ensures SizedSystem(StepA(s, action, env))
  {
    hide Sized, Fits, Receive, Transmit, DevQueue;
    SizedTransmit(s.a, env);
    match action {
      case Arrive => SizedReceive(s.a, Received(s.ba[0].p), env);
      case TxExpires => SizedReceive(s.a, TxTimeout, env);
      case DevExpires => SizedReceive(s.a, DevTimeout, env);
      case Break => SizedReceive(s.a, Fatal, env);
      case Queue(msg) => SizedQueue(s.a, msg);
      case _ =>
    }
  }

  lemma {:induction false} SizedRun(u: Setup, ls: seq<Label>)
    requires GoodSetup(u)
    ensures SizedSystem(Run(Begin(u), ls))
    decreases |ls|
  {
    hide Sized, Fits, StepA, Possible;
    if ls == [] {
      SizedStart(u.cfgA, u.firstA, u.msg);
      SizedStart(u.cfgB, u.firstB, u.msg);
    } else {
      var n := |ls| - 1;
      SizedRun(u, ls[..n]);
      var s := Run(Begin(u), ls[..n]);
      SizedStep(s, ls[n]);
    }
  }

  lemma SizedStep(s: System, l: Label)
    requires SizedSystem(s)
    ensures SizedSystem(Step(s, l))
  {
    hide Sized, Fits, StepA;
    if Possible(s, l) {
      if l.side == A {
        SizedStepA(s, l.action, l.env);
      } else {
        SizedStepA(Flip(s), l.action, l.env);
      }
    }
  }

  // ----- the session on the wire -------------------------------------------

  /** The type byte of a packet. */
  function Kind(p: Packet): Byte {
    match p
    case Start => 65
    case Init(_, _, _, _) => 66
    case InitAck => 67
    case FInfo(_) => 68
    case FInfoAck(_) => 69
    case Data(_, _) => 70
    case DataAck(_) => 71
    case RPos(_, _, _) => 72
    case Eof(_) => 73
    case EofAck => 74
    case End => 75
    case Idle => 76
    case DevSend(_, _) => 77
    case DevAck(_) => 78
  }

  lemma HexFrames(f: Frame)
    ensures f.IsHex() <==> HydraWire.Format(f.opts, Kind(f.p)) == HydraWire.HEXPKT
  {
  }
}
