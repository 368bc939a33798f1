/** Ending a session: the END handshake only completes when both batches are over and both
    device channels are empty. */
module HydraShutdown {
  import opened Bits
  import opened HydraTypes
  import opened HydraEndpoint
  import opened HydraSystem
  import HydraDevice

  // ----- the invariant -----------------------------------------------------

  /** Everything is received, nothing is left to send, and the END handshake is under way or
      the session is over. */
  predicate Settled(e: Endpoint) {
    e.rx.state == RxDone && e.dev.state == DevDone && (e.tx.state == HTX_DONE || e.tx.state >= HTX_END)
  }

  predicate EndOk(e: Endpoint) {
    && (e.tx.state >= HTX_END ==> Settled(e))
    && (e.dev.timer ==> e.dev.state == DevDAck)
    && (SessionDone in e.results ==> Settled(e))
  }

  predicate EndsOnly(line: seq<Frame>, e: Endpoint) {
    forall f | f in line :: f.p.End? ==> Settled(e)
  }

  /** For side A as the one that finishes. */
  predicate EndInv(s: System) {
    && EndOk(s.a) && EndOk(s.b)
    && EndsOnly(s.ab, s.a) && EndsOnly(s.ba, s.b)
    && (SessionDone in s.a.results ==> Settled(s.b))
    && (SessionDone in s.b.results ==> Settled(s.a))
  }

  // ----- one endpoint moves ------------------------------------------------

  /** The end of this side's own batch has been answered. */
  predicate PastAnswer(e: Endpoint) {
    e.tx.state >= HTX_REND || SessionDone in e.results
  }

  /** Packet p is taken as that answer. */
  predicate Answers(e: Endpoint, p: Packet) {
    p.FInfoAck? && !e.tx.named && (e.tx.state == HTX_FINFO || e.tx.state == HTX_FINFOACK)
  }

  /** The move keeps what holds; the session completes only on an END packet, and the batch is
      answered only by an answer. */
  predicate Kept(e: Endpoint, m: Move, onEnd: bool, answered: bool) {
    && (PastAnswer(m.e) ==> PastAnswer(e) || answered)
    && EndOk(m.e)
    && (Settled(e) ==> Settled(m.e))
    && EndsOnly(m.out, m.e)
    && (SessionDone in m.e.results ==> SessionDone in e.results || onEnd)
  }

  lemma KeptByTransmit(e: Endpoint, env: Env)
    requires EndOk(e)
    ensures Kept(e, Transmit(e, env), false, false)
  {
    if e.tx.state != HTX_DONE {
      var d := TransmitDev(e);
      assert Kept(e, d, false, false);
      if e.tx.state == HTX_XDATA {
        KeptByTransmitData(d.e, env);
      }
      assert Kept(d.e, TransmitTx(d.e, env), false, false);
    }
  }

  lemma KeptByTransmitData(e: Endpoint, env: Env)
    requires EndOk(e) && e.tx.state == HTX_XDATA
    ensures Kept(e, TransmitData(e, env), false, false)
  {
  }

  /** The receiving side stays done, nothing changes in the device channel, and the
      transmitter stays where it is, short of the END handshake, or stops. */
  predicate Mild(e: Endpoint, m: Move, answered: bool) {
    && (m.e.tx.state >= HTX_REND ==> e.tx.state >= HTX_REND || answered)
    && m.e.dev.state == e.dev.state && m.e.dev.timer == e.dev.timer
    && (e.rx.state == RxDone ==> m.e.rx.state == RxDone)
    && (|| m.e.tx.state == e.tx.state
        || m.e.tx.state == HTX_DONE
        || (e.tx.state != HTX_DONE && e.tx.state < HTX_END && m.e.tx.state < HTX_END))
    && (SessionDone in m.e.results ==> SessionDone in e.results)
    && (forall f | f in m.out :: !f.p.End?)
  }

  lemma KeptIfMild(e: Endpoint, m: Move, answered: bool)
    requires EndOk(e) && Mild(e, m, answered)
    ensures Kept(e, m, false, answered)
  {
  }

  lemma MildResync(e: Endpoint)
    ensures Mild(e, Resync(e), false)
  {
  }

  lemma MildBadData(e: Endpoint, pos: int, env: Env)
    ensures Mild(e, OnBadData(e, pos, env), false)
  {
    var noted := e.(rx := NoteBadPos(e.rx, pos));
    MildResync(noted);
    MildResync(noted.(hdxlink := true, rx := noted.rx.(retries := 0)));
  }

  lemma MildData(e: Endpoint, pos: int, bytes: Bytes, env: Env)
    ensures Mild(e, OnData(e, pos, bytes, env), false)
  {
    MildBadData(e, pos, env);
  }

  lemma MildEof(e: Endpoint, pos: int, env: Env)
    ensures Mild(e, OnEof(e, pos, env), false)
  {
    MildResync(e.(rx := NoteBadPos(e.rx, pos)));
    assert e.rx.state == RxData ==> Mild(e, OnEofInData(e, pos, env), false);
  }

  lemma MildRPos(e: Endpoint, pos: int, blklen: int, syncid: int, env: Env)
    ensures Mild(e, OnRPos(e, pos, blklen, syncid, env), false)
  {
  }

  lemma MildSession(e: Endpoint, p: Packet, env: Env)
    ensures Mild(e, OnStart(e), false) && Mild(e, OnInitAck(e), false) && Mild(e, OnIdle(e), false)
    ensures p.FInfo? ==> Mild(e, OnFInfo(e, p.endOfBatch, env), false)
    ensures p.DevSend? ==> Mild(e, OnDevSend(e, p.id, p.msg), false)
  {
  }

  lemma MildInit(e: Endpoint, p: Packet)
    requires p.Init?
    ensures Mild(e, OnInit(e, p), false)
  {
  }

  lemma MildFInfoAck(e: Endpoint, pos: int, env: Env)
    ensures Mild(e, OnFInfoAck(e, pos, env), Answers(e, FInfoAck(pos)))
  {
  }

  lemma MildAcks(e: Endpoint, pos: int)
    ensures Mild(e, OnDataAck(e, pos), false) && Mild(e, OnEofAck(e), false)
  {
  }

  lemma KeptByEnd(e: Endpoint, env: Env)
    requires EndOk(e)
    ensures Kept(e, OnEnd(e, env), true, false)
    ensures SessionDone in OnEnd(e, env).e.results ==> SessionDone in e.results || Settled(e)
  {
  }

  lemma KeptByTimeout(e: Endpoint)
    requires EndOk(e)
    ensures Kept(e, OnTxTimeout(e), false, false)
    ensures Kept(e, Stay(Finish(e, Aborted)), false, false)
    ensures e.dev.timer ==> Kept(e, OnDevTimeout(e), false, false)
  {
  }

  /** Which of the packet types say nothing about the end of the session. */
  predicate Plain(p: Packet) {
    !p.End? && !p.DevAck?
  }

  lemma MildPacket(e: Endpoint, p: Packet, env: Env)
    requires Plain(p)
    ensures Mild(e, OnPacket(e, p, env), Answers(e, p))
  {
    hide Mild, OnData, OnEof, OnRPos, OnFInfoAck, OnDataAck, OnEofAck;
    hide OnInit, OnStart, OnInitAck, OnIdle, OnFInfo, OnDevSend;
    match p
    case Data(pos, bytes) => MildData(e, pos, bytes, env);
    case Eof(pos) => MildEof(e, pos, env);
    case RPos(pos, blklen, syncid) => MildRPos(e, pos, blklen, syncid, env);
    case FInfoAck(pos) => MildFInfoAck(e, pos, env);
    case DataAck(pos) => MildAcks(e, pos);
    case EofAck => MildAcks(e, 0);
    case Init(_, _, _, _) => MildInit(e, p);
    case _ => MildSession(e, p, env);
  }

  lemma KeptByDevAck(e: Endpoint, id: int)
    requires EndOk(e)
    ensures Kept(e, OnDevAck(e, id), false, false)
  {
  }

  lemma KeptByPacket(e: Endpoint, p: Packet, env: Env)
    requires EndOk(e)
    ensures Kept(e, OnPacket(e, p, env), p.End?, Answers(e, p))
  {
    if Plain(p) {
      hide Kept, Mild, OnPacket;
      MildPacket(e, p, env);
      KeptIfMild(e, OnPacket(e, p, env), Answers(e, p));
    } else {
      hide Kept, OnEnd, OnDevAck, EndOk;
      if p.End? {
        KeptByEnd(e, env);
      } else {
        KeptByDevAck(e, p.id);
      }
    }
  }

  lemma KeptAfterEvent(e: Endpoint, env: Env)
    requires EndOk(e)
    ensures Kept(e, Stay(AfterEvent(e, env)), false, false)
  {
  }

  lemma KeptByReceive(e: Endpoint, ev: Event, env: Env)
    requires EndOk(e) && (ev.DevTimeout? ==> e.dev.timer)
    ensures Kept(e, Receive(e, ev, env), ev.Received? && ev.p.End?, ev.Received? && Answers(e, ev.p))
  {
    hide OnPacket, AfterEvent, Settled, Answers;
    if e.tx.state != HTX_DONE {
      match ev {
        case Received(p) => KeptByPacket(e, p, env);
        case _ => KeptByTimeout(e);
      }
      KeptAfterEvent(OnEvent(e, ev, env).e, env);
    }
  }

  // ----- the system --------------------------------------------------------

  lemma EndStepA(s: System, action: Action, env: Env)
    requires EndInv(s) && Possible(s, Label(A, action, env))
    ensures EndInv(StepA(s, action, env))
    ensures PastAnswer(StepA(s, action, env).a) ==> PastAnswer(s.a) || (action.Arrive? && Answers(s.a, s.ba[0].p))
  {
    var m := Act(s.a, s.ba, action, env);
    var rest := Consumed(s.ba, action);
    assert forall f | f in rest :: f in s.ba;
    match action {
      case Pass => KeptByTransmit(s.a, env);
      case Arrive =>
        KeptByReceive(s.a, Received(s.ba[0].p), env);
        assert s.ba[0] in s.ba;
      case TxExpires => KeptByReceive(s.a, TxTimeout, env);
      case DevExpires => KeptByReceive(s.a, DevTimeout, env);
      case Break => KeptByReceive(s.a, Fatal, env);
      case Lose =>
      case Queue(msg) =>
    }
    assert Kept(s.a, m, action.Arrive? && s.ba[0].p.End?, action.Arrive? && Answers(s.a, s.ba[0].p));
    assert forall f | f in s.ab + m.out :: f in s.ab || f in m.out;
  }

  lemma {:induction false} EndRun(u: Setup, ls: seq<Label>)
    ensures EndInv(Run(Begin(u), ls))
    decreases |ls|
  {
    if ls != [] {
      var s, l := Run(Begin(u), ls[..|ls| - 1]), ls[|ls| - 1];
      EndRun(u, ls[..|ls| - 1]);
      if Possible(s, l) {
        if l.side == A {
          EndStepA(s, l.action, l.env);
        } else {
          EndStepA(Flip(s), l.action, l.env);
        }
      }
    }
  }

  /** What holds of side x, whose peer is y. */
  predicate ShutDown(x: Endpoint, y: Endpoint) {
    && (x.tx.state >= HTX_END ==> x.rx.state == RxDone && x.dev.state == DevDone)
    && (SessionDone in x.results ==>
         && x.rx.state == RxDone && y.rx.state == RxDone
         && HydraDevice.HandedAll(y, x.dev.sent) && HydraDevice.HandedAll(x, y.dev.sent))
  }

  /** In the END handshake nothing is left over on a side that is in it; and once a side reports
      the session as done, both sides have seen the end of the other's batch, every device message
      handed in on either side has arrived on the other, and those for registered devices have
      been handed out. */
  lemma CleanShutdown(u: Setup, ls: seq<Label>)
    ensures var s := Run(Begin(u), ls); ShutDown(s.a, s.b) && ShutDown(s.b, s.a)
  {
    EndRun(u, ls);
    HydraDevice.DeviceDelivery(u, ls);
  }

  // ----- the handshake was earned ------------------------------------------

  function At(s: System, side: Side): Endpoint {
    if side == A then s.a else s.b
  }

  /** At step i, the given side takes a FINFOACK as the answer to its own end of batch. */
  predicate TakesAnswer(u: Setup, ls: seq<Label>, i: nat, side: Side)
    requires i < |ls|
  {
    var s := Run(Begin(u), ls[..i]);
    && Possible(s, ls[i]) && ls[i].side == side && ls[i].action.Arrive?
    && Answers(At(s, side), (if side == A then s.ba else s.ab)[0].p)
  }

  lemma {:induction false} AnswerTakenAtA(u: Setup, ls: seq<Label>) returns (i: nat)
    requires PastAnswer(Run(Begin(u), ls).a)
    ensures i < |ls| && TakesAnswer(u, ls, i, A)
    decreases |ls|
  {
    assert ls != [];
    var n := |ls| - 1;
    var s, l := Run(Begin(u), ls[..n]), ls[n];
    if PastAnswer(s.a) {
      i := AnswerTakenAtA(u, ls[..n]);
      assert ls[..n][..i] == ls[..i];
    } else {
      i := n;
      assert Possible(s, l) && l.side == A;
      EndRun(u, ls[..n]);
      EndStepA(s, l.action, l.env);
    }
  }

  lemma FlippedStep(u: Setup, ls: seq<Label>, i: nat)
    requires i < |ls| && TakesAnswer(FlipSetup(u), FlipLabels(ls), i, A)
    ensures TakesAnswer(u, ls, i, B)
  {
    hide Run, Begin;
    assert FlipLabels(ls)[..i] == FlipLabels(ls[..i]);
    RunFlips(u, ls[..i]);
  }

  /** A side that reaches the END handshake took a FINFOACK for its own end of batch. */
  lemma AnswerWasTaken(u: Setup, ls: seq<Label>, side: Side) returns (i: nat)
    requires PastAnswer(At(Run(Begin(u), ls), side))
    ensures i < |ls| && TakesAnswer(u, ls, i, side)
  {
    hide Run, Begin, TakesAnswer, PastAnswer;
    if side == A {
      i := AnswerTakenAtA(u, ls);
    } else {
      RunFlips(u, ls);
      i := AnswerTakenAtA(FlipSetup(u), FlipLabels(ls));
      FlippedStep(u, ls, i);
    }
  }
}
