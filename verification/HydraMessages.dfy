/** The device channel gets every message across: when nothing is lost, when the message is lost once,
    and when its acknowledgement is; and in each case the message is taken exactly once. */
module HydraMessages {
  import opened HydraTypes
  import opened HydraFlags
  import opened HydraEndpoint
  import opened HydraSystem
  import opened HydraDevice
  import HydraWindows
  import opened HydraHandshake

  // ----- no notice is waiting ----------------------------------------------

  /** A side in one-way mode that has to wait does so: the notice about it is not still to be queued. */
  predicate Noticed(e: Endpoint) {
    e.tx.state == HTX_XDATA && e.rx.state != RxDone ==> !e.hdxlink
  }

  lemma NoticedReceive(e: Endpoint, ev: Event, env: Env)
    requires Noticed(e)
    ensures Noticed(Receive(e, ev, env).e)
  {
    hide OnPacket, DevQueue;
    if e.tx.state != HTX_DONE {
      AfterNoticed(OnEvent(e, ev, env).e, env);
      if OnEvent(e, ev, env).returned {
        ReturnsToFInfo(e, ev, env);
      }
    }
  }

  lemma AfterNoticed(e: Endpoint, env: Env)
    ensures Noticed(AfterEvent(e, env))
  {
    hide DevQueue;
  }

  lemma ReturnsToFInfo(e: Endpoint, ev: Event, env: Env)
    requires OnEvent(e, ev, env).returned
    ensures OnEvent(e, ev, env).e.tx.state == HTX_FINFO
  {
    hide OnData, OnEof, OnRPos, OnInit, OnFInfo, OnDevSend;
    if ev.Received? {
      OthersStay(e, ev.p, env);
    }
  }

  lemma OthersStay(e: Endpoint, p: Packet, env: Env)
    ensures p.Data? ==> !OnData(e, p.pos, p.bytes, env).returned
    ensures p.Eof? ==> !OnEof(e, p.pos, env).returned
    ensures p.RPos? ==> !OnRPos(e, p.pos, p.blklen, p.syncid, env).returned
    ensures p.Init? ==> !OnInit(e, p).returned
    ensures p.FInfo? ==> !OnFInfo(e, p.endOfBatch, env).returned
    ensures p.DevSend? ==> !OnDevSend(e, p.id, p.msg).returned
  {
    hide Said, Negotiated, Incompatible, Window, Shrunk, AskedBlock;
  }

  lemma NoticedTransmit(e: Endpoint, env: Env)
    requires Noticed(e)
    ensures Noticed(Transmit(e, env).e)
  {
    hide Grow, Chunk;
    GrowKeepsState(e, env);
  }

  lemma GrowKeepsState(e: Endpoint, env: Env)
    ensures forall tx: Tx, i: int :: Grow(tx, e.cfg.maxblk, i).state == tx.state
  {
  }

  lemma NoticedStepA(s: System, action: Action, env: Env)
    requires Noticed(s.a) && (action.Arrive? || action.Lose? ==> s.ba != [])
    ensures Noticed(StepA(s, action, env).a) && StepA(s, action, env).b == s.b
  {
    hide Receive, Transmit;
    match action
    case Pass => NoticedTransmit(s.a, env);
    case Arrive => NoticedReceive(s.a, Received(s.ba[0].p), env);
    case TxExpires => NoticedReceive(s.a, TxTimeout, env);
    case DevExpires => NoticedReceive(s.a, DevTimeout, env);
    case Break => NoticedReceive(s.a, Fatal, env);
    case Lose =>
    case Queue(msg) =>
  }

  lemma {:induction false} NoticedRun(u: Setup, ls: seq<Label>)
    ensures var s := Run(Begin(u), ls); Noticed(s.a) && Noticed(s.b)
    decreases |ls|
  {
    hide StepA, Noticed;
    if ls == [] {
      StartNoticed(u.cfgA, u.firstA, u.msg);
      StartNoticed(u.cfgB, u.firstB, u.msg);
    } else {
      var s, l := Run(Begin(u), ls[..|ls| - 1]), ls[|ls| - 1];
      NoticedRun(u, ls[..|ls| - 1]);
      if Possible(s, l) {
        NoticedStepA(if l.side == A then s else Flip(s), l.action, l.env);
      }
    }
  }

  lemma StartNoticed(cfg: Config, first: FirstCall, msg: DevMsg)
    ensures Noticed(StartSession(cfg, first, msg))
  {
  }

  // ----- the moves ---------------------------------------------------------

  /** What is sent of a message: a tag of three capitals and at most 2048 bytes. */
  function OnTheLine(m: DevMsg): DevMsg {
    DevMsg(DeviceTag(m.device), if |m.data| > 2048 then m.data[..2048] else m.data)
  }

  /** Past the handshake and short of END. */
  predicate Open(e: Endpoint) {
    HTX_RINIT < e.tx.state < HTX_END && Noticed(e)
  }

  /** The message with this number is to be sent, or has been. */
  predicate Holds(e: Endpoint, state: DevState, id: int, msg: DevMsg, tries: int) {
    Open(e) && e.dev.state == state && e.dev.txid == id && e.dev.msg == msg && e.dev.retries == tries
  }

  lemma Queued(e: Endpoint, m: DevMsg)
    requires Open(e) && DevFree(e) && m.data != []
    ensures var z := DevQueue(e, m);
      Holds(z, DevData, Succ32(e.dev.txid), OnTheLine(m), 0) && z.dev.sent == e.dev.sent + [OnTheLine(m)]
  {
    hide DeviceTag;
  }

  lemma PassSends(e: Endpoint, id: int, msg: DevMsg, tries: int)
    requires Holds(e, DevData, id, msg, tries)
    ensures var m := Transmit(e, QUIET);
      && Holds(m.e, DevDAck, id, msg, tries) && m.e.dev.timer && m.e.dev.sent == e.dev.sent
      && 1 <= |m.out| <= 2 && m.out[0].p == DevSend(id, msg)
  {
    hide TransmitTx, Noticed;
    NoticedTransmit(e, QUIET);
    var d := TransmitDev(e).e;
    StaysOpen(d);
    ApartTransmitTx(d, QUIET);
  }

  lemma StaysOpen(e: Endpoint)
    requires HTX_RINIT < e.tx.state < HTX_END
    ensures var m := TransmitTx(e, QUIET); HTX_RINIT < m.e.tx.state < HTX_END && |m.out| <= 1
  {
    hide Grow, Chunk, Names;
    GrowKeepsState(e, QUIET);
  }

  lemma Takes(e: Endpoint, id: int, msg: DevMsg)
    requires e.tx.state != HTX_DONE
    ensures var m := Receive(e, Received(DevSend(id, msg)), QUIET);
      && m.e.tx.state != HTX_DONE && Only(m.out, DevAck(id)) && m.e.dev.rxid == id
      && m.e.dev.taken == e.dev.taken + (if e.dev.rxid == id then [] else [msg])
      && m.e.dev.handed == e.dev.handed + (if e.dev.rxid == id then [] else HandedOut(e.cfg.devices, msg))
  {
    hide DevQueue, HandedOut;
    AfterEventDev(OnDevSend(e, id, msg).e, QUIET);
    QueueTakesNothing(OnDevSend(e, id, msg).e);
  }

  lemma QueueTakesNothing(e: Endpoint)
    ensures var d := DevQueue(e, HDX_MESSAGE).dev;
      d.rxid == e.dev.rxid && d.taken == e.dev.taken && d.handed == e.dev.handed
  {
  }

  lemma Freed(e: Endpoint, id: int, msg: DevMsg, tries: int)
    requires Holds(e, DevDAck, id, msg, tries)
    ensures var m := Receive(e, Received(DevAck(id)), QUIET); m.e.dev.state == DevDone && m.e.dev.sent == e.dev.sent
  {
    hide DevQueue;
  }

  lemma Expired(e: Endpoint, id: int, msg: DevMsg)
    requires Holds(e, DevDAck, id, msg, 0)
    ensures var m := Receive(e, DevTimeout, QUIET);
      Holds(m.e, DevData, id, msg, 1) && m.out == [] && m.e.dev.sent == e.dev.sent
  {
    hide DevQueue;
  }

  // ----- the runs ----------------------------------------------------------

  /** The lines are empty and A can send a message. */
  predicate CanSend(s: System) {
    && Open(s.a) && s.b.tx.state != HTX_DONE && DevFree(s.a) && s.ab == [] && s.ba == []
    && s.b.dev.rxid == s.a.dev.txid && s.b.dev.taken == s.a.dev.sent
  }

  /** The message has been taken once, and the channel is free again. */
  predicate Sent(s: System, z: System, msg: DevMsg) {
    && z.a.dev.state == DevDone && z.a.dev.sent == s.a.dev.sent + [msg]
    && z.b.dev.taken == s.b.dev.taken + [msg]
    && z.b.dev.handed == s.b.dev.handed + HandedOut(s.b.cfg.devices, msg)
  }

  function Do(side: Side, action: Action): Label {
    Label(side, action, QUIET)
  }

  /** The message is on its way, with at most one other packet behind it. */
  predicate Sending(z: System, s: System, msg: DevMsg, tries: int) {
    && Holds(z.a, DevDAck, Succ32(s.a.dev.txid), msg, tries) && z.a.dev.timer
    && z.a.dev.sent == s.a.dev.sent + [msg]
    && 1 <= |z.ab| <= 2 && z.ab[0].p == DevSend(Succ32(s.a.dev.txid), msg) && z.ba == []
    && z.b.tx.state != HTX_DONE && z.b.cfg == s.b.cfg
  }

  lemma GoesOut(s: System, m: DevMsg)
    requires CanSend(s) && m.data != []
    ensures var z := Step(Step(s, Do(A, Queue(m))), Do(A, Pass));
      Sending(z, s, OnTheLine(m), 0) && z.b == s.b
  {
    hide Transmit, DevQueue, Holds;
    Queued(s.a, m);
    var q := Step(s, Do(A, Queue(m)));
    assert q == s.(a := DevQueue(s.a, m)) by { OpenIsNotDone(s.a); }
    PassSends(q.a, Succ32(s.a.dev.txid), OnTheLine(m), 0);
    assert s.ab + [] == s.ab;
  }

  lemma OpenIsNotDone(e: Endpoint)
    requires Open(e)
    ensures e.tx.state != HTX_DONE
  {
  }

  /** It arrives, for the first time or again, and is acknowledged. */
  lemma ArrivesAtB(z: System, s: System, msg: DevMsg, tries: int)
    requires Sending(z, s, msg, tries)
    ensures var y := Step(z, Do(B, Arrive)); var id := Succ32(s.a.dev.txid);
      && y.a == z.a && y.ab == z.ab[1..] && Only(y.ba, DevAck(id)) && y.b.tx.state != HTX_DONE && y.b.dev.rxid == id
      && y.b.dev.taken == z.b.dev.taken + (if z.b.dev.rxid == id then [] else [msg])
      && y.b.dev.handed == z.b.dev.handed + (if z.b.dev.rxid == id then [] else HandedOut(z.b.cfg.devices, msg))
  {
    hide Receive, HandedOut, Holds;
    Takes(z.b, Succ32(s.a.dev.txid), msg);
    assert [] + Receive(z.b, Received(z.ab[0].p), QUIET).out == Receive(z.b, Received(z.ab[0].p), QUIET).out;
  }

  lemma AckAtA(y: System, id: int, msg: DevMsg, tries: int)
    requires Holds(y.a, DevDAck, id, msg, tries) && Only(y.ba, DevAck(id))
    ensures var x := Step(y, Do(A, Arrive)); x.a.dev.state == DevDone && x.a.dev.sent == y.a.dev.sent && x.b == y.b
  {
    hide Receive;
    Freed(y.a, id, msg, tries);
  }

  /** The device timer runs out and the message goes out again, on empty lines. */
  lemma GoesOutAgain(y: System, s: System, msg: DevMsg)
    requires Holds(y.a, DevDAck, Succ32(s.a.dev.txid), msg, 0) && y.a.dev.timer && y.a.dev.sent == s.a.dev.sent + [msg]
    requires y.ab == [] && y.ba == [] && y.b.tx.state != HTX_DONE && y.b.cfg == s.b.cfg
    ensures var z := Step(Step(y, Do(A, DevExpires)), Do(A, Pass)); Sending(z, s, msg, 1) && z.b == y.b
  {
    hide Receive, Transmit, Holds;
    Expired(y.a, Succ32(s.a.dev.txid), msg);
    var x := Step(y, Do(A, DevExpires));
    assert y.ab + [] == y.ab;
    PassSends(x.a, Succ32(s.a.dev.txid), msg, 1);
    assert x.ab + Transmit(x.a, QUIET).out == Transmit(x.a, QUIET).out;
  }

  lemma CfgStays(z: System)
    requires z.ab != []
    ensures Step(z, Do(B, Arrive)).b.cfg == z.b.cfg
  {
    hide Receive;
    HydraWindows.ReceiveConfig(z.b, Received(z.ab[0].p), QUIET);
  }

  lemma NewNumber(id: int)
    ensures Succ32(id) != id
  {
  }

  /** Nothing is lost. */
  lemma PlainMessage(s: System, m: DevMsg)
    requires CanSend(s) && m.data != []
    ensures Sent(s, Run(s, [Do(A, Queue(m)), Do(A, Pass), Do(B, Arrive), Do(A, Arrive)]), OnTheLine(m))
  {
    hide Step, Holds, HandedOut, OnTheLine;
    GoesOut(s, m);
    NewNumber(s.a.dev.txid);
    var z := Step(Step(s, Do(A, Queue(m))), Do(A, Pass));
    ArrivesAtB(z, s, OnTheLine(m), 0);
    AckAtA(Step(z, Do(B, Arrive)), Succ32(s.a.dev.txid), OnTheLine(m), 0);
    RunOf4(s, Do(A, Queue(m)), Do(A, Pass), Do(B, Arrive), Do(A, Arrive));
  }

  /** Losing what is on a line, one or two packets. */
  lemma TwoLost(z: System)
    requires |z.ab| <= 2
    ensures Step(Step(z, Do(B, Lose)), Do(B, Lose)) == z.(ab := [])
  {
  }

  lemma OneLost(z: System)
    ensures |z.ab| <= 1 ==> Step(z, Do(B, Lose)) == z.(ab := [])
    ensures |z.ba| <= 1 ==> Step(z, Do(A, Lose)) == z.(ba := [])
  {
    if z.ab != [] {
      assert |z.ab| <= 1 ==> z.ab[1..] == [];
    }
    if z.ba != [] {
      assert |z.ba| <= 1 ==> z.ba[1..] == [];
    }
  }

  /** The message is lost, with whatever was behind it, and the device timer runs out. */
  lemma LostMessage(s: System, m: DevMsg)
    requires CanSend(s) && m.data != []
    ensures Sent(s, Run(s, [Do(A, Queue(m)), Do(A, Pass), Do(B, Lose), Do(B, Lose)] +
                           [Do(A, DevExpires), Do(A, Pass), Do(B, Arrive), Do(A, Arrive)]), OnTheLine(m))
  {
    hide Step, Holds, HandedOut, OnTheLine;
    var msg, id := OnTheLine(m), Succ32(s.a.dev.txid);
    GoesOut(s, m);
    NewNumber(s.a.dev.txid);
    var z := Step(Step(s, Do(A, Queue(m))), Do(A, Pass));
    TwoLost(z);
    var y := Step(Step(z, Do(B, Lose)), Do(B, Lose));
    GoesOutAgain(y, s, msg);
    var x := Step(Step(y, Do(A, DevExpires)), Do(A, Pass));
    ArrivesAtB(x, s, msg, 1);
    AckAtA(Step(x, Do(B, Arrive)), id, msg, 1);
    RunOf4(s, Do(A, Queue(m)), Do(A, Pass), Do(B, Lose), Do(B, Lose));
    RunOf4(y, Do(A, DevExpires), Do(A, Pass), Do(B, Arrive), Do(A, Arrive));
    RunOn(s, [Do(A, Queue(m)), Do(A, Pass), Do(B, Lose), Do(B, Lose)],
          [Do(A, DevExpires), Do(A, Pass), Do(B, Arrive), Do(A, Arrive)]);
  }

  /** The acknowledgement is lost: the message comes again, and is not taken again. */
  lemma LostAcknowledgement(s: System, m: DevMsg)
    requires CanSend(s) && m.data != []
    ensures Sent(s, Run(s, [Do(A, Queue(m)), Do(A, Pass), Do(B, Arrive), Do(B, Lose), Do(A, Lose)] +
                           [Do(A, DevExpires), Do(A, Pass), Do(B, Arrive), Do(A, Arrive)]), OnTheLine(m))
  {
    hide Step, Holds, HandedOut, OnTheLine;
    var msg, id := OnTheLine(m), Succ32(s.a.dev.txid);
    GoesOut(s, m);
    NewNumber(s.a.dev.txid);
    var z := Step(Step(s, Do(A, Queue(m))), Do(A, Pass));
    ArrivesAtB(z, s, msg, 0);
    CfgStays(z);
    var taken := Step(z, Do(B, Arrive));
    OneLost(taken);
    OneLost(Step(taken, Do(B, Lose)));
    var y := Step(Step(taken, Do(B, Lose)), Do(A, Lose));
    GoesOutAgain(y, s, msg);
    var x := Step(Step(y, Do(A, DevExpires)), Do(A, Pass));
    ArrivesAtB(x, s, msg, 1);
    AckAtA(Step(x, Do(B, Arrive)), id, msg, 1);
    RunOf4(s, Do(A, Queue(m)), Do(A, Pass), Do(B, Arrive), Do(B, Lose));
    RunsOne(Run(s, [Do(A, Queue(m)), Do(A, Pass), Do(B, Arrive), Do(B, Lose)]), Do(A, Lose));
    RunOn(s, [Do(A, Queue(m)), Do(A, Pass), Do(B, Arrive), Do(B, Lose)], [Do(A, Lose)]);
    RunOf4(y, Do(A, DevExpires), Do(A, Pass), Do(B, Arrive), Do(A, Arrive));
    var first := [Do(A, Queue(m)), Do(A, Pass), Do(B, Arrive), Do(B, Lose), Do(A, Lose)];
    assert first == [Do(A, Queue(m)), Do(A, Pass), Do(B, Arrive), Do(B, Lose)] + [Do(A, Lose)];
    RunOn(s, first, [Do(A, DevExpires), Do(A, Pass), Do(B, Arrive), Do(A, Arrive)]);
  }

  lemma RunOf4(s: System, a: Label, b: Label, c: Label, d: Label)
    ensures Run(s, [a, b, c, d]) == Step(Step(Step(Step(s, a), b), c), d)
  {
    hide Step;
    RunOn(s, [a], [b]);
    RunsOne(s, a);
    RunsOne(Step(s, a), b);
    assert [a] + [b] == [a, b] && [a, b] + [c] == [a, b, c] && [a, b, c] + [d] == [a, b, c, d];
    RunOn(s, [a, b], [c]);
    RunsOne(Run(s, [a, b]), c);
    RunOn(s, [a, b, c], [d]);
    RunsOne(Run(s, [a, b, c]), d);
  }

  // ----- from every state of a run -----------------------------------------

  /** In every state of every run in which the handshake is over on both sides, neither is at its END,
      the channel of one side is free and the lines are empty: a message that this side hands in is
      taken by the other exactly once and leaves the channel free, when nothing is lost, when the
      message is lost, and when its acknowledgement is. */
  lemma MessagesGetAcross(u: Setup, ls: seq<Label>, m: DevMsg)
    requires m.data != []
    requires var s := Run(Begin(u), ls);
      && HTX_RINIT < s.a.tx.state < HTX_END && HTX_RINIT < s.b.tx.state < HTX_END
      && DevFree(s.a) && s.ab == [] && s.ba == []
    ensures var s, msg := Run(Begin(u), ls), OnTheLine(m);
      && Sent(s, Run(s, [Do(A, Queue(m)), Do(A, Pass), Do(B, Arrive), Do(A, Arrive)]), msg)
      && Sent(s, Run(s, [Do(A, Queue(m)), Do(A, Pass), Do(B, Lose), Do(B, Lose)] +
                        [Do(A, DevExpires), Do(A, Pass), Do(B, Arrive), Do(A, Arrive)]), msg)
      && Sent(s, Run(s, [Do(A, Queue(m)), Do(A, Pass), Do(B, Arrive), Do(B, Lose), Do(A, Lose)] +
                        [Do(A, DevExpires), Do(A, Pass), Do(B, Arrive), Do(A, Arrive)]), msg)
  {
    hide Run, Begin, Noticed, Sent, OnTheLine, SendsInOrder, AcksInOrder;
    NoticedRun(u, ls);
    DevRun(u, ls);
    var s := Run(Begin(u), ls);
    assert CanSend(s);
    PlainMessage(s, m);
    LostMessage(s, m);
    LostAcknowledgement(s, m);
  }
}
