/** The device channel delivers each message exactly once and in order over lossy lines,
    although packet numbers wrap around and both messages and acknowledgements are repeated. */
module HydraDevice {
  import opened Bits
  import opened HydraTypes
  import opened HydraEndpoint
  import opened HydraSystem
  import HydraWindows

  // ----- the invariant, for messages from a to b ---------------------------

  /** Older messages come first: after one numbered id only others numbered id follow. */
  predicate SendsInOrder(line: seq<Frame>, id: int) {
    forall i, j | 0 <= i < j < |line| ::
      line[i].p.DevSend? && line[j].p.DevSend? && line[i].p.id == id ==> line[j].p.id == id
  }

  /** And so do older acknowledgements. */
  predicate AcksInOrder(line: seq<Frame>, id: int) {
    forall i, j | 0 <= i < j < |line| ::
      line[i].p.DevAck? && line[j].p.DevAck? && line[i].p.id == id ==> line[j].p.id == id
  }

  /** The message last handed in has been delivered. */
  predicate Caught(a: Endpoint, b: Endpoint, ab: seq<Frame>, ba: seq<Frame>) {
    && b.dev.rxid == a.dev.txid
    && b.dev.taken == a.dev.sent
    && (forall f | f in ab :: f.p.DevSend? ==> f.p.id == a.dev.txid)
    && (forall f | f in ba :: f.p.DevAck? ==>
         f.p.id == a.dev.txid || (a.dev.state != DevDone && Succ32(f.p.id) == a.dev.txid))
  }

  /** The message last handed in is still on its way. */
  predicate Behind(a: Endpoint, b: Endpoint, ab: seq<Frame>, ba: seq<Frame>) {
    && Succ32(b.dev.rxid) == a.dev.txid
    && a.dev.state != DevDone
    && a.dev.sent == b.dev.taken + [a.dev.msg]
    && (forall f | f in ab :: f.p.DevSend? ==> f.p.id == b.dev.rxid || (f.p.id == a.dev.txid && f.p.msg == a.dev.msg))
    && (forall f | f in ba :: f.p.DevAck? ==> f.p.id == b.dev.rxid)
  }

  predicate DevInv(s: System) {
    && (s.a.dev.timer ==> s.a.dev.state == DevDAck)
    && SendsInOrder(s.ab, s.a.dev.txid)
    && AcksInOrder(s.ba, s.a.dev.txid)
    && (Caught(s.a, s.b, s.ab, s.ba) || Behind(s.a, s.b, s.ab, s.ba))
  }

  // ----- moves that do not touch the channel -------------------------------

  predicate Apart(e: Endpoint, m: Move) {
    m.e.dev == e.dev && forall f | f in m.out :: !f.p.DevSend? && !f.p.DevAck?
  }

  lemma ApartTransmitTx(e: Endpoint, env: Env)
    ensures Apart(e, TransmitTx(e, env))
  {
    assert Apart(e, TransmitData(e, env));
  }

  lemma ApartResync(e: Endpoint)
    ensures Apart(e, Resync(e))
  {
  }

  lemma ApartData(e: Endpoint, pos: int, bytes: Bytes, env: Env)
    ensures Apart(e, OnData(e, pos, bytes, env))
  {
    var noted := e.(rx := NoteBadPos(e.rx, pos));
    ApartResync(noted);
    ApartResync(noted.(hdxlink := true, rx := noted.rx.(retries := 0)));
    assert Apart(e, OnBadData(e, pos, env));
  }

  lemma ApartEof(e: Endpoint, pos: int, env: Env)
    ensures Apart(e, OnEof(e, pos, env))
  {
    ApartResync(e.(rx := NoteBadPos(e.rx, pos)));
    assert Apart(e, OnEofInData(e, pos, env));
  }

  lemma ApartRPos(e: Endpoint, pos: int, blklen: int, syncid: int, env: Env)
    ensures Apart(e, OnRPos(e, pos, blklen, syncid, env))
  {
  }

  lemma ApartSession(e: Endpoint, p: Packet, env: Env)
    ensures Apart(e, OnStart(e)) && Apart(e, OnInitAck(e)) && Apart(e, OnIdle(e)) && Apart(e, OnEnd(e, env))
    ensures p.Init? ==> Apart(e, OnInit(e, p))
    ensures p.FInfo? ==> Apart(e, OnFInfo(e, p.endOfBatch, env))
  {
    hide Apart, OnStart, OnInitAck, OnIdle, OnEnd, OnInit;
    ApartHandshake(e, env);
    if p.Init? {
      ApartInit(e, p);
    }
    if p.FInfo? {
      ApartFInfo(e, p.endOfBatch, env);
    }
  }

  lemma ApartHandshake(e: Endpoint, env: Env)
    ensures Apart(e, OnStart(e)) && Apart(e, OnInitAck(e)) && Apart(e, OnIdle(e)) && Apart(e, OnEnd(e, env))
  {
  }

  lemma ApartInit(e: Endpoint, p: Packet)
    requires p.Init?
    ensures Apart(e, OnInit(e, p))
  {
    hide Window;
  }

  lemma ApartFInfo(e: Endpoint, endOfBatch: bool, env: Env)
    ensures Apart(e, OnFInfo(e, endOfBatch, env))
  {
  }

  lemma ApartAnswers(e: Endpoint, pos: int, env: Env)
    ensures Apart(e, OnFInfoAck(e, pos, env)) && Apart(e, OnDataAck(e, pos)) && Apart(e, OnEofAck(e))
    ensures Apart(e, OnTxTimeout(e)) && Apart(e, Stay(Finish(e, Aborted)))
  {
    hide Apart, OnFInfoAck, OnDataAck, OnEofAck, OnTxTimeout;
    ApartFInfoAck(e, pos, env);
    ApartAcks(e, pos);
    ApartTimeout(e);
  }

  lemma ApartFInfoAck(e: Endpoint, pos: int, env: Env)
    ensures Apart(e, OnFInfoAck(e, pos, env))
  {
  }

  lemma ApartAcks(e: Endpoint, pos: int)
    ensures Apart(e, OnDataAck(e, pos)) && Apart(e, OnEofAck(e))
  {
  }

  lemma ApartTimeout(e: Endpoint)
    ensures Apart(e, OnTxTimeout(e)) && Apart(e, Stay(Finish(e, Aborted)))
  {
  }

  lemma ApartPacket(e: Endpoint, p: Packet, env: Env)
    requires !p.DevSend? && !p.DevAck?
    ensures Apart(e, OnPacket(e, p, env))
  {
    match p
    case Data(pos, bytes) => ApartData(e, pos, bytes, env);
    case Eof(pos) => ApartEof(e, pos, env);
    case RPos(pos, blklen, syncid) => ApartRPos(e, pos, blklen, syncid, env);
    case FInfoAck(pos) => ApartAnswers(e, pos, env);
    case DataAck(pos) => ApartAnswers(e, pos, env);
    case EofAck => ApartAnswers(e, 0, env);
    case _ => ApartSession(e, p, env);
  }

  /** After the event, the half-duplex notice may be queued. */
  lemma AfterEventDev(e: Endpoint, env: Env)
    ensures AfterEvent(e, env).dev == e.dev || AfterEvent(e, env).dev == DevQueue(e, HDX_MESSAGE).dev
  {
  }

  // ----- steps of the sending side -----------------------------------------

  /** What is left of a line when its first packet is gone, or all of it. */
  predicate Rest(line: seq<Frame>, rest: seq<Frame>) {
    rest == line || (line != [] && rest == line[1..])
  }

  lemma RestIsIn(line: seq<Frame>, rest: seq<Frame>)
    requires Rest(line, rest)
    ensures forall f | f in rest :: f in line
  {
  }

  lemma SendsRest(line: seq<Frame>, rest: seq<Frame>, id: int)
    requires SendsInOrder(line, id) && Rest(line, rest)
    ensures SendsInOrder(rest, id)
  {
    var k := |line| - |rest|;
    forall i, j | 0 <= i < j < |rest|
      ensures rest[i].p.DevSend? && rest[j].p.DevSend? && rest[i].p.id == id ==> rest[j].p.id == id
    {
      assert rest[i] == line[i + k] && rest[j] == line[j + k];
    }
  }

  lemma AcksRest(line: seq<Frame>, rest: seq<Frame>, id: int)
    requires AcksInOrder(line, id) && Rest(line, rest)
    ensures AcksInOrder(rest, id)
  {
    var k := |line| - |rest|;
    forall i, j | 0 <= i < j < |rest|
      ensures rest[i].p.DevAck? && rest[j].p.DevAck? && rest[i].p.id == id ==> rest[j].p.id == id
    {
      assert rest[i] == line[i + k] && rest[j] == line[j + k];
    }
  }

  lemma CaughtWithLess(a: Endpoint, b: Endpoint, ab: seq<Frame>, ba: seq<Frame>, ab': seq<Frame>, ba': seq<Frame>)
    requires (forall f | f in ab' :: f in ab) && (forall f | f in ba' :: f in ba)
    ensures Caught(a, b, ab, ba) ==> Caught(a, b, ab', ba')
  {
  }

  lemma BehindWithLess(a: Endpoint, b: Endpoint, ab: seq<Frame>, ba: seq<Frame>, ab': seq<Frame>, ba': seq<Frame>)
    requires (forall f | f in ab' :: f in ab) && (forall f | f in ba' :: f in ba)
    ensures Behind(a, b, ab, ba) ==> Behind(a, b, ab', ba')
  {
  }

  lemma LessIncoming(s: System, ba: seq<Frame>)
    requires DevInv(s) && Rest(s.ba, ba)
    ensures DevInv(System(s.a, s.b, s.ab, ba))
  {
    hide SendsInOrder, AcksInOrder, Caught, Behind, Rest;
    RestIsIn(s.ba, ba);
    AcksRest(s.ba, ba, s.a.dev.txid);
    CaughtWithLess(s.a, s.b, s.ab, s.ba, s.ab, ba);
    BehindWithLess(s.a, s.b, s.ab, s.ba, s.ab, ba);
  }

  lemma ApartMove(s: System, m: Move)
    requires DevInv(s) && Apart(s.a, m)
    ensures DevInv(System(m.e, s.b, s.ab + m.out, s.ba))
  {
    assert forall f | f in s.ab + m.out :: f in s.ab || f in m.out;
    SendsAppend(s.ab, m.out, s.a.dev.txid);
  }

  lemma SendsAppend(line: seq<Frame>, out: seq<Frame>, id: int)
    requires SendsInOrder(line, id)
    requires forall f | f in out :: f.p.DevSend? ==> f.p.id == id
    ensures SendsInOrder(line + out, id)
  {
    var all := line + out;
    forall i, j | 0 <= i < j < |all|
      ensures all[i].p.DevSend? && all[j].p.DevSend? && all[i].p.id == id ==> all[j].p.id == id
    {
      if j >= |line| {
        assert all[j] in out;
      }
    }
  }

  lemma AcksAppend(line: seq<Frame>, out: seq<Frame>, id: int)
    requires AcksInOrder(line, id)
    requires forall f | f in out :: f.p.DevAck? ==>
      f.p.id == id || (forall g | g in line :: g.p.DevAck? ==> g.p.id != id)
    requires |out| <= 1 || (forall f | f in out :: !f.p.DevAck?)
    ensures AcksInOrder(line + out, id)
  {
    var all := line + out;
    forall i, j | 0 <= i < j < |all|
      ensures all[i].p.DevAck? && all[j].p.DevAck? && all[i].p.id == id ==> all[j].p.id == id
    {
      if j >= |line| {
        assert all[j] in out;
        if i < |line| {
          assert all[i] in line;
        }
      }
    }
  }

  lemma QueueMove(s: System, msg: DevMsg)
    requires DevInv(s)
    ensures DevInv(s.(a := DevQueue(s.a, msg)))
  {
    var a := DevQueue(s.a, msg);
    if a != s.a {
      assert Caught(s.a, s.b, s.ab, s.ba);
      assert a.dev.txid != s.a.dev.txid;
      assert SendsInOrder(s.ab, a.dev.txid) by {
        assert forall i | 0 <= i < |s.ab| :: s.ab[i] in s.ab;
      }
      assert AcksInOrder(s.ba, a.dev.txid) by {
        assert forall i | 0 <= i < |s.ba| :: s.ba[i] in s.ba;
      }
      assert Behind(a, s.b, s.ab, s.ba);
    }
  }

  lemma SendMove(s: System)
    requires DevInv(s)
    ensures var d := TransmitDev(s.a); DevInv(System(d.e, s.b, s.ab + d.out, s.ba))
  {
    var d := TransmitDev(s.a);
    assert forall f | f in s.ab + d.out :: f in s.ab || f in d.out;
    SendsAppend(s.ab, d.out, s.a.dev.txid);
  }

  lemma AckMove(s: System, id: int)
    requires DevInv(s) && s.ba != [] && s.ba[0].p == DevAck(id)
    ensures DevInv(System(OnDevAck(s.a, id).e, s.b, s.ab, s.ba[1..]))
  {
    var a := OnDevAck(s.a, id).e;
    LessIncoming(s, s.ba[1..]);
    assert s.ba[0] in s.ba;
    if a != s.a {
      assert Caught(s.a, s.b, s.ab, s.ba);
      forall f | f in s.ba[1..] && f.p.DevAck? ensures f.p.id == s.a.dev.txid {
        var j :| 0 <= j < |s.ba[1..]| && s.ba[1..][j] == f;
        assert s.ba[j + 1] == f;
      }
    }
  }

  lemma SenderAfter(s: System, env: Env)
    requires DevInv(s)
    ensures DevInv(s.(a := AfterEvent(s.a, env)))
  {
    AfterEventDev(s.a, env);
    QueueMove(s, HDX_MESSAGE);
  }

  lemma AckSendsNothing(e: Endpoint, id: int)
    ensures OnDevAck(e, id).out == []
  {
  }

  lemma DevTimeoutMove(s: System)
    requires DevInv(s) && s.a.dev.timer
    ensures var m := OnDevTimeout(s.a); DevInv(System(m.e, s.b, s.ab + m.out, s.ba))
  {
    hide SendsInOrder, AcksInOrder;
    assert s.ab + [] == s.ab;
  }

  lemma SenderEvent(s: System, ev: Event, env: Env, rest: seq<Frame>)
    requires DevInv(s)
    requires if ev.Received? then s.ba != [] && ev.p == s.ba[0].p && rest == s.ba[1..] else rest == s.ba
    requires ev.DevTimeout? ==> s.a.dev.timer
    ensures var m := OnEvent(s.a, ev, env); DevInv(System(m.e, s.b, s.ab + m.out, rest))
  {
    hide DevInv, Apart, OnDevAck, OnDevSend, OnTxTimeout, OnDevTimeout;
    var m := OnEvent(s.a, ev, env);
    LessIncoming(s, rest);
    var s1 := System(s.a, s.b, s.ab, rest);
    assert s.ab + [] == s.ab;
    match ev
    case Received(p) =>
      if p.DevAck? {
        AckMove(s, p.id);
        AckSendsNothing(s.a, p.id);
      } else if p.DevSend? {
        PeersMessage(s1, p, env);
      } else {
        ApartPacket(s.a, p, env);
        ApartMove(s1, m);
      }
    case TxTimeout => ApartTimeout(s.a); ApartMove(s1, m);
    case DevTimeout => DevTimeoutMove(s1);
    case Fatal => ApartTimeout(s.a); ApartMove(s1, m);
  }

  /** Messages in the other direction do not matter. */
  lemma PeersMessage(s: System, p: Packet, env: Env)
    requires DevInv(s) && p.DevSend?
    ensures var m := OnPacket(s.a, p, env); DevInv(System(m.e, s.b, s.ab + m.out, s.ba))
  {
    var m := OnPacket(s.a, p, env);
    assert forall f | f in s.ab + m.out :: f in s.ab || f in m.out;
    SendsAppend(s.ab, m.out, s.a.dev.txid);
  }

  // ----- steps of the receiving side ---------------------------------------

  lemma LessOutgoing(s: System, ab: seq<Frame>)
    requires DevInv(s) && Rest(s.ab, ab)
    ensures DevInv(System(s.a, s.b, ab, s.ba))
  {
    hide SendsInOrder, AcksInOrder, Caught, Behind, Rest;
    RestIsIn(s.ab, ab);
    SendsRest(s.ab, ab, s.a.dev.txid);
    CaughtWithLess(s.a, s.b, s.ab, s.ba, ab, s.ba);
    BehindWithLess(s.a, s.b, s.ab, s.ba, ab, s.ba);
  }

  /** A move of b that hands out no message: it may send messages of its own, but no
      acknowledgements. */
  predicate NoDelivery(b: Endpoint, m: Move) {
    m.e.dev.rxid == b.dev.rxid && m.e.dev.taken == b.dev.taken && forall f | f in m.out :: !f.p.DevAck?
  }

  lemma NoDeliveryMove(s: System, m: Move)
    requires DevInv(s) && NoDelivery(s.b, m)
    ensures DevInv(System(s.a, m.e, s.ab, s.ba + m.out))
  {
    assert forall f | f in s.ba + m.out :: f in s.ba || f in m.out;
    AcksAppend(s.ba, m.out, s.a.dev.txid);
  }

  lemma NoDeliveryAfter(e: Endpoint, env: Env)
    ensures NoDelivery(e, Stay(AfterEvent(e, env)))
  {
    hide AfterEvent;
    AfterEventDev(e, env);
  }

  lemma NoDeliveryQueued(e: Endpoint, msg: DevMsg)
    ensures NoDelivery(e, Stay(DevQueue(e, msg)))
  {
  }

  lemma NoDeliveryInPass(e: Endpoint, env: Env)
    ensures NoDelivery(e, Transmit(e, env))
  {
    hide TransmitTx;
    if e.tx.state != HTX_DONE {
      ApartTransmitTx(TransmitDev(e).e, env);
    }
  }

  /** A message arrives: a repeated one is only acknowledged again. */
  lemma MessageMove(s: System, id: int, msg: DevMsg)
    requires DevInv(s) && s.ab != [] && s.ab[0].p == DevSend(id, msg)
    ensures var m := OnDevSend(s.b, id, msg); DevInv(System(s.a, m.e, s.ab[1..], s.ba + m.out))
  {
    var m := OnDevSend(s.b, id, msg);
    LessOutgoing(s, s.ab[1..]);
    assert s.ab[0] in s.ab;
    assert forall f | f in s.ba + m.out :: f in s.ba || f in m.out;
    AcksAppend(s.ba, m.out, s.a.dev.txid);
    if m.e.dev.rxid != s.b.dev.rxid {
      forall f | f in s.ab[1..] && f.p.DevSend? ensures f.p.id == s.a.dev.txid {
        var j :| 0 <= j < |s.ab[1..]| && s.ab[1..][j] == f;
        assert s.ab[j + 1] == f;
      }
      assert Caught(s.a, m.e, s.ab[1..], s.ba + m.out);
    }
  }

  lemma ReceiverEvent(s: System, ev: Event, env: Env, rest: seq<Frame>)
    requires DevInv(s)
    requires if ev.Received? then s.ab != [] && ev.p == s.ab[0].p && rest == s.ab[1..] else rest == s.ab
    ensures var m := OnEvent(s.b, ev, env); DevInv(System(s.a, m.e, rest, s.ba + m.out))
  {
    var m := OnEvent(s.b, ev, env);
    LessOutgoing(s, rest);
    var s1 := System(s.a, s.b, rest, s.ba);
    if ev.Received? && ev.p.DevSend? {
      MessageMove(s, ev.p.id, ev.p.msg);
    } else {
      if ev.Received? && !ev.p.DevAck? {
        ApartPacket(s.b, ev.p, env);
      } else if ev.TxTimeout? || ev.Fatal? {
        ApartAnswers(s.b, 0, env);
      }
      assert NoDelivery(s.b, m);
      NoDeliveryMove(s1, m);
    }
  }

  // ----- the system --------------------------------------------------------

  lemma SenderTurn(s: System, ev: Event, env: Env, rest: seq<Frame>)
    requires DevInv(s)
    requires if ev.Received? then s.ba != [] && ev.p == s.ba[0].p && rest == s.ba[1..] else rest == s.ba
    requires ev.DevTimeout? ==> s.a.dev.timer
    ensures var m := Receive(s.a, ev, env); DevInv(System(m.e, s.b, s.ab + m.out, rest))
  {
    if s.a.tx.state == HTX_DONE {
      LessIncoming(s, rest);
      assert s.ab + [] == s.ab;
    } else {
      var m := OnEvent(s.a, ev, env);
      SenderEvent(s, ev, env, rest);
      if !m.returned {
        SenderAfter(System(m.e, s.b, s.ab + m.out, rest), env);
      }
    }
  }

  lemma SenderPass(s: System, env: Env)
    requires DevInv(s)
    ensures DevInv(StepA(s, Pass, env))
  {
    hide TransmitDev, TransmitTx, DevInv;
    assert s.ab + [] == s.ab;
    if s.a.tx.state != HTX_DONE {
      var d := TransmitDev(s.a);
      SendMove(s);
      var t := TransmitTx(d.e, env);
      ApartTransmitTx(d.e, env);
      ApartMove(System(d.e, s.b, s.ab + d.out, s.ba), t);
      assert s.ab + (d.out + t.out) == (s.ab + d.out) + t.out;
    }
  }

  lemma SenderStep(s: System, action: Action, env: Env)
    requires DevInv(s) && Possible(s, Label(A, action, env))
    ensures DevInv(StepA(s, action, env))
  {
    var rest := Consumed(s.ba, action);
    assert s.ab + [] == s.ab;
    hide Transmit, DevInv;
    match action
    case Pass => SenderPass(s, env);
    case Arrive => SenderTurn(s, Received(s.ba[0].p), env, rest);
    case TxExpires => SenderTurn(s, TxTimeout, env, rest);
    case DevExpires => SenderTurn(s, DevTimeout, env, rest);
    case Break => SenderTurn(s, Fatal, env, rest);
    case Lose => LessIncoming(s, rest);
    case Queue(msg) => QueueMove(s, msg);
  }

  lemma ReceiverTurn(s: System, ev: Event, env: Env, rest: seq<Frame>)
    requires DevInv(s)
    requires if ev.Received? then s.ab != [] && ev.p == s.ab[0].p && rest == s.ab[1..] else rest == s.ab
    ensures var m := Receive(s.b, ev, env); DevInv(System(s.a, m.e, rest, s.ba + m.out))
  {
    hide DevInv, OnEvent, AfterEvent, NoDelivery;
    if s.b.tx.state == HTX_DONE {
      LessOutgoing(s, rest);
      assert s.ba + [] == s.ba;
    } else {
      var m := OnEvent(s.b, ev, env);
      ReceiverEvent(s, ev, env, rest);
      if !m.returned {
        NoDeliveryAfter(m.e, env);
        var s1 := System(s.a, m.e, rest, s.ba + m.out);
        NoDeliveryMove(s1, Stay(AfterEvent(m.e, env)));
        assert s1.ba + [] == s1.ba;
      }
    }
  }

  lemma ReceiverStep(s: System, action: Action, env: Env)
    requires DevInv(s) && (action.Arrive? || action.Lose? ==> s.ab != [])
    ensures DevInv(Flip(StepA(Flip(s), action, env)))
  {
    hide Transmit, Receive, DevQueue, DevInv, NoDelivery;
    var rest := Consumed(s.ab, action);
    assert s.ba + [] == s.ba;
    match action
    case Pass =>
      NoDeliveryInPass(s.b, env);
      NoDeliveryMove(s, Transmit(s.b, env));
    case Arrive => ReceiverTurn(s, Received(s.ab[0].p), env, rest);
    case TxExpires => ReceiverTurn(s, TxTimeout, env, rest);
    case DevExpires => ReceiverTurn(s, DevTimeout, env, rest);
    case Break => ReceiverTurn(s, Fatal, env, rest);
    case Lose => LessOutgoing(s, rest);
    case Queue(msg) =>
      NoDeliveryQueued(s.b, msg);
      NoDeliveryMove(s, Stay(DevQueue(s.b, msg)));
  }

  lemma {:induction false} DevRun(u: Setup, ls: seq<Label>)
    ensures DevInv(Run(Begin(u), ls))
    decreases |ls|
  {
    if ls != [] {
      var s, l := Run(Begin(u), ls[..|ls| - 1]), ls[|ls| - 1];
      DevRun(u, ls[..|ls| - 1]);
      if Possible(s, l) {
        if l.side == A {
          SenderStep(s, l.action, l.env);
        } else {
          ReceiverStep(s, l.action, l.env);
        }
      }
    }
  }

  // ----- what reaches the device functions ---------------------------------

  /** The messages for devices that a function is registered for, in order. */
  function Restrict(ms: seq<DevMsg>, devices: set<string>): seq<DevMsg> {
    if ms == [] then [] else Restrict(ms[..|ms| - 1], devices) + HandedOut(devices, ms[|ms| - 1])
  }

  lemma RestrictLast(ms: seq<DevMsg>, msg: DevMsg, devices: set<string>)
    ensures Restrict(ms + [msg], devices) == Restrict(ms, devices) + HandedOut(devices, msg)
  {
    assert (ms + [msg])[..|ms|] == ms;
  }

  /** Nothing is left out of messages to registered devices. */
  lemma {:induction false} RestrictAll(ms: seq<DevMsg>, devices: set<string>)
    requires forall m | m in ms :: Registered(devices, m.device)
    ensures Restrict(ms, devices) == ms
  {
    if ms != [] {
      RestrictAll(ms[..|ms| - 1], devices);
      assert ms[|ms| - 1] in ms;
    }
  }

  predicate HandedOk(e: Endpoint) {
    e.dev.handed == Restrict(e.dev.taken, e.cfg.devices)
  }

  /** Nothing is taken from the line. */
  predicate NothingTaken(e: Endpoint, after: Endpoint) {
    after.dev.taken == e.dev.taken && after.dev.handed == e.dev.handed
  }

  lemma HandedEvent(e: Endpoint, ev: Event, env: Env)
    requires HandedOk(e)
    ensures var m := OnEvent(e, ev, env); m.e.dev.handed == Restrict(m.e.dev.taken, e.cfg.devices)
  {
    hide Restrict, HandedOut;
    match ev
    case Received(p) =>
      if p.DevSend? {
        RestrictLast(e.dev.taken, p.msg, e.cfg.devices);
      } else if p.DevAck? {
      } else {
        hide OnPacket;
        ApartPacket(e, p, env);
      }
    case TxTimeout => ApartTimeout(e);
    case DevTimeout =>
    case Fatal => ApartTimeout(e);
  }

  lemma NothingTakenAfter(e: Endpoint, env: Env)
    ensures NothingTaken(e, AfterEvent(e, env))
  {
    hide AfterEvent;
    AfterEventDev(e, env);
  }

  lemma NothingTakenInPass(e: Endpoint, env: Env)
    ensures NothingTaken(e, Transmit(e, env).e)
  {
    hide TransmitTx;
    if e.tx.state != HTX_DONE {
      ApartTransmitTx(TransmitDev(e).e, env);
    }
  }

  lemma HandedReceive(e: Endpoint, ev: Event, env: Env)
    requires HandedOk(e)
    ensures var m := Receive(e, ev, env); m.e.dev.handed == Restrict(m.e.dev.taken, e.cfg.devices)
  {
    hide Restrict, OnEvent, AfterEvent;
    if e.tx.state != HTX_DONE {
      HandedEvent(e, ev, env);
      NothingTakenAfter(OnEvent(e, ev, env).e, env);
    }
  }

  lemma HandedStepA(s: System, action: Action, env: Env)
    requires HandedOk(s.a) && (action.Arrive? || action.Lose? ==> s.ba != [])
    ensures HandedOk(StepA(s, action, env).a) && StepA(s, action, env).b == s.b
  {
    hide Restrict, Receive, Transmit, DevQueue;
    HydraWindows.ConfigStays(s, action, env);
    match action
    case Pass => NothingTakenInPass(s.a, env);
    case Arrive => HandedReceive(s.a, Received(s.ba[0].p), env);
    case TxExpires => HandedReceive(s.a, TxTimeout, env);
    case DevExpires => HandedReceive(s.a, DevTimeout, env);
    case Break => HandedReceive(s.a, Fatal, env);
    case Lose =>
    case Queue(msg) => NothingTakenQueued(s.a, msg);
  }

  lemma NothingTakenQueued(e: Endpoint, msg: DevMsg)
    ensures NothingTaken(e, DevQueue(e, msg))
  {
  }

  lemma {:induction false} HandedRun(u: Setup, ls: seq<Label>)
    ensures var s := Run(Begin(u), ls); HandedOk(s.a) && HandedOk(s.b)
    decreases |ls|
  {
    hide StepA, HandedOk;
    if ls == [] {
      HandedStart(u.cfgA, u.firstA, u.msg);
      HandedStart(u.cfgB, u.firstB, u.msg);
    } else {
      var s, l := Run(Begin(u), ls[..|ls| - 1]), ls[|ls| - 1];
      HandedRun(u, ls[..|ls| - 1]);
      if Possible(s, l) {
        HandedStepA(if l.side == A then s else Flip(s), l.action, l.env);
      }
    }
  }

  lemma HandedStart(cfg: Config, first: FirstCall, msg: DevMsg)
    ensures HandedOk(StartSession(cfg, first, msg))
  {
  }

  // ----- what the user gets ------------------------------------------------

  /** All of these messages have been taken at y, and its device functions have got those for
      registered devices. */
  predicate HandedAll(y: Endpoint, sent: seq<DevMsg>) {
    y.dev.taken == sent && y.dev.handed == Restrict(sent, y.cfg.devices)
  }

  /** The messages x handed in have arrived at y, in order and once each, except perhaps the last
      one while its transmission is not finished; and the device functions of y have got exactly
      those that are for registered devices. */
  predicate ExactlyOnce(x: Endpoint, y: Endpoint) {
    || HandedAll(y, x.dev.sent)
    || (x.dev.state != DevDone && x.dev.sent != [] && HandedAll(y, x.dev.sent[..|x.dev.sent| - 1]))
  }

  /** Exactly-once delivery in every state of every run, in both directions, whatever the
      configurations are. */
  lemma DeviceDelivery(u: Setup, ls: seq<Label>)
    ensures var s := Run(Begin(u), ls); ExactlyOnce(s.a, s.b) && ExactlyOnce(s.b, s.a)
  {
    hide Run, Begin, SendsInOrder, AcksInOrder, Restrict;
    DevRun(u, ls);
    RunFlips(u, ls);
    DevRun(FlipSetup(u), FlipLabels(ls));
    HandedRun(u, ls);
    var s := Run(Begin(u), ls);
    SentIsTaken(s);
    SentIsTaken(Flip(s));
  }

  lemma SentIsTaken(s: System)
    requires DevInv(s)
    ensures || s.b.dev.taken == s.a.dev.sent
            || (&& s.a.dev.state != DevDone && s.a.dev.sent != []
                && s.b.dev.taken == s.a.dev.sent[..|s.a.dev.sent| - 1])
  {
    hide SendsInOrder, AcksInOrder;
  }
}
