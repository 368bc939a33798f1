/** File agreement over lossy lines, for the file that side A sends to side B: whatever is
    lost, repeated, repositioned or skipped, the receiver holds exactly a prefix of the
    sender's file, and a transfer reported as sent is complete on the other side. */
module HydraFile {
  import opened Bits
  import opened HydraTypes
  import opened HydraFlags
  import opened HydraEndpoint
  import opened HydraSystem

  // ----- the invariant -----------------------------------------------------

  predicate InData(state: int) {
    HTX_XDATA <= state <= HTX_XWAIT
  }

  predicate InEof(state: int) {
    HTX_EOF <= state <= HTX_EOFACK
  }

  /** A FINFO packet has been sent, or the session is over. */
  predicate Offered(a: Endpoint) {
    a.tx.state == HTX_DONE || a.tx.state >= HTX_FINFO
  }

  /** The offer has been answered, or the session is over. */
  predicate Answered(a: Endpoint) {
    a.tx.state == HTX_DONE || a.tx.state >= HTX_XDATA
  }

  /** The read position follows txpos, and txpos is at the end of the file, or negative for a
      file given up, once EOF packets are sent. */
  predicate SenderOk(a: Endpoint) {
    && a.tx.blklen > 0
    && 0 <= a.tx.state <= HTX_ENDACK
    && (a.tx.named ==> a.tx.state < HTX_REND)
    && (a.tx.named && HTX_START <= a.tx.state <= HTX_FINFOACK ==> a.tx.open && a.tx.fp == 0)
    && (!a.tx.named ==> !a.tx.open)
    && (a.tx.state == HTX_DONE ==> !a.tx.open)
    && (InData(a.tx.state) ==> a.tx.named && a.tx.open && a.tx.fp == a.tx.pos && 0 <= a.tx.pos <= |a.source|)
    && a.tx.pos >= -2
    && (InEof(a.tx.state) ==> a.tx.named && if a.tx.open then a.tx.pos == |a.source| else a.tx.pos < 0)
  }

  /** The file holds the first pos bytes of the source, if no write has fallen short. */
  predicate Holds(source: Bytes, pos: int, file: Bytes, lost: nat) {
    && 0 <= pos <= |source| && |file| + lost == pos
    && (lost == 0 ==> file == source[..pos])
  }

  /** What is received is a prefix, what was closed as complete is the whole file, once, both as far
      as the disk has taken it. */
  predicate ReceiverOk(a: Endpoint, b: Endpoint) {
    && -2 <= b.rx.pos <= |a.source|
    && (b.rx.state == RxData && b.rx.pos >= 0 ==>
         Holds(a.source, b.rx.pos, b.rx.file, b.rx.lost) && (b.rx.open || b.tx.state == HTX_DONE))
    && (b.closed == [] || (|b.closed| == 1 && Holds(a.source, |a.source|, b.closed[0], b.rx.lost)))
    && (b.closed != [] ==> b.rx.state != RxData)
  }

  /** How far the two sides can be apart. */
  predicate Together(a: Endpoint, b: Endpoint) {
    && (a.tx.named && a.tx.state >= HTX_RINIT ==> b.rx.state != RxInit)
    && (a.tx.named && a.tx.open && Answered(a) ==> b.rx.state == RxData || b.closed != [])
    && (a.tx.named && b.closed != [] ==> Answered(a))
    && (b.rx.state == RxDone ==> !a.tx.named)
    && (FileSent in a.results ==> b.closed != [])
  }

  const OFFER := FInfo(false)

  predicate FileOver(p: Packet) {
    p.Data? || p.Eof?
  }

  /** A packet on its way from the sender to the receiver. */
  predicate ForwardOk(p: Packet, a: Endpoint, b: Endpoint) {
    match p
    case Data(pos, bytes) =>
      0 <= pos <= pos + |bytes| <= |a.source| && bytes == a.source[pos..pos + |bytes|] && (a.tx.named ==> Answered(a))
    case Eof(pos) =>
      (pos == |a.source| || (-2 <= pos < 0 && !a.tx.open)) && (a.tx.named ==> Answered(a))
    case FInfo(endOfBatch) =>
      if endOfBatch then !a.tx.named else b.closed == [] && (a.tx.named ==> Offered(a))
    case _ => true
  }

  /** A packet on its way from the receiver to the sender. */
  predicate BackwardOk(p: Packet, a: Endpoint, b: Endpoint) {
    match p
    case InitAck => b.rx.state != RxInit
    case FInfoAck(pos) =>
      && -2 <= pos <= |a.source|
      && (a.tx.named ==> Offered(a))
      && (a.tx.named && pos >= 0 ==> Answered(a) || (b.rx.state == RxData && b.closed == []))
    case DataAck(pos) => -2 <= pos <= |a.source|
    case RPos(pos, _, _) => -2 <= pos <= |a.source|
    case EofAck => a.tx.named && a.tx.open ==> b.closed != []
    case _ => true
  }

  /** No offer of the file follows any of its contents on the line. */
  predicate OffersFirst(line: seq<Frame>) {
    forall i, j | 0 <= i < j < |line| :: FileOver(line[i].p) ==> line[j].p != OFFER
  }

  predicate FileInv(s: System) {
    && SenderOk(s.a)
    && ReceiverOk(s.a, s.b)
    && Together(s.a, s.b)
    && (forall f | f in s.ab :: ForwardOk(f.p, s.a, s.b))
    && (forall f | f in s.ba :: BackwardOk(f.p, s.a, s.b))
    && OffersFirst(s.ab)
  }

  // ----- the sender moves --------------------------------------------------

  /** The sender only ever goes forward: it never gets a name or an open file back, and it
      does not fall behind an offer or an answer while it still has the name. */
  predicate Forward(a: Endpoint, e: Endpoint) {
    && e.source == a.source
    && (e.tx.named ==> a.tx.named)
    && (e.tx.open ==> a.tx.open)
    && (e.tx.named && Offered(a) ==> Offered(e))
    && (e.tx.named && Answered(a) ==> Answered(e))
  }

  /** A move of the sender after which the invariant still holds. */
  predicate SenderKept(a: Endpoint, m: Move, b: Endpoint) {
    && Forward(a, m.e)
    && SenderOk(m.e)
    && Together(m.e, b)
    && (forall f | f in m.out :: ForwardOk(f.p, m.e, b))
    && |m.out| <= 3
    && (forall f | f in m.out :: f.p == OFFER ==> a.tx.named && !Answered(a) && |m.out| == 1)
  }

  lemma AfterSender(s: System, m: Move, ba: seq<Frame>)
    requires FileInv(s) && SenderKept(s.a, m, s.b)
    requires forall f | f in ba :: f in s.ba
    ensures FileInv(System(m.e, s.b, s.ab + m.out, ba))
  {
    forall f | f in s.ab + m.out ensures ForwardOk(f.p, m.e, s.b) {
      if f in s.ab {
        assert ForwardOk(f.p, s.a, s.b);
      }
    }
    forall f | f in ba ensures BackwardOk(f.p, m.e, s.b) {
      assert BackwardOk(f.p, s.a, s.b);
    }
    OffersStayFirst(s, m.out);
  }

  lemma OffersStayFirst(s: System, out: seq<Frame>)
    requires FileInv(s)
    requires forall f | f in out :: f.p == OFFER ==> s.a.tx.named && !Answered(s.a) && |out| == 1
    ensures OffersFirst(s.ab + out)
  {
    var line := s.ab + out;
    forall i, j | 0 <= i < j < |line| ensures FileOver(line[i].p) ==> line[j].p != OFFER {
      if j >= |s.ab| && line[j].p == OFFER {
        assert line[j] in out;
        assert i < |s.ab| && line[i] in s.ab;
        assert ForwardOk(line[i].p, s.a, s.b);
      }
    }
  }

  lemma SenderTransmitDev(a: Endpoint, b: Endpoint)
    requires SenderOk(a) && Together(a, b)
    ensures SenderKept(a, TransmitDev(a), b)
  {
  }

  lemma SenderTransmitTx(a: Endpoint, b: Endpoint, env: Env)
    requires SenderOk(a) && Together(a, b) && ReceiverOk(a, b)
    ensures SenderKept(a, TransmitTx(a, env), b)
  {
    hide Names;
    if a.tx.state == HTX_XDATA {
      hide TransmitData, SenderKept;
      SenderTransmitData(a, b, env);
    } else {
      hide TransmitData;
    }
  }

  /** Growing the block length leaves everything else alone. */
  lemma GrowKeeps(tx: Tx, maxblk: int, i: int)
    requires tx.blklen > 0
    ensures var t := Grow(tx, maxblk, i);
      t == tx.(blklen := t.blklen, goodneeded := t.goodneeded, goodbytes := t.goodbytes) && t.blklen > 0
  {
  }

  lemma SenderTransmitData(a: Endpoint, b: Endpoint, env: Env)
    requires SenderOk(a) && Together(a, b) && a.tx.state == HTX_XDATA
    ensures SenderKept(a, TransmitData(a, env), b)
  {
    hide Grow;
    var block := Chunk(a);
    GrowKeeps(a.tx.(pos := a.tx.pos + |block|, fp := a.tx.fp + |block|), a.cfg.maxblk, |block|);
  }

  /** The move concerns this side only as a receiver, or ends the session. */
  predicate Calm(a: Endpoint, m: Move) {
    && m.e.source == a.source
    && m.e.tx.named == a.tx.named && m.e.tx.blklen == a.tx.blklen && m.e.tx.fp == a.tx.fp && m.e.tx.pos == a.tx.pos
    && ((m.e.tx.state == a.tx.state && m.e.tx.open == a.tx.open) || (m.e.tx.state == HTX_DONE && !m.e.tx.open))
    && (FileSent in m.e.results ==> FileSent in a.results)
    && |m.out| <= 1
    && (m.out != [] ==> !m.out[0].p.FInfo? && !FileOver(m.out[0].p))
  }

  lemma SenderCalm(a: Endpoint, m: Move, b: Endpoint)
    requires SenderOk(a) && Together(a, b) && Calm(a, m)
    ensures SenderKept(a, m, b)
  {
    assert m.out != [] ==> m.out == [m.out[0]];
  }

  lemma CalmResync(a: Endpoint)
    ensures Calm(a, Resync(a))
  {
  }

  lemma CalmBadData(a: Endpoint, pos: int, env: Env)
    ensures Calm(a, OnBadData(a, pos, env))
  {
    hide Resync, NoteBadPos;
    var noted := a.(rx := NoteBadPos(a.rx, pos));
    CalmResync(noted);
    CalmResync(noted.(hdxlink := true, rx := noted.rx.(retries := 0)));
  }

  lemma CalmData(a: Endpoint, pos: int, bytes: Bytes, env: Env)
    ensures Calm(a, OnData(a, pos, bytes, env))
  {
    hide OnBadData;
    CalmBadData(a, pos, env);
  }

  lemma CalmEofInData(a: Endpoint, pos: int, env: Env)
    requires a.rx.state == RxData
    ensures var m := OnEofInData(a, pos, env); Calm(a, m) && (m.e.rx.state == RxFInfo ==> m.out == [])
  {
    CalmResync(a.(rx := NoteBadPos(a.rx, pos)));
  }

  lemma CalmEof(a: Endpoint, pos: int, env: Env)
    ensures Calm(a, OnEof(a, pos, env))
  {
    if a.rx.state == RxData {
      CalmEofInData(a, pos, env);
    }
  }

  lemma CalmOthers(a: Endpoint, p: Packet, env: Env)
    ensures p.FInfo? ==> Calm(a, OnFInfo(a, p.endOfBatch, env))
    ensures p.DevSend? ==> Calm(a, OnDevSend(a, p.id, p.msg))
    ensures p.DevAck? ==> Calm(a, OnDevAck(a, p.id))
  {
  }

  lemma CalmInit(a: Endpoint, p: Packet)
    requires p.Init?
    ensures Calm(a, OnInit(a, p))
  {
    hide Said, Negotiated, Incompatible, Window;
  }

  lemma SenderOnSession(a: Endpoint, b: Endpoint, p: Packet, env: Env)
    requires SenderOk(a) && Together(a, b) && BackwardOk(p, a, b)
    ensures p.Start? ==> SenderKept(a, OnStart(a), b)
    ensures p.InitAck? ==> SenderKept(a, OnInitAck(a), b)
    ensures p.Idle? ==> SenderKept(a, OnIdle(a), b)
    ensures p.End? ==> SenderKept(a, OnEnd(a, env), b)
  {
  }

  lemma SenderOnFInfoAck(a: Endpoint, b: Endpoint, pos: int, env: Env)
    requires SenderOk(a) && Together(a, b) && BackwardOk(FInfoAck(pos), a, b)
    ensures SenderKept(a, OnFInfoAck(a, pos, env), b)
  {
  }

  lemma SenderOnDataAck(a: Endpoint, b: Endpoint, pos: int)
    requires SenderOk(a) && Together(a, b)
    ensures SenderKept(a, OnDataAck(a, pos), b)
  {
  }

  lemma SenderOnRPos(a: Endpoint, b: Endpoint, pos: int, blklen: int, syncid: int, env: Env)
    requires SenderOk(a) && Together(a, b) && -2 <= pos <= |a.source|
    ensures SenderKept(a, OnRPos(a, pos, blklen, syncid, env), b)
  {
    if !Sending(a.tx.state) || syncid == a.tx.syncid || pos < 0 {
      SenderOnRPosOnly(a, b, pos, blklen, syncid, env);
    } else {
      SenderOnReposition(a, b, pos, blklen, syncid, env);
    }
  }

  lemma SenderOnRPosOnly(a: Endpoint, b: Endpoint, pos: int, blklen: int, syncid: int, env: Env)
    requires SenderOk(a) && Together(a, b) && (!Sending(a.tx.state) || syncid == a.tx.syncid || pos < 0)
    ensures SenderKept(a, OnRPos(a, pos, blklen, syncid, env), b)
  {
  }

  lemma SenderOnReposition(a: Endpoint, b: Endpoint, pos: int, blklen: int, syncid: int, env: Env)
    requires SenderOk(a) && Together(a, b) && Sending(a.tx.state) && syncid != a.tx.syncid
    requires 0 <= pos <= |a.source|
    ensures SenderKept(a, OnRPos(a, pos, blklen, syncid, env), b)
  {
  }

  lemma SenderOnEofAck(a: Endpoint, b: Endpoint)
    requires SenderOk(a) && Together(a, b) && BackwardOk(EofAck, a, b)
    ensures SenderKept(a, OnEofAck(a), b)
  {
  }

  lemma SenderOnPacket(a: Endpoint, b: Endpoint, p: Packet, env: Env)
    requires SenderOk(a) && Together(a, b) && BackwardOk(p, a, b)
    ensures SenderKept(a, OnPacket(a, p, env), b)
  {
    match p
    case FInfoAck(pos) => SenderOnFInfoAck(a, b, pos, env);
    case DataAck(pos) => SenderOnDataAck(a, b, pos);
    case RPos(pos, blklen, syncid) => SenderOnRPos(a, b, pos, blklen, syncid, env);
    case EofAck => SenderOnEofAck(a, b);
    case Data(pos, bytes) => CalmData(a, pos, bytes, env); SenderCalm(a, OnPacket(a, p, env), b);
    case Eof(pos) => CalmEof(a, pos, env); SenderCalm(a, OnPacket(a, p, env), b);
    case Init(_, _, _, _) => CalmInit(a, p); SenderCalm(a, OnPacket(a, p, env), b);
    case FInfo(_) => CalmOthers(a, p, env); SenderCalm(a, OnPacket(a, p, env), b);
    case DevSend(_, _) => CalmOthers(a, p, env); SenderCalm(a, OnPacket(a, p, env), b);
    case DevAck(_) => CalmOthers(a, p, env); SenderCalm(a, OnPacket(a, p, env), b);
    case Start => SenderOnSession(a, b, p, env);
    case InitAck => SenderOnSession(a, b, p, env);
    case Idle => SenderOnSession(a, b, p, env);
    case End => SenderOnSession(a, b, p, env);
  }

  lemma SenderOnTimeout(a: Endpoint, b: Endpoint)
    requires SenderOk(a) && Together(a, b)
    ensures SenderKept(a, OnTxTimeout(a), b)
  {
    SenderOnAbort(a, b);
  }

  lemma SenderOnAbort(a: Endpoint, b: Endpoint)
    requires SenderOk(a) && Together(a, b)
    ensures SenderKept(a, OnDevTimeout(a), b)
    ensures SenderKept(a, Stay(Finish(a, Aborted)), b)
  {
  }

  lemma SenderAfterEvent(a: Endpoint, b: Endpoint, env: Env)
    requires SenderOk(a) && Together(a, b)
    ensures SenderKept(a, Stay(AfterEvent(a, env)), b)
  {
  }

  lemma SenderQueue(a: Endpoint, b: Endpoint, msg: DevMsg)
    requires SenderOk(a) && Together(a, b)
    ensures SenderKept(a, Stay(DevQueue(a, msg)), b)
  {
  }

  lemma SenderReceive(a: Endpoint, b: Endpoint, ev: Event, env: Env)
    requires SenderOk(a) && Together(a, b) && (ev.Received? ==> BackwardOk(ev.p, a, b))
    ensures var m := OnEvent(a, ev, env); SenderKept(a, m, b)
    ensures var m := OnEvent(a, ev, env); SenderKept(m.e, Stay(AfterEvent(m.e, env)), b)
  {
    var m := OnEvent(a, ev, env);
    match ev {
      case Received(p) => SenderOnPacket(a, b, p, env);
      case TxTimeout => SenderOnTimeout(a, b);
      case DevTimeout => SenderOnAbort(a, b);
      case Fatal => SenderOnAbort(a, b);
    }
    assert SenderKept(a, m, b);
    SenderAfterEvent(m.e, b, env);
  }

  /** A step at the sender keeps the invariant. */
  lemma SenderStep(s: System, action: Action, env: Env)
    requires FileInv(s) && (action.Arrive? || action.Lose? ==> s.ba != [])
    ensures FileInv(StepA(s, action, env)) && StepA(s, action, env).a.source == s.a.source
  {
    var rest := Consumed(s.ba, action);
    match action {
      case Pass => SenderPass(s, env);
      case Arrive => SenderEvent(s, Received(s.ba[0].p), env, rest);
      case TxExpires => SenderEvent(s, TxTimeout, env, rest);
      case DevExpires => SenderEvent(s, DevTimeout, env, rest);
      case Break => SenderEvent(s, Fatal, env, rest);
      case Lose => AfterSender(s, Stay(s.a), rest);
      case Queue(msg) =>
        SenderQueue(s.a, s.b, msg);
        AfterSender(s, Stay(DevQueue(s.a, msg)), rest);
    }
  }

  lemma SenderPass(s: System, env: Env)
    requires FileInv(s)
    ensures var m := Transmit(s.a, env);
      FileInv(System(m.e, s.b, s.ab + m.out, s.ba)) && m.e.source == s.a.source
  {
    hide SenderOk, Together, ReceiverOk, ForwardOk, BackwardOk, OffersFirst, TransmitDev, TransmitTx;
    if s.a.tx.state != HTX_DONE {
      SenderTransmitDev(s.a, s.b);
      var d := TransmitDev(s.a);
      AfterSender(s, d, s.ba);
      SenderTransmitTx(d.e, s.b, env);
      var t := TransmitTx(d.e, env);
      AfterSender(System(d.e, s.b, s.ab + d.out, s.ba), t, s.ba);
      assert s.ab + (d.out + t.out) == (s.ab + d.out) + t.out;
    } else {
      AfterSender(s, Stay(s.a), s.ba);
    }
  }

  lemma SenderEvent(s: System, ev: Event, env: Env, rest: seq<Frame>)
    requires FileInv(s) && (forall f | f in rest :: f in s.ba)
    requires ev.Received? ==> BackwardOk(ev.p, s.a, s.b)
    ensures var m := Receive(s.a, ev, env);
      FileInv(System(m.e, s.b, s.ab + m.out, rest)) && m.e.source == s.a.source
  {
    if s.a.tx.state == HTX_DONE {
      AfterSender(s, Stay(s.a), rest);
    } else {
      SenderReceive(s.a, s.b, ev, env);
      var m := OnEvent(s.a, ev, env);
      AfterSender(s, m, rest);
      if !m.returned {
        var s1 := System(m.e, s.b, s.ab + m.out, rest);
        AfterSender(s1, Stay(AfterEvent(m.e, env)), rest);
        assert s1.ab + [] == s1.ab;
      }
    }
  }

  // ----- the receiver moves ------------------------------------------------

  /** A move of the receiver, on packet p if there is one, after which the invariant holds. */
  predicate ReceiverKept(a: Endpoint, b: Endpoint, m: Move) {
    && ReceiverOk(a, m.e)
    && Together(a, m.e)
    && (b.closed != [] ==> m.e.closed == b.closed)
    && (m.e.rx.state == RxInit ==> b.rx.state == RxInit)
    && (a.tx.named && !Answered(a) && b.rx.state == RxData ==> m.e.rx.state == RxData && m.e.closed == b.closed)
    && (forall f | f in m.out :: BackwardOk(f.p, a, m.e))
  }

  lemma AfterReceiver(s: System, m: Move, ab: seq<Frame>)
    requires FileInv(s) && ReceiverKept(s.a, s.b, m)
    requires ab == s.ab || (s.ab != [] && ab == s.ab[1..])
    requires s.b.closed == m.e.closed || (forall f | f in ab :: f.p != OFFER)
    ensures FileInv(System(s.a, m.e, ab, s.ba + m.out))
  {
    forall f | f in ab ensures ForwardOk(f.p, s.a, m.e) {
      assert f in s.ab;
      assert ForwardOk(f.p, s.a, s.b);
    }
    forall f | f in s.ba + m.out ensures BackwardOk(f.p, s.a, m.e) {
      if f in s.ba {
        assert BackwardOk(f.p, s.a, s.b);
      }
    }
  }

  /** The receiving side does not change, except that the session may end, and no packet is
      sent that the invariant restricts. */
  predicate Unmoved(b: Endpoint, m: Move) {
    && m.e.rx.state == b.rx.state && m.e.rx.pos == b.rx.pos && m.e.rx.file == b.rx.file && m.e.rx.lost == b.rx.lost
    && (m.e.rx.open == b.rx.open || m.e.tx.state == HTX_DONE)
    && (b.tx.state == HTX_DONE ==> m.e.tx.state == HTX_DONE)
    && m.e.closed == b.closed
    && (forall f | f in m.out :: !f.p.InitAck? && !f.p.FInfoAck? && !f.p.DataAck? && !f.p.RPos? && !f.p.EofAck?)
  }

  lemma ReceiverUnmoved(a: Endpoint, b: Endpoint, m: Move)
    requires ReceiverOk(a, b) && Together(a, b) && Unmoved(b, m)
    ensures ReceiverKept(a, b, m)
  {
  }

  lemma UnmovedByTransmit(b: Endpoint, env: Env)
    ensures Unmoved(b, Transmit(b, env))
  {
    if b.tx.state != HTX_DONE {
      hide TransmitDev, TransmitTx;
      UnmovedByTransmitDev(b);
      UnmovedByTransmitTx(TransmitDev(b).e, env);
    }
  }

  lemma UnmovedByTransmitDev(b: Endpoint)
    requires b.tx.state != HTX_DONE
    ensures Unmoved(b, TransmitDev(b)) && TransmitDev(b).e.tx.state != HTX_DONE
  {
  }

  lemma UnmovedByTransmitTx(b: Endpoint, env: Env)
    requires b.tx.state != HTX_DONE
    ensures Unmoved(b, TransmitTx(b, env))
  {
    hide TransmitData, Names;
    if b.tx.state == HTX_XDATA {
      UnmovedByTransmitData(b, env);
    }
  }

  lemma UnmovedByTransmitData(b: Endpoint, env: Env)
    requires b.tx.state != HTX_DONE
    ensures Unmoved(b, TransmitData(b, env))
  {
  }

  lemma UnmovedBySession(b: Endpoint, p: Packet, env: Env)
    requires b.tx.state != HTX_DONE
    ensures p.Start? ==> Unmoved(b, OnStart(b))
    ensures p.InitAck? ==> Unmoved(b, OnInitAck(b))
    ensures p.Idle? ==> Unmoved(b, OnIdle(b))
    ensures p.End? ==> Unmoved(b, OnEnd(b, env))
  {
  }

  lemma UnmovedByDev(b: Endpoint, p: Packet)
    requires b.tx.state != HTX_DONE
    ensures p.DevSend? ==> Unmoved(b, OnDevSend(b, p.id, p.msg))
    ensures p.DevAck? ==> Unmoved(b, OnDevAck(b, p.id))
  {
  }

  lemma UnmovedByAnswer(b: Endpoint, p: Packet, env: Env)
    requires b.tx.state != HTX_DONE
    ensures p.FInfoAck? ==> Unmoved(b, OnFInfoAck(b, p.pos, env))
    ensures p.DataAck? ==> Unmoved(b, OnDataAck(b, p.pos))
    ensures p.EofAck? ==> Unmoved(b, OnEofAck(b))
  {
  }

  lemma UnmovedByRPos(b: Endpoint, pos: int, blklen: int, syncid: int, env: Env)
    requires b.tx.state != HTX_DONE
    ensures Unmoved(b, OnRPos(b, pos, blklen, syncid, env))
  {
  }

  lemma UnmovedAfterEvent(b: Endpoint, env: Env)
    ensures Unmoved(b, Stay(AfterEvent(b, env)))
  {
  }

  lemma UnmovedByTimeout(b: Endpoint)
    requires b.tx.state != HTX_DONE
    ensures Unmoved(b, OnTxTimeout(b))
    ensures Unmoved(b, OnDevTimeout(b))
    ensures Unmoved(b, Stay(Finish(b, Aborted)))
  {
  }

  lemma ReceiverOnInit(a: Endpoint, b: Endpoint, p: Packet)
    requires ReceiverOk(a, b) && Together(a, b) && p.Init? && b.tx.state != HTX_DONE
    ensures ReceiverKept(a, b, OnInit(b, p))
  {
    hide Said, Negotiated, Incompatible, Window;
  }

  lemma ReceiverOnFInfo(a: Endpoint, b: Endpoint, endOfBatch: bool, env: Env)
    requires ReceiverOk(a, b) && Together(a, b) && ForwardOk(FInfo(endOfBatch), a, b)
    requires b.tx.state != HTX_DONE
    requires env.accept.Open? ==> env.accept.existing <= a.source
    ensures ReceiverKept(a, b, OnFInfo(b, endOfBatch, env))
    ensures OnFInfo(b, endOfBatch, env).e.closed == b.closed
  {
  }

  lemma ReceiverOnResync(a: Endpoint, b: Endpoint)
    requires ReceiverOk(a, b) && Together(a, b)
    ensures ReceiverKept(a, b, Resync(b)) && Resync(b).e.closed == b.closed && Resync(b).e.rx.state == b.rx.state
  {
  }

  lemma ReceiverOnBadData(a: Endpoint, b: Endpoint, pos: int, env: Env)
    requires ReceiverOk(a, b) && Together(a, b) && b.tx.state != HTX_DONE
    ensures ReceiverKept(a, b, OnBadData(b, pos, env)) && OnBadData(b, pos, env).e.closed == b.closed
  {
    hide Resync;
    var noted := b.(rx := NoteBadPos(b.rx, pos));
    ReceiverOnResync(a, noted);
    ReceiverOnResync(a, noted.(hdxlink := true, rx := noted.rx.(retries := 0)));
  }

  lemma HoldsMore(source: Bytes, pos: int, file: Bytes, lost: nat, bytes: Bytes, write: Write)
    requires Holds(source, pos, file, lost) && pos + |bytes| <= |source| && bytes == source[pos..pos + |bytes|]
    ensures var stored := Stored(write, bytes);
      |stored| <= |bytes| && Holds(source, pos + |bytes|, file + stored, lost + |bytes| - |stored|)
  {
    assert source[..pos] + source[pos..pos + |bytes|] == source[..pos + |bytes|];
  }

  lemma ReceiverOnData(a: Endpoint, b: Endpoint, pos: int, bytes: Bytes, env: Env)
    requires ReceiverOk(a, b) && Together(a, b) && ForwardOk(Data(pos, bytes), a, b)
    requires b.tx.state != HTX_DONE
    ensures ReceiverKept(a, b, OnData(b, pos, bytes, env))
    ensures OnData(b, pos, bytes, env).e.closed == b.closed
  {
    hide OnBadData, Stored, Holds;
    ReceiverOnBadData(a, b, pos, env);
    if pos == b.rx.pos && pos >= 0 && b.rx.state == RxData {
      HoldsMore(a.source, pos, b.rx.file, b.rx.lost, bytes, env.write);
    }
  }

  lemma ReceiverOnEofInData(a: Endpoint, b: Endpoint, pos: int, env: Env)
    requires ReceiverOk(a, b) && Together(a, b) && ForwardOk(Eof(pos), a, b)
    requires b.tx.state != HTX_DONE && b.rx.state == RxData
    ensures var m := OnEofInData(b, pos, env);
      && ReceiverKept(a, b, m)
      && (m.e.rx.state == RxFInfo ==> m.out == [] && (a.tx.named && a.tx.open ==> m.e.closed != []))
  {
    hide Resync;
    ReceiverOnResync(a, b.(rx := NoteBadPos(b.rx, pos)));
    if pos == b.rx.pos && pos >= 0 {
      assert a.source[..pos] == a.source;
      assert b.closed + [b.rx.file] == [b.rx.file];
    }
  }

  lemma ReceiverOnEof(a: Endpoint, b: Endpoint, pos: int, env: Env)
    requires SenderOk(a) && ReceiverOk(a, b) && Together(a, b) && ForwardOk(Eof(pos), a, b)
    requires b.tx.state != HTX_DONE
    ensures ReceiverKept(a, b, OnEof(b, pos, env))
  {
    if b.rx.state == RxData {
      ReceiverOnEofInData(a, b, pos, env);
    }
  }

  /** Handling one event at the receiver. */
  lemma ReceiverEvent(a: Endpoint, b: Endpoint, ev: Event, env: Env)
    requires SenderOk(a) && ReceiverOk(a, b) && Together(a, b) && (ev.Received? ==> ForwardOk(ev.p, a, b))
    requires b.tx.state != HTX_DONE
    requires env.accept.Open? ==> env.accept.existing <= a.source
    ensures ReceiverKept(a, b, OnEvent(b, ev, env))
    ensures OnEvent(b, ev, env).e.closed != b.closed ==> ev.Received? && ev.p.Eof?
  {
    match ev
    case Received(p) => ReceiverPacket(a, b, p, env);
    case TxTimeout => UnmovedByTimeout(b); ReceiverUnmoved(a, b, OnTxTimeout(b));
    case DevTimeout => UnmovedByTimeout(b); ReceiverUnmoved(a, b, OnDevTimeout(b));
    case Fatal => UnmovedByTimeout(b); ReceiverUnmoved(a, b, Stay(Finish(b, Aborted)));
  }

  lemma ReceiverPacket(a: Endpoint, b: Endpoint, p: Packet, env: Env)
    requires SenderOk(a) && ReceiverOk(a, b) && Together(a, b) && ForwardOk(p, a, b)
    requires b.tx.state != HTX_DONE
    requires env.accept.Open? ==> env.accept.existing <= a.source
    ensures ReceiverKept(a, b, OnPacket(b, p, env))
    ensures OnPacket(b, p, env).e.closed != b.closed ==> p.Eof?
  {
    match p
    case Init(_, _, _, _) => ReceiverOnInit(a, b, p);
    case FInfo(endOfBatch) => ReceiverOnFInfo(a, b, endOfBatch, env);
    case Data(pos, bytes) => ReceiverOnData(a, b, pos, bytes, env);
    case Eof(pos) => ReceiverOnEof(a, b, pos, env);
    case RPos(pos, blklen, syncid) =>
      UnmovedByRPos(b, pos, blklen, syncid, env);
      ReceiverUnmoved(a, b, OnRPos(b, pos, blklen, syncid, env));
    case FInfoAck(_) => UnmovedByAnswer(b, p, env); ReceiverUnmoved(a, b, OnPacket(b, p, env));
    case DataAck(_) => UnmovedByAnswer(b, p, env); ReceiverUnmoved(a, b, OnPacket(b, p, env));
    case EofAck => UnmovedByAnswer(b, p, env); ReceiverUnmoved(a, b, OnPacket(b, p, env));
    case Start => UnmovedBySession(b, p, env); ReceiverUnmoved(a, b, OnPacket(b, p, env));
    case InitAck => UnmovedBySession(b, p, env); ReceiverUnmoved(a, b, OnPacket(b, p, env));
    case Idle => UnmovedBySession(b, p, env); ReceiverUnmoved(a, b, OnPacket(b, p, env));
    case End => UnmovedBySession(b, p, env); ReceiverUnmoved(a, b, OnPacket(b, p, env));
    case DevSend(_, _) => UnmovedByDev(b, p); ReceiverUnmoved(a, b, OnPacket(b, p, env));
    case DevAck(_) => UnmovedByDev(b, p); ReceiverUnmoved(a, b, OnPacket(b, p, env));
  }

  lemma ReceiverTurn(s: System, ev: Event, env: Env, rest: seq<Frame>)
    requires FileInv(s)
    requires if ev.Received? then s.ab != [] && ev.p == s.ab[0].p && rest == s.ab[1..] else rest == s.ab
    requires env.accept.Open? ==> env.accept.existing <= s.a.source
    ensures var m := Receive(s.b, ev, env); FileInv(System(s.a, m.e, rest, s.ba + m.out))
  {
    if s.b.tx.state == HTX_DONE {
      ReceiverUnmoved(s.a, s.b, Stay(s.b));
      AfterReceiver(s, Stay(s.b), rest);
    } else {
      var m := OnEvent(s.b, ev, env);
      if ev.Received? {
        assert ForwardOk(s.ab[0].p, s.a, s.b);
      }
      ReceiverEvent(s.a, s.b, ev, env);
      if m.e.closed != s.b.closed {
        forall f | f in rest ensures f.p != OFFER {
          var j :| 0 <= j < |rest| && rest[j] == f;
          assert s.ab[j + 1] == f && FileOver(s.ab[0].p);
        }
      }
      AfterReceiver(s, m, rest);
      if !m.returned {
        var s1 := System(s.a, m.e, rest, s.ba + m.out);
        UnmovedAfterEvent(m.e, env);
        ReceiverUnmoved(s1.a, s1.b, Stay(AfterEvent(m.e, env)));
        AfterReceiver(s1, Stay(AfterEvent(m.e, env)), rest);
        assert s1.ba + [] == s1.ba;
      }
    }
  }

  /** A step at the receiver keeps the invariant. */
  lemma ReceiverStep(s: System, action: Action, env: Env)
    requires FileInv(s) && (action.Arrive? || action.Lose? ==> s.ab != [])
    requires env.accept.Open? ==> env.accept.existing <= s.a.source
    ensures FileInv(Flip(StepA(Flip(s), action, env)))
  {
    var rest := Consumed(s.ab, action);
    match action
    case Pass =>
      UnmovedByTransmit(s.b, env);
      ReceiverUnmoved(s.a, s.b, Transmit(s.b, env));
      AfterReceiver(s, Transmit(s.b, env), rest);
    case Arrive => ReceiverTurn(s, Received(s.ab[0].p), env, rest);
    case TxExpires => ReceiverTurn(s, TxTimeout, env, rest);
    case DevExpires => ReceiverTurn(s, DevTimeout, env, rest);
    case Break => ReceiverTurn(s, Fatal, env, rest);
    case Lose =>
      ReceiverUnmoved(s.a, s.b, Stay(s.b));
      AfterReceiver(s, Stay(s.b), rest);
    case Queue(msg) =>
      ReceiverUnmoved(s.a, s.b, Stay(DevQueue(s.b, msg)));
      AfterReceiver(s, Stay(DevQueue(s.b, msg)), rest);
  }

  // ----- runs --------------------------------------------------------------

  lemma FileStep(s: System, l: Label)
    requires FileInv(s)
    ensures FileInv(Step(s, l)) && Step(s, l).a.source == s.a.source
  {
    if Possible(s, l) {
      if l.side == A {
        SenderStep(s, l.action, l.env);
      } else {
        ReceiverStep(s, l.action, l.env);
      }
    }
  }

  function SourceOf(first: FirstCall): Bytes {
    if first.SendFile? then first.source else []
  }

  lemma {:induction false} FileRun(u: Setup, ls: seq<Label>)
    requires GoodSetup(u)
    ensures FileInv(Run(Begin(u), ls)) && Run(Begin(u), ls).a.source == SourceOf(u.firstA)
    decreases |ls|
  {
    if ls != [] {
      FileRun(u, ls[..|ls| - 1]);
      FileStep(Run(Begin(u), ls[..|ls| - 1]), ls[|ls| - 1]);
    }
  }

  /** What y holds of the file that x sends. While y receives without error it has exactly the bytes
      before its position, if and only if no write has fallen short; it closes at most one file as
      complete, and that is the whole file under the same condition; and x reports the file as
      sent only when y has closed it. */
  predicate Agrees(file: Bytes, x: Endpoint, y: Endpoint) {
    && (y.rx.state == RxData && y.rx.pos >= 0 ==>
         && y.rx.pos <= |file| && (y.rx.open || y.tx.state == HTX_DONE)
         && (y.rx.file == file[..y.rx.pos] <==> y.rx.lost == 0))
    && (y.closed == [] || (|y.closed| == 1 && (y.closed[0] == file <==> y.rx.lost == 0)))
    && (FileSent in x.results ==> y.closed != [])
  }

  /** File agreement, in every state of every run and in both directions. */
  lemma FileAgreement(u: Setup, ls: seq<Label>)
    requires GoodSetup(u)
    ensures var s := Run(Begin(u), ls);
      Agrees(SourceOf(u.firstA), s.a, s.b) && Agrees(SourceOf(u.firstB), s.b, s.a)
  {
    hide Run, Begin, FileInv, Agrees, GoodSetup;
    FileRun(u, ls);
    RunFlips(u, ls);
    assert GoodSetup(FlipSetup(u)) by { BothGood(u); }
    FileRun(FlipSetup(u), FlipLabels(ls));
    var s := Run(Begin(u), ls);
    InvAgrees(s);
    InvAgrees(Flip(s));
  }

  lemma BothGood(u: Setup)
    requires GoodSetup(u)
    ensures GoodSetup(FlipSetup(u))
  {
  }

  lemma InvAgrees(s: System)
    requires FileInv(s)
    ensures Agrees(s.a.source, s.a, s.b)
  {
    assert s.a.source[..|s.a.source|] == s.a.source;
  }
}
