/** More than one file in a session. Acknowledgements of offers carry no name, so an answer that is
    left over from one file can be taken for the answer to the next. After a file that was
    finished with EOF nothing can be left over; after a file that was refused it can. */
module HydraBatch {
  import opened Bits
  import opened HydraTypes
  import opened HydraFlags
  import opened HydraEndpoint
  import opened HydraSystem
  import opened HydraFile
  import opened HydraHandshake

  // ----- after EOFACK ------------------------------------------------------

  /** Some packet says that the file is over on the other side. */
  predicate Over(line: seq<Frame>) {
    exists f | f in line :: f.p == EofAck
  }

  predicate NoOffer(line: seq<Frame>) {
    forall f | f in line :: f.p != OFFER
  }

  /** No answer to an offer follows an EOFACK. */
  predicate AnswersFirst(line: seq<Frame>) {
    forall i, j | 0 <= i < j < |line| :: line[i].p == EofAck ==> !line[j].p.FInfoAck?
  }

  /** As long as side A is at its file: once an EOFACK is on its way, the offer has been answered,
      no offer is left, and no answer comes behind it. */
  predicate LeftOver(s: System) {
    s.a.tx.named ==> AnswersFirst(s.ba) && (Over(s.ba) ==> Answered(s.a) && NoOffer(s.ab))
  }

  lemma LessAnswers(line: seq<Frame>, rest: seq<Frame>)
    requires rest == line || (line != [] && rest == line[1..])
    ensures AnswersFirst(line) ==> AnswersFirst(rest)
    ensures Over(rest) ==> Over(line)
  {
    assert forall f | f in rest :: f in line;
    assert forall i | 0 <= i < |rest| :: rest[i] == line[i + (|line| - |rest|)];
  }

  lemma SenderLeaves(s: System, action: Action, env: Env)
    requires FileInv(s) && LeftOver(s) && (action.Arrive? || action.Lose? ==> s.ba != [])
    ensures LeftOver(StepA(s, action, env))
  {
    hide Act, FileInv, AnswersFirst, Over, NoOffer;
    var m := Act(s.a, s.ba, action, env);
    SenderActs(s, action, env);
    LessAnswers(s.ba, Consumed(s.ba, action));
    if m.e.tx.named && Over(s.ba) {
      NoMoreOffers(s.ab, m.out);
    }
  }

  lemma NoMoreOffers(line: seq<Frame>, out: seq<Frame>)
    requires NoOffer(line) && NoOffer(out)
    ensures NoOffer(line + out)
  {
  }

  /** What the sender does keeps its file invariant; it offers only while it has no answer. */
  lemma SenderActs(s: System, action: Action, env: Env)
    requires FileInv(s) && (action.Arrive? || action.Lose? ==> s.ba != [])
    ensures var m := Act(s.a, s.ba, action, env);
      && (m.e.tx.named ==> s.a.tx.named && (Answered(s.a) ==> Answered(m.e) && NoOffer(m.out)))
  {
    hide Transmit, Receive, DevQueue, FileInv;
    match action
    case Pass => PassActs(s, env);
    case Arrive => EventActs(s, Received(s.ba[0].p), env);
    case TxExpires => EventActs(s, TxTimeout, env);
    case DevExpires => EventActs(s, DevTimeout, env);
    case Break => EventActs(s, Fatal, env);
    case Lose =>
    case Queue(msg) =>
      assert SenderKept(s.a, Stay(DevQueue(s.a, msg)), s.b) by { SenderParts(s); SenderQueue(s.a, s.b, msg); }
  }

  lemma SenderParts(s: System)
    requires FileInv(s)
    ensures SenderOk(s.a) && Together(s.a, s.b) && ReceiverOk(s.a, s.b)
    ensures forall f | f in s.ba :: BackwardOk(f.p, s.a, s.b)
  {
  }

  lemma KeptOffers(a: Endpoint, m: Move, b: Endpoint)
    requires SenderKept(a, m, b)
    ensures m.e.tx.named ==> a.tx.named && (Answered(a) ==> Answered(m.e) && NoOffer(m.out))
  {
    hide SenderOk, Together, ForwardOk;
  }

  lemma PassActs(s: System, env: Env)
    requires FileInv(s)
    ensures var m := Transmit(s.a, env);
      m.e.tx.named ==> s.a.tx.named && (Answered(s.a) ==> Answered(m.e) && NoOffer(m.out))
  {
    hide SenderKept, FileInv, SenderOk, Together, ReceiverOk, TransmitDev, TransmitTx, NoOffer, Answered;
    SenderParts(s);
    if s.a.tx.state != HTX_DONE {
      var d := TransmitDev(s.a);
      SenderTransmitDev(s.a, s.b);
      KeptOffers(s.a, d, s.b);
      assert SenderOk(d.e) && Together(d.e, s.b) && d.e.source == s.a.source by { KeptParts(s.a, d, s.b); }
      assert ReceiverOk(d.e, s.b) by { SameReceiver(s.a, d.e, s.b); }
      SenderTransmitTx(d.e, s.b, env);
      KeptOffers(d.e, TransmitTx(d.e, env), s.b);
      if NoOffer(d.out) && NoOffer(TransmitTx(d.e, env).out) {
        NoMoreOffers(d.out, TransmitTx(d.e, env).out);
      }
    } else {
      Nothing();
    }
  }

  lemma Nothing()
    ensures NoOffer([])
  {
  }

  lemma KeptParts(a: Endpoint, m: Move, b: Endpoint)
    requires SenderKept(a, m, b)
    ensures SenderOk(m.e) && Together(m.e, b) && m.e.source == a.source
  {
  }

  lemma SameReceiver(a: Endpoint, e: Endpoint, b: Endpoint)
    requires ReceiverOk(a, b) && e.source == a.source
    ensures ReceiverOk(e, b)
  {
  }

  lemma EventActs(s: System, ev: Event, env: Env)
    requires FileInv(s) && (ev.Received? ==> s.ba != [] && ev.p == s.ba[0].p)
    ensures var m := Receive(s.a, ev, env);
      m.e.tx.named ==> s.a.tx.named && (Answered(s.a) ==> Answered(m.e) && NoOffer(m.out))
  {
    hide SenderKept, FileInv, SenderOk, Together, ReceiverOk, OnEvent, AfterEvent, NoOffer, Answered, BackwardOk;
    SenderParts(s);
    Nothing();
    if s.a.tx.state != HTX_DONE {
      assert ev.Received? ==> s.ba[0] in s.ba;
      SenderReceive(s.a, s.b, ev, env);
      var m := OnEvent(s.a, ev, env);
      KeptOffers(s.a, m, s.b);
      KeptOffers(m.e, Stay(AfterEvent(m.e, env)), s.b);
    }
  }

  // ----- the receiver ------------------------------------------------------

  /** Offers are answered only when they arrive, and files acknowledged only when their EOF does. */
  predicate Replies(ev: Event, out: seq<Frame>) {
    && (forall f | f in out :: f.p.FInfoAck? ==> ev.Received? && ev.p.FInfo?)
    && (forall f | f in out :: f.p == EofAck ==> ev.Received? && ev.p.Eof?)
  }

  lemma UnmovedReplies(b: Endpoint, ev: Event, m: Move)
    requires Unmoved(b, m)
    ensures Replies(ev, m.out)
  {
  }

  lemma EventReplies(b: Endpoint, ev: Event, env: Env)
    requires b.tx.state != HTX_DONE
    ensures Replies(ev, OnEvent(b, ev, env).out)
  {
    hide Unmoved, Replies, OnPacket;
    match ev
    case Received(p) => PacketReplies(b, p, env);
    case TxTimeout => UnmovedByTimeout(b); UnmovedReplies(b, ev, OnTxTimeout(b));
    case DevTimeout => UnmovedByTimeout(b); UnmovedReplies(b, ev, OnDevTimeout(b));
    case Fatal => UnmovedByTimeout(b); UnmovedReplies(b, ev, Stay(Finish(b, Aborted)));
  }

  lemma PacketReplies(b: Endpoint, p: Packet, env: Env)
    requires b.tx.state != HTX_DONE
    ensures Replies(Received(p), OnPacket(b, p, env).out)
  {
    hide Unmoved, Replies, OnData, OnEof, OnInit, OnFInfo, OnRPos, OnFInfoAck, OnDataAck, OnEofAck, OnStart;
    hide OnInitAck, OnIdle, OnEnd, OnDevSend, OnDevAck;
    var ev := Received(p);
    match p
    case Init(_, _, _, _) => InitReplies(b, p);
    case FInfo(endOfBatch) => FInfoReplies(b, endOfBatch, env);
    case Data(pos, bytes) => DataReplies(b, pos, bytes, env);
    case Eof(pos) => EofReplies(b, pos, env);
    case RPos(pos, blklen, syncid) =>
      UnmovedByRPos(b, pos, blklen, syncid, env);
      UnmovedReplies(b, ev, OnRPos(b, pos, blklen, syncid, env));
    case FInfoAck(_) => UnmovedByAnswer(b, p, env); UnmovedReplies(b, ev, OnFInfoAck(b, p.pos, env));
    case DataAck(_) => UnmovedByAnswer(b, p, env); UnmovedReplies(b, ev, OnDataAck(b, p.pos));
    case EofAck => UnmovedByAnswer(b, p, env); UnmovedReplies(b, ev, OnEofAck(b));
    case Start => UnmovedBySession(b, p, env); UnmovedReplies(b, ev, OnStart(b));
    case InitAck => UnmovedBySession(b, p, env); UnmovedReplies(b, ev, OnInitAck(b));
    case Idle => UnmovedBySession(b, p, env); UnmovedReplies(b, ev, OnIdle(b));
    case End => UnmovedBySession(b, p, env); UnmovedReplies(b, ev, OnEnd(b, env));
    case DevSend(_, _) => UnmovedByDev(b, p); UnmovedReplies(b, ev, OnDevSend(b, p.id, p.msg));
    case DevAck(_) => UnmovedByDev(b, p); UnmovedReplies(b, ev, OnDevAck(b, p.id));
  }

  lemma InitReplies(b: Endpoint, p: Packet)
    requires p.Init?
    ensures Replies(Received(p), OnInit(b, p).out)
  {
    hide Said, Negotiated, Incompatible, Window;
  }

  lemma FInfoReplies(b: Endpoint, endOfBatch: bool, env: Env)
    ensures Replies(Received(FInfo(endOfBatch)), OnFInfo(b, endOfBatch, env).out)
  {
  }

  lemma ResyncReplies(b: Endpoint, ev: Event)
    ensures Replies(ev, Resync(b).out)
  {
  }

  lemma DataReplies(b: Endpoint, pos: int, bytes: Bytes, env: Env)
    ensures Replies(Received(Data(pos, bytes)), OnData(b, pos, bytes, env).out)
  {
    hide Resync, NoteBadPos;
    var noted := b.(rx := NoteBadPos(b.rx, pos));
    ResyncReplies(noted, Received(Data(pos, bytes)));
    ResyncReplies(noted.(hdxlink := true, rx := noted.rx.(retries := 0)), Received(Data(pos, bytes)));
  }

  lemma EofReplies(b: Endpoint, pos: int, env: Env)
    ensures Replies(Received(Eof(pos)), OnEof(b, pos, env).out)
  {
    hide Resync, NoteBadPos;
    ResyncReplies(b.(rx := NoteBadPos(b.rx, pos)), Received(Eof(pos)));
  }

  lemma PassReplies(b: Endpoint, env: Env, ev: Event)
    ensures Replies(ev, Transmit(b, env).out)
  {
    hide Transmit, Unmoved;
    UnmovedByTransmit(b, env);
    UnmovedReplies(b, ev, Transmit(b, env));
  }

  lemma ReceiveReplies(b: Endpoint, ev: Event, env: Env)
    ensures Replies(ev, Receive(b, ev, env).out)
  {
    hide OnEvent, AfterEvent;
    if b.tx.state != HTX_DONE {
      EventReplies(b, ev, env);
    }
  }

  /** What the receiver sends, on what it takes from the line. */
  lemma AfterReplies(s: System, ev: Event, rest: seq<Frame>, out: seq<Frame>, b: Endpoint)
    requires FileInv(s) && LeftOver(s) && Replies(ev, out)
    requires if ev.Received? then s.ab != [] && ev.p == s.ab[0].p && rest == s.ab[1..]
             else rest == s.ab || (s.ab != [] && rest == s.ab[1..])
    ensures LeftOver(System(s.a, b, rest, s.ba + out))
  {
    if s.a.tx.named {
      assert forall f | f in rest :: f in s.ab;
      if ev.Received? {
        assert s.ab[0] in s.ab && ForwardOk(ev.p, s.a, s.b);
      }
      if ev.Received? && ev.p.Eof? {
        assert forall j | 0 <= j < |rest| :: rest[j] == s.ab[j + 1];
      }
      AnswersStayFirst(s.ba, out, ev.Received? && ev.p.FInfo?);
    }
  }

  /** Answers are added only where no EOFACK is before them, and EOFACKs only last. */
  lemma AnswersStayFirst(line: seq<Frame>, out: seq<Frame>, offered: bool)
    requires AnswersFirst(line) && (offered ==> !Over(line))
    requires forall f | f in out :: f.p.FInfoAck? ==> offered
    requires forall f | f in out :: f.p == EofAck ==> !offered
    ensures AnswersFirst(line + out)
  {
    var all := line + out;
    forall i, j | 0 <= i < j < |all| && all[i].p == EofAck ensures !all[j].p.FInfoAck? {
      if j >= |line| {
        assert all[j] in out;
        assert if i < |line| then all[i] in line else all[i] in out;
      }
    }
  }

  lemma ReceiverLeaves(s: System, action: Action, env: Env)
    requires FileInv(s) && LeftOver(s) && (action.Arrive? || action.Lose? ==> s.ab != [])
    ensures LeftOver(Flip(StepA(Flip(s), action, env)))
  {
    hide FileInv, LeftOver, Replies, Transmit, Receive, DevQueue;
    var m, rest := Act(s.b, s.ab, action, env), Consumed(s.ab, action);
    match action
    case Pass => PassReplies(s.b, env, Fatal); AfterReplies(s, Fatal, rest, m.out, m.e);
    case Arrive =>
      var ev := Received(s.ab[0].p);
      ReceiveReplies(s.b, ev, env);
      AfterReplies(s, ev, rest, m.out, m.e);
    case TxExpires => ReceiveReplies(s.b, TxTimeout, env); AfterReplies(s, TxTimeout, rest, m.out, m.e);
    case DevExpires => ReceiveReplies(s.b, DevTimeout, env); AfterReplies(s, DevTimeout, rest, m.out, m.e);
    case Break => ReceiveReplies(s.b, Fatal, env); AfterReplies(s, Fatal, rest, m.out, m.e);
    case Lose => NoReplies(Fatal); AfterReplies(s, Fatal, rest, [], m.e);
    case Queue(_) => NoReplies(Fatal); AfterReplies(s, Fatal, rest, [], m.e);
  }

  lemma NoReplies(ev: Event)
    ensures Replies(ev, [])
  {
  }

  lemma {:induction false} LeftOverRun(u: Setup, ls: seq<Label>)
    requires GoodSetup(u)
    ensures LeftOver(Run(Begin(u), ls))
    decreases |ls|
  {
    hide StepA, FileInv, LeftOver;
    if ls == [] {
      NothingLeftAtFirst(u);
    } else {
      var s, l := Run(Begin(u), ls[..|ls| - 1]), ls[|ls| - 1];
      LeftOverRun(u, ls[..|ls| - 1]);
      FileRun(u, ls[..|ls| - 1]);
      if Possible(s, l) {
        if l.side == A {
          SenderLeaves(s, l.action, l.env);
        } else {
          ReceiverLeaves(s, l.action, l.env);
        }
      }
    }
  }

  lemma NothingLeftAtFirst(u: Setup)
    ensures LeftOver(Begin(u))
  {
  }

  /** In every run: when a side takes an EOFACK as the end of its file, so that hydra() returns and the
      next file can be sent, no offer of this file and no answer to it is on the lines any more. The
      next answer that arrives is one to the next offer. */
  lemma NothingLeftAfterEof(u: Setup, ls: seq<Label>)
    requires GoodSetup(u)
    requires var s := Run(Begin(u), ls); InEof(s.a.tx.state) && s.ba != [] && s.ba[0].p == EofAck
    ensures var s := Run(Begin(u), ls);
      NoOffer(s.ab) && forall f | f in s.ba :: !f.p.FInfoAck?
  {
    hide Run, Begin;
    LeftOverRun(u, ls);
    FileRun(u, ls);
    var s := Run(Begin(u), ls);
    assert s.a.tx.named by { hide ReceiverOk, Together, ForwardOk, BackwardOk, OffersFirst; }
    assert s.ba[0] in s.ba && Over(s.ba);
    forall f | f in s.ba ensures !f.p.FInfoAck? {
      var j :| 0 <= j < |s.ba| && s.ba[j] == f;
    }
  }

  // ----- after a refusal ---------------------------------------------------

  /** hydra(path, alias) in place of hydra(NULL, NULL): the call for the next file. */
  function NextFile(e: Endpoint, file: Bytes): Endpoint {
    e.(source := file, tx := e.tx.(named := true, open := true, fp := 0, syncid := 0))
  }

  const HAVE := QUIET.(accept := AlreadyHave)

  /** A offers its file, waits in vain and offers it again; B has it already and says so twice, and A
      takes the first answer. */
  const OFFERED_TWICE := [
    Label(A, Arrive, QUIET), Label(A, Pass, QUIET), Label(A, TxExpires, QUIET), Label(A, Pass, QUIET),
    Label(B, Arrive, HAVE), Label(B, Arrive, HAVE), Label(A, Arrive, QUIET)]

  /** A has a file that is open and not answered. */
  predicate Offering(e: Endpoint, state: int) {
    && e.tx.state == state && e.rx.state == RxFInfo && e.dev.state == DevDone
    && e.tx.named && e.tx.open && e.tx.retries <= 1
  }

  lemma TakesInitAckLate(e: Endpoint)
    requires e.tx.state == HTX_INITACK && e.rx.state == RxFInfo && e.dev.state == DevDone && e.tx.named && e.tx.open
    ensures var m := Receive(e, Received(InitAck), QUIET);
      Offering(m.e, HTX_FINFO) && m.e.tx.retries == 0 && m.out == [] && NoFiles(e, m.e)
  {
  }

  lemma SendsOffer(e: Endpoint)
    requires Offering(e, HTX_FINFO)
    ensures var m := Transmit(e, QUIET);
      && Offering(m.e, HTX_FINFOACK) && m.e.tx.timer && m.e.tx.retries == e.tx.retries
      && Only(m.out, OFFER) && NoFiles(e, m.e)
  {
  }

  lemma OfferExpires(e: Endpoint)
    requires Offering(e, HTX_FINFOACK) && e.tx.retries == 0
    ensures var m := Receive(e, TxTimeout, QUIET); Offering(m.e, HTX_FINFO) && m.out == [] && NoFiles(e, m.e)
  {
  }

  lemma HasIt(e: Endpoint)
    requires e.rx.state == RxFInfo && e.tx.state == HTX_FINFO
    ensures var m := Receive(e, Received(OFFER), HAVE);
      && m.e.rx.state == RxFInfo && m.e.tx.state == HTX_FINFO && Only(m.out, FInfoAck(-1))
      && m.e.closed == e.closed && m.e.rx.file == e.rx.file
  {
  }

  lemma TakesRefusal(e: Endpoint)
    requires Offering(e, HTX_FINFOACK)
    ensures var m := Receive(e, Received(FInfoAck(-1)), QUIET);
      && m.e.results == e.results + [FileThere] && m.e.tx.state == HTX_FINFO && m.e.rx.state == RxFInfo
      && m.e.dev.state == DevDone && m.e.tx.retries == 0 && m.out == [] && m.returned
  {
  }

  /** A is back from its call with an answer, and one more answer to the same file is on its way. */
  lemma OfferedTwice(u: Setup)
    requires GoodSetup(u) && u.firstA.SendFile? && !u.firstB.OpenFails?
    ensures var s := Run(Begin(u), HANDSHAKE + OFFERED_TWICE);
      && s.a.results == [FileThere] && s.a.tx.state == HTX_FINFO && s.a.tx.retries == 0
      && s.a.rx.state == RxFInfo && s.a.dev.state == DevDone
      && s.ab == [] && Only(s.ba, FInfoAck(-1)) && s.b.closed == []
  {
    hide Transmit, Receive, Run, StartSession;
    RunOn(Begin(u), HANDSHAKE, OFFERED_TWICE);
    HandshakeRun(u);
    StartNames(u);
    AfterHandshake(Run(Begin(u), HANDSHAKE));
  }

  lemma AfterHandshake(s0: System)
    requires In(s0.a, s0.a.cfg, HTX_INITACK, RxFInfo) && In(s0.b, s0.b.cfg, HTX_FINFO, RxFInfo)
    requires s0.a.tx.named && s0.a.results == [] && s0.b.closed == [] && s0.ab == [] && Only(s0.ba, InitAck)
    ensures var s := Run(s0, OFFERED_TWICE);
      && s.a.results == [FileThere] && s.a.tx.state == HTX_FINFO && s.a.tx.retries == 0
      && s.a.rx.state == RxFInfo && s.a.dev.state == DevDone
      && s.ab == [] && Only(s.ba, FInfoAck(-1)) && s.b.closed == []
  {
    hide Step, Run;
    RunSteps(s0, OFFERED_TWICE);
    TwoOffers(s0);
    var a := OFFERED_TWICE;
    TwoAnswers(Step(Step(Step(Step(s0, a[0]), a[1]), a[2]), a[3]));
  }

  /** Two offers are on the way. */
  predicate Twice(s: System) {
    && Offering(s.a, HTX_FINFOACK) && s.a.results == [] && s.b.rx.state == RxFInfo && s.b.tx.state == HTX_FINFO
    && s.b.closed == [] && |s.ab| == 2 && s.ab[0].p == OFFER && s.ab[1].p == OFFER && s.ba == []
  }

  lemma TwoOffers(s0: System)
    requires In(s0.a, s0.a.cfg, HTX_INITACK, RxFInfo) && In(s0.b, s0.b.cfg, HTX_FINFO, RxFInfo)
    requires s0.a.tx.named && s0.a.results == [] && s0.b.closed == [] && s0.ab == [] && Only(s0.ba, InitAck)
    ensures var a := OFFERED_TWICE; Twice(Step(Step(Step(Step(s0, a[0]), a[1]), a[2]), a[3]))
  {
    hide Transmit, Receive;
    TakesInitAckLate(s0.a);
    var s1 := Step(s0, OFFERED_TWICE[0]);
    SendsOffer(s1.a);
    var s2 := Step(s1, OFFERED_TWICE[1]);
    OfferExpires(s2.a);
    var s3 := Step(s2, OFFERED_TWICE[2]);
    SendsOffer(s3.a);
  }

  lemma TwoAnswers(s4: System)
    requires Twice(s4)
    ensures var a := OFFERED_TWICE; var s := Step(Step(Step(s4, a[4]), a[5]), a[6]);
      && s.a.results == [FileThere] && s.a.tx.state == HTX_FINFO && s.a.tx.retries == 0
      && s.a.rx.state == RxFInfo && s.a.dev.state == DevDone
      && s.ab == [] && Only(s.ba, FInfoAck(-1)) && s.b.closed == []
  {
    hide Transmit, Receive;
    HasIt(s4.b);
    var s5 := Step(s4, OFFERED_TWICE[4]);
    HasIt(s5.b);
    var s6 := Step(s5, OFFERED_TWICE[5]);
    TakesRefusal(s6.a);
  }

  lemma StartNames(u: Setup)
    requires u.firstA.SendFile? && !u.firstB.OpenFails?
    ensures Begin(u).a.tx.named && Begin(u).a.results == [] && Begin(u).b.closed == []
  {
  }

  /** Whatever the second file is: A reports that B has it already, and B has never heard of it. B's
      second answer was about the first file. */
  lemma StaleRefusal(u: Setup, second: Bytes)
    requires GoodSetup(u) && u.firstA.SendFile? && !u.firstB.OpenFails?
    ensures var s := Run(Begin(u), HANDSHAKE + OFFERED_TWICE);
      var t := Run(s.(a := NextFile(s.a, second)), [Label(A, Pass, QUIET), Label(A, Arrive, QUIET)]);
      && t.a.results == [FileThere, FileThere] && t.a.source == second
      && t.b == s.b && t.b.closed == [] && Only(t.ab, OFFER)
  {
    hide Transmit, Receive;
    OfferedTwice(u);
    var s := Run(Begin(u), HANDSHAKE + OFFERED_TWICE);
    hide Run;
    var s0 := s.(a := NextFile(s.a, second));
    var pass, arrive := Label(A, Pass, QUIET), Label(A, Arrive, QUIET);
    RunOn(s0, [pass], [arrive]);
    assert [pass] + [arrive] == [pass, arrive];
    RunsOne(s0, pass);
    SendsOffer(s0.a);
    var s1 := Step(s0, pass);
    RunsOne(s1, arrive);
    TakesRefusal(s1.a);
    KeepsSource(s1.a);
  }

  lemma KeepsSource(e: Endpoint)
    requires Offering(e, HTX_FINFOACK)
    ensures Receive(e, Received(FInfoAck(-1)), QUIET).e.source == e.source
  {
  }
}
