/** Sessions in which both sides have been asked to send in one direction only. Each side holds its file
    back, and says so on the device channel, until one of them yields with an IDLE packet; the
    session then gets to its end like any other. */
module HydraOneWay {
  import opened Bits
  import opened HydraTypes
  import opened HydraEndpoint
  import opened HydraSystem
  import opened HydraWindows
  import opened HydraHandshake
  import opened HydraComplete

  /** A file that has been offered and accepted, and not begun. */
  predicate Accepted(tx: Tx, rx: Rx, source: Bytes, maxblk: nat, existing: Bytes) {
    && tx.named && tx.open && 0 <= tx.pos == tx.fp == tx.lastack == |existing| && existing <= source
    && Sized(tx, maxblk, 0) && tx.retries == 0 && tx.syncid == 0
    && rx.state == RxData && rx.pos == |existing| && rx.file == existing && rx.lost == 0
    && rx.syncid == 0 && !rx.timer && rx.retries == 0
  }

  /** The sender once it has to wait. */
  function Held(e: Endpoint): Endpoint {
    var q := DevQueue(e, HDX_MESSAGE);
    q.(tx := q.tx.(timer := true, state := HTX_XWAIT))
  }

  lemma HearsAnswerHeld(x: Endpoint, pos: int)
    requires x.tx.state == HTX_FINFOACK && x.tx.named && x.tx.open && x.tx.fp == 0 && 0 <= pos && MustWait(x)
    ensures Receive(x, Received(FInfoAck(pos)), QUIET) == Stay(Held(
      x.(tx := x.tx.(retries := 0, timer := false, pos := pos, lastack := pos, fp := pos, state := HTX_XDATA))))
  {
    hide DevQueue;
  }

  /** What being held back changes. */
  lemma HeldIs(e: Endpoint)
    requires e.dev.state == DevDone && e.tx.state == HTX_XDATA
    ensures var h := Held(e);
      && h == e.(tx := e.tx.(timer := true, state := HTX_XWAIT), dev := h.dev)
      && ((h.dev.state == DevData && Device in e.tx.options) || h.dev == e.dev)
  {
    hide DeviceTag;
  }

  /** The side that waits has only its message to send. */
  lemma SendsMessage(x: Endpoint)
    requires x.tx.state == HTX_XWAIT
    ensures Transmit(x, QUIET) == if x.dev.state == DevData
      then Move(x.(dev := x.dev.(timer := true, state := DevDAck)),
                [Frame(DevSend(x.dev.txid, x.dev.msg), x.tx.options)], false)
      else Stay(x)
  {
    assert forall f: Frame :: [f] + [] == [f];
  }

  lemma TakesMessage(y: Endpoint, id: int, msg: DevMsg, existing: Bytes)
    requires Resting(y) && y.rx.state != RxDone
    ensures var m := Receive(y, Received(DevSend(id, msg)), Taking(existing));
      && m == Move(y.(dev := m.e.dev), [Frame(DevAck(id), y.tx.options)], false)
      && m.e.dev.state == DevDone
  {
    hide HandedOut;
  }

  lemma HearsDevAck(x: Endpoint)
    requires x.tx.state == HTX_XWAIT && x.rx.state != RxDone && x.dev.state == DevDAck
    ensures Receive(x, Received(DevAck(x.dev.txid)), QUIET) == Stay(x.(dev := x.dev.(timer := false, state := DevDone)))
  {
  }

  lemma MessageExchange(s: System, existing: Bytes)
    requires s.ab == [] && s.ba == [] && existing <= s.a.source
    requires s.a.tx.state == HTX_XWAIT && s.a.rx.state != RxDone && s.a.dev.state != DevDAck
    requires Resting(s.b) && s.b.rx.state != RxDone
    ensures var z := Run(s, Exchange(existing));
      && z == System(s.a.(dev := z.a.dev), s.b.(dev := z.b.dev), [], [])
      && z.a.dev.state == DevDone && z.b.dev.state == DevDone
  {
    hide Transmit, Receive, Run;
    SendsMessage(s.a);
    if s.a.dev.state == DevData {
      var sent := Transmit(s.a, QUIET);
      TakesMessage(s.b, s.a.dev.txid, s.a.dev.msg, existing);
      HearsDevAck(sent.e);
      Exchanged(s, existing, sent, Receive(s.b, Received(sent.out[0].p), Taking(existing)),
                Receive(sent.e, Received(DevAck(s.a.dev.txid)), QUIET));
    } else {
      NothingSaid(s, existing);
    }
  }

  /** A is at the offer of its file and will have to wait. */
  predicate WillWait(s: System, existing: Bytes) {
    && s.ab == [] && s.ba == [] && existing <= s.a.source && 256 <= s.a.cfg.maxblk
    && s.a.tx.state == HTX_FINFO && s.a.tx.named && s.a.tx.open && s.a.tx.fp == 0 && s.a.tx.syncid == 0
    && Sized(s.a.tx, s.a.cfg.maxblk, 0) && s.a.dev.state == DevDone && MustWait(s.a)
    && Resting(s.b) && s.b.rx.state == RxFInfo
  }

  /** A's file has been accepted, and A waits. */
  predicate Waits(s: System, z: System, existing: Bytes) {
    && z == System(s.a.(tx := z.a.tx, dev := z.a.dev), s.b.(rx := z.b.rx, dev := z.b.dev), [], [])
    && z.a.dev.state == DevDone && z.b.dev.state == DevDone
    && z.a.tx.state == HTX_XWAIT && z.a.tx.timer && 256 <= s.a.cfg.maxblk
    && Accepted(z.a.tx, z.b.rx, s.a.source, s.a.cfg.maxblk, existing)
    && z.a.tx.window == s.a.tx.window && z.b.rx.window == s.b.rx.window
  }

  lemma HeldExchange(s: System, existing: Bytes)
    requires WillWait(s, existing)
    ensures var z := Run(s, Exchange(existing));
      Waits(s, z.(a := z.a.(dev := s.a.dev)), existing) && z.a.dev.state != DevDAck
  {
    hide Transmit, Receive, Run, Held;
    SendsFInfo(s.a);
    TakesOffer(s.b, existing);
    var sent := Transmit(s.a, QUIET);
    HearsAnswerHeld(sent.e, |existing|);
    var heard := Receive(sent.e, Received(FInfoAck(|existing|)), QUIET);
    HeldIs(sent.e.(tx := sent.e.tx.(retries := 0, timer := false, pos := |existing|, lastack := |existing|,
                                    fp := |existing|, state := HTX_XDATA)));
    Exchanged(s, existing, sent, Receive(s.b, Received(FInfo(false)), Taking(existing)), heard);
  }

  /** The offer, and the message. */
  lemma WaitingSide(s: System, existing: Bytes)
    requires WillWait(s, existing)
    ensures Waits(s, Run(s, Exchanges(existing, 2)), existing)
  {
    hide Run, Exchange, Sized;
    HeldExchange(s, existing);
    var z := Run(s, Exchange(existing));
    MessageExchange(z, existing);
    RunsNext(s, existing, 0);
    RunsNext(s, existing, 1);
    NoSteps(s);
  }

  // ----- one side yields ---------------------------------------------------

  /** The timer of A runs out while it waits. */
  const YIELD := [Label(A, TxExpires, QUIET), Label(B, Arrive, QUIET)]

  lemma SaysIdle(x: Endpoint)
    requires x.tx.state == HTX_XWAIT && x.tx.timer && x.rx.state != RxDone
    ensures Receive(x, TxTimeout, QUIET) == Move(x, [Frame(Idle, x.tx.options)], false)
  {
  }

  lemma HearsIdle(y: Endpoint)
    requires y.tx.state == HTX_XWAIT
    ensures Receive(y, Received(Idle), QUIET) == Stay(
      y.(hdxlink := false, tx := y.tx.(timer := false, retries := 0, state := HTX_XDATA)))
  {
  }

  lemma Yields(s: System)
    requires s.ab == [] && s.ba == [] && s.a.tx.state == HTX_XWAIT && s.a.tx.timer && s.a.rx.state != RxDone
    requires s.b.tx.state == HTX_XWAIT
    ensures Run(s, YIELD) == s.(b := s.b.(hdxlink := false,
                                          tx := s.b.tx.(timer := false, retries := 0, state := HTX_XDATA)))
  {
    hide Receive, Run;
    RunOn(s, [YIELD[0]], [YIELD[1]]);
    RunsOne(s, YIELD[0]);
    SaysIdle(s.a);
    HearsIdle(s.b);
    var z := Step(s, YIELD[0]);
    assert z == s.(ab := [Frame(Idle, s.a.tx.options)]);
    RunsOne(z, YIELD[1]);
    assert YIELD == [YIELD[0]] + [YIELD[1]];
  }

  // ----- the whole session -------------------------------------------------

  /** Two operators with a file each, both asked to send one way. */
  predicate BothWait(u: Setup, atB: Bytes, atA: Bytes) {
    GoodFiles(u, atB, atA) && !MayStart(u.cfgA, u.firstA) && !MayStart(u.cfgB, u.firstB)
  }

  function Remaining(cfg: Config, first: FirstCall, existing: Bytes): nat
    requires 256 <= cfg.maxblk && existing <= Source(first)
  {
    BlocksFrom(cfg.maxblk, |Source(first)| - |existing|, 0) + 2
  }

  /** The handshake, both offers, IDLE, B's file, A's file, END. */
  function OneWay(u: Setup, atB: Bytes, atA: Bytes): seq<Label>
    requires GoodFiles(u, atB, atA)
  {
    HANDSHAKE + LAST_INITACK + Exchanges(atB, 2) + FlipLabels(Exchanges(atA, 2)) + YIELD +
    FlipLabels(Exchanges(atA, Remaining(u.cfgB, u.firstB, atA))) + Exchanges(atB, Remaining(u.cfgA, u.firstA, atB)) +
    Exchange([])
  }

  /** Both have offered their files and wait: what matters of that state. */
  predicate Stand(u: Setup, atB: Bytes, atA: Bytes, s: System) {
    && s.ab == [] && s.ba == [] && s.a.cfg == u.cfgA && s.b.cfg == u.cfgB
    && s.a.source == Source(u.firstA) && s.b.source == Source(u.firstB)
    && 256 <= u.cfgA.maxblk <= 2048 && 256 <= u.cfgB.maxblk <= 2048
    && s.a.tx.state == HTX_XWAIT && s.a.tx.timer && s.b.tx.state == HTX_XWAIT
    && s.a.dev.state == DevDone && s.b.dev.state == DevDone
    && Accepted(s.a.tx, s.b.rx, s.a.source, s.a.cfg.maxblk, atB)
    && Accepted(s.b.tx, s.a.rx, s.b.source, s.b.cfg.maxblk, atA)
    && 0 <= s.a.tx.window && 0 <= s.b.tx.window && Answered(s, |atB|) && Answered(Flip(s), |atA|)
    && s.a.results == [] && s.b.results == [] && s.a.closed == [] && s.b.closed == []
  }

  lemma FirstWaits(u: Setup, atB: Bytes, atA: Bytes)
    requires BothWait(u, atB, atA)
    ensures var s := Run(Begin(u), HANDSHAKE + LAST_INITACK);
      WillWait(s, atB) && Fresh(s.a, u.cfgA, u.firstA) && Fresh(s.b, u.cfgB, u.firstB)
  {
    hide Run, Begin, Acknowledged, Sized;
    BothFresh(u);
  }

  lemma SecondWaits(u: Setup, atB: Bytes, atA: Bytes, s: System, z: System)
    requires BothWait(u, atB, atA) && s == Run(Begin(u), HANDSHAKE + LAST_INITACK) && Waits(s, z, atB)
    ensures WillWait(Flip(z), atA)
  {
    hide Run, Begin, Acknowledged, Sized;
    BothFresh(u);
  }

  lemma BothStand(u: Setup, atB: Bytes, atA: Bytes, s: System, z: System, y: System)
    requires BothWait(u, atB, atA) && s == Run(Begin(u), HANDSHAKE + LAST_INITACK) && Waits(s, z, atB)
    requires Waits(Flip(z), Flip(y), atA)
    ensures Stand(u, atB, atA, y)
  {
    hide Run, Begin, Acknowledged, Sized;
    BothFresh(u);
    Windowed(u, atB, atA);
  }

  /** After IDLE, B is ready to send. */
  lemma BothToBatch(u: Setup, atB: Bytes, atA: Bytes, y: System)
    requires Stand(u, atB, atA, y)
    ensures Batch(Flip(Run(y, YIELD)), atA)
  {
    hide Run;
    Yields(y);
    assert atA == y.b.source[..|atA|];
  }

  lemma OtherBatch(u: Setup, atB: Bytes, atA: Bytes, y: System, x: System)
    requires Stand(u, atB, atA, y) && Ended(Flip(Run(y, YIELD)), Flip(x))
    ensures Batch(x, atB) && x.a.tx.named && x.a.rx.state == RxDone && x.b.tx.state == HTX_REND
    ensures x.a.cfg == u.cfgA && x.a.source == Source(u.firstA) && x.a.dev.state == DevDone
    ensures x.a.results == [] && x.a.closed == [Source(u.firstB)]
    ensures x.b.results == [FileSent] && x.b.closed == []
  {
    hide Run;
    Yields(y);
    assert atB == y.a.source[..|atB|];
  }

  /** Both sides begin in one-way mode, and the session still gets to its end. */
  lemma OneWayCompletes(u: Setup, atB: Bytes, atA: Bytes)
    requires BothWait(u, atB, atA)
    ensures var z := Run(Begin(u), OneWay(u, atB, atA));
      Completed(z.a, u.firstA, u.firstB) && Completed(z.b, u.firstB, u.firstA)
  {
    hide Run, Begin, Stand, Batch, WillWait, Waits, GoodFiles, GoodLimits, Exchange, Exchanges, FlipLabels,
         BlocksFrom, Fresh;
    AreFiles(u, atB, atA);
    var l0 := HANDSHAKE + LAST_INITACK;
    var l1, l2 := Exchanges(atB, 2), FlipLabels(Exchanges(atA, 2));
    var l4 := FlipLabels(Exchanges(atA, Remaining(u.cfgB, u.firstB, atA)));
    var l5 := Exchanges(atB, Remaining(u.cfgA, u.firstA, atB));
    var s := Run(Begin(u), l0);
    FirstWaits(u, atB, atA);
    WaitingSide(s, atB);
    var z := Run(s, l1);
    SecondWaits(u, atB, atA, s, z);
    WaitingSide(Flip(z), atA);
    RunMirror(z, Exchanges(atA, 2));
    var y := Run(z, l2);
    BothStand(u, atB, atA, s, z, y);
    var x := FilesGo(u, atB, atA, y);
    RunOn(Begin(u), l0, l1);
    RunOn(Begin(u), l0 + l1, l2);
    RunOn(Begin(u), l0 + l1 + l2, YIELD);
    RunOn(Begin(u), l0 + l1 + l2 + YIELD, l4);
    RunOn(Begin(u), l0 + l1 + l2 + YIELD + l4, l5);
    EndExchange(x);
    RunOn(Begin(u), l0 + l1 + l2 + YIELD + l4 + l5, Exchange([]));
  }

  lemma AreFiles(u: Setup, atB: Bytes, atA: Bytes)
    requires BothWait(u, atB, atA)
    ensures GoodFiles(u, atB, atA) && u.firstA.SendFile? && u.firstB.SendFile?
    ensures 256 <= u.cfgA.maxblk && 256 <= u.cfgB.maxblk && atB <= Source(u.firstA) && atA <= Source(u.firstB)
  {
  }

  /** From where both wait to where both are at their END. */
  lemma FilesGo(u: Setup, atB: Bytes, atA: Bytes, y: System) returns (x: System)
    requires Stand(u, atB, atA, y) && u.firstA.SendFile? && u.firstB.SendFile?
    requires 256 <= u.cfgA.maxblk && 256 <= u.cfgB.maxblk && atB <= Source(u.firstA) && atA <= Source(u.firstB)
    ensures x == Run(Run(Run(y, YIELD), FlipLabels(Exchanges(atA, Remaining(u.cfgB, u.firstB, atA)))),
                     Exchanges(atB, Remaining(u.cfgA, u.firstA, atB)))
    ensures x.ab == [] && x.ba == [] && x.a.tx.state == HTX_END && x.b.tx.state == HTX_END && x.a.dev.state == DevDone
    ensures x.a.results == [FileSent] && x.b.results == [FileSent]
    ensures x.a.closed == [u.firstB.source] && x.b.closed == [u.firstA.source]
  {
    hide Run, Batch, Exchange, Exchanges, FlipLabels, BlocksFrom, Sized, Answered;
    var w := Run(y, YIELD);
    Yields(y);
    BothToBatch(u, atB, atA, y);
    FileToEnd(Flip(w), atA);
    RunMirror(w, Exchanges(atA, Remaining(u.cfgB, u.firstB, atA)));
    var v := Run(w, FlipLabels(Exchanges(atA, Remaining(u.cfgB, u.firstB, atA))));
    OtherBatch(u, atB, atA, y, v);
    FileToEnd(v, atB);
    x := Run(v, Exchanges(atB, Remaining(u.cfgA, u.firstA, atB)));
  }

  // ----- all sessions ------------------------------------------------------

  /** The steps of a session with any two operators. */
  function Session(u: Setup, atB: Bytes, atA: Bytes): seq<Label>
    requires GoodFiles(u, atB, atA)
  {
    if MayStart(u.cfgA, u.firstA) then Whole(u, atB, atA)
    else if MayStart(u.cfgB, u.firstB) then FlipLabels(Whole(FlipSetup(u), atA, atB))
    else OneWay(u, atB, atA)
  }

  /** For every two files, or none, and all that the two operators can ask for: when what each side
      waits for comes, the session gets to its end on both sides, with every file sent and received
      once and complete. */
  lemma EverySessionCompletes(u: Setup, atB: Bytes, atA: Bytes)
    requires GoodFiles(u, atB, atA)
    ensures var z := Run(Begin(u), Session(u, atB, atA));
      Completed(z.a, u.firstA, u.firstB) && Completed(z.b, u.firstB, u.firstA)
  {
    hide Run, Begin, Whole, OneWay, MayStart, GoodFiles, Completed;
    if MayStart(u.cfgA, u.firstA) {
      SessionCompletes(u, atB, atA);
    } else if MayStart(u.cfgB, u.firstB) {
      FlippedFiles(u, atB, atA);
      SessionCompletes(FlipSetup(u), atA, atB);
      RunFlips(FlipSetup(u), Whole(FlipSetup(u), atA, atB));
    } else {
      OneWayCompletes(u, atB, atA);
    }
  }

  lemma FlippedFiles(u: Setup, atB: Bytes, atA: Bytes)
    ensures GoodFiles(u, atB, atA) ==> GoodFiles(FlipSetup(u), atA, atB)
    ensures FlipSetup(FlipSetup(u)) == u
  {
    hide Acknowledged;
  }
}
