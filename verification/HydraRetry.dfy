/** How often a side tries before it gives the session up, and what it sends until then. */
module HydraRetry {
  import opened HydraTypes
  import opened HydraFlags
  import opened HydraEndpoint
  import opened HydraWindows
  import opened HydraHandshake
  import opened HydraComplete

  // ----- no answer ---------------------------------------------------------

  function Packets(out: seq<Frame>): seq<Packet> {
    seq(|out|, i requires 0 <= i < |out| => out[i].p)
  }

  /** A pass, and the timer runs out before anything comes back. */
  function Round(e: Endpoint): Endpoint {
    Receive(Transmit(e, QUIET).e, TxTimeout, QUIET).e
  }

  function Rounds(e: Endpoint, n: nat): Endpoint {
    if n == 0 then e else Round(Rounds(e, n - 1))
  }

  /** A side that is about to send something that must be answered. */
  predicate Asks(e: Endpoint) {
    && e.tx.state in {HTX_START, HTX_INIT, HTX_FINFO, HTX_EOF, HTX_END} && e.dev.state == DevDone
    && (e.tx.state == HTX_START ==> e.rx.state == RxInit)
  }

  /** What it sends. */
  function Asked(e: Endpoint): seq<Packet> {
    if e.tx.state == HTX_START then [Start]
    else if e.tx.state == HTX_INIT then [InitOf(e.cfg)]
    else if e.tx.state == HTX_FINFO then [FInfo(!e.tx.named)]
    else if e.tx.state == HTX_EOF then [Eof(e.tx.pos)]
    else [End, End]
  }

  /** The same question with so many tries behind it. */
  predicate AsksAgain(e: Endpoint, z: Endpoint, tries: int) {
    z == e.(tx := e.tx.(options := z.tx.options, timer := false, retries := tries))
  }

  lemma QuietPass(e: Endpoint)
    requires Asks(e)
    ensures Transmit(e, QUIET).e == TransmitTx(e, QUIET).e && Transmit(e, QUIET).out == TransmitTx(e, QUIET).out
  {
    hide TransmitTx;
    assert [] + TransmitTx(e, QUIET).out == TransmitTx(e, QUIET).out;
  }

  lemma InitPass(e: Endpoint)
    requires e.tx.state == HTX_INIT
    ensures TransmitTx(e, QUIET) == Move(
      e.(tx := e.tx.(timer := true, state := HTX_INITACK, options := e.rx.options)),
      [Frame(InitOf(e.cfg), TXI_OPTIONS)], false)
  {
    hide Names;
  }

  lemma OtherPass(e: Endpoint)
    requires Asks(e) && e.tx.state != HTX_INIT
    ensures var m := TransmitTx(e, QUIET);
      Packets(m.out) == Asked(e) && m.e == e.(tx := e.tx.(timer := true, state := e.tx.state + 1))
  {
    hide Names, InitOf, TransmitData;
  }

  lemma AskedPass(e: Endpoint)
    requires Asks(e)
    ensures var m := Transmit(e, QUIET);
      && Packets(m.out) == Asked(e)
      && m.e == e.(tx := e.tx.(options := m.e.tx.options, timer := true, state := e.tx.state + 1))
  {
    hide Transmit, TransmitTx, InitOf;
    QuietPass(e);
    if e.tx.state == HTX_INIT {
      InitPass(e);
    } else {
      OtherPass(e);
    }
  }

  /** The timer takes a side back to its question, until it has asked ten times over. */
  lemma BackToAsking(x: Endpoint)
    requires x.tx.state in {HTX_SWAIT, HTX_INITACK, HTX_FINFOACK, HTX_EOFACK, HTX_ENDACK}
    requires x.tx.state == HTX_SWAIT ==> x.rx.state == RxInit
    ensures var e := Receive(x, TxTimeout, QUIET).e;
      if x.tx.retries < 10
      then e == x.(tx := x.tx.(retries := x.tx.retries + 1, timer := false, state := x.tx.state - 1))
      else e.tx.state == HTX_DONE && e.results == x.results + [Aborted] && !e.tx.open && !e.rx.open
  {
    hide DevQueue;
  }

  /** Without an answer the same packets are sent eleven times, and then the session is given up. */
  lemma {:induction false} ElevenTimes(e: Endpoint, n: nat)
    requires Asks(e) && e.tx.retries == 0 && !e.tx.timer
    ensures n <= 10 ==>
      && AsksAgain(e, Rounds(e, n), n) && Packets(Transmit(Rounds(e, n), QUIET).out) == Asked(e)
    ensures n == 11 ==> Rounds(e, n).tx.state == HTX_DONE && Rounds(e, n).results == e.results + [Aborted]
  {
    hide Transmit, Receive, InitOf;
    if 0 < n <= 11 {
      ElevenTimes(e, n - 1);
      var z := Rounds(e, n - 1);
      AskedPass(z);
      BackToAsking(Transmit(z, QUIET).e);
    }
    if n <= 10 {
      AskedPass(Rounds(e, n));
    }
  }

  // ----- the device channel ------------------------------------------------

  /** A pass, and the device timer runs out; the transmitter has nothing to say. */
  function DevRound(e: Endpoint): Endpoint {
    Receive(Transmit(e, QUIET).e, DevTimeout, QUIET).e
  }

  function DevRounds(e: Endpoint, n: nat): Endpoint {
    if n == 0 then e else DevRound(DevRounds(e, n - 1))
  }

  lemma DevPass(e: Endpoint)
    requires e.tx.state == HTX_REND && e.dev.state == DevData
    ensures Transmit(e, QUIET) == Move(e.(dev := e.dev.(timer := true, state := DevDAck)),
                                       [Frame(DevSend(e.dev.txid, e.dev.msg), e.tx.options)], false)
  {
    assert forall f: Frame :: [f] + [] == [f];
  }

  lemma DevBack(x: Endpoint)
    requires x.tx.state == HTX_REND && x.dev.state == DevDAck
    ensures var e := Receive(x, DevTimeout, QUIET).e;
      if x.dev.retries < 10 then e == x.(dev := x.dev.(retries := x.dev.retries + 1, timer := false, state := DevData))
      else e.tx.state == HTX_DONE && e.results == x.results + [Aborted]
  {
  }

  /** The same for a message that nobody acknowledges. */
  lemma {:induction false} MessageElevenTimes(e: Endpoint, n: nat)
    requires e.tx.state == HTX_REND && e.dev.state == DevData && e.dev.retries == 0 && !e.dev.timer
    ensures n <= 10 ==>
      && DevRounds(e, n) == e.(dev := e.dev.(retries := n))
      && Packets(Transmit(DevRounds(e, n), QUIET).out) == [DevSend(e.dev.txid, e.dev.msg)]
    ensures n == 11 ==> DevRounds(e, n).tx.state == HTX_DONE && DevRounds(e, n).results == e.results + [Aborted]
  {
    hide Transmit, Receive;
    if 0 < n <= 11 {
      MessageElevenTimes(e, n - 1);
      var z := DevRounds(e, n - 1);
      DevPass(z);
      DevBack(Transmit(z, QUIET).e);
    }
    if n <= 10 {
      DevPass(DevRounds(e, n));
    }
  }

  // ----- gaps --------------------------------------------------------------

  const EXPIRED := QUIET.(rxExpired := true)

  /** Blocks arrive at these positions, one after the other, each time after the timer has run out. */
  function Gaps(y: Endpoint, at: seq<int>): Endpoint {
    if at == [] then y
    else Receive(Gaps(y, at[..|at| - 1]), Received(Data(at[|at| - 1], [])), EXPIRED).e
  }

  /** Each further on than the one before, and all behind the block that is due. */
  predicate Rising(pos: int, last: int, at: seq<int>) {
    && (forall i | 0 <= i < |at| :: pos < at[i] && last < at[i])
    && (forall i | 0 < i < |at| :: at[i - 1] < at[i])
  }

  /** A side that takes blocks and has not asked for one again. */
  predicate Receives(y: Endpoint) {
    && y.rx.state == RxData && 0 <= y.rx.pos && y.rx.retries == 0 && !y.rx.timer && Resting(y)
  }

  /** One more gap: what is asked for, or the end. */
  lemma OneGap(y: Endpoint, q: int)
    requires y.rx.state == RxData && 0 <= y.rx.pos < q && y.rx.lastsync < q && Resting(y) && y.tx.state != HTX_XWAIT
    requires y.cfg.originator || y.hdxlink || y.tx.state == HTX_REND
    ensures var m := Receive(y, Received(Data(q, [])), EXPIRED);
      if y.rx.retries >= 10 then m.e.tx.state == HTX_DONE && m.e.results == y.results + [Aborted]
      else
        && m.e.rx.retries == y.rx.retries + 1 && m.e.rx.lastsync == q && m.e.rx.blklen == y.rx.blklen / 2
        && m.e == y.(rx := y.rx.(retries := m.e.rx.retries, lastsync := q, timer := true, blklen := m.e.rx.blklen,
                                 syncid := m.e.rx.syncid))
        && m.e.rx.syncid == (if y.rx.retries == 0 then Succ32(y.rx.syncid) else y.rx.syncid)
        && Packets(m.out) == [RPos(y.rx.pos, AskedBlock(m.e.rx.blklen), m.e.rx.syncid)]
  {
    hide AskedBlock;
  }

  /** A side that cannot fall back to one-way transfer. */
  predicate NoFallback(y: Endpoint) {
    y.cfg.originator || y.hdxlink || y.tx.state == HTX_REND
  }

  /** The same block is asked for ten times, under one number; at the next gap the session is given up. */
  lemma {:induction false} TenGaps(y: Endpoint, at: seq<int>)
    requires Receives(y) && y.tx.state != HTX_XWAIT && NoFallback(y) && Rising(y.rx.pos, y.rx.lastsync, at)
    ensures 0 < |at| <= 10 ==>
      var z := Gaps(y, at);
      && z == y.(rx := y.rx.(retries := |at|, lastsync := at[|at| - 1], timer := true, blklen := z.rx.blklen,
                             syncid := Succ32(y.rx.syncid)))
    ensures |at| == 11 ==> Gaps(y, at).tx.state == HTX_DONE && Gaps(y, at).results == y.results + [Aborted]
    decreases |at|
  {
    hide Receive, AskedBlock, Gaps;
    if 0 < |at| <= 11 {
      var n := |at| - 1;
      TenGaps(y, at[..n]);
      GapsNext(y, at);
      OneGap(Gaps(y, at[..n]), at[n]);
    }
  }

  lemma GapsNext(y: Endpoint, at: seq<int>)
    ensures Gaps(y, []) == y
    ensures at != [] ==>
      Gaps(y, at) == Receive(Gaps(y, at[..|at| - 1]), Received(Data(at[|at| - 1], [])), EXPIRED).e
  {
    hide Receive;
  }

  /** A side that can fall back does so at the sixth gap, and begins to count again. */
  lemma FallsBack(y: Endpoint, q: int)
    requires y.rx.state == RxData && 0 <= y.rx.pos < q && y.rx.lastsync < q && Resting(y) && y.tx.state == HTX_FINFO
    requires !NoFallback(y) && y.rx.retries < 10
    ensures var m := Receive(y, Received(Data(q, [])), EXPIRED);
      && (m.e.hdxlink <==> y.rx.retries >= 5)
      && m.e.rx.retries == (if y.rx.retries >= 5 then 1 else y.rx.retries + 1)
      && m.e.rx.syncid == (if y.rx.retries == 0 || y.rx.retries >= 5 then Succ32(y.rx.syncid) else y.rx.syncid)
      && Packets(m.out) == [RPos(y.rx.pos, AskedBlock(y.rx.blklen / 2), m.e.rx.syncid)]
  {
    hide AskedBlock;
  }

  /** While the timer runs, gaps are only noted; and a gap that does not lie further on stops the timer
      and begins the count again. */
  lemma QuietGap(y: Endpoint, q: int)
    requires y.rx.state == RxData && 0 <= y.rx.pos < q && Resting(y)
    ensures y.rx.timer && y.rx.lastsync < q ==>
      Receive(y, Received(Data(q, [])), QUIET) == Stay(y.(rx := y.rx.(lastsync := q)))
    ensures q <= y.rx.lastsync ==>
      var m := Receive(y, Received(Data(q, [])), QUIET);
      && m.e.rx.retries == 1 && m.e.rx.timer
      && |m.out| == 1 && m.out[0].p.RPos? && m.out[0].p.syncid == Succ32(y.rx.syncid)
  {
    hide AskedBlock;
  }

  // ----- going back --------------------------------------------------------

  /** The length asked for is the smallest of five that is not below half of what came last, if there
      is one. */
  lemma AskedIs(b: int)
    ensures AskedBlock(b) in {64, 128, 256, 512, 1024}
    ensures b <= 1024 ==> b <= AskedBlock(b) && (AskedBlock(b) == 64 || AskedBlock(b) < 2 * b)
    ensures b > 1024 ==> AskedBlock(b) == 1024
  {
  }

  /** What a sender does when it is asked to go back: it reads on from there, in blocks of the length
      asked for if that is shorter, of half its own length otherwise, and takes longer to enlarge them
      again. */
  lemma GoesBackExactly(x: Endpoint, pos: int, asked: int, syncid: int)
    requires x.tx.state in {HTX_XDATA, HTX_DATAACK, HTX_EOF, HTX_EOFACK} && x.tx.open && !MustWait(x)
    requires 0 <= pos && syncid != x.tx.syncid && asked in {64, 128, 256, 512, 1024}
    requires x.tx.blklen in {64, 128, 256, 512, 1024, 2048}
    ensures Receive(x, Received(RPos(pos, asked, syncid)), QUIET) == Stay(
      x.(tx := x.tx.(syncid := syncid, retries := 1, timer := false, pos := pos, fp := pos, state := HTX_XDATA,
                     blklen := if asked < x.tx.blklen then asked else if x.tx.blklen == 64 then 64 else x.tx.blklen / 2,
                     goodbytes := 0, goodneeded := if x.tx.goodneeded > 7168 then 8192 else x.tx.goodneeded + 1024)))
  {
    hide DevQueue;
  }

  /** The same request again: nothing is done until it has come ten times. */
  function Requests(x: Endpoint, p: Packet, n: nat): Endpoint {
    if n == 0 then x else Receive(Requests(x, p, n - 1), Received(p), QUIET).e
  }

  lemma SameRequest(x: Endpoint, pos: int, asked: int)
    requires x.tx.state in {HTX_XDATA, HTX_DATAACK, HTX_EOF, HTX_EOFACK} && !MustWait(x)
    ensures var e := Receive(x, Received(RPos(pos, asked, x.tx.syncid)), QUIET).e;
      if x.tx.retries < 10 then e == x.(tx := x.tx.(retries := x.tx.retries + 1))
      else e.tx.state == HTX_DONE && e.results == x.results + [Aborted]
  {
    hide DevQueue;
  }

  lemma {:induction false} TenSameRequests(x: Endpoint, pos: int, asked: int, n: nat)
    requires x.tx.state in {HTX_XDATA, HTX_DATAACK, HTX_EOF, HTX_EOFACK} && !MustWait(x) && x.tx.retries == 1
    ensures var z := Requests(x, RPos(pos, asked, x.tx.syncid), n);
      && (n <= 9 ==> z == x.(tx := x.tx.(retries := 1 + n)))
      && (n == 10 ==> z.tx.state == HTX_DONE && z.results == x.results + [Aborted])
  {
    hide Receive, MustWait;
    if 0 < n <= 10 {
      TenSameRequests(x, pos, asked, n - 1);
      StillNoWait(x, n);
      SameRequest(x.(tx := x.tx.(retries := n)), pos, asked);
    }
  }

  lemma StillNoWait(x: Endpoint, n: int)
    ensures MustWait(x.(tx := x.tx.(retries := n))) == MustWait(x)
  {
  }

  // ----- what holds a session up -------------------------------------------

  lemma ResyncStays(x: Endpoint)
    ensures Resync(x).e.tx.state in {x.tx.state, HTX_DONE}
  {
    hide AskedBlock;
  }

  /** What concerns the other side's file leaves a sender that has finished alone. */
  lemma ReceivingStays(x: Endpoint, ev: Event, env: Env)
    requires ev.Received? && (ev.p.Data? || ev.p.Eof? || ev.p.Init? || ev.p.FInfo? || ev.p.DevSend?)
    ensures OnEvent(x, ev, env).e.tx.state in {x.tx.state, HTX_DONE} && !OnEvent(x, ev, env).returned
  {
    hide Resync, Negotiated, Said, Incompatible, Window, HandedOut;
    if ev.p.Data? || ev.p.Eof? {
      ResyncStays(x.(rx := NoteBadPos(x.rx, ev.p.pos)));
      ResyncStays(x.(hdxlink := true, rx := NoteBadPos(x.rx, ev.p.pos).(retries := 0)));
      ResyncReturns(x.(rx := NoteBadPos(x.rx, ev.p.pos)));
      ResyncReturns(x.(hdxlink := true, rx := NoteBadPos(x.rx, ev.p.pos).(retries := 0)));
    }
  }

  lemma ResyncReturns(x: Endpoint)
    ensures !Resync(x).returned
  {
    hide AskedBlock;
  }

  lemma SendingStays(x: Endpoint, ev: Event, env: Env)
    requires x.tx.state == HTX_REND && env.chatting
    requires !(ev.Received? && (ev.p.Data? || ev.p.Eof? || ev.p.Init? || ev.p.FInfo? || ev.p.DevSend?))
    ensures OnEvent(x, ev, env).e.tx.state in {HTX_REND, HTX_DONE} && !OnEvent(x, ev, env).returned
  {
    hide OnData, OnEof, OnInit, OnFInfo, OnDevSend, Shrunk;
  }

  /** While the users chat, a side that has nothing more to send does not go to its END. */
  lemma ChatHoldsEnd(x: Endpoint, ev: Event, env: Env)
    requires x.tx.state == HTX_REND && env.chatting
    ensures Receive(x, ev, env).e.tx.state in {HTX_REND, HTX_DONE}
    ensures Receive(x, Received(End), env) == Stay(x)
  {
    assert Receive(x, ev, env).e.tx.state in {HTX_REND, HTX_DONE} by {
      hide OnEvent, DevQueue;
      if ev.Received? && (ev.p.Data? || ev.p.Eof? || ev.p.Init? || ev.p.FInfo? || ev.p.DevSend?) {
        ReceivingStays(x, ev, env);
      } else {
        SendingStays(x, ev, env);
      }
    }
    hide DevQueue;
  }

  /** When the output buffer is too full, no block is sent and nothing changes. */
  lemma FullBufferWaits(x: Endpoint, env: Env)
    requires x.tx.state == HTX_XDATA && x.dev.state == DevDone && env.outfull
    ensures Transmit(x, env) == Stay(x)
  {
  }

  /** A lost carrier, or the operator's abort, ends the session in every state. */
  lemma BreakEnds(x: Endpoint, env: Env)
    requires x.tx.state != HTX_DONE
    ensures var e := Receive(x, Fatal, env).e;
      && e.tx.state == HTX_DONE && !e.tx.open && !e.rx.open && e.results == x.results + [Aborted]
      && e.closed == x.closed && Receive(x, Fatal, env).out == []
  {
    hide DevQueue;
  }

  /** An INIT packet that comes again is answered again, and changes nothing. */
  lemma InitAgain(x: Endpoint, y: Config)
    requires x.rx.state == RxFInfo && x.tx.state in {HTX_INIT, HTX_INITACK, HTX_FINFO, HTX_FINFOACK}
    ensures Receive(x, Received(InitOf(y)), QUIET) == Move(x, [Frame(InitAck, x.tx.options)], false)
  {
    hide InitOf;
    assert InitOf(y).Init? by { IsInit(y); }
  }

  lemma IsInit(y: Config)
    ensures InitOf(y).Init?
  {
  }

  /** A message is refused while another is under way, without the option, at the end of the session,
      and when it is empty; and taken in all other cases. */
  lemma ChannelFreeExactly(x: Endpoint, m: DevMsg)
    ensures DevQueue(x, m) != x <==>
      x.dev.state == DevDone && Device in x.tx.options && x.tx.state < HTX_END && m.data != []
  {
    hide DeviceTag;
    assert Succ32(x.dev.txid) != x.dev.txid;
  }

  /** After the end of the peer's batch no file is taken any more. */
  lemma LateOfferRefused(y: Endpoint, env: Env)
    requires y.rx.state == RxDone && y.tx.state in {HTX_FINFO, HTX_FINFOACK, HTX_XDATA, HTX_END}
    ensures Receive(y, Received(FInfo(false)), env) == Move(
      y.(rx := y.rx.(pos := -2)), [Frame(FInfoAck(-2), y.tx.options)], false)
  {
    hide DevQueue;
  }

  /** An acknowledgement ends the waiting only if less than the window is then unacknowledged; one that
      does not go beyond the last is nothing. */
  lemma AckMovesWindow(x: Endpoint, pos: int)
    requires x.tx.state == HTX_DATAACK && x.tx.window > 0 && !MustWait(x)
    ensures var e := Receive(x, Received(DataAck(pos)), QUIET).e;
      && (pos <= x.tx.lastack ==> e == x)
      && (x.tx.lastack < pos <= x.tx.pos - x.tx.window ==> e == x.(tx := x.tx.(lastack := pos)))
      && (x.tx.lastack < pos && x.tx.pos - x.tx.window < pos ==>
           e == x.(tx := x.tx.(lastack := pos, state := HTX_XDATA, retries := 0, timer := false)))
  {
    hide DevQueue;
  }
}
