/** Sessions in which packets are lost. A lost offer, end of file or END packet is sent again when the
    timer runs out; after a lost block the receiver asks for it with an RPOS packet. Whichever of them
    are lost once, the session gets to the same end. And a side that waits for acknowledgements that
    the other never sends does not get there. */
module HydraRepeat {
  import opened Bits
  import opened HydraTypes
  import opened HydraEndpoint
  import opened HydraSystem
  import opened HydraWindows
  import opened HydraHandshake
  import opened HydraComplete

  /** What A sends is lost, and so it sends again, or sends on: that arrives, and the answer too. */
  function Repeat(existing: Bytes): seq<Label> {
    [Label(A, Pass, QUIET), Label(B, Lose, QUIET), Label(A, TxExpires, QUIET)] + Exchange(existing)
  }

  /** A after its timer, if it is running. */
  function Expired(x: Endpoint): Endpoint {
    if x.tx.timer then Receive(x, TxTimeout, QUIET).e else x
  }

  /** A repetition, from what each of the two sides does. */
  lemma Repeated(s: System, existing: Bytes, sent: Move)
    requires s.ab == [] && s.ba == []
    requires Transmit(s.a, QUIET) == sent && |sent.out| == 1
    requires sent.e.tx.timer ==> Receive(sent.e, TxTimeout, QUIET).out == []
    ensures Run(s, Repeat(existing)) == Run(System(Expired(sent.e), s.b, [], []), Exchange(existing))
  {
    hide Transmit, Receive, Run;
    var a, b, c := Label(A, Pass, QUIET), Label(B, Lose, QUIET), Label(A, TxExpires, QUIET);
    RunOf3(s, a, b, c);
    RunOn(s, [a, b, c], Exchange(existing));
    assert Step(s, a) == System(sent.e, s.b, sent.out, []);
    assert Step(Step(s, a), b) == System(sent.e, s.b, [], []);
  }

  // ----- timers ------------------------------------------------------------

  /** What is sent again when the timer runs out. */
  lemma ExpiresBack(x: Endpoint)
    requires x.tx.retries < 10 && x.tx.timer && !(x.tx.state == HTX_DATAACK && MustWait(x))
    requires x.tx.state in {HTX_FINFOACK, HTX_DATAACK, HTX_EOFACK, HTX_ENDACK}
    ensures Receive(x, TxTimeout, QUIET) == Stay(x.(tx := x.tx.(retries := x.tx.retries + 1, timer := false,
      state := if x.tx.state == HTX_FINFOACK then HTX_FINFO else if x.tx.state == HTX_DATAACK then HTX_XDATA
               else if x.tx.state == HTX_EOFACK then HTX_EOF else HTX_END)))
  {
    hide DevQueue;
  }

  lemma SendsEofAgain(x: Endpoint)
    requires x.tx.state == HTX_EOF && x.dev.state == DevDone
    ensures Transmit(x, QUIET) == Move(x.(tx := x.tx.(timer := true, state := HTX_EOFACK)),
                                       [Frame(Eof(x.tx.pos), x.tx.options)], false)
  {
    assert [] + TransmitTx(x, QUIET).out == TransmitTx(x, QUIET).out;
  }

  // ----- a lost offer ------------------------------------------------------

  lemma OfferAgain(s: System, existing: Bytes)
    requires Able(s, existing) && s.ab == [] && s.ba == [] && s.a.tx.retries < 10
    requires s.a.tx.state == HTX_FINFO && s.a.tx.named && s.a.tx.open && s.a.tx.fp == 0 && s.a.tx.syncid == 0
    requires 64 <= s.a.tx.blklen <= 2048 && s.b.rx.state == RxFInfo
    ensures var z := Run(s, Repeat(existing));
      && Ready(z, s, |existing|) && Calm(z) && z.a.tx.retries == 0
  {
    hide Transmit, Receive, Run;
    SendsFInfo(s.a);
    var sent := Transmit(s.a, QUIET);
    ExpiresBack(sent.e);
    Repeated(s, existing, sent);
    var y := System(Expired(sent.e), s.b, [], []);
    OfferExchange(y, existing);
    LinkedBack(s, y, Run(y, Exchange(existing)), |existing|);
  }

  lemma LinkedBack(s: System, y: System, z: System, pos: int)
    requires y == s.(a := s.a.(tx := s.a.tx.(retries := y.a.tx.retries, timer := y.a.tx.timer)))
    requires Ready(z, y, pos)
    ensures Ready(z, s, pos)
  {
  }

  lemma LastAgain(s: System, existing: Bytes)
    requires s.ab == [] && s.ba == [] && existing <= s.a.source && s.a.tx.retries < 10
    requires s.a.tx.state == HTX_FINFO && !s.a.tx.named && s.a.dev.state == DevDone
    requires Resting(s.b) && s.b.rx.state == RxFInfo
    ensures Run(s, Repeat(existing)) == Run(s, Exchange(existing))
  {
    hide Transmit, Receive, Run;
    SendsFInfo(s.a);
    var sent := Transmit(s.a, QUIET);
    ExpiresBack(sent.e);
    Repeated(s, existing, sent);
    var y := System(Expired(sent.e), s.b, [], []);
    LastExchange(y, existing);
    LastExchange(s, existing);
  }

  // ----- a lost end of file ------------------------------------------------

  lemma EofAgain(s: System, s0: System, existing: Bytes)
    requires Able(s0, existing) && Ready(s, s0, |s.a.source|) && s.a.tx.retries < 10
    ensures Run(s, Repeat(existing)) == Run(s, Exchange(existing))
  {
    hide Transmit, Receive, Run;
    SendsEof(s.a);
    var sent := Transmit(s.a, QUIET);
    ExpiresBack(sent.e);
    Repeated(s, existing, sent);
    var y := System(Expired(sent.e), s.b, [], []);
    SendsEofAgain(y.a);
    TakesEof(s.b, existing);
    var again := Transmit(y.a, QUIET);
    HearsEofAck(again.e);
    Exchanged(y, existing, again, Receive(s.b, Received(Eof(|s.a.source|)), Taking(existing)),
              Receive(again.e, Received(EofAck), QUIET));
    EofExchange(s, s0, existing);
    assert s.a.source[..|s.a.source|] == s.a.source;
  }

  // ----- a lost block ------------------------------------------------------

  /** B notices the gap and asks A to go back. */
  function AsksBack(rx: Rx, pos: int): Rx {
    NoteBadPos(rx, pos).(retries := 1, syncid := Succ32(rx.syncid), blklen := rx.blklen / 2, timer := true)
  }

  lemma NoticesGap(y: Endpoint, pos: int, bytes: Bytes, existing: Bytes)
    requires Resting(y) && y.rx.state == RxData && !y.rx.timer && y.rx.retries == 0 && y.rx.pos < pos
    ensures var rx := AsksBack(y.rx, pos);
      && Receive(y, Received(Data(pos, bytes)), Taking(existing)) == Move(
           y.(rx := rx), [Frame(RPos(y.rx.pos, AskedBlock(rx.blklen), rx.syncid), y.tx.options)], false)
  {
    hide AskedBlock;
  }

  lemma NoticesGapAtEof(y: Endpoint, pos: int, existing: Bytes)
    requires Resting(y) && y.rx.state == RxData && !y.rx.timer && y.rx.retries == 0 && 0 <= y.rx.pos < pos
    ensures var rx := AsksBack(y.rx, pos);
      && Receive(y, Received(Eof(pos)), Taking(existing)) == Move(
           y.(rx := rx), [Frame(RPos(y.rx.pos, AskedBlock(rx.blklen), rx.syncid), y.tx.options)], false)
  {
    hide AskedBlock;
  }

  lemma GoesBack(x: Endpoint, pos: int, blklen: int, syncid: int)
    requires x.tx.state in {HTX_XDATA, HTX_DATAACK, HTX_EOFACK} && x.tx.open && syncid != x.tx.syncid && 0 <= pos
    requires !MustWait(x)
    ensures var m := Receive(x, Received(RPos(pos, blklen, syncid)), QUIET); var tx := m.e.tx;
      && m == Stay(x.(tx := x.tx.(syncid := syncid, retries := 1, timer := false, pos := pos, fp := pos,
                                  state := HTX_XDATA, blklen := tx.blklen, goodbytes := tx.goodbytes,
                                  goodneeded := tx.goodneeded)))
      && tx.blklen in {64, 128, 256, 512, 1024}
  {
    hide DevQueue;
  }

  /** A is n bytes ahead of B, which waits for the block at pos. */
  predicate Ahead(y: System, s0: System, pos: int, n: nat) {
    && Linked(y, s0) && y.a.tx.named && y.a.tx.open && y.a.tx.state == HTX_XDATA && !y.a.tx.timer
    && 0 <= pos < pos + n == y.a.tx.pos == y.a.tx.fp <= |y.a.source| && 64 <= y.a.tx.blklen <= 2048
    && y.b.rx.state == RxData && y.b.rx.pos == pos && y.b.rx.file == y.a.source[..pos] && y.b.rx.lost == 0
    && y.b.rx.syncid == y.a.tx.syncid && Calm(y)
    && (y.a.tx.window != 0 ==>
         if y.b.rx.window != 0 then y.a.tx.lastack <= pos else |y.a.source| < y.a.tx.lastack + y.a.tx.window)
  }

  lemma SendsAhead(y: System, s0: System, pos: int, n: nat, existing: Bytes) returns (sent: Move)
    requires Able(s0, existing) && Ahead(y, s0, pos, n)
    ensures sent == Transmit(y.a, QUIET) && |sent.out| == 1
    ensures sent.out[0].p.Eof? || sent.out[0].p.Data?
    ensures sent.out[0].p.pos == pos + n
    ensures sent.e == y.a.(tx := sent.e.tx) && sent.e.tx.state in {HTX_XDATA, HTX_DATAACK, HTX_EOFACK}
    ensures sent.e.tx == y.a.tx.(state := sent.e.tx.state, fp := sent.e.tx.fp, pos := sent.e.tx.pos,
              blklen := sent.e.tx.blklen, goodneeded := sent.e.tx.goodneeded, goodbytes := sent.e.tx.goodbytes,
              timer := sent.e.tx.timer)
  {
    hide Transmit, Grow;
    sent := Transmit(y.a, QUIET);
    if pos + n < |y.a.source| {
      SendsBlock(y.a);
      var k := Smaller(y.a.tx.blklen, |y.a.source| - y.a.tx.pos);
      GrowsWithin(y.a.tx.(pos := pos + n + k, fp := pos + n + k), y.a.cfg.maxblk, k);
    } else {
      SendsEof(y.a);
    }
  }

  /** Whatever A sends next, B asks it to go back, and it does. */
  lemma GapExchange(y: System, s0: System, pos: int, n: nat, existing: Bytes)
    requires Able(s0, existing) && Ahead(y, s0, pos, n)
    ensures var z := Run(y, Exchange(existing)); Ready(z, s0, pos) && z.a.tx.retries <= 1
  {
    hide Transmit, Receive, Run, AskedBlock, Answered;
    var sent := SendsAhead(y, s0, pos, n, existing);
    var rx := AsksBack(y.b.rx, pos + n);
    if sent.out[0].p.Eof? {
      NoticesGapAtEof(y.b, pos + n, existing);
    } else {
      NoticesGap(y.b, pos + n, sent.out[0].p.bytes, existing);
    }
    GoesBack(sent.e, pos, AskedBlock(rx.blklen), rx.syncid);
    Exchanged(y, existing, sent, Receive(y.b, Received(sent.out[0].p), Taking(existing)),
              Receive(sent.e, Received(RPos(pos, AskedBlock(rx.blklen), rx.syncid)), QUIET));
  }

  /** A lost block brings both sides back to it. */
  lemma BlockLost(s: System, s0: System, pos: int, existing: Bytes)
    requires Able(s0, existing) && Ready(s, s0, pos) && Calm(s) && pos < |s.a.source| && s.a.tx.retries < 10
    ensures var z := Run(s, Repeat(existing)); Ready(z, s0, pos) && z.a.tx.retries <= 1
  {
    hide Transmit, Receive, Run, Grow, Answered, BlockAt;
    BlockSent(s.a);
    var sent := Transmit(s.a, QUIET);
    if sent.e.tx.timer {
      ExpiresBack(sent.e);
    }
    Repeated(s, existing, sent);
    GapExchange(System(Expired(sent.e), s.b, [], []), s0, pos, Smaller(s.a.tx.blklen, |s.a.source| - pos), existing);
  }

  // ----- lost answers ------------------------------------------------------

  /** What A sends arrives, the answer is lost, and A's timer runs out if it is running. */
  function Deaf(existing: Bytes): seq<Label> {
    [Label(A, Pass, QUIET), Label(B, Arrive, Taking(existing)), Label(A, Lose, QUIET), Label(A, TxExpires, QUIET)]
  }

  lemma Unheard(s: System, existing: Bytes, sent: Move, taken: Move)
    requires s.ab == [] && s.ba == [] && existing <= s.a.source && sent.e.source == s.a.source
    requires Transmit(s.a, QUIET) == sent && |sent.out| == 1
    requires Receive(s.b, Received(sent.out[0].p), Taking(existing)) == taken && |taken.out| <= 1
    requires sent.e.tx.timer ==> Receive(sent.e, TxTimeout, QUIET).out == []
    ensures Run(s, Deaf(existing)) == System(Expired(sent.e), taken.e, [], [])
  {
    hide Transmit, Receive, Run;
    var ls := Deaf(existing);
    RunOf3(s, ls[0], ls[1], ls[2]);
    RunOn(s, [ls[0], ls[1], ls[2]], [ls[3]]);
    RunsOne(Run(s, [ls[0], ls[1], ls[2]]), ls[3]);
    assert ls == [ls[0], ls[1], ls[2]] + [ls[3]];
    var s1 := Step(s, ls[0]);
    assert s1 == System(sent.e, s.b, sent.out, []);
    var s2 := Step(s1, ls[1]);
    assert s2 == System(sent.e, taken.e, [], taken.out);
    assert Step(s2, ls[2]) == System(sent.e, taken.e, [], []);
  }

  /** The same offer again, the same end of file again, the same end of the batch again: B gives the
      same answer again and does nothing else. */
  lemma TakesAgain(y: Endpoint, existing: Bytes)
    ensures Resting(y) && y.rx.state == RxData ==>
      Receive(y, Received(FInfo(false)), Taking(existing)) == Move(y, [Frame(FInfoAck(y.rx.pos), y.tx.options)], false)
    ensures Resting(y) && y.rx.state == RxFInfo ==> forall pos: int ::
      Receive(y, Received(Eof(pos)), Taking(existing)) == Move(y, [Frame(EofAck, y.tx.options)], false)
    ensures y.rx.state == RxDone && y.rx.pos == 0 && y.tx.state in {HTX_FINFO, HTX_XDATA, HTX_END} ==>
      Receive(y, Received(FInfo(true)), Taking(existing)) == Move(y, [Frame(FInfoAck(0), y.tx.options)], false)
  {
    hide DevQueue;
  }

  lemma OfferUnheard(s: System, existing: Bytes)
    requires Able(s, existing) && s.ab == [] && s.ba == [] && s.a.tx.retries < 10
    requires s.a.tx.state == HTX_FINFO && s.a.tx.named && s.a.tx.open && s.a.tx.fp == 0 && s.a.tx.syncid == 0
    requires 64 <= s.a.tx.blklen <= 2048 && s.b.rx.state == RxFInfo
    ensures var z := Run(s, Deaf(existing) + Exchange(existing));
      Ready(z, s, |existing|) && Calm(z) && z.a.tx.retries == 0
  {
    hide Transmit, Receive, Run;
    SendsFInfo(s.a);
    TakesOffer(s.b, existing);
    var sent := Transmit(s.a, QUIET);
    var taken := Receive(s.b, Received(FInfo(false)), Taking(existing));
    ExpiresBack(sent.e);
    Unheard(s, existing, sent, taken);
    RunOn(s, Deaf(existing), Exchange(existing));
    var y := System(Expired(sent.e), taken.e, [], []);
    SendsFInfo(y.a);
    TakesAgain(y.b, existing);
    var again := Transmit(y.a, QUIET);
    HearsAnswer(again.e, |existing|);
    Exchanged(y, existing, again, Receive(y.b, Received(FInfo(false)), Taking(existing)),
              Receive(again.e, Received(FInfoAck(|existing|)), QUIET));
    assert existing == s.a.source[..|existing|];
  }

  lemma EofUnheard(s: System, s0: System, existing: Bytes)
    requires Able(s0, existing) && Ready(s, s0, |s.a.source|) && s.a.tx.retries < 10
    ensures Run(s, Deaf(existing) + Exchange(existing)) == Run(s, Exchange(existing))
  {
    hide Transmit, Receive, Run;
    SendsEof(s.a);
    TakesEof(s.b, existing);
    var sent := Transmit(s.a, QUIET);
    var taken := Receive(s.b, Received(Eof(|s.a.source|)), Taking(existing));
    ExpiresBack(sent.e);
    Unheard(s, existing, sent, taken);
    RunOn(s, Deaf(existing), Exchange(existing));
    var y := System(Expired(sent.e), taken.e, [], []);
    SendsEofAgain(y.a);
    TakesAgain(y.b, existing);
    var again := Transmit(y.a, QUIET);
    HearsEofAck(again.e);
    Exchanged(y, existing, again, Receive(y.b, Received(Eof(|s.a.source|)), Taking(existing)),
              Receive(again.e, Received(EofAck), QUIET));
    EofExchange(s, s0, existing);
    assert s.a.source[..|s.a.source|] == s.a.source;
  }

  lemma LastUnheard(s: System, existing: Bytes)
    requires s.ab == [] && s.ba == [] && existing <= s.a.source && s.a.tx.retries < 10
    requires s.a.tx.state == HTX_FINFO && !s.a.tx.named && s.a.dev.state == DevDone
    requires Resting(s.b) && s.b.rx.state == RxFInfo
    ensures Run(s, Deaf(existing) + Exchange(existing)) == Run(s, Exchange(existing))
  {
    hide Transmit, Receive, Run;
    SendsFInfo(s.a);
    TakesEndOfBatch(s.b, existing);
    var sent := Transmit(s.a, QUIET);
    var taken := Receive(s.b, Received(FInfo(true)), Taking(existing));
    ExpiresBack(sent.e);
    Unheard(s, existing, sent, taken);
    RunOn(s, Deaf(existing), Exchange(existing));
    var y := System(Expired(sent.e), taken.e, [], []);
    SendsFInfo(y.a);
    TakesAgain(y.b, existing);
    var again := Transmit(y.a, QUIET);
    HearsLastAnswer(again.e);
    Exchanged(y, existing, again, Receive(y.b, Received(FInfo(true)), Taking(existing)),
              Receive(again.e, Received(FInfoAck(0)), QUIET));
    LastExchange(s, existing);
  }

  /** The block has gone across, and A goes on without knowing. */
  lemma BlockUnheard(s: System, s0: System, pos: int, existing: Bytes)
    requires Able(s0, existing) && Ready(s, s0, pos) && pos < |s.a.source| && s.a.tx.retries < 10
    ensures var z, n := Run(s, Deaf(existing)), Smaller(s.a.tx.blklen, |s.a.source| - pos);
      Ready(z, s0, pos + n) && Calm(z) && z.a.tx.retries <= s.a.tx.retries + 1
  {
    hide Transmit, Receive, Run, Grow, Answered, Calm, BlockAt, Ready, Linked;
    ReadyTells(s, s0, pos);
    var block := BlockAt(s.a.source, pos, s.a.tx.blklen);
    BlockSent(s.a);
    var sent := Transmit(s.a, QUIET);
    BlockIsShort(s.a.source, pos, s.a.tx.blklen);
    TakesBlock(s.b, block, existing);
    var taken := Receive(s.b, Received(Data(pos, block)), Taking(existing));
    NextBlock(s, s0, pos, sent.e, taken.e, false);
    if sent.e.tx.timer {
      ExpiresBack(sent.e);
    }
    Unheard(s, existing, sent, taken);
  }

  // ----- a file ------------------------------------------------------------

  /** What is lost of an exchange the first time: nothing, what A sends, or what B answers. */
  datatype Loss = Nothing | Packet | Answer

  /** A block, with what is lost. */
  function BlockSteps(existing: Bytes, lost: Loss): seq<Label> {
    match lost
    case Nothing => Exchange(existing)
    case Packet => Repeat(existing) + Exchange(existing)
    case Answer => Deaf(existing)
  }

  /** Blocks i to i + n - 1. */
  function BlocksSteps(existing: Bytes, lost: nat -> Loss, i: nat, n: nat): seq<Label>
    decreases n
  {
    if n == 0 then [] else BlockSteps(existing, lost(i)) + BlocksSteps(existing, lost, i + 1, n - 1)
  }

  /** Any other packet, with what is lost. */
  function Steps(existing: Bytes, lost: Loss): seq<Label> {
    match lost
    case Nothing => Exchange(existing)
    case Packet => Repeat(existing)
    case Answer => Deaf(existing) + Exchange(existing)
  }

  /** How many answers in a row are lost just before block i; the first block is number 1. */
  function InARow(lost: nat -> Loss, i: nat): nat {
    if i <= 1 || !lost(i - 1).Answer? then 0 else InARow(lost, i - 1) + 1
  }

  /** Never more than eight answers in a row. */
  ghost predicate Bearable(lost: nat -> Loss) {
    forall i: nat :: InARow(lost, i) <= 8
  }

  lemma OneBlock(s: System, s0: System, pos: int, existing: Bytes, lost: Loss, tries: nat) returns (next: int)
    requires Able(s0, existing) && Ready(s, s0, pos) && Calm(s) && pos < |s.a.source|
    requires s.a.tx.retries <= 1 + tries <= 9
    ensures pos < next <= |s.a.source| && (pos + 64 <= next || next == |s.a.source|)
    ensures var z := Run(s, BlockSteps(existing, lost));
      && Ready(z, s0, next) && Calm(z)
      && z.a.tx.retries <= 1 + (if lost.Answer? then tries + 1 else 0)
  {
    hide Run, Exchange, Repeat, Grow, Deaf, Ready, Calm;
    match lost
    case Nothing =>
      BlockExchange(s, s0, pos, existing);
      next := pos + Smaller(s.a.tx.blklen, |s.a.source| - pos);
      ReadyIs(s, s0, pos);
    case Packet =>
      BlockLost(s, s0, pos, existing);
      var y := Run(s, Repeat(existing));
      RunOn(s, Repeat(existing), Exchange(existing));
      ReadyIs(s, s0, pos);
      ReadyIs(y, s0, pos);
      BlockExchange(y, s0, pos, existing);
      next := pos + Smaller(y.a.tx.blklen, |s.a.source| - pos);
    case Answer =>
      BlockUnheard(s, s0, pos, existing);
      next := pos + Smaller(s.a.tx.blklen, |s.a.source| - pos);
      ReadyIs(s, s0, pos);
  }

  lemma ReadyIs(s: System, s0: System, pos: int)
    requires Ready(s, s0, pos)
    ensures s.a.source == s0.a.source && 64 <= s.a.tx.blklen && 0 <= pos <= |s.a.source|
  {
  }

  lemma {:induction false} LossyBlocks(s: System, s0: System, pos: int, existing: Bytes, lost: nat -> Loss, i: nat)
      returns (n: nat)
    requires Able(s0, existing) && Ready(s, s0, pos) && Calm(s)
    requires 1 <= i && Bearable(lost) && s.a.tx.retries <= 1 + InARow(lost, i)
    ensures var z := Run(s, BlocksSteps(existing, lost, i, n)); Ready(z, s0, |s.a.source|) && z.a.tx.retries <= 9
    ensures 64 * n < |s.a.source| - pos + 64
    decreases |s.a.source| - pos
  {
    hide Run, Exchange, BlockSteps, Able, Calm, Ready;
    ReadyIs(s, s0, pos);
    assert InARow(lost, i) <= 8;
    if pos == |s.a.source| {
      n := 0;
      NoSteps(s);
    } else {
      var next := OneBlock(s, s0, pos, existing, lost(i), InARow(lost, i));
      var y := Run(s, BlockSteps(existing, lost(i)));
      ReadyIs(y, s0, next);
      var m := LossyBlocks(y, s0, next, existing, lost, i + 1);
      n := m + 1;
      RunOn(s, BlockSteps(existing, lost(i)), BlocksSteps(existing, lost, i + 1, m));
    }
  }

  /** A batch: the offer, n blocks, the end of the file and the end of the batch; or only the last. */
  function BatchSteps(first: FirstCall, existing: Bytes, lost: nat -> Loss, n: nat): seq<Label> {
    if first.SendFile? then
      Steps(existing, lost(0)) + BlocksSteps(existing, lost, 1, n) + Steps(existing, lost(n + 1)) +
      Steps(existing, lost(n + 2))
    else Steps(existing, lost(0))
  }

  lemma LossyOffer(s: System, existing: Bytes, lost: Loss)
    requires Offers(s, existing) && s.a.tx.named
    ensures var z := Run(s, Steps(existing, lost)); Ready(z, s, |existing|) && Calm(z) && z.a.tx.retries == 0
  {
    hide Run, Exchange, Repeat, Deaf, Ready, Calm, Answered;
    match lost
    case Nothing => OfferExchange(s, existing);
    case Packet => OfferAgain(s, existing);
    case Answer => OfferUnheard(s, existing);
  }

  /** The end of the file. */
  lemma LossyEof(s: System, s0: System, existing: Bytes, lost: Loss)
    requires Able(s0, existing) && Ready(s, s0, |s.a.source|) && s.a.tx.retries < 10
    ensures var z := Run(s, Steps(existing, lost));
      && z.ab == [] && z.ba == [] && z.a == NextCall(s.a, FileSent)
      && z.b == s.b.(rx := s.b.rx.(open := false, state := RxFInfo), closed := s.b.closed + [s.a.source])
  {
    hide Run, Exchange, Repeat, Deaf, Ready, Able;
    EofExchange(s, s0, existing);
    match lost
    case Nothing =>
    case Packet => EofAgain(s, s0, existing);
    case Answer => EofUnheard(s, s0, existing);
  }

  /** The end of the batch. */
  lemma LossyLast(s: System, existing: Bytes, lost: Loss)
    requires s.ab == [] && s.ba == [] && existing <= s.a.source && s.a.tx.retries < 10
    requires s.a.tx.state == HTX_FINFO && !s.a.tx.named && s.a.dev.state == DevDone
    requires Resting(s.b) && s.b.rx.state == RxFInfo
    ensures Ended(s, Run(s, Steps(existing, lost)))
  {
    hide Run, Exchange, Repeat, Deaf;
    LastExchange(s, existing);
    match lost
    case Nothing =>
    case Packet => LastAgain(s, existing);
    case Answer => LastUnheard(s, existing);
  }

  lemma LossyFile(s: System, existing: Bytes, lost: nat -> Loss) returns (n: nat)
    requires Offers(s, existing) && s.a.tx.named && Bearable(lost)
    ensures Ended(s, Run(s, Steps(existing, lost(0)) + BlocksSteps(existing, lost, 1, n) +
                            Steps(existing, lost(n + 1)) + Steps(existing, lost(n + 2))))
    ensures 64 * n < |s.a.source| - |existing| + 64
  {
    hide Run, Steps, BlocksSteps, Answered, Calm, Sized, Bearable;
    var l0 := Steps(existing, lost(0));
    LossyOffer(s, existing, lost(0));
    var z := Run(s, l0);
    n := LossyBlocks(z, s, |existing|, existing, lost, 1);
    var l1 := BlocksSteps(existing, lost, 1, n);
    RunOn(s, l0, l1);
    var y := Run(z, l1);
    LossyEof(y, s, existing, lost(n + 1));
    RunOn(s, l0 + l1, Steps(existing, lost(n + 1)));
    var x := Run(y, Steps(existing, lost(n + 1)));
    LossyLast(x, existing, lost(n + 2));
    RunOn(s, l0 + l1 + Steps(existing, lost(n + 1)), Steps(existing, lost(n + 2)));
  }

  lemma LossyBatch(s: System, first: FirstCall, existing: Bytes, lost: nat -> Loss) returns (n: nat)
    requires Offers(s, existing) && (s.a.tx.named <==> first.SendFile?) && Bearable(lost)
    ensures Ended(s, Run(s, BatchSteps(first, existing, lost, n)))
    ensures 64 * n < |s.a.source| - |existing| + 64
  {
    hide Run, Steps, BlocksSteps, Able, Bearable;
    if first.SendFile? {
      n := LossyFile(s, existing, lost);
    } else {
      n := 0;
      LossyLast(s, existing, lost(0));
    }
  }

  // ----- the whole session -------------------------------------------------

  /** END from each side; A's two packets are lost first, or not. */
  function EndSteps(lost: bool): seq<Label> {
    (if lost then [Label(A, Pass, QUIET), Label(B, Lose, QUIET), Label(B, Lose, QUIET), Label(A, TxExpires, QUIET)]
     else []) + Exchange([])
  }

  lemma LossyEnd(s: System, lost: bool)
    requires s.ab == [] && s.ba == [] && s.a.tx.state == HTX_END && s.b.tx.state == HTX_END
    requires s.a.dev.state == DevDone && s.a.tx.retries < 10
    ensures var z := Run(s, EndSteps(lost));
      && z.a.tx.state == HTX_DONE && z.b.tx.state == HTX_DONE
      && z.a.results == s.a.results + [SessionDone] && z.b.results == s.b.results + [SessionDone]
      && z.a.closed == s.a.closed && z.b.closed == s.b.closed
  {
    hide Transmit, Receive, Run, Exchange;
    if lost {
      var a, b, c := Label(A, Pass, QUIET), Label(B, Lose, QUIET), Label(A, TxExpires, QUIET);
      SendsEnd(s.a);
      var sent := Transmit(s.a, QUIET);
      ExpiresBack(sent.e);
      RunOf3(s, a, b, b);
      RunOn(s, [a, b, b], [c]);
      RunsOne(Run(s, [a, b, b]), c);
      assert [a, b, b] + [c] == [a, b, b, c];
      assert Step(s, a) == System(sent.e, s.b, sent.out, []);
      assert Step(Step(Step(s, a), b), b) == System(sent.e, s.b, [], []);
      RunOn(s, [a, b, b, c], Exchange([]));
      EndExchange(System(Expired(sent.e), s.b, [], []));
    } else {
      assert [] + Exchange([]) == Exchange([]);
      EndExchange(s);
    }
  }

  /** The steps of a whole session in which packets are lost. */
  function LossyWhole(u: Setup, atB: Bytes, atA: Bytes, lostA: nat -> Loss, lostB: nat -> Loss, lostEnd: bool,
                      n: nat, m: nat): seq<Label> {
    HANDSHAKE + LAST_INITACK + BatchSteps(u.firstA, atB, lostA, n) + FlipLabels(BatchSteps(u.firstB, atA, lostB, m)) +
    EndSteps(lostEnd)
  }

  predicate LossyCompletes(u: Setup, ls: seq<Label>) {
    var z := Run(Begin(u), ls);
    Completed(z.a, u.firstA, u.firstB) && Completed(z.b, u.firstB, u.firstA)
  }

  lemma LossySession(u: Setup, atB: Bytes, atA: Bytes, lostA: nat -> Loss, lostB: nat -> Loss, lostEnd: bool)
      returns (n: nat, m: nat)
    requires GoodFiles(u, atB, atA) && MayStart(u.cfgA, u.firstA) && Bearable(lostA) && Bearable(lostB)
    ensures LossyCompletes(u, LossyWhole(u, atB, atA, lostA, lostB, lostEnd, n, m))
    ensures 64 * n < |Source(u.firstA)| - |atB| + 64 && 64 * m < |Source(u.firstB)| - |atA| + 64
  {
    hide Run, Begin, Offers, Acknowledged, MayStart, GoodLimits, GoodSetup, BatchSteps, FlipLabels, Needed, CountOf,
         Fresh, BlocksFrom, EndSteps, Bearable;
    BothFresh(u);
    FirstOffer(u, atB, atA);
    var l0 := HANDSHAKE + LAST_INITACK;
    var s := Run(Begin(u), l0);
    FreshNames(s.a, u.cfgA, u.firstA);
    n := LossyBatch(s, u.firstA, atB, lostA);
    var first := BatchSteps(u.firstA, atB, lostA, n);
    var y := Run(s, first);
    SecondOffer(u, atB, atA, s, y, SentIf(u.firstA), FilesOf(u.firstA));
    m := LossyBatch(Flip(y), u.firstB, atA, lostB);
    var second := FlipLabels(BatchSteps(u.firstB, atA, lostB, m));
    RunMirror(y, BatchSteps(u.firstB, atA, lostB, m));
    var x := Run(y, second);
    LossyEnd(x, lostEnd);
    RunOn(Begin(u), l0, first);
    RunOn(Begin(u), l0 + first, second);
    RunOn(Begin(u), l0 + first + second, EndSteps(lostEnd));
  }

  /** Whichever offers, blocks, ends of files and of batches of either side are lost once, or the answers
      to them, with no more than eight lost answers in a row, and whether or not A's END packets are
      lost: the session gets to its end on both sides, with every file sent and received once and
      complete, after as many blocks as the file has parts of 64 bytes, or fewer. */
  lemma LossySessionCompletes(u: Setup, atB: Bytes, atA: Bytes, lostA: nat -> Loss, lostB: nat -> Loss, lostEnd: bool)
    requires GoodFiles(u, atB, atA) && MayStart(u.cfgA, u.firstA) && Bearable(lostA) && Bearable(lostB)
    ensures exists n: nat, m: nat ::
      && 64 * n < |Source(u.firstA)| - |atB| + 64 && 64 * m < |Source(u.firstB)| - |atA| + 64
      && LossyCompletes(u, LossyWhole(u, atB, atA, lostA, lostB, lostEnd, n, m))
  {
    hide LossyCompletes, LossyWhole, GoodFiles, MayStart, Bearable;
    var n, m := LossySession(u, atB, atA, lostA, lostB, lostEnd);
  }

  // ----- acknowledgements that never come ----------------------------------

  /** A may send only part of its file ahead, and B never acknowledges. */
  predicate Unanswered(s: System, existing: Bytes) {
    && s.b.rx.window == 0 && 0 < s.a.tx.window && |existing| + s.a.tx.window <= |s.a.source|
    && !MustWait(s.a) && s.a.dev.state == DevDone && Resting(s.b)
  }

  /** As far as A gets. */
  predicate Stuck(z: System, s: System, existing: Bytes) {
    && z.ab == [] && z.ba == [] && z.a == s.a.(tx := z.a.tx) && z.b == s.b.(rx := z.b.rx)
    && z.b.rx.window == 0 && z.a.tx.open && z.a.tx.window == s.a.tx.window && z.a.tx.lastack == |existing|
    && (z.a.tx.state == HTX_DATAACK ||
        (z.a.tx.state == HTX_XDATA && 0 <= z.a.tx.pos == z.a.tx.fp < |existing| + z.a.tx.window
         && 64 <= z.a.tx.blklen <= 2048 && z.b.rx.state == RxData && z.b.rx.pos == z.a.tx.pos))
  }

  lemma OfferSticks(s: System, existing: Bytes)
    requires Unanswered(s, existing) && existing <= s.a.source && s.ab == [] && s.ba == []
    requires s.a.tx.state == HTX_FINFO && s.a.tx.named && s.a.tx.open && s.a.tx.fp == 0
    requires 64 <= s.a.tx.blklen <= 2048 && s.b.rx.state == RxFInfo
    ensures Stuck(Run(s, Exchange(existing)), s, existing)
  {
    hide Transmit, Receive, Run;
    SendsFInfo(s.a);
    TakesOffer(s.b, existing);
    var sent := Transmit(s.a, QUIET);
    HearsAnswer(sent.e, |existing|);
    Exchanged(s, existing, sent, Receive(s.b, Received(FInfo(false)), Taking(existing)),
              Receive(sent.e, Received(FInfoAck(|existing|)), QUIET));
  }

  lemma WaitsInVain(x: Endpoint)
    requires x.tx.state == HTX_DATAACK && x.dev.state == DevDone
    ensures Transmit(x, QUIET) == Stay(x)
  {
  }

  lemma StaysStuck(z: System, s: System, existing: Bytes)
    requires Unanswered(s, existing) && existing <= s.a.source && 64 <= s.a.cfg.maxblk <= 2048 && Stuck(z, s, existing)
    ensures Stuck(Run(z, Exchange(existing)), s, existing)
  {
    hide Transmit, Receive, Run, Grow;
    if z.a.tx.state == HTX_DATAACK {
      WaitsInVain(z.a);
      NothingSaid(z, existing);
    } else {
      var pos := z.a.tx.pos;
      var n := Smaller(z.a.tx.blklen, |z.a.source| - pos);
      var block := z.a.source[pos..pos + n];
      SendsBlock(z.a);
      GrowsWithin(z.a.tx.(pos := pos + n, fp := pos + n), z.a.cfg.maxblk, n);
      var sent := Transmit(z.a, QUIET);
      TakesBlock(z.b, block, existing);
      Exchanged(z, existing, sent, Receive(z.b, Received(Data(pos, block)), Taking(existing)), Stay(sent.e));
    }
  }

  /** However many exchanges there are, A does not come to the end of its file. */
  lemma {:induction false} NeverSent(s: System, existing: Bytes, n: nat)
    requires Unanswered(s, existing) && existing <= s.a.source && s.ab == [] && s.ba == []
    requires s.a.tx.state == HTX_FINFO && s.a.tx.named && s.a.tx.open && s.a.tx.fp == 0
    requires 64 <= s.a.tx.blklen <= 2048 && s.b.rx.state == RxFInfo && 64 <= s.a.cfg.maxblk <= 2048
    ensures n > 0 ==> Stuck(Run(s, Exchanges(existing, n)), s, existing)
    ensures Run(s, Exchanges(existing, n)).a.results == s.a.results
  {
    hide Run, Exchange, Unanswered;
    if n == 0 {
      NoSteps(s);
    } else {
      NeverSent(s, existing, n - 1);
      RunsNext(s, existing, n - 1);
      if n == 1 {
        NoSteps(s);
        OfferSticks(s, existing);
      } else {
        StaysStuck(Run(s, Exchanges(existing, n - 1)), s, existing);
      }
    }
  }

  /** As long as nothing is lost and no timer runs out, A's file gets across if and only if A sets no
      limit, or B acknowledges, or what B does not have yet is shorter than the limit. */
  lemma FileGoesExactlyIf(u: Setup, atB: Bytes)
    requires GoodSetup(u) && GoodLimits(u) && u.firstA.SendFile? && !u.firstB.OpenFails?
    requires atB <= u.firstA.source && MayStart(u.cfgA, u.firstA)
    ensures (exists n: nat ::
               FileSent in Run(Begin(u), HANDSHAKE + LAST_INITACK + Exchanges(atB, n)).a.results)
            <==> Acknowledged(u.cfgA, u.cfgB, |u.firstA.source| - |atB|)
  {
    hide Run, Begin, Acknowledged, Exchanges, CountOf;
    var l0 := HANDSHAKE + LAST_INITACK;
    var s := Run(Begin(u), l0);
    forall n: nat
      ensures Run(Begin(u), l0 + Exchanges(atB, n)) == Run(s, Exchanges(atB, n))
    {
      RunOn(Begin(u), l0, Exchanges(atB, n));
    }
    if Acknowledged(u.cfgA, u.cfgB, |u.firstA.source| - |atB|) {
      OneFile(u, atB);
      OfferToEnd(s, atB);
      var n := CountOf(s.a, atB);
      assert FileSent in Run(Begin(u), l0 + Exchanges(atB, n)).a.results;
    } else {
      OneFileSticks(u, atB);
      forall n: nat
        ensures Run(s, Exchanges(atB, n)).a.results == []
      {
        NeverSent(s, atB, n);
      }
    }
  }

  lemma OneFile(u: Setup, atB: Bytes)
    requires GoodSetup(u) && GoodLimits(u) && u.firstA.SendFile? && !u.firstB.OpenFails?
    requires atB <= u.firstA.source && MayStart(u.cfgA, u.firstA)
    requires Acknowledged(u.cfgA, u.cfgB, |u.firstA.source| - |atB|)
    ensures var s := Run(Begin(u), HANDSHAKE + LAST_INITACK); Offers(s, atB) && s.a.tx.named && s.a.results == []
  {
    hide Run, Begin, Read, SameLimit, OneWindow, Sized;
    BothFresh(u);
    WindowAgreement(u, HANDSHAKE + LAST_INITACK);
  }

  lemma OneFileSticks(u: Setup, atB: Bytes)
    requires GoodSetup(u) && GoodLimits(u) && u.firstA.SendFile? && !u.firstB.OpenFails?
    requires atB <= u.firstA.source && MayStart(u.cfgA, u.firstA)
    requires !Acknowledged(u.cfgA, u.cfgB, |u.firstA.source| - |atB|)
    ensures var s := Run(Begin(u), HANDSHAKE + LAST_INITACK);
      && Unanswered(s, atB) && atB <= s.a.source && s.ab == [] && s.ba == []
      && s.a.tx.state == HTX_FINFO && s.a.tx.named && s.a.tx.open && s.a.tx.fp == 0
      && 64 <= s.a.tx.blklen <= 2048 && s.b.rx.state == RxFInfo && 64 <= s.a.cfg.maxblk <= 2048
      && s.a.results == []
  {
    hide Run, Begin, Read, SameLimit, OneWindow;
    BothFresh(u);
    WindowAgreement(u, HANDSHAKE + LAST_INITACK);
  }
}
