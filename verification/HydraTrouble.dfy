/** Sessions in which a file comes to nothing: it is refused, or cannot be read or written any more. The
    receiver closes nothing, the sender's call says what happened, and the session goes on to its end
    with the other side's file. */
module HydraTrouble {
  import opened Bits
  import opened HydraTypes
  import opened HydraFlags
  import opened HydraEndpoint
  import opened HydraSystem
  import opened HydraWindows
  import opened HydraHandshake
  import opened HydraComplete
  import HydraRepeat

  /** What can go wrong with a file: B refuses it; A cannot go to where B's copy ends; A cannot read
      block i; B cannot write block i. */
  datatype Trouble = Refused(accept: Accept) | NoSeek | NoRead(i: nat) | NoWrite(i: nat)

  predicate CanHappen(maxblk: nat, source: Bytes, existing: Bytes, t: Trouble) {
    match t
    case Refused(accept) => !accept.Open?
    case NoSeek => existing != []
    case NoRead(i) => |existing| + SumOf(maxblk, i) <= |source|
    case NoWrite(i) => |existing| + SumOf(maxblk, i) < |source|
  }

  /** What the sender's call returns. */
  function Outcome(t: Trouble): Result {
    if t == Refused(AlreadyHave) then FileThere else FileSkipped
  }

  const CANNOT_SEEK := QUIET.(seekOk := false)
  const CANNOT_READ := QUIET.(readOk := false)

  /** The trouble, and the end of the batch. */
  function TroubleSteps(existing: Bytes, t: Trouble): seq<Label> {
    match t
    case Refused(accept) => Turn(QUIET, QUIET.(accept := accept)) + Exchange(existing)
    case NoSeek => Turn(CANNOT_SEEK, Taking(existing)) + Exchange(existing) + Exchange(existing)
    case NoRead(i) => Exchanges(existing, 1 + i) + Turn(CANNOT_READ, Taking(existing)) + Exchange(existing)
    case NoWrite(i) =>
      Exchanges(existing, 1 + i) + Turn(QUIET, Taking(existing).(write := WriteError)) + Exchange(existing) +
      Exchange(existing)
  }

  // ----- the moves ---------------------------------------------------------

  /** What B answers when it does not take a file. */
  lemma RefusesOffer(y: Endpoint, accept: Accept)
    requires Resting(y) && y.rx.state == RxFInfo && !accept.Open?
    ensures var pos := if accept == AlreadyHave then -1 else -2;
      Receive(y, Received(FInfo(false)), QUIET.(accept := accept)) == Move(
        y.(rx := y.rx.(pos := pos, open := y.rx.open && accept != SeekFails)),
        [Frame(FInfoAck(pos), y.tx.options)], false)
  {
  }

  lemma HearsRefusal(x: Endpoint, pos: int)
    requires x.tx.state == HTX_FINFOACK && x.tx.named && pos < 0
    ensures Receive(x, Received(FInfoAck(pos)), QUIET) == Move(
      x.(tx := x.tx.(state := HTX_FINFO, timer := false, retries := 0, open := false, named := false, pos := pos),
         results := x.results + [if pos == -1 then FileThere else FileSkipped]), [], true)
  {
  }

  /** The states in which a file is given up. */
  predicate GivesUp(x: Endpoint) {
    x.tx.state == HTX_EOF && x.tx.pos == -2 && !x.tx.open && x.dev.state == DevDone
  }

  lemma CannotSeek(x: Endpoint, pos: int)
    requires x.tx.state == HTX_FINFOACK && x.tx.named && 0 < pos && x.dev.state == DevDone
    ensures var m := Receive(x, Received(FInfoAck(pos)), CANNOT_SEEK);
      m == Stay(x.(tx := m.e.tx)) && GivesUp(m.e) && m.e.tx.named
  {
  }

  lemma CannotRead(x: Endpoint)
    requires x.tx.state == HTX_XDATA && 0 <= x.tx.pos && x.dev.state == DevDone
    ensures Transmit(x, CANNOT_READ) == Move(
      x.(tx := x.tx.(open := false, pos := -2, timer := true, state := HTX_EOFACK)),
      [Frame(Eof(-2), x.tx.options)], false)
  {
    assert [] + TransmitTx(x, CANNOT_READ).out == TransmitTx(x, CANNOT_READ).out;
  }

  lemma CannotWrite(y: Endpoint, bytes: Bytes, existing: Bytes)
    requires Resting(y) && y.rx.state == RxData && 0 <= y.rx.pos
    ensures var syncid := Succ32(y.rx.syncid);
      Receive(y, Received(Data(y.rx.pos, bytes)), Taking(existing).(write := WriteError)) == Move(
        y.(rx := y.rx.(blklen := |bytes|, open := false, pos := -2, retries := 1, syncid := syncid, timer := true)),
        [Frame(RPos(-2, 0, syncid), y.tx.options)], false)
  {
  }

  lemma HearsGiveUp(x: Endpoint, syncid: int)
    requires x.tx.state in {HTX_XDATA, HTX_DATAACK} && x.tx.open && syncid != x.tx.syncid && x.dev.state == DevDone
    ensures var m := Receive(x, Received(RPos(-2, 0, syncid)), QUIET);
      m == Stay(x.(tx := m.e.tx)) && GivesUp(m.e) && m.e.tx.named == x.tx.named
  {
  }

  lemma TakesSkip(y: Endpoint, existing: Bytes)
    requires Resting(y) && y.rx.state == RxData
    ensures Receive(y, Received(Eof(-2)), Taking(existing)) == Move(
      y.(rx := y.rx.(open := false, state := RxFInfo)), [Frame(EofAck, y.tx.options)], false)
  {
  }

  lemma HearsSkipped(x: Endpoint, env: Env)
    requires x.tx.state == HTX_EOFACK && !x.tx.open
    ensures Receive(x, Received(EofAck), env) == Move(NextCall(x, FileSkipped), [], true)
  {
  }

  // ----- the exchanges -----------------------------------------------------

  /** A's file is done with and B has not closed anything. */
  predicate Dropped(s: System, z: System, res: Result) {
    && z.ab == [] && z.ba == []
    && z.a == s.a.(tx := z.a.tx, results := s.a.results + [res]) && z.b == s.b.(rx := z.b.rx)
    && z.a.tx.state == HTX_FINFO && !z.a.tx.named && z.b.rx.state == RxFInfo
  }

  lemma RefusedTurn(s: System, accept: Accept)
    requires s.ab == [] && s.ba == [] && s.a.dev.state == DevDone && Resting(s.b) && !accept.Open?
    requires s.a.tx.state == HTX_FINFO && s.a.tx.named && s.b.rx.state == RxFInfo
    ensures Dropped(s, Run(s, Turn(QUIET, QUIET.(accept := accept))), Outcome(Refused(accept)))
  {
    hide Transmit, Receive, Run, Turn;
    SendsFInfo(s.a);
    RefusesOffer(s.b, accept);
    var sent := Transmit(s.a, QUIET);
    var pos := if accept == AlreadyHave then -1 else -2;
    HearsRefusal(sent.e, pos);
    Turned(s, QUIET, QUIET.(accept := accept), sent, Receive(s.b, Received(FInfo(false)), QUIET.(accept := accept)),
           Receive(sent.e, Received(FInfoAck(pos)), QUIET));
  }

  /** A has given up and B not yet. */
  predicate Skipping(s: System, z: System) {
    && z.ab == [] && z.ba == [] && z.a == s.a.(tx := z.a.tx) && z.b == s.b.(rx := z.b.rx)
    && GivesUp(z.a) && z.b.rx.state == RxData
  }

  lemma SkipExchange(s: System, z: System, existing: Bytes)
    requires Skipping(s, z) && Resting(s.b) && existing <= s.a.source
    ensures Dropped(s, Run(z, Exchange(existing)), FileSkipped)
  {
    hide Transmit, Receive, Run;
    HydraRepeat.SendsEofAgain(z.a);
    TakesSkip(z.b, existing);
    var sent := Transmit(z.a, QUIET);
    HearsSkipped(sent.e, QUIET);
    Exchanged(z, existing, sent, Receive(z.b, Received(Eof(-2)), Taking(existing)),
              Receive(sent.e, Received(EofAck), QUIET));
  }

  lemma NoSeekTurn(s: System, existing: Bytes)
    requires s.ab == [] && s.ba == [] && s.a.dev.state == DevDone && Resting(s.b)
    requires s.a.tx.state == HTX_FINFO && s.a.tx.named && s.b.rx.state == RxFInfo
    requires existing <= s.a.source && existing != []
    ensures Skipping(s, Run(s, Turn(CANNOT_SEEK, Taking(existing))))
  {
    hide Transmit, Receive, Run, Turn;
    SendsFInfoAnyway(s.a);
    TakesOffer(s.b, existing);
    var sent := Transmit(s.a, CANNOT_SEEK);
    CannotSeek(sent.e, |existing|);
    Turned(s, CANNOT_SEEK, Taking(existing), sent, Receive(s.b, Received(FInfo(false)), Taking(existing)),
           Receive(sent.e, Received(FInfoAck(|existing|)), CANNOT_SEEK));
  }

  lemma SendsFInfoAnyway(x: Endpoint)
    requires x.tx.state == HTX_FINFO && x.dev.state == DevDone
    ensures Transmit(x, CANNOT_SEEK) == Move(x.(tx := x.tx.(state := HTX_FINFOACK, timer := true)),
                                             [Frame(FInfo(!x.tx.named), x.tx.options)], false)
  {
    assert [] + TransmitTx(x, CANNOT_SEEK).out == TransmitTx(x, CANNOT_SEEK).out;
  }

  lemma NoReadTurn(s: System, s0: System, pos: int, existing: Bytes)
    requires Able(s0, existing) && Ready(s, s0, pos)
    ensures Dropped(s0, Run(s, Turn(CANNOT_READ, Taking(existing))), FileSkipped)
  {
    hide Transmit, Receive, Run, Turn, Answered;
    CannotRead(s.a);
    TakesSkip(s.b, existing);
    var sent := Transmit(s.a, CANNOT_READ);
    HearsSkipped(sent.e, CANNOT_READ);
    Turned(s, CANNOT_READ, Taking(existing), sent, Receive(s.b, Received(Eof(-2)), Taking(existing)),
           Receive(sent.e, Received(EofAck), CANNOT_READ).(out := []));
  }

  lemma NoWriteTurn(s: System, s0: System, pos: int, existing: Bytes)
    requires Able(s0, existing) && Ready(s, s0, pos) && pos < |s.a.source|
    ensures Skipping(s0, Run(s, Turn(QUIET, Taking(existing).(write := WriteError))))
  {
    hide Transmit, Receive, Run, Turn, Answered, Grow;
    var n := Smaller(s.a.tx.blklen, |s.a.source| - pos);
    var block := s.a.source[pos..pos + n];
    SendsBlock(s.a);
    GrowsWithin(s.a.tx.(pos := pos + n, fp := pos + n), s.a.cfg.maxblk, n);
    var sent := Transmit(s.a, QUIET);
    var env := Taking(existing).(write := WriteError);
    CannotWrite(s.b, block, existing);
    HearsGiveUp(sent.e, Succ32(s.b.rx.syncid));
    Turned(s, QUIET, env, sent, Receive(s.b, Received(Data(pos, block)), env),
           Receive(sent.e, Received(RPos(-2, 0, Succ32(s.b.rx.syncid))), QUIET));
  }

  // ----- a batch -----------------------------------------------------------

  lemma DroppedEnds(s: System, z: System, existing: Bytes, res: Result)
    requires Dropped(s, z, res) && s.a.dev.state == DevDone && Resting(s.b) && existing <= s.a.source
    ensures EndedWith(s, Run(z, Exchange(existing)), [res], [])
  {
    hide Run, Exchange;
    LastExchange(z, existing);
  }

  /** After i blocks. */
  lemma AfterBlocks(s: System, existing: Bytes, i: nat)
    requires Offers(s, existing) && s.a.tx.named && |existing| + SumOf(s.a.cfg.maxblk, i) <= |s.a.source|
    ensures Ready(Run(s, Exchanges(existing, 1 + i)), s, |existing| + SumOf(s.a.cfg.maxblk, i))
  {
    hide Run, Exchange, Exchanges, Ready, Answered;
    OfferExchange(s, existing);
    var z := Run(s, Exchange(existing));
    RunsFirst(s, existing, i);
    SizedStill(s, z, |existing|);
    BlockLengths(z, s, existing, i);
  }

  lemma SizedStill(s: System, z: System, pos: int)
    requires Ready(z, s, pos)
    ensures z.a.cfg == s.a.cfg && z.a.source == s.a.source
  {
  }

  lemma TroubleEnds(s: System, existing: Bytes, t: Trouble)
    requires Offers(s, existing) && s.a.tx.named && CanHappen(s.a.cfg.maxblk, s.a.source, existing, t)
    ensures EndedWith(s, Run(s, TroubleSteps(existing, t)), [Outcome(t)], [])
  {
    hide Run, Exchange, Exchanges, Turn, Ready, Dropped, Skipping, EndedWith, SumOf;
    var last := Exchange(existing);
    match t
    case Refused(accept) =>
      var turn := Turn(QUIET, QUIET.(accept := accept));
      RefusedTurn(s, accept);
      DroppedEnds(s, Run(s, turn), existing, Outcome(t));
      RunOn(s, turn, last);
    case NoSeek =>
      var turn := Turn(CANNOT_SEEK, Taking(existing));
      NoSeekTurn(s, existing);
      SkipExchange(s, Run(s, turn), existing);
      RunOn(s, turn, last);
      DroppedEnds(s, Run(s, turn + last), existing, FileSkipped);
      RunOn(s, turn + last, last);
    case NoRead(i) =>
      var before, turn := Exchanges(existing, 1 + i), Turn(CANNOT_READ, Taking(existing));
      AfterBlocks(s, existing, i);
      NoReadTurn(Run(s, before), s, |existing| + SumOf(s.a.cfg.maxblk, i), existing);
      RunOn(s, before, turn);
      DroppedEnds(s, Run(s, before + turn), existing, FileSkipped);
      RunOn(s, before + turn, last);
    case NoWrite(i) =>
      var before, turn := Exchanges(existing, 1 + i), Turn(QUIET, Taking(existing).(write := WriteError));
      AfterBlocks(s, existing, i);
      SizedStill(s, Run(s, before), |existing| + SumOf(s.a.cfg.maxblk, i));
      NoWriteTurn(Run(s, before), s, |existing| + SumOf(s.a.cfg.maxblk, i), existing);
      RunOn(s, before, turn);
      SkipExchange(s, Run(s, before + turn), existing);
      RunOn(s, before + turn, last);
      DroppedEnds(s, Run(s, before + turn + last), existing, FileSkipped);
      RunOn(s, before + turn + last, last);
  }

  // ----- the whole session -------------------------------------------------

  /** Trouble with A's file, B's file, END. */
  function TroubledWhole(u: Setup, atB: Bytes, atA: Bytes, t: Trouble): seq<Label>
    requires GoodFiles(u, atB, atA)
  {
    HANDSHAKE + LAST_INITACK + TroubleSteps(atB, t) + FlipLabels(Exchanges(atA, Needed(u.cfgB, u.firstB, atA))) +
    Exchange([])
  }

  /** Whatever goes wrong with A's file: A's call says so, B closes nothing of it, B's own file gets
      across all the same, and the session gets to its end on both sides. */
  lemma TroubledSessionEnds(u: Setup, atB: Bytes, atA: Bytes, t: Trouble)
    requires GoodFiles(u, atB, atA) && MayStart(u.cfgA, u.firstA) && u.firstA.SendFile?
    requires CanHappen(u.cfgA.maxblk, u.firstA.source, atB, t)
    ensures var z := Run(Begin(u), TroubledWhole(u, atB, atA, t));
      && z.a.tx.state == HTX_DONE && z.a.results == [Outcome(t), SessionDone] && z.a.closed == FilesOf(u.firstB)
      && z.b.tx.state == HTX_DONE && z.b.results == SentIf(u.firstB) + [SessionDone] && z.b.closed == []
  {
    hide Run, Begin, Offers, Acknowledged, MayStart, GoodLimits, Wanted, Exchange, Exchanges, FlipLabels, Needed,
         CountOf, BlocksFrom, TroubleSteps, Sized, CanHappen;
    BothFresh(u);
    FirstOffer(u, atB, atA);
    var l0, l1 := HANDSHAKE + LAST_INITACK, TroubleSteps(atB, t);
    var s := Run(Begin(u), l0);
    TroubleEnds(s, atB, t);
    var y := Run(s, l1);
    SecondOffer(u, atB, atA, s, y, [Outcome(t)], []);
    var second := Exchanges(atA, Needed(u.cfgB, u.firstB, atA));
    OfferToEnd(Flip(y), atA);
    RunMirror(y, second);
    EndExchange(Run(y, FlipLabels(second)));
    RunOn(Begin(u), l0, l1);
    RunOn(Begin(u), l0 + l1, FlipLabels(second));
    RunOn(Begin(u), l0 + l1 + FlipLabels(second), Exchange([]));
  }
}
