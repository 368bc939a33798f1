/** Sessions that get to their end. Whatever the two files are, an explicit list of steps takes the
    session from the handshake through both files to the END packets, unless one side waits for
    acknowledgements that the other never sends. */
module HydraComplete {
  import opened Bits
  import opened HydraTypes
  import opened HydraFlags
  import opened HydraEndpoint
  import opened HydraSystem
  import opened HydraWindows
  import opened HydraHandshake

  /** Takes a file that is offered, at the length it already has, and all that is written. */
  function Taking(existing: Bytes): Env {
    QUIET.(write := Wrote(MAX_BLOCK), accept := Open(existing))
  }

  /** A pass at A, then the packet it has sent arrives at B, then the answer at A. */
  function Turn(envA: Env, envB: Env): seq<Label> {
    [Label(A, Pass, envA), Label(B, Arrive, envB), Label(A, Arrive, envA)]
  }

  function Exchange(existing: Bytes): seq<Label> {
    Turn(QUIET, Taking(existing))
  }

  lemma RunOf3(s: System, a: Label, b: Label, c: Label)
    ensures Run(s, [a, b, c]) == Step(Step(Step(s, a), b), c)
  {
    hide Step;
    RunOn(s, [a], [b]);
    RunsOne(s, a);
    RunsOne(Step(s, a), b);
    assert [a] + [b] == [a, b] && [a, b] + [c] == [a, b, c];
    RunOn(s, [a, b], [c]);
    RunsOne(Run(s, [a, b]), c);
  }

  /** An exchange, from what each of the two sides does. */
  lemma Turned(s: System, envA: Env, envB: Env, sent: Move, taken: Move, heard: Move)
    requires s.ab == [] && s.ba == [] && sent.e.source == s.a.source && !envA.accept.Open?
    requires envB.accept.Open? ==> envB.accept.existing <= s.a.source
    requires Transmit(s.a, envA) == sent && |sent.out| == 1
    requires Receive(s.b, Received(sent.out[0].p), envB) == taken && |taken.out| <= 1
    requires if taken.out == [] then heard == Stay(sent.e)
             else Receive(sent.e, Received(taken.out[0].p), envA) == heard && heard.out == []
    ensures Run(s, Turn(envA, envB)) == System(heard.e, taken.e, [], [])
  {
    hide Transmit, Receive, Run;
    var ls := Turn(envA, envB);
    RunOf3(s, ls[0], ls[1], ls[2]);
    var s1 := Step(s, ls[0]);
    assert s1 == System(sent.e, s.b, sent.out, []);
    var s2 := Step(s1, ls[1]);
    assert s2 == System(sent.e, taken.e, [], taken.out);
  }

  lemma Exchanged(s: System, existing: Bytes, sent: Move, taken: Move, heard: Move)
    requires s.ab == [] && s.ba == [] && existing <= s.a.source && sent.e.source == s.a.source
    requires Transmit(s.a, QUIET) == sent && |sent.out| == 1
    requires Receive(s.b, Received(sent.out[0].p), Taking(existing)) == taken && |taken.out| <= 1
    requires if taken.out == [] then heard == Stay(sent.e)
             else Receive(sent.e, Received(taken.out[0].p), QUIET) == heard && heard.out == []
    ensures Run(s, Exchange(existing)) == System(heard.e, taken.e, [], [])
  {
    hide Transmit, Receive, Run, Turn;
    Turned(s, QUIET, Taking(existing), sent, taken, heard);
  }

  /** An exchange in which A has nothing to say. */
  lemma NothingSaid(s: System, existing: Bytes)
    requires s.ab == [] && s.ba == [] && Transmit(s.a, QUIET) == Stay(s.a)
    ensures Run(s, Exchange(existing)) == s
  {
    hide Transmit, Receive, Run;
    var ls := Exchange(existing);
    RunOf3(s, ls[0], ls[1], ls[2]);
    assert s.ab + [] == s.ab;
    assert Step(s, ls[0]) == s;
  }

  // ----- the receiver ------------------------------------------------------

  /** A side that has nothing to do but receive: it is about to send its own offer, or has none to
      send, or waits until it may send. */
  predicate Resting(y: Endpoint) {
    y.dev.state == DevDone && (y.tx.state == HTX_FINFO || y.tx.state == HTX_REND || y.tx.state == HTX_XWAIT)
  }

  lemma TakesOffer(y: Endpoint, existing: Bytes)
    requires Resting(y) && y.rx.state == RxFInfo
    ensures Receive(y, Received(FInfo(false)), Taking(existing)) == Move(
      y.(rx := y.rx.(open := true, file := existing, lost := 0, pos := |existing|, timer := false, retries := 0,
                     lastsync := 0, syncid := 0, state := RxData)),
      [Frame(FInfoAck(|existing|), y.tx.options)], false)
  {
  }

  lemma TakesBlock(y: Endpoint, bytes: Bytes, existing: Bytes)
    requires Resting(y) && y.rx.state == RxData && 0 <= y.rx.pos && |bytes| <= 2048
    ensures Receive(y, Received(Data(y.rx.pos, bytes)), Taking(existing)) == Move(
      y.(rx := y.rx.(blklen := |bytes|, file := y.rx.file + bytes, retries := 0, timer := false,
                     lastsync := y.rx.pos, pos := y.rx.pos + |bytes|)),
      if y.rx.window == 0 then [] else [Frame(DataAck(y.rx.pos + |bytes|), y.tx.options)], false)
  {
  }

  lemma TakesEof(y: Endpoint, existing: Bytes)
    requires Resting(y) && y.rx.state == RxData && 0 <= y.rx.pos
    ensures Receive(y, Received(Eof(y.rx.pos)), Taking(existing)) == Move(
      y.(rx := y.rx.(open := false, state := RxFInfo), closed := y.closed + [y.rx.file]),
      [Frame(EofAck, y.tx.options)], false)
  {
  }

  /** What the end of the peer's batch lets a side go on with. */
  function Woken(y: Endpoint): Tx {
    if y.tx.state == HTX_REND then y.tx.(timer := false, retries := 0, state := HTX_END)
    else if y.tx.state == HTX_XWAIT then y.tx.(timer := false, retries := 0, state := HTX_XDATA)
    else y.tx
  }

  lemma TakesEndOfBatch(y: Endpoint, existing: Bytes)
    requires Resting(y) && y.rx.state == RxFInfo
    ensures Receive(y, Received(FInfo(true)), Taking(existing)) == Move(
      y.(rx := y.rx.(pos := 0, state := RxDone), batches := y.batches + 1, tx := Woken(y)),
      [Frame(FInfoAck(0), y.tx.options)], false)
  {
  }

  // ----- the sender --------------------------------------------------------

  lemma SendsFInfo(x: Endpoint)
    requires x.tx.state == HTX_FINFO && x.dev.state == DevDone
    ensures Transmit(x, QUIET) == Move(x.(tx := x.tx.(state := HTX_FINFOACK, timer := true)),
                                       [Frame(FInfo(!x.tx.named), x.tx.options)], false)
  {
    assert [] + TransmitTx(x, QUIET).out == TransmitTx(x, QUIET).out;
  }

  /** Sending in one direction only, and the other side has not finished. */
  predicate MustWait(x: Endpoint) {
    x.hdxlink && x.rx.state != RxDone
  }

  lemma HearsAnswer(x: Endpoint, pos: int)
    requires x.tx.state == HTX_FINFOACK && x.tx.named && x.tx.open && x.tx.fp == 0 && 0 <= pos && !MustWait(x)
    ensures Receive(x, Received(FInfoAck(pos)), QUIET) == Stay(
      x.(tx := x.tx.(retries := 0, timer := false, pos := pos, lastack := pos, fp := pos, state := HTX_XDATA)))
  {
    hide DevQueue;
  }

  lemma HearsLastAnswer(x: Endpoint)
    requires x.tx.state == HTX_FINFOACK && !x.tx.named && x.dev.state == DevDone
    ensures Receive(x, Received(FInfoAck(0)), QUIET) == Stay(
      x.(tx := if x.rx.state == RxDone then x.tx.(retries := 0, timer := false, state := HTX_END)
               else x.tx.(retries := 0, timer := true, state := HTX_REND)))
  {
    hide DevQueue;
  }

  /** The sender after a block of n bytes. */
  function Advanced(tx: Tx, maxblk: int, n: nat): Tx {
    var grown := Grow(tx.(pos := tx.pos + n, fp := tx.fp + n), maxblk, n);
    if grown.window != 0 && grown.pos >= grown.lastack + grown.window
    then grown.(timer := true, state := HTX_DATAACK) else grown
  }

  function Smaller(a: nat, b: nat): nat {
    if a <= b then a else b
  }

  lemma SendsBlock(x: Endpoint)
    requires x.tx.state == HTX_XDATA && x.tx.open && x.dev.state == DevDone
    requires 0 <= x.tx.pos == x.tx.fp < |x.source| && 0 < x.tx.blklen
    ensures var n := Smaller(x.tx.blklen, |x.source| - x.tx.pos);
      Transmit(x, QUIET) == Move(x.(tx := Advanced(x.tx, x.cfg.maxblk, n)),
        [Frame(Data(x.tx.pos, x.source[x.tx.pos..x.tx.pos + n]), x.tx.options)], false)
  {
    hide Grow;
    assert [] + TransmitTx(x, QUIET).out == TransmitTx(x, QUIET).out;
  }

  lemma SendsEof(x: Endpoint)
    requires x.tx.state == HTX_XDATA && x.tx.open && x.dev.state == DevDone
    requires x.tx.pos == x.tx.fp == |x.source|
    ensures Transmit(x, QUIET) == Move(x.(tx := x.tx.(timer := true, state := HTX_EOFACK)),
                                       [Frame(Eof(x.tx.pos), x.tx.options)], false)
  {
    hide Grow;
    assert [] + TransmitTx(x, QUIET).out == TransmitTx(x, QUIET).out;
  }

  lemma HearsDataAck(x: Endpoint)
    requires (x.tx.state == HTX_XDATA || x.tx.state == HTX_DATAACK) && !MustWait(x)
    requires x.tx.window == 0 || (x.tx.lastack < x.tx.pos && 0 < x.tx.window)
    ensures Receive(x, Received(DataAck(x.tx.pos)), QUIET) == Stay(
      if x.tx.window == 0 then x
      else if x.tx.state == HTX_XDATA then x.(tx := x.tx.(lastack := x.tx.pos))
      else x.(tx := x.tx.(lastack := x.tx.pos, state := HTX_XDATA, retries := 0, timer := false)))
  {
    hide DevQueue;
  }

  lemma HearsEofAck(x: Endpoint)
    requires x.tx.state == HTX_EOFACK && x.tx.open
    ensures Receive(x, Received(EofAck), QUIET) == Move(NextCall(x, FileSent), [], true)
  {
  }

  // ----- a file ------------------------------------------------------------

  /** What A waits for comes: A does not limit what it sends ahead, or B acknowledges, or the rest
      of the file is shorter than the limit. */
  predicate Answered(s: System, pos: int) {
    s.a.tx.window == 0 || s.b.rx.window != 0 || |s.a.source| < pos + s.a.tx.window
  }

  /** Both sides are ready for a file of A's of which B has the beginning. */
  predicate Able(s: System, existing: Bytes) {
    && s.a.dev.state == DevDone && Resting(s.b) && !MustWait(s.a)
    && 0 <= s.a.tx.window && existing <= s.a.source && Answered(s, |existing|)
    && 64 <= s.a.cfg.maxblk <= 2048
  }

  /** Only what concerns the file differs, and nothing is on the lines. */
  predicate Linked(s: System, s0: System) {
    && s.ab == [] && s.ba == [] && s.a == s0.a.(tx := s.a.tx) && s.b == s0.b.(rx := s.b.rx)
    && s.a.tx == s0.a.tx.(state := s.a.tx.state, fp := s.a.tx.fp, pos := s.a.tx.pos, blklen := s.a.tx.blklen,
                          goodneeded := s.a.tx.goodneeded, goodbytes := s.a.tx.goodbytes, lastack := s.a.tx.lastack,
                          retries := s.a.tx.retries, timer := s.a.tx.timer, syncid := s.a.tx.syncid)
    && s.b.rx == s0.b.rx.(state := s.b.rx.state, pos := s.b.rx.pos, open := s.b.rx.open, file := s.b.rx.file,
                          lost := s.b.rx.lost, blklen := s.b.rx.blklen, lastsync := s.b.rx.lastsync,
                          retries := s.b.rx.retries, timer := s.b.rx.timer, syncid := s.b.rx.syncid)
  }

  /** An acknowledgement has not come, and the next block waits for it again. */
  predicate Overdue(tx: Tx) {
    tx.window != 0 && tx.pos >= tx.lastack + tx.window
  }

  /** A is about to send the block at pos, which B waits for. */
  predicate Ready(s: System, s0: System, pos: int) {
    && Linked(s, s0) && s.a.tx.named && s.a.tx.open && s.a.tx.state == HTX_XDATA && !s.a.tx.timer
    && 0 <= s.a.tx.pos == s.a.tx.fp == pos <= |s.a.source| && 64 <= s.a.tx.blklen <= 2048
    && (s.a.tx.retries <= 1 || (s.a.tx.retries <= 10 && Overdue(s.a.tx)))
    && s.b.rx.state == RxData && s.b.rx.pos == pos && s.b.rx.file == s.a.source[..pos] && s.b.rx.lost == 0
    && s.b.rx.syncid == s.a.tx.syncid
    && (s.a.tx.window != 0 ==>
         if s.b.rx.window != 0 then s.a.tx.lastack <= pos else |s.a.source| < s.a.tx.lastack + s.a.tx.window)
  }

  /** B has not asked A to go back since the last good block. */
  predicate Calm(s: System) {
    !s.b.rx.timer && s.b.rx.retries == 0
  }

  /** The offer is taken. */
  lemma OfferExchange(s: System, existing: Bytes)
    requires Able(s, existing) && s.ab == [] && s.ba == []
    requires s.a.tx.state == HTX_FINFO && s.a.tx.named && s.a.tx.open && s.a.tx.fp == 0 && s.a.tx.syncid == 0
    requires 64 <= s.a.tx.blklen <= 2048 && s.b.rx.state == RxFInfo
    ensures var z := Run(s, Exchange(existing));
      && Ready(z, s, |existing|) && Calm(z) && z.a.tx.retries == 0
      && z.a.tx.blklen == s.a.tx.blklen && z.a.tx.goodneeded == s.a.tx.goodneeded
      && z.a.tx.goodbytes == s.a.tx.goodbytes
  {
    hide Transmit, Receive, Run;
    SendsFInfo(s.a);
    TakesOffer(s.b, existing);
    var sent := Transmit(s.a, QUIET);
    HearsAnswer(sent.e, |existing|);
    Exchanged(s, existing, sent, Receive(s.b, Received(FInfo(false)), Taking(existing)),
              Receive(sent.e, Received(FInfoAck(|existing|)), QUIET));
    assert existing == s.a.source[..|existing|];
  }

  lemma GrowsWithin(tx: Tx, maxblk: int, i: int)
    requires 64 <= tx.blklen <= 2048 && 64 <= maxblk <= 2048
    ensures var grown := Grow(tx, maxblk, i);
      && 64 <= grown.blklen <= 2048
      && grown == tx.(blklen := grown.blklen, goodneeded := grown.goodneeded, goodbytes := grown.goodbytes)
  {
  }

  lemma GrowsAnywhere(tx: Tx, pos: int, fp: int, maxblk: int, i: int)
    ensures Grow(tx.(pos := pos, fp := fp), maxblk, i) == Grow(tx, maxblk, i).(pos := pos, fp := fp)
  {
  }

  /** The sender after a block of n bytes: it waits exactly if its limit is reached. */
  predicate SentBlock(x: Endpoint, e: Endpoint, n: nat) {
    var late := x.tx.window != 0 && x.tx.pos + n >= x.tx.lastack + x.tx.window;
    && e == x.(tx := e.tx) && 64 <= e.tx.blklen <= 2048
    && e.tx == x.tx.(pos := x.tx.pos + n, fp := x.tx.pos + n, blklen := e.tx.blklen, goodneeded := e.tx.goodneeded,
                     goodbytes := e.tx.goodbytes, timer := late, state := if late then HTX_DATAACK else HTX_XDATA)
  }

  /** What is sent of a file from pos on. */
  function BlockAt(source: Bytes, pos: nat, blklen: nat): Bytes
    requires pos <= |source|
  {
    source[pos..pos + Smaller(blklen, |source| - pos)]
  }

  lemma BlockSent(x: Endpoint)
    requires x.tx.state == HTX_XDATA && x.tx.open && x.dev.state == DevDone && !x.tx.timer
    requires 0 <= x.tx.pos == x.tx.fp < |x.source| && 64 <= x.tx.blklen <= 2048 && 64 <= x.cfg.maxblk <= 2048
    ensures var n, m := Smaller(x.tx.blklen, |x.source| - x.tx.pos), Transmit(x, QUIET);
      && SentBlock(x, m.e, n) && m == Move(m.e, m.out, false)
      && m.out == [Frame(Data(x.tx.pos, BlockAt(x.source, x.tx.pos, x.tx.blklen)), x.tx.options)]
      && var grown := Grow(x.tx, x.cfg.maxblk, n);
      && m.e.tx.blklen == grown.blklen && m.e.tx.goodneeded == grown.goodneeded && m.e.tx.goodbytes == grown.goodbytes
  {
    hide Transmit, Grow;
    var n := Smaller(x.tx.blklen, |x.source| - x.tx.pos);
    SendsBlock(x);
    GrowsWithin(x.tx.(pos := x.tx.pos + n, fp := x.tx.pos + n), x.cfg.maxblk, n);
    GrowsAnywhere(x.tx, x.tx.pos + n, x.tx.pos + n, x.cfg.maxblk, n);
  }

  /** B after it has taken the block at pos. */
  predicate TookBlock(y: Endpoint, z: Endpoint, block: Bytes) {
    z == y.(rx := y.rx.(blklen := |block|, file := y.rx.file + block, retries := 0, timer := false,
                        lastsync := y.rx.pos, pos := y.rx.pos + |block|))
  }

  /** A once it is to go on after a block: B has acknowledged it, or does not. */
  function WentOn(e: Endpoint, heard: bool): Endpoint {
    var tx := if heard && e.tx.window != 0 then e.tx.(lastack := e.tx.pos) else e.tx;
    e.(tx := if e.tx.state == HTX_DATAACK then tx.(state := HTX_XDATA, retries := if heard then 0 else tx.retries + 1,
                                                   timer := false) else tx)
  }

  /** When a block has gone across, both sides are at the next one. */
  lemma NextBlock(s: System, s0: System, pos: int, e: Endpoint, y: Endpoint, heard: bool)
    requires Ready(s, s0, pos) && pos < |s.a.source| && 0 <= s0.a.tx.window && (heard || s.a.tx.retries < 10)
    requires SentBlock(s.a, e, Smaller(s.a.tx.blklen, |s.a.source| - pos))
    requires TookBlock(s.b, y, BlockAt(s.a.source, pos, s.a.tx.blklen))
    requires heard ==> s.b.rx.window != 0
    ensures var z, n := System(WentOn(e, heard), y, [], []), Smaller(s.a.tx.blklen, |s.a.source| - pos);
      && Ready(z, s0, pos + n) && Calm(z) && (heard || z.a.tx.retries <= s.a.tx.retries + 1)
  {
    var n := Smaller(s.a.tx.blklen, |s.a.source| - pos);
    assert s.a.source[..pos] + BlockAt(s.a.source, pos, s.a.tx.blklen) == s.a.source[..pos + n];
  }

  lemma ReadyTells(s: System, s0: System, pos: int)
    requires Ready(s, s0, pos)
    ensures s.ab == [] && s.ba == [] && s.a.source == s0.a.source && s.a.cfg == s0.a.cfg && s.a.dev == s0.a.dev
    ensures s.a.tx.state == HTX_XDATA && s.a.tx.open && !s.a.tx.timer && s.a.tx.window == s0.a.tx.window
    ensures 0 <= pos == s.a.tx.pos == s.a.tx.fp <= |s.a.source| && 64 <= s.a.tx.blklen <= 2048
    ensures s.a.tx.window != 0 && s.b.rx.window != 0 ==> s.a.tx.lastack <= pos
    ensures s.b.rx.state == RxData && s.b.rx.pos == pos && s.b.rx.window == s0.b.rx.window
    ensures (Resting(s.b) <==> Resting(s0.b)) && (MustWait(s.a) <==> MustWait(s0.a))
  {
  }

  lemma FewTries(s: System, s0: System, pos: int)
    requires Ready(s, s0, pos)
    ensures s.b.rx.window == 0 ==> s.a.tx.retries <= 1
  {
  }

  /** And no time-outs are left over if B has acknowledged it or does not have to. */
  lemma NextBlockCounts(s: System, s0: System, pos: int, e: Endpoint, heard: bool)
    requires Ready(s, s0, pos) && SentBlock(s.a, e, Smaller(s.a.tx.blklen, |s.a.source| - pos)) && pos < |s.a.source|
    requires heard || s.b.rx.window == 0
    ensures WentOn(e, heard).tx.retries <= 1
  {
  }

  /** A block goes across. */
  lemma BlockExchange(s: System, s0: System, pos: int, existing: Bytes)
    requires Able(s0, existing) && Ready(s, s0, pos) && pos < |s.a.source|
    ensures var z, n := Run(s, Exchange(existing)), Smaller(s.a.tx.blklen, |s.a.source| - pos);
      && Ready(z, s0, pos + n) && Calm(z) && z.a.tx.retries <= 1
      && var grown := Grow(s.a.tx, s.a.cfg.maxblk, n);
      && z.a.tx.blklen == grown.blklen && z.a.tx.goodneeded == grown.goodneeded && z.a.tx.goodbytes == grown.goodbytes
  {
    hide Transmit, Receive, Run, Grow, Answered, Calm, BlockAt, Ready, Linked;
    ReadyTells(s, s0, pos);
    var block := BlockAt(s.a.source, pos, s.a.tx.blklen);
    BlockSent(s.a);
    var sent := Transmit(s.a, QUIET);
    assert |block| <= 2048 by { BlockIsShort(s.a.source, pos, s.a.tx.blklen); }
    TakesBlock(s.b, block, existing);
    var taken := Receive(s.b, Received(Data(pos, block)), Taking(existing));
    FewTries(s, s0, pos);
    NextBlock(s, s0, pos, sent.e, taken.e, s.b.rx.window != 0);
    NextBlockCounts(s, s0, pos, sent.e, s.b.rx.window != 0);
    if taken.out == [] {
      Exchanged(s, existing, sent, taken, Stay(sent.e));
    } else {
      BlockIsShort(s.a.source, pos, s.a.tx.blklen);
      HearsDataAck(sent.e);
      Exchanged(s, existing, sent, taken, Receive(sent.e, Received(DataAck(pos + |block|)), QUIET));
    }
  }

  lemma BlockIsShort(source: Bytes, pos: nat, blklen: nat)
    requires pos <= |source|
    ensures |BlockAt(source, pos, blklen)| == Smaller(blklen, |source| - pos) <= blklen
  {
  }

  /** The end of the file: B closes it, and A has sent it. */
  lemma EofExchange(s: System, s0: System, existing: Bytes)
    requires Able(s0, existing) && Ready(s, s0, |s.a.source|)
    ensures var z := Run(s, Exchange(existing));
      && z.ab == [] && z.ba == [] && z.a == NextCall(s.a, FileSent)
      && z.b == s.b.(rx := s.b.rx.(open := false, state := RxFInfo), closed := s.b.closed + [s.a.source])
  {
    hide Transmit, Receive, Run;
    SendsEof(s.a);
    TakesEof(s.b, existing);
    var sent := Transmit(s.a, QUIET);
    HearsEofAck(sent.e);
    assert s.a.source[..|s.a.source|] == s.a.source;
    Exchanged(s, existing, sent, Receive(s.b, Received(Eof(|s.a.source|)), Taking(existing)),
              Receive(sent.e, Received(EofAck), QUIET));
  }

  /** The end of the batch. */
  lemma LastExchange(s: System, existing: Bytes)
    requires s.ab == [] && s.ba == [] && existing <= s.a.source
    requires s.a.tx.state == HTX_FINFO && !s.a.tx.named && s.a.dev.state == DevDone
    requires Resting(s.b) && s.b.rx.state == RxFInfo
    ensures Run(s, Exchange(existing)) == System(
      s.a.(tx := if s.a.rx.state == RxDone then s.a.tx.(retries := 0, timer := false, state := HTX_END)
                 else s.a.tx.(retries := 0, timer := true, state := HTX_REND)),
      s.b.(rx := s.b.rx.(pos := 0, state := RxDone), batches := s.b.batches + 1, tx := Woken(s.b)), [], [])
  {
    hide Transmit, Receive, Run;
    SendsFInfo(s.a);
    TakesEndOfBatch(s.b, existing);
    var sent := Transmit(s.a, QUIET);
    HearsLastAnswer(sent.e);
    Exchanged(s, existing, sent, Receive(s.b, Received(FInfo(true)), Taking(existing)),
              Receive(sent.e, Received(FInfoAck(0)), QUIET));
  }

  // ----- the lengths of the blocks -----------------------------------------

  /** How long the blocks of a file are when nothing is lost, unless the file ends first. */
  function LengthOf(maxblk: nat, i: nat): nat {
    if maxblk >= 1024 then
      if i < 2 then 512 else if i == 2 then 1024 else maxblk
    else
      if i < 4 then 256 else if maxblk <= 512 then maxblk else if i < 6 then 512 else maxblk
  }

  /** How many bytes the first n blocks have. */
  function SumOf(maxblk: nat, n: nat): nat {
    if n == 0 then 0 else SumOf(maxblk, n - 1) + LengthOf(maxblk, n - 1)
  }

  /** The sender's bookkeeping after i full blocks. */
  predicate Sized(tx: Tx, maxblk: nat, i: nat) {
    && tx.blklen == LengthOf(maxblk, i)
    && if tx.blklen == maxblk then tx.goodbytes == 0
       else tx.goodneeded == 1024 &&
            tx.goodbytes == if maxblk >= 1024 then (if i < 2 then 512 * i else 0)
                            else if i < 4 then 256 * i else 512 * (i - 4)
  }

  lemma GrowsBy(tx: Tx, maxblk: nat, i: nat)
    requires 256 <= maxblk <= 2048 && Sized(tx, maxblk, i)
    ensures Sized(Grow(tx, maxblk, LengthOf(maxblk, i)), maxblk, i + 1)
  {
  }

  /** So many exchanges. */
  function Exchanges(existing: Bytes, n: nat): seq<Label> {
    if n == 0 then [] else Exchanges(existing, n - 1) + Exchange(existing)
  }

  lemma RunsNext(s: System, existing: Bytes, n: nat)
    ensures Run(s, Exchanges(existing, n + 1)) == Run(Run(s, Exchanges(existing, n)), Exchange(existing))
  {
    hide Run;
    RunOn(s, Exchanges(existing, n), Exchange(existing));
  }

  lemma SumGrows(maxblk: nat, n: nat)
    requires 0 < maxblk
    ensures SumOf(maxblk, 0) == 0 && (n > 0 ==> SumOf(maxblk, n - 1) < SumOf(maxblk, n))
  {
  }

  /** After n full blocks both sides are where the lengths say, and the next block has its length. */
  lemma {:induction false} BlockLengths(s: System, s0: System, existing: Bytes, n: nat)
    requires Able(s0, existing) && Ready(s, s0, |existing|) && Calm(s) && 256 <= s.a.cfg.maxblk
    requires Sized(s.a.tx, s.a.cfg.maxblk, 0) && |existing| + SumOf(s.a.cfg.maxblk, n) <= |s.a.source|
    ensures var z := Run(s, Exchanges(existing, n));
      && Ready(z, s0, |existing| + SumOf(s.a.cfg.maxblk, n)) && Calm(z)
      && Sized(z.a.tx, s.a.cfg.maxblk, n)
  {
    hide Ready, Able, Sized, Grow, Exchange, Calm, Run, LengthOf, SumOf;
    SumGrows(s.a.cfg.maxblk, n);
    if n == 0 {
      NoSteps(s);
    } else {
      BlockLengths(s, s0, existing, n - 1);
      RunsNext(s, existing, n - 1);
      OneMore(s, Run(s, Exchanges(existing, n - 1)), s0, existing, n - 1);
    }
  }

  lemma OneMore(s: System, z: System, s0: System, existing: Bytes, i: nat)
    requires Able(s0, existing) && Ready(s, s0, |existing|) && 256 <= s.a.cfg.maxblk
    requires |existing| + SumOf(s.a.cfg.maxblk, i) < |s.a.source|
    requires Ready(z, s0, |existing| + SumOf(s.a.cfg.maxblk, i)) && Sized(z.a.tx, s.a.cfg.maxblk, i)
    ensures var y := Run(z, Exchange(existing));
      && Ready(y, s0, Smaller(|existing| + SumOf(s.a.cfg.maxblk, i + 1), |s.a.source|)) && Calm(y)
      && (|existing| + SumOf(s.a.cfg.maxblk, i + 1) <= |s.a.source| ==> Sized(y.a.tx, s.a.cfg.maxblk, i + 1))
  {
    hide Run, Grow, Exchange, LengthOf;
    BlockExchange(z, s0, |existing| + SumOf(s.a.cfg.maxblk, i), existing);
    GrowsBy(z.a.tx, s.a.cfg.maxblk, i);
  }

  /** How many blocks so many bytes are, from block i on. */
  function BlocksFrom(maxblk: nat, rest: nat, i: nat): (n: nat)
    requires 256 <= maxblk
    ensures n >= i && rest <= SumOf(maxblk, n) && (n > i ==> SumOf(maxblk, n - 1) < rest)
    decreases if rest > SumOf(maxblk, i) then rest - SumOf(maxblk, i) else 0
  {
    if rest <= SumOf(maxblk, i) then i else BlocksFrom(maxblk, rest, i + 1)
  }

  /** All blocks of a file go across. */
  lemma AllBlocks(s: System, s0: System, existing: Bytes)
    requires Able(s0, existing) && Ready(s, s0, |existing|) && Calm(s) && 256 <= s.a.cfg.maxblk
    requires Sized(s.a.tx, s.a.cfg.maxblk, 0) && |existing| <= |s.a.source|
    ensures var n := BlocksFrom(s.a.cfg.maxblk, |s.a.source| - |existing|, 0);
      Ready(Run(s, Exchanges(existing, n)), s0, |s.a.source|)
  {
    hide Ready, Able, Sized, Exchange, Run, LengthOf;
    var n := BlocksFrom(s.a.cfg.maxblk, |s.a.source| - |existing|, 0);
    if n == 0 {
      assert Run(s, []) == s by { NoSteps(s); }
    } else {
      BlockLengths(s, s0, existing, n - 1);
      RunsNext(s, existing, n - 1);
      OneMore(s, Run(s, Exchanges(existing, n - 1)), s0, existing, n - 1);
    }
  }

  lemma NoSteps(s: System)
    ensures Run(s, []) == s
  {
  }

  // ----- a batch -----------------------------------------------------------

  /** How many exchanges a file is from its first block to the end of the batch. */
  function Rest(e: Endpoint, existing: Bytes): nat
    requires 256 <= e.cfg.maxblk && |existing| <= |e.source|
  {
    BlocksFrom(e.cfg.maxblk, |e.source| - |existing|, 0) + 2
  }

  /** A is about to send the first block of its file, or has none and ends its batch. */
  predicate Batch(s: System, existing: Bytes) {
    && 256 <= s.a.cfg.maxblk && existing <= s.a.source
    && if s.a.tx.named then Able(s, existing) && Ready(s, s, |existing|) && Calm(s) && Sized(s.a.tx, s.a.cfg.maxblk, 0)
       else s.ab == [] && s.ba == [] && s.a.tx.state == HTX_FINFO && s.a.dev.state == DevDone
            && Resting(s.b) && s.b.rx.state == RxFInfo
  }

  /** A has ended its batch: what A's calls returned, and which files B has closed. */
  predicate EndedWith(s: System, z: System, results: seq<Result>, files: seq<Bytes>) {
    && z.ab == [] && z.ba == []
    && z.a == s.a.(tx := z.a.tx, results := s.a.results + results)
    && z.a.tx.state == (if s.a.rx.state == RxDone then HTX_END else HTX_REND)
    && z.b == s.b.(rx := z.b.rx, tx := Woken(s.b), batches := s.b.batches + 1, closed := s.b.closed + files)
    && z.b.rx.state == RxDone
  }

  /** A has ended its batch, after sending its file if it had one. */
  predicate Ended(s: System, z: System) {
    EndedWith(s, z, if s.a.tx.named then [FileSent] else [], if s.a.tx.named then [s.a.source] else [])
  }

  lemma AbleRests(s: System, existing: Bytes)
    requires Able(s, existing)
    ensures s.a.dev.state == DevDone && Resting(s.b) && existing <= s.a.source
  {
  }

  /** From the first block to the end of the batch. */
  lemma FileToEnd(s: System, existing: Bytes)
    requires Batch(s, existing) && s.a.tx.named
    ensures Ended(s, Run(s, Exchanges(existing, Rest(s.a, existing))))
  {
    hide Run, Exchange, Able, Sized, Calm, BlocksFrom, Answered;
    var n := BlocksFrom(s.a.cfg.maxblk, |s.a.source| - |existing|, 0);
    AllBlocks(s, s, existing);
    var all := Run(s, Exchanges(existing, n));
    EofExchange(all, s, existing);
    RunsNext(s, existing, n);
    var closed := Run(s, Exchanges(existing, n + 1));
    AbleRests(s, existing);
    LastExchange(closed, existing);
    RunsNext(s, existing, n + 1);
  }

  // ----- the whole session -------------------------------------------------

  /** How many exchanges a side needs that begins with its offer, or with the end of the batch. */
  function Needed(cfg: Config, first: FirstCall, existing: Bytes): nat
    requires 256 <= cfg.maxblk && existing <= Source(first)
  {
    if first.SendFile? then 1 + BlocksFrom(cfg.maxblk, |first.source| - |existing|, 0) + 2 else 1
  }

  function Source(first: FirstCall): Bytes {
    if first.SendFile? then first.source else []
  }

  /** At its offer, or at the end of its batch. */
  predicate Offers(s: System, existing: Bytes) {
    && 256 <= s.a.cfg.maxblk && existing <= s.a.source && s.ab == [] && s.ba == []
    && s.a.tx.state == HTX_FINFO && s.a.dev.state == DevDone && Resting(s.b) && s.b.rx.state == RxFInfo
    && s.a.tx.retries == 0
    && (s.a.tx.named ==>
         && Able(s, existing) && s.a.tx.open && s.a.tx.fp == 0 && s.a.tx.syncid == 0
         && Sized(s.a.tx, s.a.cfg.maxblk, 0))
  }

  function CountOf(e: Endpoint, existing: Bytes): nat
    requires 256 <= e.cfg.maxblk && existing <= e.source
  {
    if e.tx.named then 1 + Rest(e, existing) else 1
  }

  /** From the offer to the end of the batch. */
  lemma OfferToEnd(s: System, existing: Bytes)
    requires Offers(s, existing)
    ensures Ended(s, Run(s, Exchanges(existing, CountOf(s.a, existing))))
  {
    hide Run, Exchange, Able, Calm, BlocksFrom, Answered;
    if s.a.tx.named {
      OfferExchange(s, existing);
      var z := Run(s, Exchange(existing));
      StillAble(s, z, existing);
      FileToEnd(z, existing);
      RunsFirst(s, existing, Rest(s.a, existing));
    } else {
      LastExchange(s, existing);
      RunsNext(s, existing, 0);
      NoSteps(s);
    }
  }

  lemma StillAble(s: System, z: System, existing: Bytes)
    requires Able(s, existing) && Ready(z, s, |existing|)
    ensures Able(z, existing) && Ready(z, z, |existing|)
  {
  }

  lemma {:induction false} RunsFirst(s: System, existing: Bytes, n: nat)
    ensures Run(s, Exchanges(existing, 1 + n)) == Run(Run(s, Exchange(existing)), Exchanges(existing, n))
  {
    hide Run, Exchange;
    RunsNext(s, existing, n);
    if n == 0 {
      NoSteps(s);
      NoSteps(Run(s, Exchange(existing)));
    } else {
      RunsFirst(s, existing, n - 1);
      RunsNext(Run(s, Exchange(existing)), existing, n - 1);
    }
  }

  // ----- the last packets --------------------------------------------------

  lemma SendsEnd(x: Endpoint)
    requires x.tx.state == HTX_END && x.dev.state == DevDone
    ensures var f := Frame(End, x.tx.options);
      Transmit(x, QUIET) == Move(x.(tx := x.tx.(state := HTX_ENDACK, timer := true)), [f, f], false)
  {
    assert [] + TransmitTx(x, QUIET).out == TransmitTx(x, QUIET).out;
  }

  lemma HearsEnd(x: Endpoint, env: Env)
    requires (x.tx.state == HTX_END || x.tx.state == HTX_ENDACK) && !env.chatting
    ensures var f := Frame(End, x.tx.options);
      Receive(x, Received(End), env) == Move(Finish(x, SessionDone), [f, f, f], false)
  {
  }

  /** END from each side. */
  lemma EndExchange(s: System)
    requires s.ab == [] && s.ba == [] && s.a.tx.state == HTX_END && s.b.tx.state == HTX_END
    requires s.a.dev.state == DevDone
    ensures var z := Run(s, Exchange([]));
      && z.a.tx.state == HTX_DONE && z.b.tx.state == HTX_DONE
      && z.a.results == s.a.results + [SessionDone] && z.b.results == s.b.results + [SessionDone]
      && z.a.closed == s.a.closed && z.b.closed == s.b.closed
  {
    hide Transmit, Receive, Run;
    var ls := Exchange([]);
    RunOf3(s, ls[0], ls[1], ls[2]);
    SendsEnd(s.a);
    HearsEnd(s.b, Taking([]));
    HearsEnd(Transmit(s.a, QUIET).e, QUIET);
  }

  /** Running the mirrored labels in the mirrored system gives the mirrored result. */
  lemma {:induction false} RunMirrored(s: System, ls: seq<Label>)
    ensures Run(Flip(s), FlipLabels(ls)) == Flip(Run(s, ls))
    decreases |ls|
  {
    hide Step;
    if ls != [] {
      var n := |ls| - 1;
      assert FlipLabels(ls)[..n] == FlipLabels(ls[..n]);
      RunMirrored(s, ls[..n]);
      StepFlips(Run(s, ls[..n]), ls[n]);
    }
  }

  /** The other's acknowledgements come, as far as the limits that the two operators have set and how
      they are read let this be told; or there is less to send than may be sent ahead. */
  predicate Acknowledged(x: Config, y: Config, rest: int) {
    var ahead := Window(Read(y).rxwindow, x.txwindow);
    ahead == 0 || Window(Read(x).txwindow, y.rxwindow) != 0 || rest < ahead
  }

  /** Two operators whose first files, if they have any, open, and what each side has of the other's
      file already. */
  predicate GoodFiles(u: Setup, atB: Bytes, atA: Bytes) {
    && GoodSetup(u) && GoodLimits(u) && !u.firstA.OpenFails? && !u.firstB.OpenFails?
    && atB <= Source(u.firstA) && atA <= Source(u.firstB)
    && (u.firstA.SendFile? ==> Acknowledged(u.cfgA, u.cfgB, |u.firstA.source| - |atB|))
    && (u.firstB.SendFile? ==> Acknowledged(u.cfgB, u.cfgA, |u.firstB.source| - |atA|))
  }

  /** This side may send first: it is not the one that was asked to wait, or has nothing to send. */
  predicate MayStart(cfg: Config, first: FirstCall) {
    cfg.originator || !cfg.hdxsession || first.NoFile?
  }

  const LAST_INITACK := [Label(A, Arrive, QUIET)]

  lemma TakesLastInitAck(e: Endpoint)
    requires e.tx.state == HTX_INITACK && e.rx.state == RxFInfo
    ensures var m := Receive(e, Received(InitAck), QUIET);
      && m.e.tx.state == HTX_FINFO && m.e.rx.state == RxFInfo && m.e.tx.retries == 0 && m.out == []
      && NoFiles(e, m.e)
  {
    hide DevQueue;
  }

  /** Past the handshake, with a first call that is still to be answered. */
  predicate Fresh(e: Endpoint, cfg: Config, first: FirstCall) {
    && e.tx.state == HTX_FINFO && e.rx.state == RxFInfo && e.cfg == cfg && e.source == Source(first)
    && e.tx.named == e.tx.open == first.SendFile? && e.tx.fp == 0 && e.tx.syncid == 0 && e.dev.state == DevDone
    && (256 <= cfg.maxblk ==> Sized(e.tx, cfg.maxblk, 0)) && e.hdxlink == (!cfg.originator && cfg.hdxsession)
    && e.batches == 0 && e.results == [] && e.closed == [] && e.tx.retries == 0
  }

  lemma StartIsFresh(cfg: Config, first: FirstCall, msg: DevMsg, e: Endpoint)
    requires !first.OpenFails? && NoFiles(StartSession(cfg, first, msg), e)
    requires e.tx.state == HTX_FINFO && e.rx.state == RxFInfo && e.tx.retries == 0
    ensures Fresh(e, cfg, first)
  {
  }

  /** The handshake is over on both sides. */
  lemma BothFresh(u: Setup)
    requires GoodSetup(u) && !u.firstA.OpenFails? && !u.firstB.OpenFails?
    ensures var s := Run(Begin(u), HANDSHAKE + LAST_INITACK);
      && Fresh(s.a, u.cfgA, u.firstA) && Fresh(s.b, u.cfgB, u.firstB) && s.ab == [] && s.ba == []
  {
    hide Run, StartSession, NoFiles, Receive, Fresh, In;
    HandshakeRun(u);
    var h := Run(Begin(u), HANDSHAKE);
    RunOn(Begin(u), HANDSHAKE, LAST_INITACK);
    RunsOne(h, LAST_INITACK[0]);
    assert h.a.tx.state == HTX_INITACK && h.a.rx.state == RxFInfo &&
      h.b.tx.state == HTX_FINFO && h.b.rx.state == RxFInfo && h.b.tx.retries == 0 by {
      InStates(h.a, u.cfgA, HTX_INITACK);
      InStates(h.b, u.cfgB, HTX_FINFO);
    }
    TakesLastInitAck(h.a);
    var s := Step(h, LAST_INITACK[0]);
    assert h.ab + [] == h.ab;
    NoFilesTwice(Begin(u).a, h.a, s.a);
    StartIsFresh(u.cfgA, u.firstA, u.msg, s.a);
    StartIsFresh(u.cfgB, u.firstB, u.msg, s.b);
  }

  lemma InStates(e: Endpoint, cfg: Config, state: int)
    requires In(e, cfg, state, RxFInfo)
    ensures e.tx.state == state && e.rx.state == RxFInfo && e.tx.retries == 0
  {
  }

  /** The steps of a whole session: the handshake, A's file, B's file, END. */
  function Whole(u: Setup, atB: Bytes, atA: Bytes): seq<Label>
    requires GoodFiles(u, atB, atA)
  {
    HANDSHAKE + LAST_INITACK + Exchanges(atB, Needed(u.cfgA, u.firstA, atB)) +
    FlipLabels(Exchanges(atA, Needed(u.cfgB, u.firstB, atA))) + Exchange([])
  }

  /** What the call with a file returns when the file gets across. */
  function SentIf(first: FirstCall): seq<Result> {
    if first.SendFile? then [FileSent] else []
  }

  function FilesOf(first: FirstCall): seq<Bytes> {
    if first.SendFile? then [first.source] else []
  }

  /** A side whose session is over, and whose own file has been sent and the peer's received. */
  predicate Completed(e: Endpoint, mine: FirstCall, theirs: FirstCall) {
    e.tx.state == HTX_DONE && e.results == SentIf(mine) + [SessionDone] && e.closed == FilesOf(theirs)
  }

  lemma Windowed(u: Setup, atB: Bytes, atA: Bytes)
    requires GoodFiles(u, atB, atA)
    ensures var s := Run(Begin(u), HANDSHAKE + LAST_INITACK);
      && 0 <= s.a.tx.window && 0 <= s.b.tx.window
      && (u.firstA.SendFile? ==> s.a.tx.window == 0 || s.b.rx.window != 0 || |u.firstA.source| < |atB| + s.a.tx.window)
      && (u.firstB.SendFile? ==> s.b.tx.window == 0 || s.a.rx.window != 0 || |u.firstB.source| < |atA| + s.b.tx.window)
  {
    hide Run, Begin, Read, SameLimit, OneWindow;
    BothFresh(u);
    WindowAgreement(u, HANDSHAKE + LAST_INITACK);
  }

  lemma FirstOffer(u: Setup, atB: Bytes, atA: Bytes)
    requires GoodFiles(u, atB, atA) && MayStart(u.cfgA, u.firstA)
    ensures Offers(Run(Begin(u), HANDSHAKE + LAST_INITACK), atB)
  {
    hide Run, Begin, Acknowledged, Sized;
    BothFresh(u);
    Windowed(u, atB, atA);
  }

  lemma Counts(e: Endpoint, cfg: Config, first: FirstCall, existing: Bytes)
    requires Fresh(e, cfg, first) && 256 <= cfg.maxblk && existing <= Source(first)
    ensures CountOf(e, existing) == Needed(cfg, first, existing)
  {
  }

  /** After A's batch it is B's turn. */
  lemma SecondOffer(u: Setup, atB: Bytes, atA: Bytes, s: System, z: System, results: seq<Result>, files: seq<Bytes>)
    requires GoodFiles(u, atB, atA) && s == Run(Begin(u), HANDSHAKE + LAST_INITACK)
    requires EndedWith(s, z, results, files)
    ensures Offers(Flip(z), atA) && CountOf(z.b, atA) == Needed(u.cfgB, u.firstB, atA)
    ensures z.a.tx.state == HTX_REND && z.a.dev.state == DevDone && z.b.rx.state == RxDone
    ensures z.a.closed == [] && z.b.results == [] && z.a.results == results && z.b.closed == files
    ensures z.b.source == Source(u.firstB) && (z.b.tx.named <==> u.firstB.SendFile?)
  {
    hide Run, Begin, Acknowledged, Sized, BlocksFrom;
    BothFresh(u);
    Windowed(u, atB, atA);
    Counts(s.b, u.cfgB, u.firstB, atA);
  }

  lemma FreshNames(e: Endpoint, cfg: Config, first: FirstCall)
    requires Fresh(e, cfg, first)
    ensures (e.tx.named <==> first.SendFile?) && e.source == Source(first)
  {
  }

  lemma RunMirror(s: System, ls: seq<Label>)
    ensures Run(s, FlipLabels(ls)) == Flip(Run(Flip(s), ls))
  {
    hide Run;
    RunMirrored(Flip(s), ls);
  }

  /** Whatever the two files are and whatever each side has of the other's already: the session gets
      to its end on both sides, with every file sent, received, closed once and complete. */
  lemma SessionCompletes(u: Setup, atB: Bytes, atA: Bytes)
    requires GoodFiles(u, atB, atA) && MayStart(u.cfgA, u.firstA)
    ensures var z := Run(Begin(u), Whole(u, atB, atA));
      Completed(z.a, u.firstA, u.firstB) && Completed(z.b, u.firstB, u.firstA)
  {
    hide Run, Begin, Offers, Acknowledged, MayStart, GoodLimits, Wanted, Exchange, Exchanges, FlipLabels, Needed,
         CountOf, Fresh, BlocksFrom;
    BothFresh(u);
    FirstOffer(u, atB, atA);
    var s := Run(Begin(u), HANDSHAKE + LAST_INITACK);
    FreshNames(s.a, u.cfgA, u.firstA);
    Counts(s.a, u.cfgA, u.firstA, atB);
    var first := Exchanges(atB, Needed(u.cfgA, u.firstA, atB));
    OfferToEnd(s, atB);
    var y := Run(s, first);
    SecondOffer(u, atB, atA, s, y, SentIf(u.firstA), FilesOf(u.firstA));
    var second := Exchanges(atA, Needed(u.cfgB, u.firstB, atA));
    OfferToEnd(Flip(y), atA);
    RunMirror(y, second);
    var x := Run(y, FlipLabels(second));
    EndExchange(x);
    RunOn(Begin(u), HANDSHAKE + LAST_INITACK, first);
    RunOn(Begin(u), HANDSHAKE + LAST_INITACK + first, FlipLabels(second));
    RunOn(Begin(u), HANDSHAKE + LAST_INITACK + first + FlipLabels(second), Exchange([]));
  }
}
