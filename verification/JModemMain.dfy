/** The loops of JModem as they are written: send_blk() with its retries, and the send and
    receive loops of main(). They are proved to take the steps of JModemLink, and what they
    return is characterised by the responses that come back. */
module JModemMain {
  import opened Bits
  import opened JModemLink

  // ----- responses ---------------------------------------------------------

  /** What send_blk() waits for; a zero byte is taken for a time-out. */
  predicate Meaningful(c: Byte) {
    c == ACK || c == CAN || c == NAK || c == 0
  }

  /** The first byte that means something, or zero when the wait times out. */
  function Verdict(back: Bytes): (c: Byte)
    ensures Meaningful(c)
  {
    if back == [] then 0 else if Meaningful(back[0]) then back[0] else Verdict(back[1..])
  }

  /** What comes back for attempt i, or for block i; nothing if the list is too short. */
  function Item<T>(list: seq<seq<T>>, i: nat): seq<T> {
    if i < |list| then list[i] else []
  }

  /** The sender after a wait that ended with the given verdict. */
  function Settle(s: Sender, c: Byte): Sender {
    if c == 0 then s.(phase := Ready) else Answer(s, c)
  }

  /** The sender during a wait. */
  function Begin(s: Sender): Sender
    requires s.tries > 0
  {
    s.(tries := s.tries - 1, phase := Waiting)
  }

  // ----- what the loops compute --------------------------------------------

  /** send_blk(): replies[i] is what comes back after attempt i. */
  function SendBlock(s: Sender, replies: seq<Bytes>): Sender
    requires s.phase == Ready
    decreases s.tries
  {
    if s.tries == 0 then s.(phase := SendAborted)
    else
      var t := Settle(Begin(s), Verdict(Item(replies, 0)));
      if t.phase == Ready then SendBlock(t, if replies == [] then [] else replies[1..]) else t
  }

  /** Attempt i is the first that does not end in a retry. */
  predicate DecidedAt(replies: seq<Bytes>, tries: nat, i: nat) {
    i < tries && Verdict(Item(replies, i)) in {ACK, CAN} &&
    forall j: nat :: j < i ==> Verdict(Item(replies, j)) in {NAK, 0}
  }

  /** Attempt i is acknowledged, and every earlier one ends in a retry. */
  predicate AckedAt(replies: seq<Bytes>, tries: nat, i: nat) {
    DecidedAt(replies, tries, i) && Verdict(Item(replies, i)) == ACK
  }

  /** Some attempt is acknowledged before a CAN comes and before the tries run out. */
  ghost predicate Acked(replies: seq<Bytes>, tries: nat) {
    exists i: nat :: AckedAt(replies, tries, i)
  }

  /** send_blk() returns with success exactly if some attempt is acknowledged before a CAN comes
      and before the tries run out; then the block length is adapted to the number of attempts. */
  lemma {:induction false} SendBlockExactly(s: Sender, replies: seq<Bytes>)
    requires s.phase == Ready
    ensures var t := SendBlock(s, replies);
      && t == s.(slen := t.slen, phase := t.phase, tries := t.tries)
      && t.phase in {Reading, SentOk, SendAborted}
      && (Settled(t) <==> Acked(replies, s.tries))
      && (forall i: nat :: AckedAt(replies, s.tries, i) ==>
           t.slen == Adapt(s.slen, s.tries - 1 - i) && t.phase == if s.last then SentOk else Reading)
      && (!Settled(t) ==> t.slen == s.slen)
    decreases s.tries
  {
    hide Verdict, Adapt, AckedAt, Acked;
    if s.tries == 0 {
      NoAttempt(replies);
    } else {
      var rest := if replies == [] then [] else replies[1..];
      var t := Settle(Begin(s), Verdict(Item(replies, 0)));
      if t.phase == Ready {
        SendBlockExactly(t, rest);
        LaterAttempts(replies, rest, s.tries);
      } else {
        FirstAttempt(replies, s.tries);
      }
    }
  }

  lemma AckedMeans(replies: seq<Bytes>, tries: nat, i: nat)
    requires AckedAt(replies, tries, i)
    ensures i < tries && Verdict(Item(replies, i)) == ACK
    ensures i > 0 ==> Verdict(Item(replies, 0)) in {NAK, 0}
  {
    hide Verdict;
  }

  lemma NoAttempt(replies: seq<Bytes>)
    ensures !Acked(replies, 0)
    ensures forall i: nat :: !AckedAt(replies, 0, i)
  {
    hide Verdict;
  }

  lemma FirstAttempt(replies: seq<Bytes>, tries: nat)
    requires tries > 0 && Verdict(Item(replies, 0)) in {ACK, CAN}
    ensures Acked(replies, tries) <==> Verdict(Item(replies, 0)) == ACK
    ensures forall i: nat :: AckedAt(replies, tries, i) ==> i == 0 && Verdict(Item(replies, 0)) == ACK
  {
    hide Verdict;
    forall i: nat | AckedAt(replies, tries, i) ensures i == 0 && Verdict(Item(replies, 0)) == ACK {
      AckedMeans(replies, tries, i);
    }
    if Verdict(Item(replies, 0)) == ACK {
      assert AckedAt(replies, tries, 0);
    }
  }

  lemma LaterAttempts(replies: seq<Bytes>, rest: seq<Bytes>, tries: nat)
    requires tries > 0 && rest == (if replies == [] then [] else replies[1..])
    requires Verdict(Item(replies, 0)) in {NAK, 0}
    ensures Acked(replies, tries) <==> Acked(rest, tries - 1)
    ensures forall i: nat :: AckedAt(replies, tries, i) ==> 0 < i < tries && AckedAt(rest, tries - 1, i - 1)
  {
    hide Verdict, AckedAt;
    forall i: nat {:trigger AckedAt(replies, tries, i)} | AckedAt(replies, tries, i)
      ensures 0 < i < tries && AckedAt(rest, tries - 1, i - 1)
    {
      AckedLater(replies, rest, tries, i);
      AckedMeans(replies, tries, i);
    }
    if Acked(rest, tries - 1) {
      var i: nat :| AckedAt(rest, tries - 1, i);
      AckedEarlier(replies, rest, tries, i);
    }
  }

  lemma AckedLater(replies: seq<Bytes>, rest: seq<Bytes>, tries: nat, i: nat)
    requires tries > 0 && rest == (if replies == [] then [] else replies[1..])
    requires Verdict(Item(replies, 0)) in {NAK, 0} && AckedAt(replies, tries, i)
    ensures i > 0 && AckedAt(rest, tries - 1, i - 1)
  {
    hide Verdict;
    AckedMeans(replies, tries, i);
    forall j: nat | j < i - 1 ensures Verdict(Item(rest, j)) in {NAK, 0} {
      assert Item(rest, j) == Item(replies, j + 1);
    }
  }

  lemma AckedEarlier(replies: seq<Bytes>, rest: seq<Bytes>, tries: nat, i: nat)
    requires tries > 0 && rest == (if replies == [] then [] else replies[1..])
    requires Verdict(Item(replies, 0)) in {NAK, 0} && AckedAt(rest, tries - 1, i)
    ensures AckedAt(replies, tries, i + 1)
  {
    hide Verdict;
    forall j: nat | j < i + 1 ensures Verdict(Item(replies, j)) in {NAK, 0} {
      assert j > 0 ==> Item(replies, j) == Item(rest, j - 1);
    }
  }

  /** The send loop of main(); replies[j] is what comes back for block j. */
  function SendFile(s: Sender, replies: seq<seq<Bytes>>): Sender
    requires s.phase == Reading && s.pos <= |s.file| && 0x40 <= s.slen <= DAT_MAX
    decreases |s.file| - s.pos
  {
    var t := ReadBlock(s);
    if t.phase == SentOk then t
    else
      var u := SendBlock(t, Item(replies, 0));
      SendBlockLength(t, Item(replies, 0));
      if u.phase == Reading then SendFile(u, if replies == [] then [] else replies[1..]) else u
  }

  lemma SendBlockLength(s: Sender, replies: seq<Bytes>)
    requires s.phase == Ready && 0x40 <= s.slen <= DAT_MAX
    ensures var t := SendBlock(s, replies);
      0x40 <= t.slen <= DAT_MAX && t.pos == s.pos && t.file == s.file && t.phase != Ready && t.phase != Waiting
  {
    hide SendBlock, AckedAt;
    SendBlockExactly(s, replies);
    if i: nat :| AckedAt(replies, s.tries, i) {
      AckedMeans(replies, s.tries, i);
      assert SendBlock(s, replies).slen == Adapt(s.slen, s.tries - 1 - i);
    }
  }

  /** Block j is acknowledged within the ten attempts. */
  ghost predicate BlockAcked(replies: seq<seq<Bytes>>, j: nat) {
    Acked(Item(replies, j), TRIES)
  }

  /** The send loop always ends. It ends without error exactly if every block that it reads is
      acknowledged, and then the blocks are the whole file; otherwise the last block read is the
      first that is not acknowledged. */
  lemma {:induction false} SendFileExactly(s: Sender, replies: seq<seq<Bytes>>)
    requires s.phase == Reading && SenderOk(s)
    ensures var t := SendFile(s, replies); var n := t.m - s.m;
      && n >= 0 && SenderOk(t)
      && (t.phase == SentOk || (t.phase == SendAborted && n > 0))
      && (t.phase == SentOk <==> AllAcked(replies, n))
      && (t.phase == SentOk ==> Concat(t.blocks) == s.file)
      && (t.phase == SendAborted ==> AllAcked(replies, n - 1) && !BlockAcked(replies, n - 1))
    decreases |s.file| - s.pos
  {
    hide Concat, BlockAcked, SendBlock, SenderOk;
    MayRead(s);
    var t := ReadBlock(s);
    ReadBlockOk(s);
    ReadOn(s);
    if t.phase == SentOk {
      WholeFile(t);
    } else {
      var u := SendBlock(t, Item(replies, 0));
      FirstBlock(t, replies);
      var rest := if replies == [] then [] else replies[1..];
      if u.phase == Reading {
        SendFileExactly(u, rest);
        MayRead(u);
        FromSecond(replies, rest, SendFile(u, rest).m - u.m);
      } else if u.phase == SentOk {
        WholeFile(u);
      }
    }
  }

  lemma MayRead(s: Sender)
    requires SenderOk(s)
    ensures s.pos <= |s.file| && 0x40 <= s.slen <= DAT_MAX
  {
    hide Concat;
  }

  lemma ReadOn(s: Sender)
    requires s.phase == Reading && SenderOk(s)
    ensures var t := ReadBlock(s);
      if t.phase == SentOk then t.m == s.m else t.phase == Ready && t.tries == TRIES && t.m == s.m + 1 && t.pos > s.pos
  {
    hide Concat;
  }

  lemma WholeFile(t: Sender)
    requires SenderOk(t) && t.phase == SentOk
    ensures Concat(t.blocks) == t.file
  {
    hide Concat;
    assert t.file[..t.pos] == t.file;
  }

  ghost predicate AllAcked(replies: seq<seq<Bytes>>, n: int) {
    forall j: nat :: j < n ==> BlockAcked(replies, j)
  }

  /** The replies to the blocks after the first one. */
  lemma FromSecond(replies: seq<seq<Bytes>>, rest: seq<seq<Bytes>>, n: int)
    requires rest == if replies == [] then [] else replies[1..]
    requires BlockAcked(replies, 0)
    ensures AllAcked(replies, n + 1) <==> AllAcked(rest, n)
    ensures AllAcked(replies, n) <==> AllAcked(rest, n - 1)
    ensures n > 0 ==> (BlockAcked(replies, n) <==> BlockAcked(rest, n - 1))
  {
    hide BlockAcked;
    forall j: nat ensures BlockAcked(replies, j + 1) <==> BlockAcked(rest, j) {
      NextBlocks(replies, rest, j);
    }
    forall j: nat | j > 0 ensures BlockAcked(replies, j) <==> BlockAcked(rest, j - 1) {
      assert BlockAcked(replies, (j - 1) + 1) <==> BlockAcked(rest, j - 1);
    }
  }

  lemma FirstBlock(t: Sender, replies: seq<seq<Bytes>>)
    requires t.phase == Ready && t.tries == TRIES && SenderOk(t)
    ensures var u := SendBlock(t, Item(replies, 0));
      && SenderOk(u) && u.m == t.m && u.pos == t.pos && u.file == t.file && u.blocks == t.blocks
      && (Settled(u) <==> BlockAcked(replies, 0))
      && u.phase in {Reading, SentOk, SendAborted} && (u.phase == SentOk ==> u.last)
  {
    hide SendBlock, AckedAt, Concat;
    SendBlockExactly(t, Item(replies, 0));
    SendBlockLength(t, Item(replies, 0));
  }

  lemma NextBlocks(replies: seq<seq<Bytes>>, rest: seq<seq<Bytes>>, j: nat)
    requires rest == if replies == [] then [] else replies[1..]
    ensures BlockAcked(replies, j + 1) <==> BlockAcked(rest, j)
  {
    assert Item(replies, j + 1) == Item(rest, j);
  }

  // ----- the loops are runs of the link ------------------------------------

  lemma {:induction false} RunConcat(y: System, a: seq<Action>, b: seq<Action>)
    ensures Run(y, a + b) == Run(Run(y, a), b)
    decreases |b|
  {
    hide Step;
    if b == [] {
      assert a + b == a;
    } else {
      var n := |b| - 1;
      assert (a + b)[..|a + b| - 1] == a + b[..n];
      RunConcat(y, a, b[..n]);
    }
  }

  lemma RunOne(y: System, a: Action)
    ensures Run(y, [a]) == Step(y, a) && Run(y, []) == y
  {
    hide Step;
    assert [a][..0] == [];
    assert Run(y, [a][..0]) == y;
  }

  lemma RunFirst(y: System, a: Action, rest: seq<Action>)
    ensures Run(y, [a] + rest) == Run(Step(y, a), rest)
  {
    RunConcat(y, [a], rest);
    RunOne(y, a);
  }

  /** How many bytes of a reply are read. */
  function Heard(back: Bytes): (n: nat)
    ensures n <= |back|
  {
    if back == [] then 0 else if Meaningful(back[0]) then 1 else 1 + Heard(back[1..])
  }

  /** The steps of the link during one wait. */
  function WaitActions(back: Bytes): seq<Action> {
    if back == [] then [NoResponse]
    else if Meaningful(back[0]) then [Response] else [Response] + WaitActions(back[1..])
  }

  /** The wait for a response, with its bytes at the head of the back line, is a run. */
  lemma {:induction false} WaitIsRun(y: System, reply: Bytes, later: Bytes)
    requires y.s.phase == Waiting && y.back == reply + later
    ensures Run(y, WaitActions(reply)) == y.(s := Settle(y.s, Verdict(reply)), back := reply[Heard(reply)..] + later)
    decreases |reply|
  {
    hide Run;
    if reply == [] {
      RunOne(y, NoResponse);
      assert reply[0..] + later == y.back;
    } else {
      assert y.back[0] == reply[0] && y.back[1..] == reply[1..] + later;
      if Meaningful(reply[0]) {
        RunOne(y, Response);
      } else {
        var z := Step(y, Response);
        RunFirst(y, Response, WaitActions(reply[1..]));
        WaitIsRun(z, reply[1..], later);
        assert reply[1..][Heard(reply[1..])..] == reply[Heard(reply)..];
      }
    }
  }

  /** All the bytes that come back, one attempt after the other. */
  function Flat(replies: seq<Bytes>): Bytes {
    if replies == [] then [] else replies[0] + Flat(replies[1..])
  }

  /** The steps of the link during send_blk(). What was left unread of the attempt before is flushed
      when the block is sent. */
  function BlockActions(s: Sender, replies: seq<Bytes>, unread: nat): seq<Action>
    requires s.phase == Ready
    decreases s.tries
  {
    if s.tries == 0 then [SenderTurn(0)]
    else
      var reply := Item(replies, 0);
      var t := Settle(Begin(s), Verdict(reply));
      [SenderTurn(unread)] + WaitActions(reply) +
      if t.phase == Ready then
        BlockActions(t, if replies == [] then [] else replies[1..], |reply| - Heard(reply))
      else []
  }

  /** send_blk() is a run of the link on any system whose back line holds the replies: it leaves the
      sender as computed, and puts nothing but copies of the block, or what shows that it gives up,
      on the forward line. The receiver is as it was. */
  lemma {:induction false} SendBlockIsRun(y: System, stale: Bytes, replies: seq<Bytes>)
    requires y.s.phase == Ready && y.s.pos <= |y.s.file| && y.back == stale + Flat(replies)
    ensures var z := Run(y, BlockActions(y.s, replies, |stale|));
      && z.s == SendBlock(y.s, replies) && z.r == y.r && |z.back| <= |y.back|
      && y.forward <= z.forward
      && (forall i :: |y.forward| <= i < |z.forward| ==>
           z.forward[i] == Block(y.s.m % 256, y.s.cur, y.s.last) || z.forward[i] == Garbage(false))
    decreases y.s.tries
  {
    hide Run, Heard, Verdict, WaitActions, Settle, SendStep;
    var reply := Item(replies, 0);
    var rest := if replies == [] then [] else replies[1..];
    if y.s.tries == 0 {
      RunOne(y, SenderTurn(0));
      LastTurn(y);
    } else {
      var later := Flat(rest);
      var x := Attempted(y, stale, reply, later);
      WaitIsRun(x, reply, later);
      var z := Run(x, WaitActions(reply));
      RunFirst(y, SenderTurn(|stale|), WaitActions(reply));
      Settles(x.s, Verdict(reply));
      if z.s.phase == Ready {
        SendBlockIsRun(z, reply[Heard(reply)..], rest);
        RunConcat(y, [SenderTurn(|stale|)] + WaitActions(reply), BlockActions(z.s, rest, |reply| - Heard(reply)));
      } else {
        assert [SenderTurn(|stale|)] + WaitActions(reply) + [] == [SenderTurn(|stale|)] + WaitActions(reply);
      }
    }
  }

  lemma LastTurn(y: System)
    requires y.s.phase == Ready && y.s.pos <= |y.s.file| && y.s.tries == 0
    ensures Step(y, SenderTurn(0)) ==
      y.(s := y.s.(phase := SendAborted), forward := y.forward + [Garbage(false)])
  {
  }

  /** An attempt: the block is on the forward line, and only what answers it on the back line. */
  lemma Attempted(y: System, stale: Bytes, reply: Bytes, later: Bytes) returns (x: System)
    requires y.s.phase == Ready && y.s.pos <= |y.s.file| && y.s.tries > 0
    requires y.back == stale + (reply + later)
    ensures x == Step(y, SenderTurn(|stale|))
    ensures x == y.(s := Begin(y.s), back := reply + later,
                    forward := y.forward + [Block(y.s.m % 256, y.s.cur, y.s.last)])
  {
    x := Step(y, SenderTurn(|stale|));
    assert y.back[|stale|..] == reply + later;
  }

  lemma Settles(s: Sender, c: Byte)
    requires s.phase == Waiting && Meaningful(c)
    ensures var t := Settle(s, c);
      && t.pos == s.pos && t.file == s.file && t.m == s.m && t.cur == s.cur && t.last == s.last && t.tries == s.tries
      && t.phase != Waiting
  {
  }

  // ----- the sender's code -------------------------------------------------

  class Transmitter {
    const file: Bytes
    var pos: nat
    var slen: nat
    var m: nat
    var cur: Bytes
    var last: bool
    var tries: nat
    var phase: SendPhase
    ghost var blocks: seq<Bytes>

    ghost function Snapshot(): Sender
      reads this
    {
      Sender(file, pos, slen, m, cur, last, tries, phase, blocks)
    }

    constructor (file: Bytes)
      ensures Snapshot() == Start(file).s
    {
      this.file := file;
      pos, slen, m, cur, last, tries, phase, blocks := 0, BLK_SIZ, 0, [], false, 0, Reading, [];
    }

    /** file_io(READ, ...) and the setting of the block type. */
    method Read()
      requires pos <= |file|
      modifies this
      ensures Snapshot() == ReadBlock(old(Snapshot()))
    {
      var dataRead := if pos + slen <= |file| then slen else |file| - pos;
      if dataRead == 0 {
        phase := SentOk;
        return;
      }
      cur := file[pos..pos + dataRead];
      pos := pos + dataRead;
      m := m + 1;
      last := dataRead != slen;
      blocks := blocks + [cur];
      tries, phase := TRIES, Ready;
    }

    /** The inner loop of send_blk(): skip what is not a response. */
    static method Response(back: Bytes) returns (ack: Byte)
      ensures ack == Verdict(back)
    {
      var i := 0;
      assert back[0..] == back;
      while i < |back|
        invariant 0 <= i <= |back| && Verdict(back) == Verdict(back[i..])
      {
        assert back[i..][0] == back[i] && back[i..][1..] == back[i + 1..];
        ack := back[i];
        if ack == ACK || ack == CAN || ack == NAK || ack == 0 {
          return;
        }
        i := i + 1;
      }
      ack := 0;
    }

    /** What send_blk() does with the response. */
    method Heed(ack: Byte)
      requires phase == Waiting && Meaningful(ack)
      modifies this
      ensures Snapshot() == Settle(old(Snapshot()), ack)
    {
      if ack == CAN {
        phase := SendAborted;
        return;
      }
      if ack == ACK {
        if tries == TRIES - 1 {
          slen := slen + 512;
          if slen > DAT_MAX {
            slen := DAT_MAX;
          }
        } else {
          slen := slen / 2;
          if slen < 0x40 {
            slen := 0x40;
          }
        }
        phase := if last then SentOk else Reading;
        return;
      }
      phase := Ready;
    }

    /** send_blk(): up to ten attempts. */
    method SendBlk(replies: seq<Bytes>)
      requires phase == Ready
      modifies this
      ensures Snapshot() == SendBlock(old(Snapshot()), replies)
    {
      hide Verdict;
      var i := 0;
      assert replies[0..] == replies;
      while phase == Ready && tries > 0
        invariant i <= |replies|
        invariant phase == Ready ==> SendBlock(Snapshot(), replies[i..]) == SendBlock(old(Snapshot()), replies)
        invariant phase != Ready ==> Snapshot() == SendBlock(old(Snapshot()), replies)
        decreases tries
      {
        var reply: Bytes := if i < |replies| then replies[i] else [];
        assert Item(replies[i..], 0) == reply;
        assert replies[i..] != [] ==> replies[i..][1..] == replies[i + 1..];
        tries, phase := tries - 1, Waiting;
        var ack := Response(reply);
        Heed(ack);
        i := if i < |replies| then i + 1 else i;
      }
      if phase == Ready {
        phase := SendAborted;
      }
    }

    /** The send loop of main(). */
    method SendAll(replies: seq<seq<Bytes>>)
      requires phase == Reading && pos <= |file| && 0x40 <= slen <= DAT_MAX
      modifies this
      ensures Snapshot() == SendFile(old(Snapshot()), replies)
    {
      hide SendBlock;
      var j := 0;
      assert replies[0..] == replies;
      while phase == Reading
        invariant j <= |replies| && (phase == Reading ==> pos <= |file| && 0x40 <= slen <= DAT_MAX)
        invariant phase == Reading ==> SendFile(Snapshot(), replies[j..]) == SendFile(old(Snapshot()), replies)
        invariant phase != Reading ==> Snapshot() == SendFile(old(Snapshot()), replies)
        decreases phase == Reading, |file| - pos
      {
        var reply: seq<Bytes> := if j < |replies| then replies[j] else [];
        assert Item(replies[j..], 0) == reply;
        assert replies[j..] != [] ==> replies[j..][1..] == replies[j + 1..];
        Read();
        if phase == Ready {
          SendBlockLength(Snapshot(), reply);
          SendBlk(reply);
        }
        j := if j < |replies| then j + 1 else j;
      }
    }
  }

  // ----- the receiver ------------------------------------------------------

  /** What recv_blk() comes back with: a frame, or nothing in time. */
  datatype Input = Arrived(f: Frame, write: Write) | TimedOut

  /** One turn of the receive loop, and what is sent back. */
  function Turn(r: Receiver, input: Input): (Receiver, Bytes)
    requires r.phase == Receiving
  {
    match input
    case Arrived(f, write) =>
      if Due(r, f) then (Take(r, f.data, f.last, write), [ACK])
      else if f.Garbage? && f.oversize then (r.(phase := FileDeleted), CANS)
      else (NextTry(r), [NAK])
    case TimedOut =>
      if r.readTries == 0 then (r.(phase := FileDeleted), [NAK] + CANS)
      else (r.(readTries := r.readTries - 1), [NAK])
  }

  function Turns(r: Receiver, inputs: seq<Input>): (Receiver, Bytes)
    decreases |inputs|
  {
    if r.phase != Receiving || inputs == [] then (r, [])
    else
      var (next, out) := Turn(r, inputs[0]);
      var (end, rest) := Turns(next, inputs[1..]);
      (end, out + rest)
  }

  function InputAction(input: Input): Action {
    match input
    case Arrived(_, write) => Receive(write)
    case TimedOut => NoBlock(0)
  }

  /** The steps of the link during the receive loop, until it is left. */
  function TurnActions(r: Receiver, inputs: seq<Input>): seq<Action>
    decreases |inputs|
  {
    if r.phase != Receiving || inputs == [] then []
    else [InputAction(inputs[0])] + TurnActions(Turn(r, inputs[0]).0, inputs[1..])
  }

  /** The frames that arrive. */
  function Frames(inputs: seq<Input>): seq<Frame> {
    if inputs == [] then []
    else (if inputs[0].Arrived? then [inputs[0].f] else []) + Frames(inputs[1..])
  }

  /** A turn is the receiver's part of a step of the link. */
  lemma TurnIsStep(y: System, input: Input)
    requires y.r.phase == Receiving && (input.Arrived? ==> y.forward != [] && y.forward[0] == input.f)
    ensures Step(y, InputAction(input)) ==
      y.(r := Turn(y.r, input).0, back := y.back + Turn(y.r, input).1,
         forward := if input.Arrived? then y.forward[1..] else y.forward)
  {
    assert y.forward[0..] == y.forward;
    assert y.back + [NAK] + CANS == y.back + ([NAK] + CANS);
  }

  /** The receive loop is a run of the link on any system whose forward line holds the frames that
      arrive. The sender is as it was. */
  lemma {:induction false} TurnsIsRun(y: System, inputs: seq<Input>)
    requires Frames(inputs) <= y.forward
    ensures var z := Run(y, TurnActions(y.r, inputs));
      z.r == Turns(y.r, inputs).0 && z.back == y.back + Turns(y.r, inputs).1 && z.s == y.s
    decreases |inputs|
  {
    hide Run, Turn, Step;
    if y.r.phase != Receiving || inputs == [] {
      RunOne(y, NoResponse);
      assert y.back + [] == y.back;
    } else {
      var first := inputs[0];
      assert first.Arrived? ==> y.forward[0] == first.f;
      TurnIsStep(y, first);
      var x := Step(y, InputAction(first));
      assert Frames(inputs[1..]) <= x.forward;
      TurnsIsRun(x, inputs[1..]);
      RunFirst(y, InputAction(first), TurnActions(x.r, inputs[1..]));
      assert y.back + Turn(y.r, first).1 + Turns(x.r, inputs[1..]).1 == y.back + Turns(y.r, inputs).1;
    }
  }

  class Station {
    var blk: nat
    var data: Bytes
    ghost var lost: nat
    var tries: nat
    var readTries: nat
    var phase: ReceivePhase

    ghost function Snapshot(): Receiver
      reads this
    {
      Receiver(blk, data, lost, tries, readTries, phase)
    }

    constructor ()
      ensures Snapshot() == Start([]).r
    {
      blk, data, lost, tries, readTries, phase := 0, [], 0, TRIES - 1, TRIES - 1, Receiving;
    }

    /** The body of the receive loop, with the part of recv_blk() that handles a time-out. */
    method ReceiveOne(input: Input) returns (out: Bytes)
      requires phase == Receiving
      modifies this
      ensures Snapshot() == Turn(old(Snapshot()), input).0 && out == Turn(old(Snapshot()), input).1
    {
      if input.TimedOut? {
        out := [NAK];
        if readTries == 0 {
          out := out + CANS;
          phase := FileDeleted;
        } else {
          readTries := readTries - 1;
        }
      } else if input.f.Block? && input.f.num == (blk + 1) % 256 {
        out := [ACK];
        tries, readTries := TRIES - 1, TRIES - 1;
        var written := Stored(input.write, input.f.data);
        data := data + written;
        lost := lost + |input.f.data| - |written|;
        blk := blk + 1;
        if input.f.last {
          phase := FileClosed;
        } else if input.write.Wrote? && written == [] {
          phase := FileDeleted;
        }
      } else if input.f.Garbage? && input.f.oversize {
        out := CANS;
        phase := FileDeleted;
      } else {
        out := [NAK];
        if tries == 0 {
          phase := FileDeleted;
        } else {
          tries, readTries := tries - 1, TRIES - 1;
        }
      }
    }

    /** The receive loop of main(), until it is left or no more input comes. */
    method ReceiveAll(inputs: seq<Input>) returns (out: Bytes)
      modifies this
      ensures Snapshot() == Turns(old(Snapshot()), inputs).0 && out == Turns(old(Snapshot()), inputs).1
    {
      hide Turn;
      out := [];
      var i := 0;
      assert inputs[0..] == inputs;
      while phase == Receiving && i < |inputs|
        invariant 0 <= i <= |inputs|
        invariant Turns(old(Snapshot()), inputs).0 == Turns(Snapshot(), inputs[i..]).0
        invariant Turns(old(Snapshot()), inputs).1 == out + Turns(Snapshot(), inputs[i..]).1
        decreases |inputs| - i
      {
        assert inputs[i..][0] == inputs[i] && inputs[i..][1..] == inputs[i + 1..];
        ghost var before, now := out, Snapshot();
        var reply := ReceiveOne(inputs[i]);
        out := out + reply;
        i := i + 1;
        assert before + (reply + Turns(Snapshot(), inputs[i..]).1) == out + Turns(Snapshot(), inputs[i..]).1;
      }
    }
  }
}
