/** JModem's stop-and-wait link after synchronisation: one sender, one receiver, and two lines
    that keep what they carry in order but may lose any of it. Blocks carry their number modulo
    256; acknowledgements carry none. */
module JModemLink {
  import opened Bits

  const ACK: Byte := 0x06
  const NAK: Byte := 0x15
  const CAN: Byte := 0x18
  /** What is sent when a side gives up. */
  const CANS: Bytes := [CAN, CAN, CAN, CAN, CAN, CAN]
  const BLK_SIZ := 0x200
  const DAT_MAX := 0x2000
  const TRIES := 10

  /** What recv_blk() finds: a block whose checksum is right, or something else, possibly with a
      length field that is out of line. */
  datatype Frame = Block(num: Byte, data: Bytes, last: bool) | Garbage(oversize: bool)

  /** Reading: about to read the next block. Ready: at the top of the loop of send_blk().
      Waiting: for a response. SentOk and SendAborted: the session is over. */
  datatype SendPhase = Reading | Ready | Waiting | SentOk | SendAborted

  /** The sender: its file and read position, block length, number and contents of the current
      block, tries left, and the blocks read so far. */
  datatype Sender = Sender(
    file: Bytes, pos: nat, slen: nat, m: nat, cur: Bytes, last: bool, tries: nat, phase: SendPhase, blocks: seq<Bytes>)

  datatype ReceivePhase = Receiving | FileClosed | FileDeleted

  /** The receiver: blocks taken, its file, how many bytes a failed write has lost, tries left in
      the main loop and in recv_blk(). */
  datatype Receiver = Receiver(r: nat, data: Bytes, lost: nat, tries: nat, readTries: nat, phase: ReceivePhase)

  datatype System = System(s: Sender, r: Receiver, forward: seq<Frame>, back: Bytes)

  /** What write() does: it returns the count of the bytes that went to the disk, which is less
      than asked for when the disk fills up, or an error that the caller takes for a large count. */
  datatype Write = Wrote(count: nat) | WriteError

  /** How much of the data is in the file after the call. */
  function Stored(write: Write, data: Bytes): Bytes {
    if write.WriteError? then [] else if write.count < |data| then data[..write.count] else data
  }

  datatype Action =
    | SenderTurn(flushed: nat)            // read a block or send it, and drop what has come back
    | Response                            // the next byte on the back line
    | NoResponse                          // the wait for a response times out
    | SenderAbort                         // the user breaks off, and the other side is told
    | Receive(write: Write)               // the next frame on the forward line
    | NoBlock(flushed: nat)               // too few bytes in time
    | ReceiverAbort
    | LoseForward(i: nat)
    | LoseBack(i: nat)
    | Corrupt(i: nat, oversize: bool)     // a frame is damaged, which the checksum shows
    | Noise(i: nat, c: Byte)              // a byte that is not ACK appears on the back line

  // ----- the sender --------------------------------------------------------

  function Start(file: Bytes): System {
    System(Sender(file, 0, BLK_SIZ, 0, [], false, 0, Reading, []),
           Receiver(0, [], 0, TRIES - 1, TRIES - 1, Receiving), [], [])
  }

  /** The loop of main() for sending: a short read marks the last block; when nothing is left to
      read the loop ends without a block. */
  function ReadBlock(s: Sender): Sender
    requires s.pos <= |s.file|
  {
    var n := if s.pos + s.slen <= |s.file| then s.slen else |s.file| - s.pos;
    if n == 0 then s.(phase := SentOk)
    else
      var block := s.file[s.pos..s.pos + n];
      s.(pos := s.pos + n, m := s.m + 1, cur := block, last := n != s.slen, tries := TRIES, phase := Ready,
         blocks := s.blocks + [block])
  }

  /** The block length after an acknowledgement. */
  function Adapt(slen: nat, tries: nat): nat {
    if tries == TRIES - 1 then if slen + 512 > DAT_MAX then DAT_MAX else slen + 512
    else if slen / 2 < 0x40 then 0x40 else slen / 2
  }

  /** A response: ACK ends send_blk(), CAN aborts, NAK means another try, and anything else is
      skipped; a zero byte is taken for a time-out. */
  function Answer(s: Sender, c: Byte): Sender {
    if c == ACK then s.(slen := Adapt(s.slen, s.tries), phase := if s.last then SentOk else Reading)
    else if c == CAN then s.(phase := SendAborted)
    else if c == NAK || c == 0 then s.(phase := Ready)
    else s
  }

  // ----- the receiver ------------------------------------------------------

  /** The top of the main loop after a block that was not taken. */
  function NextTry(r: Receiver): Receiver {
    if r.tries == 0 then r.(phase := FileDeleted) else r.(tries := r.tries - 1, readTries := TRIES - 1)
  }

  /** A good block with the number that is due: acknowledge, write, count, and close the file
      after the last block. Only a count of zero ends the loop. */
  function Take(r: Receiver, data: Bytes, last: bool, write: Write): Receiver {
    var taken := r.(r := r.r + 1, tries := TRIES - 1, readTries := TRIES - 1,
                    data := r.data + Stored(write, data), lost := r.lost + |data| - |Stored(write, data)|);
    if last then taken.(phase := FileClosed)
    else if write.Wrote? && Stored(write, data) == [] then taken.(phase := FileDeleted)
    else taken
  }

  predicate Due(r: Receiver, f: Frame) {
    f.Block? && f.num == (r.r + 1) % 256
  }

  // ----- steps -------------------------------------------------------------

  function Without<T>(s: seq<T>, i: nat): seq<T>
    requires i < |s|
  {
    s[..i] + s[i + 1..]
  }

  predicate Possible(y: System, a: Action) {
    match a
    case SenderTurn(k) => (y.s.phase == Reading || y.s.phase == Ready) && k <= |y.back| && y.s.pos <= |y.s.file|
    case Response => y.s.phase == Waiting && y.back != []
    case NoResponse => y.s.phase == Waiting
    case SenderAbort => y.s.phase != SentOk
    case Receive(_) => y.r.phase == Receiving && y.forward != []
    case NoBlock(k) => y.r.phase == Receiving && k <= |y.forward|
    case ReceiverAbort => y.r.phase == Receiving
    case LoseForward(i) => i < |y.forward|
    case LoseBack(i) => i < |y.back|
    case Corrupt(i, _) => i < |y.forward|
    case Noise(i, c) => i <= |y.back| && c != ACK
  }

  function SendStep(y: System, k: nat): System
    requires Possible(y, SenderTurn(k))
  {
    if y.s.phase == Reading then y.(s := ReadBlock(y.s))
    else if y.s.tries == 0 then y.(s := y.s.(phase := SendAborted), forward := y.forward + [Garbage(false)])
    else
      y.(s := y.s.(tries := y.s.tries - 1, phase := Waiting),
         forward := y.forward + [Block(y.s.m % 256, y.s.cur, y.s.last)], back := y.back[k..])
  }

  function ReceiveStep(y: System, write: Write): System
    requires Possible(y, Receive(write))
  {
    var f, rest := y.forward[0], y.forward[1..];
    if Due(y.r, f) then y.(r := Take(y.r, f.data, f.last, write), forward := rest, back := y.back + [ACK])
    else if f.Garbage? && f.oversize then y.(r := y.r.(phase := FileDeleted), forward := rest, back := y.back + CANS)
    else y.(r := NextTry(y.r), forward := rest, back := y.back + [NAK])
  }

  function NoBlockStep(y: System, k: nat): System
    requires Possible(y, NoBlock(k))
  {
    var waiting := y.(forward := y.forward[k..], back := y.back + [NAK]);
    if y.r.readTries == 0 then waiting.(r := y.r.(phase := FileDeleted), back := waiting.back + CANS)
    else waiting.(r := y.r.(readTries := y.r.readTries - 1))
  }

  function Step(y: System, a: Action): System {
    if !Possible(y, a) then y
    else match a
      case SenderTurn(k) => SendStep(y, k)
      case Response => y.(s := Answer(y.s, y.back[0]), back := y.back[1..])
      case NoResponse => y.(s := y.s.(phase := Ready))
      case SenderAbort => y.(s := y.s.(phase := SendAborted), forward := y.forward + [Garbage(false)])
      case Receive(write) => ReceiveStep(y, write)
      case NoBlock(k) => NoBlockStep(y, k)
      case ReceiverAbort => y.(r := y.r.(phase := FileDeleted))
      case LoseForward(i) => y.(forward := Without(y.forward, i))
      case LoseBack(i) => y.(back := Without(y.back, i))
      case Corrupt(i, oversize) => y.(forward := y.forward[i := Garbage(oversize)])
      case Noise(i, c) => y.(back := y.back[..i] + [c] + y.back[i..])
  }

  function Run(y: System, actions: seq<Action>): System
    decreases |actions|
  {
    if actions == [] then y else Step(Run(y, actions[..|actions| - 1]), actions[|actions| - 1])
  }

  // ----- the invariant -----------------------------------------------------

  function Concat(blocks: seq<Bytes>): Bytes {
    if blocks == [] then [] else Concat(blocks[..|blocks| - 1]) + blocks[|blocks| - 1]
  }

  /** send_blk() has returned JM_NRM for every block. */
  predicate Settled(s: Sender) {
    s.phase == Reading || s.phase == SentOk
  }

  function Acks(back: Bytes): nat {
    if back == [] then 0 else (if back[0] == ACK then 1 else 0) + Acks(back[1..])
  }

  /** A copy of the current block. */
  predicate Current(f: Frame, s: Sender) {
    f == Block(s.m % 256, s.cur, s.last) && s.m > 0
  }

  /** A copy of the block before it. */
  predicate Previous(f: Frame, s: Sender) {
    f.Block? && s.m > 1 && f.num == (s.m - 1) % 256
  }

  /** Only copies of the last two blocks are on the way, in order, and only of the last one when
      that has been taken. */
  predicate OnTheWay(forward: seq<Frame>, s: Sender, r: nat) {
    && (forall f | f in forward :: f.Garbage? || Current(f, s) || (Previous(f, s) && r != s.m))
    && (forall i, j :: 0 <= i < j < |forward| && Previous(forward[j], s) ==> !Current(forward[i], s))
  }

  predicate SenderOk(s: Sender) {
    && s.m == |s.blocks| && s.pos <= |s.file| && 0x40 <= s.slen <= DAT_MAX
    && Concat(s.blocks) == s.file[..s.pos]
    && (forall i :: 0 <= i < s.m ==> 0 < |s.blocks[i]| <= DAT_MAX)
    && (if s.m > 0 then s.cur == s.blocks[s.m - 1] else !s.last && s.phase in {Reading, SentOk, SendAborted})
    && (s.last ==> s.pos == |s.file|)
    && (s.phase == SentOk ==> s.pos == |s.file|)
  }

  predicate Together(s: Sender, r: Receiver) {
    && r.r <= s.m <= r.r + 1 && |s.blocks| == s.m
    && (Settled(s) ==> r.r == s.m)
    && |r.data| + r.lost == |Concat(s.blocks[..r.r])|
    && (r.lost == 0 ==> r.data == Concat(s.blocks[..r.r]))
    && (r.phase == FileClosed ==> s.last && r.r == s.m)
    && (s.last && r.r == s.m ==> r.phase == FileClosed)
  }

  predicate Lockstep(y: System) {
    && SenderOk(y.s) && Together(y.s, y.r) && OnTheWay(y.forward, y.s, y.r.r)
    && Acks(y.back) <= if Settled(y.s) then 0 else y.r.r + 1 - y.s.m
  }

  // ----- acknowledgements on the back line ---------------------------------

  lemma {:induction false} AcksConcat(s: Bytes, t: Bytes)
    ensures Acks(s + t) == Acks(s) + Acks(t)
  {
    if s == [] {
      assert s + t == t;
    } else {
      assert (s + t)[1..] == s[1..] + t;
      AcksConcat(s[1..], t);
    }
  }

  lemma AcksDrop(back: Bytes, k: nat)
    requires k <= |back|
    ensures Acks(back[k..]) <= Acks(back)
  {
    assert back == back[..k] + back[k..];
    AcksConcat(back[..k], back[k..]);
  }

  lemma AcksWithout(back: Bytes, i: nat)
    requires i < |back|
    ensures Acks(Without(back, i)) <= Acks(back)
  {
    assert back == back[..i] + back[i..];
    AcksConcat(back[..i], back[i..]);
    AcksConcat(back[..i], back[i + 1..]);
    AcksDrop(back[i..], 1);
    assert back[i..][1..] == back[i + 1..];
  }

  lemma AcksNoise(back: Bytes, i: nat, c: Byte)
    requires i <= |back| && c != ACK
    ensures Acks(back[..i] + [c] + back[i..]) == Acks(back)
  {
    assert back == back[..i] + back[i..];
    assert Acks([c]) == 0;
    AcksConcat(back[..i], back[i..]);
    AcksConcat(back[..i], [c]);
    AcksConcat(back[..i] + [c], back[i..]);
  }

  lemma AcksLast(back: Bytes, c: Byte)
    ensures Acks(back + [c]) == Acks(back) + if c == ACK then 1 else 0
  {
    AcksConcat(back, [c]);
    assert [c][1..] == [];
  }

  lemma {:induction false} NoAcksIn(s: Bytes)
    requires ACK !in s
    ensures Acks(s) == 0
  {
    if s != [] {
      NoAcksIn(s[1..]);
    }
  }

  lemma NoAcks()
    ensures Acks(CANS) == 0
  {
    NoAcksIn(CANS);
  }

  // ----- frames on the forward line ----------------------------------------

  lemma SomeFrames(forward: seq<Frame>, fewer: seq<Frame>, s: Sender, r: nat, at: nat, gap: nat)
    requires OnTheWay(forward, s, r) && at + gap <= |forward| && fewer == forward[..at] + forward[at + gap..]
    ensures OnTheWay(fewer, s, r)
  {
    hide Current, Previous;
    forall i | 0 <= i < |fewer| ensures fewer[i] == forward[if i < at then i else i + gap] && fewer[i] in forward {
      assert fewer[i] == forward[if i < at then i else i + gap];
    }
    forall i, j | 0 <= i < j < |fewer| && Previous(fewer[j], s) ensures !Current(fewer[i], s) {
      var i', j' := if i < at then i else i + gap, if j < at then j else j + gap;
      assert fewer[i] == forward[i'] && fewer[j] == forward[j'] && i' < j';
    }
  }

  lemma DamagedFrame(forward: seq<Frame>, s: Sender, r: nat, i: nat, oversize: bool)
    requires OnTheWay(forward, s, r) && i < |forward|
    ensures OnTheWay(forward[i := Garbage(oversize)], s, r)
  {
  }

  lemma AnotherFrame(forward: seq<Frame>, s: Sender, r: nat, f: Frame)
    requires OnTheWay(forward, s, r) && (f.Garbage? || Current(f, s))
    ensures OnTheWay(forward + [f], s, r)
  {
    if Previous(f, s) {
      NumbersDiffer(s.m);
    }
  }

  lemma NumbersDiffer(m: nat)
    ensures m % 256 != (m + 1) % 256 && m % 256 != (m + 2) % 256
  {
  }

  /** The sender goes on to the next block: what was current is now previous. */
  lemma NextFrames(forward: seq<Frame>, s: Sender, t: Sender)
    requires OnTheWay(forward, s, s.m) && t.m == s.m + 1
    ensures OnTheWay(forward, t, s.m)
  {
    NumbersDiffer(s.m);
    forall f | f in forward ensures (f.Garbage? || (Previous(f, t) && s.m != t.m)) && !Current(f, t) {
      assert f.Garbage? || Current(f, s);
    }
    forall i, j | 0 <= i < j < |forward| && Previous(forward[j], t) ensures !Current(forward[i], t) {
      assert forward[i] in forward;
    }
  }

  /** The receiver takes the current block: no earlier one is behind it. */
  lemma TakenFrames(forward: seq<Frame>, s: Sender)
    requires s.m > 0 && OnTheWay(forward, s, s.m - 1) && forward != [] && Current(forward[0], s)
    ensures OnTheWay(forward[1..], s, s.m)
  {
    var rest := forward[1..];
    forall f | f in rest ensures f.Garbage? || Current(f, s) {
      var j :| 0 <= j < |rest| && rest[j] == f;
      assert f == forward[j + 1] && !Previous(forward[j + 1], s);
    }
    forall j | 0 <= j < |rest| ensures !Previous(rest[j], s) {
      assert rest[j] == forward[j + 1];
    }
  }

  /** The number tells the receiver exactly whether a frame is the block that is due. */
  lemma OnlyCurrentIsDue(f: Frame, s: Sender, r: Receiver)
    requires r.r <= s.m <= r.r + 1 && (f.Garbage? || Current(f, s) || (Previous(f, s) && r.r != s.m))
    ensures Due(r, f) ==> Current(f, s) && s.m == r.r + 1
  {
    NumbersDiffer(r.r);
  }

  // ----- every step keeps the invariant ------------------------------------

  lemma StartsInLockstep(file: Bytes)
    ensures Lockstep(Start(file))
  {
  }

  lemma SenderOkMeans(s: Sender)
    requires SenderOk(s)
    ensures s.m == |s.blocks| && s.pos <= |s.file| && s.slen > 0 && (s.last ==> s.pos == |s.file|)
  {
  }

  lemma ConcatAppend(blocks: seq<Bytes>, block: Bytes)
    ensures Concat(blocks + [block]) == Concat(blocks) + block
  {
    assert (blocks + [block])[..|blocks|] == blocks;
  }

  lemma ReadBlockOk(s: Sender)
    requires s.phase == Reading && SenderOk(s)
    ensures SenderOk(ReadBlock(s))
  {
    hide Concat;
    var t := ReadBlock(s);
    if t.m != s.m {
      ConcatAppend(s.blocks, t.cur);
      assert s.file[..s.pos] + s.file[s.pos..t.pos] == s.file[..t.pos];
    }
  }

  lemma ReadKeeps(y: System)
    requires Lockstep(y) && y.s.phase == Reading
    ensures Lockstep(y.(s := ReadBlock(y.s)))
  {
    hide Acks, OnTheWay, SenderOk;
    SenderOkMeans(y.s);
    var t := ReadBlock(y.s);
    ReadBlockOk(y.s);
    if t.m == y.s.m {
      SameFrames(y.forward, y.s, t, y.r.r);
    }
    if t.m != y.s.m {
      NextFrames(y.forward, y.s, t);
      assert t.blocks[..y.r.r] == y.s.blocks[..y.r.r];
    }
  }

  lemma SendKeeps(y: System, k: nat)
    requires Lockstep(y) && Possible(y, SenderTurn(k))
    ensures Lockstep(SendStep(y, k))
  {
    hide Acks, OnTheWay, Concat;
    if y.s.phase == Reading {
      ReadKeeps(y);
    } else if y.s.tries == 0 {
      GiveUpKeeps(y);
    } else {
      var f := Block(y.s.m % 256, y.s.cur, y.s.last);
      AnotherFrame(y.forward, y.s, y.r.r, f);
      SameFrames(y.forward + [f], y.s, y.s.(tries := y.s.tries - 1, phase := Waiting), y.r.r);
      AcksDrop(y.back, k);
    }
  }

  lemma SameFrames(forward: seq<Frame>, s: Sender, t: Sender, r: nat)
    requires OnTheWay(forward, s, r) && t.m == s.m && t.cur == s.cur && t.last == s.last
    ensures OnTheWay(forward, t, r)
  {
    assert forall f :: (Current(f, s) <==> Current(f, t)) && (Previous(f, s) <==> Previous(f, t));
  }

  lemma AnswerKeeps(y: System)
    requires Lockstep(y) && y.s.phase == Waiting && y.back != []
    ensures Lockstep(y.(s := Answer(y.s, y.back[0]), back := y.back[1..]))
  {
    hide OnTheWay, Concat;
    SameFrames(y.forward, y.s, Answer(y.s, y.back[0]), y.r.r);
  }

  lemma TimeOutKeeps(y: System)
    requires Lockstep(y) && y.s.phase == Waiting
    ensures Lockstep(y.(s := y.s.(phase := Ready)))
  {
    hide OnTheWay, Concat, Acks;
    SameFrames(y.forward, y.s, y.s.(phase := Ready), y.r.r);
  }

  lemma GiveUpKeeps(y: System)
    requires Lockstep(y)
    ensures Lockstep(y.(s := y.s.(phase := SendAborted), forward := y.forward + [Garbage(false)]))
  {
    hide OnTheWay, Concat, Acks;
    AnotherFrame(y.forward, y.s, y.r.r, Garbage(false));
    SameFrames(y.forward + [Garbage(false)], y.s, y.s.(phase := SendAborted), y.r.r);
  }

  lemma TakeKeeps(y: System, write: Write)
    requires Lockstep(y) && Possible(y, Receive(write)) && Due(y.r, y.forward[0])
    ensures Lockstep(ReceiveStep(y, write))
  {
    hide Acks, OnTheWay, Current, Previous;
    FirstFrame(y);
    OnlyCurrentIsDue(y.forward[0], y.s, y.r);
    TakenFrames(y.forward, y.s);
    AcksLast(y.back, ACK);
    assert y.s.blocks[..y.s.m] == y.s.blocks;
    assert y.s.blocks[..y.s.m - 1] == y.s.blocks[..y.r.r];
    assert y.forward[0].data == y.s.cur by { CurrentIs(y.forward[0], y.s); }
    assert y.forward[0].last == y.s.last by { CurrentIs(y.forward[0], y.s); }
  }

  lemma CurrentIs(f: Frame, s: Sender)
    requires Current(f, s)
    ensures f.Block? && f.data == s.cur && f.last == s.last
  {
  }

  lemma FirstFrame(y: System)
    requires OnTheWay(y.forward, y.s, y.r.r) && y.forward != []
    ensures var f := y.forward[0]; f.Garbage? || Current(f, y.s) || (Previous(f, y.s) && y.r.r != y.s.m)
  {
    assert y.forward[0] in y.forward;
  }

  lemma RefuseKeeps(y: System, write: Write)
    requires Lockstep(y) && Possible(y, Receive(write)) && !Due(y.r, y.forward[0])
    ensures Lockstep(ReceiveStep(y, write))
  {
    hide Acks, OnTheWay, Concat;
    assert y.forward[1..] == y.forward[..0] + y.forward[0 + 1..];
    SomeFrames(y.forward, y.forward[1..], y.s, y.r.r, 0, 1);
    AcksLast(y.back, NAK);
    AcksConcat(y.back, CANS);
    NoAcks();
  }

  lemma NoBlockKeeps(y: System, k: nat)
    requires Lockstep(y) && Possible(y, NoBlock(k))
    ensures Lockstep(NoBlockStep(y, k))
  {
    hide Acks, OnTheWay, Concat;
    assert y.forward[k..] == y.forward[..0] + y.forward[0 + k..];
    SomeFrames(y.forward, y.forward[k..], y.s, y.r.r, 0, k);
    AcksLast(y.back, NAK);
    AcksConcat(y.back + [NAK], CANS);
    NoAcks();
  }

  lemma LineKeeps(y: System, a: Action)
    requires Lockstep(y) && Possible(y, a)
    requires a.LoseForward? || a.LoseBack? || a.Corrupt? || a.Noise? || a.ReceiverAbort?
    ensures Lockstep(Step(y, a))
  {
    hide Acks, OnTheWay, Concat;
    match a {
      case LoseForward(i) => SomeFrames(y.forward, Without(y.forward, i), y.s, y.r.r, i, 1);
      case LoseBack(i) => AcksWithout(y.back, i);
      case Corrupt(i, oversize) => DamagedFrame(y.forward, y.s, y.r.r, i, oversize);
      case Noise(i, c) => AcksNoise(y.back, i, c);
      case ReceiverAbort =>
    }
  }

  lemma StepKeeps(y: System, a: Action)
    requires Lockstep(y)
    ensures Lockstep(Step(y, a))
  {
    hide Lockstep, Possible, SendStep, ReceiveStep, NoBlockStep, Without;
    if Possible(y, a) {
      PossibleMeans(y, a);
      match a {
        case SenderTurn(k) => SendKeeps(y, k);
        case Response => AnswerKeeps(y);
        case NoResponse => TimeOutKeeps(y);
        case SenderAbort => GiveUpKeeps(y);
        case Receive(write) =>
          if Due(y.r, y.forward[0]) {
            TakeKeeps(y, write);
          } else {
            RefuseKeeps(y, write);
          }
        case NoBlock(k) => NoBlockKeeps(y, k);
        case _ => LineKeeps(y, a);
      }
    }
  }

  lemma PossibleMeans(y: System, a: Action)
    requires Possible(y, a)
    ensures a.Response? ==> y.s.phase == Waiting && y.back != []
    ensures a.NoResponse? ==> y.s.phase == Waiting
    ensures a.Receive? ==> y.forward != []
  {
  }

  lemma {:induction false} LockstepRun(file: Bytes, actions: seq<Action>)
    ensures Lockstep(Run(Start(file), actions))
    ensures Run(Start(file), actions).s.file == file
    decreases |actions|
  {
    hide Lockstep, Step, Start;
    if actions == [] {
      StartsInLockstep(file);
      assert Start(file).s.file == file by { StartFile(file); }
    } else {
      var n := |actions| - 1;
      LockstepRun(file, actions[..n]);
      StepKeeps(Run(Start(file), actions[..n]), actions[n]);
      SameFile(Run(Start(file), actions[..n]), actions[n]);
    }
  }

  lemma StartFile(file: Bytes)
    ensures Start(file).s.file == file
  {
  }

  lemma SameFile(y: System, a: Action)
    ensures Step(y, a).s.file == y.s.file
  {
  }

  // ----- what the user gets ------------------------------------------------

  /** In every run: the receiver has taken exactly the blocks 1 to r of the sender's file, where
      r is the number of the sender's current block or one less; and it is the sender's number as
      soon as send_blk() has returned JM_NRM. The receiver's file holds those blocks, each once,
      exactly if no write of it has failed. Every block has a length that the block format can carry. */
  lemma LockstepSafety(file: Bytes, actions: seq<Action>)
    ensures var y := Run(Start(file), actions);
      && (forall block <- y.s.blocks :: 0 < |block| <= DAT_MAX)
      && y.s.m == |y.s.blocks| && Concat(y.s.blocks) <= file
      && (y.r.r == y.s.m || y.r.r + 1 == y.s.m)
      && (Settled(y.s) ==> y.r.r == y.s.m)
      && (y.r.data == Concat(y.s.blocks[..y.r.r]) <==> y.r.lost == 0)
  {
    hide Run, Start, OnTheWay, Acks;
    LockstepRun(file, actions);
  }

  /** When the sender has finished without error, the receiver has taken the whole file. But it
      has closed the file, rather than deleted it or waiting for more, exactly if the last block
      was shorter than the block length at that time: there is no last block without data. */
  lemma SentMeansReceived(file: Bytes, actions: seq<Action>)
    requires Run(Start(file), actions).s.phase == SentOk
    ensures var y := Run(Start(file), actions);
      && (y.r.data == file <==> y.r.lost == 0)
      && (y.r.phase == FileClosed <==> y.s.last)
  {
    hide Run, Start, OnTheWay, Acks;
    LockstepRun(file, actions);
    var y := Run(Start(file), actions);
    assert y.s.blocks[..y.r.r] == y.s.blocks;
    assert file[..y.s.pos] == file;
  }
}
