/** A whole JModem transfer: the loops of the sender run against the receiver over two lines.
    What happens outside the sender while it waits is read from a list: turns of the receiver,
    loss, damage and noise, in any order. Whatever the list says, the transfer is a run of the
    link, so what is proved of its runs holds of the two programs. */
module JModemSession {
  import opened Bits
  import opened JModemLink
  import opened JModemMain

  class Session {
    const t: Transmitter
    const u: Station
    var forward: seq<Frame>
    var back: Bytes
    var moves: seq<Action>
    ghost var trace: seq<Action>

    ghost function State(): System
      reads this, t, u
    {
      System(t.Snapshot(), u.Snapshot(), forward, back)
    }

    ghost predicate Valid()
      reads this, t, u
    {
      State() == Run(Start(t.file), trace)
    }

    constructor (file: Bytes, moves: seq<Action>)
      ensures Valid() && fresh(t) && fresh(u) && t.file == file && t.phase == Reading && this.moves == moves
    {
      t := new Transmitter(file);
      u := new Station();
      forward, back, trace := [], [], [];
      this.moves := moves;
    }

    /** What the sender needs to know of its own state. */
    lemma SenderSound()
      requires Valid()
      ensures t.pos <= |t.file| && 0x40 <= t.slen <= DAT_MAX
    {
      hide Run, Start, OnTheWay, Acks, Concat;
      LockstepRun(t.file, trace);
    }

    /** One turn of the receive loop. */
    method ReceiverTurn(a: Action)
      requires Valid() && (a.Receive? || a.NoBlock?)
      modifies this`forward, this`back, this`trace, u
      ensures State() == Step(old(State()), a) && trace == old(trace) + [a] && Valid()
    {
      hide Run, Start, Turn;
      ghost var before := State();
      if u.phase == Receiving && (if a.Receive? then forward != [] else a.flushed <= |forward|) {
        var input := if a.Receive? then Arrived(forward[0], a.write) else TimedOut;
        TurnWithFlush(before, a);
        forward := if a.Receive? then forward[1..] else forward[a.flushed..];
        var out := u.ReceiveOne(input);
        back := back + out;
      }
      trace := trace + [a];
      RunAppend(Start(t.file), old(trace), a);
    }

    /** What happens outside the sender. */
    method World(a: Action)
      requires Valid() && !Own(a)
      modifies this`forward, this`back, this`trace, u
      ensures State() == Step(old(State()), a) && trace == old(trace) + [a] && Valid()
    {
      hide Run, Start;
      if a.Receive? || a.NoBlock? {
        ReceiverTurn(a);
        return;
      }
      match a {
        case ReceiverAbort =>
          if u.phase == Receiving {
            u.phase := FileDeleted;
          }
        case LoseForward(i) =>
          if i < |forward| {
            forward := Without(forward, i);
          }
        case LoseBack(i) =>
          if i < |back| {
            back := Without(back, i);
          }
        case Corrupt(i, oversize) =>
          if i < |forward| {
            forward := forward[i := Garbage(oversize)];
          }
        case Noise(i, c) =>
          if i <= |back| && c != ACK {
            back := back[..i] + [c] + back[i..];
          }
      }
      trace := trace + [a];
      RunAppend(Start(t.file), old(trace), a);
    }

    /** One step of the wait: a byte comes, or none in time, or the user breaks off. */
    method Hear(a: Action)
      requires Valid() && t.phase == Waiting && Own(a)
      modifies this`forward, this`back, this`trace, t
      ensures State() == Step(old(State()), a) && trace == old(trace) + [a] && Valid()
      ensures t.pos == old(t.pos) && t.tries == old(t.tries)
      ensures a.NoResponse? ==> t.phase == Ready
    {
      hide Run, Start;
      if a.Response? && back != [] {
        var ack := back[0];
        back := back[1..];
        if ack == ACK || ack == CAN || ack == NAK || ack == 0 {
          t.Heed(ack);
        }
      } else if a.NoResponse? {
        t.Heed(0);
      } else if a.SenderAbort? {
        forward, t.phase := forward + [Garbage(false)], SendAborted;
      }
      trace := trace + [a];
      RunAppend(Start(t.file), old(trace), a);
    }

    /** The inner loop of send_blk(): wait for something useful while the world goes on, then do
        what is to be done with it. Without any more moves the wait times out. */
    method Await()
      requires Valid() && t.phase == Waiting
      modifies this, t, u
      ensures Valid() && t.phase != Waiting && |moves| <= |old(moves)|
      ensures t.pos == old(t.pos) && t.tries == old(t.tries)
    {
      hide Run, Start, Step;
      while t.phase == Waiting
        invariant Valid() && |moves| <= |old(moves)| && t.pos == old(t.pos) && t.tries == old(t.tries)
        decreases t.phase == Waiting, |moves|
      {
        var a := NoResponse;
        if moves != [] {
          a, moves := moves[0], moves[1..];
        }
        if Own(a) {
          Hear(a);
        } else {
          World(a);
        }
      }
    }

    /** What happens before the sender goes on. */
    method Elapse()
      requires Valid()
      modifies this, u
      ensures Valid() && |moves| <= |old(moves)|
    {
      hide Run, Start, Step;
      while moves != [] && !Own(moves[0])
        invariant Valid() && |moves| <= |old(moves)|
        decreases |moves|
      {
        var a := moves[0];
        moves := moves[1..];
        World(a);
      }
    }

    /** The top of the loop of send_blk(): send the block and flush, or give up. */
    method Attempt()
      requires Valid() && t.phase == Ready
      modifies this, t
      ensures State() == Step(old(State()), SenderTurn(|old(back)|)) && Valid() && moves == old(moves)
      ensures t.pos == old(t.pos) && t.phase == if old(t.tries) == 0 then SendAborted else Waiting
      ensures old(t.tries) > 0 ==> t.tries == old(t.tries) - 1
    {
      hide Run, Start;
      SenderSound();
      ghost var a := SenderTurn(|back|);
      if t.tries == 0 {
        forward, t.phase := forward + [Garbage(false)], SendAborted;
      } else {
        forward, back := forward + [Block(t.m % 256, t.cur, t.last)], [];
        t.tries, t.phase := t.tries - 1, Waiting;
      }
      trace := trace + [a];
      RunAppend(Start(t.file), old(trace), a);
    }

    /** send_blk(). */
    method SendBlk()
      requires Valid() && t.phase == Ready
      modifies this, t, u
      ensures Valid() && t.phase in {Reading, SentOk, SendAborted} && t.pos == old(t.pos)
    {
      hide Run, Start, Step, Valid;
      while t.phase == Ready
        invariant Valid() && t.phase != Waiting && t.pos == old(t.pos)
        decreases t.phase == Ready, t.tries
      {
        Elapse();
        Attempt();
        if t.phase == Waiting {
          Await();
        }
      }
    }

    /** file_io(READ, ...) in the send loop of main(). */
    method ReadNext()
      requires Valid() && t.phase == Reading
      modifies this, t
      ensures State() == Step(old(State()), SenderTurn(0)) && Valid() && moves == old(moves)
      ensures t.phase == SentOk || (t.phase == Ready && old(t.pos) < t.pos <= |t.file|)
    {
      hide Run, Start;
      SenderSound();
      t.Read();
      trace := trace + [SenderTurn(0)];
      RunAppend(Start(t.file), old(trace), SenderTurn(0));
    }

    /** The send loop of main(). */
    method Send()
      requires Valid() && t.phase == Reading
      modifies this, t, u
      ensures Valid() && t.phase in {SentOk, SendAborted}
    {
      hide Run, Start, Step, Valid;
      while t.phase == Reading
        invariant Valid() && t.phase in {Reading, SentOk, SendAborted}
        decreases t.phase == Reading, |t.file| - t.pos
      {
        Elapse();
        ReadNext();
        if t.phase == Ready {
          SendBlk();
        }
      }
    }

    /** The receiver goes on when the sender has ended. */
    method Finish()
      requires Valid()
      modifies this, u
      ensures Valid() && moves == []
    {
      hide Run, Start, Step;
      while moves != []
        invariant Valid()
        decreases |moves|
      {
        var a := moves[0];
        moves := moves[1..];
        if !Own(a) {
          World(a);
        }
      }
    }
  }

  /** What only the sender's own code does. */
  predicate Own(a: Action) {
    a.SenderTurn? || a.Response? || a.NoResponse? || a.SenderAbort?
  }

  lemma RunAppend(y: System, trace: seq<Action>, a: Action)
    ensures Run(y, trace + [a]) == Step(Run(y, trace), a)
  {
    hide Step;
    assert (trace + [a])[..|trace|] == trace;
  }

  /** A turn of the receive loop is a step of the link. */
  lemma TurnWithFlush(y: System, a: Action)
    requires (a.Receive? || a.NoBlock?) && Possible(y, a)
    ensures var input := if a.Receive? then Arrived(y.forward[0], a.write) else TimedOut;
      Step(y, a) == y.(r := Turn(y.r, input).0, back := y.back + Turn(y.r, input).1,
                       forward := if a.Receive? then y.forward[1..] else y.forward[a.flushed..])
  {
    assert y.back + [NAK] + CANS == y.back + ([NAK] + CANS);
  }

  /** Every transfer ends. Whatever happens on the lines and at the receiver: the blocks the receiver
      has taken are the first ones of the file, and a sender that ends without error has delivered
      the whole file, which the receiver closes exactly if the last block was a short one. */
  method Transfer(file: Bytes, moves: seq<Action>) returns (x: Session)
    ensures fresh(x) && x.t.file == file && x.moves == [] && x.t.phase in {SentOk, SendAborted}
    ensures x.State() == Run(Start(file), x.trace)
    ensures x.u.lost == 0 ==> x.u.data <= file
    ensures x.t.phase == SentOk ==> (x.u.data == file <==> x.u.lost == 0)
    ensures x.t.phase == SentOk ==> (x.u.phase == FileClosed <==> x.t.last)
  {
    hide Run, Start, Step;
    x := new Session(file, moves);
    x.Send();
    x.Finish();
    LockstepSafety(file, x.trace);
    Prefix(x.State(), file);
    if x.t.phase == SentOk {
      SentMeansReceived(file, x.trace);
    }
  }

  lemma {:induction false} BlocksPrefix(blocks: seq<Bytes>, r: nat)
    requires r <= |blocks|
    ensures Concat(blocks[..r]) <= Concat(blocks)
    decreases |blocks|
  {
    if r == |blocks| {
      assert blocks[..r] == blocks;
    } else {
      var n := |blocks| - 1;
      BlocksPrefix(blocks[..n], r);
      assert blocks[..n][..r] == blocks[..r];
    }
  }

  lemma Prefix(y: System, file: Bytes)
    requires Concat(y.s.blocks) <= file && y.s.m == |y.s.blocks| && y.r.r <= y.s.m
    requires y.r.data == Concat(y.s.blocks[..y.r.r]) <==> y.r.lost == 0
    ensures y.r.lost == 0 ==> y.r.data <= file
  {
    hide Concat;
    BlocksPrefix(y.s.blocks, y.r.r);
  }
}
