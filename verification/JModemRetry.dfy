/** JModem when blocks are damaged on the way: how many copies a receiver refuses before it gives up,
    which transfers are completed all the same, and what a lost acknowledgement means. */
module JModemRetry {
  import opened Bits
  import opened JModemLink
  import opened JModemMain
  import opened JModemLossless

  // ----- ten refused frames in a row ---------------------------------------

  /** A frame that is not the block that is due: damaged, or with another number; its length field is
      not out of line. */
  predicate Refused(r: Receiver, input: Input) {
    input.Arrived? && !(input.f.Block? && input.f.num == (r.r + 1) % 256) && !(input.f.Garbage? && input.f.oversize)
  }

  /** How many frames have been refused since the last one that was taken, for a receiver that has not
      left its loop; time-outs do not count. */
  function Streak(r: Receiver, inputs: seq<Input>): nat {
    if inputs == [] then 0
    else
      var before := Turns(r, inputs[..|inputs| - 1]).0;
      var last := inputs[|inputs| - 1];
      if before.phase != Receiving then 0
      else if last.TimedOut? then Streak(r, inputs[..|inputs| - 1])
      else if Refused(before, last) then Streak(r, inputs[..|inputs| - 1]) + 1
      else 0
  }

  lemma {:induction false} TurnsLast(r: Receiver, inputs: seq<Input>, last: Input)
    ensures var before := Turns(r, inputs).0;
      && Turns(r, inputs + [last]).0 == (if before.phase != Receiving then before else Turn(before, last).0)
      && Turns(r, inputs + [last]).1
         == Turns(r, inputs).1 + if before.phase != Receiving then [] else Turn(before, last).1
    decreases |inputs|
  {
    hide Turn;
    if r.phase == Receiving {
      if inputs == [] {
        assert inputs + [last] == [last] && [last][1..] == [];
      } else {
        assert (inputs + [last])[1..] == inputs[1..] + [last];
        TurnsLast(Turn(r, inputs[0]).0, inputs[1..], last);
        assert Turns(r, inputs).1 == Turn(r, inputs[0]).1 + Turns(Turn(r, inputs[0]).0, inputs[1..]).1;
      }
    }
  }

  /** The tries that are left say how many frames have been refused in a row. */
  lemma {:induction false} StreakCounts(r: Receiver, inputs: seq<Input>)
    requires r.phase == Receiving && r.tries == 9
    ensures var z := Turns(r, inputs).0;
      z.phase == Receiving ==> Streak(r, inputs) <= 9 && z.tries == 9 - Streak(r, inputs)
    decreases |inputs|
  {
    if inputs != [] {
      var n := |inputs| - 1;
      assert inputs == inputs[..n] + [inputs[n]];
      TurnsLast(r, inputs[..n], inputs[n]);
      StreakCounts(r, inputs[..n]);
    }
  }

  lemma RefusedTurn(z: Receiver, input: Input)
    requires z.phase == Receiving && Refused(z, input)
    ensures var t := Turn(z, input);
      && t.1 == [NAK] && t.0.r == z.r && t.0.data == z.data && t.0.lost == z.lost
      && (t.0.phase == FileDeleted <==> z.tries == 0) && (t.0.phase == Receiving <==> z.tries > 0)
  {
  }

  lemma StreakGrows(r: Receiver, inputs: seq<Input>, input: Input)
    requires var z := Turns(r, inputs).0; z.phase == Receiving && Refused(z, input)
    ensures Streak(r, inputs + [input]) == Streak(r, inputs) + 1
  {
    hide Turn, Turns, Refused;
    var all := inputs + [input];
    assert all[..|all| - 1] == inputs && all[|all| - 1] == input;
    assert !input.TimedOut? by { RefusedArrives(Turns(r, inputs).0, input); }
  }

  lemma RefusedArrives(z: Receiver, input: Input)
    requires Refused(z, input)
    ensures input.Arrived?
  {
  }

  /** Whatever has come before: a receiver that refuses a frame gives up and deletes its file if and
      only if it is the tenth in a row; otherwise it answers with a NAK and goes on as it was. */
  lemma TenRefused(r: Receiver, inputs: seq<Input>, input: Input)
    requires r.phase == Receiving && r.tries == 9
    requires var z := Turns(r, inputs).0; z.phase == Receiving && Refused(z, input)
    ensures var z, after := Turns(r, inputs).0, Turns(r, inputs + [input]).0;
      && (after.phase == FileDeleted <==> Streak(r, inputs + [input]) == 10)
      && (after.phase == Receiving <==> Streak(r, inputs + [input]) < 10)
      && after.r == z.r && after.data == z.data && after.lost == z.lost
      && Turns(r, inputs + [input]).1 == Turns(r, inputs).1 + [NAK]
  {
    hide Turn, Turns, Refused, Streak;
    StreakCounts(r, inputs);
    TurnsLast(r, inputs, input);
    RefusedTurn(Turns(r, inputs).0, input);
    StreakGrows(r, inputs, input);
  }

  /** A length field out of line ends the reception at once, with six CANs. */
  lemma OversizeEnds(r: Receiver, f: Frame, write: Write)
    requires r.phase == Receiving && f.Garbage? && f.oversize
    ensures Turn(r, Arrived(f, write)) == (r.(phase := FileDeleted), [24, 24, 24, 24, 24, 24])
  {
  }

  /** So many time-outs. */
  function Silence(n: nat): seq<Input> {
    if n == 0 then [] else Silence(n - 1) + [TimedOut]
  }

  function Naks(n: nat): Bytes {
    if n == 0 then [] else Naks(n - 1) + [21]
  }

  lemma QuietTurn(r: Receiver)
    requires r.phase == Receiving
    ensures Turn(r, TimedOut) ==
      if r.readTries == 0 then (r.(phase := FileDeleted), [21] + [24, 24, 24, 24, 24, 24])
      else (r.(readTries := r.readTries - 1), [21])
  {
  }

  /** Silence is answered with a NAK every time; the tenth time-out in a row ends the reception. */
  lemma {:induction false} TenTimeouts(r: Receiver, n: nat)
    requires r.phase == Receiving && r.readTries == 9
    ensures n <= 9 ==> Turns(r, Silence(n)) == (r.(readTries := 9 - n), Naks(n))
    ensures n == 10 ==>
      Turns(r, Silence(n)) == (r.(phase := FileDeleted, readTries := 0), Naks(10) + [24, 24, 24, 24, 24, 24])
  {
    hide Turn;
    if 0 < n <= 10 {
      TenTimeouts(r, n - 1);
      TurnsLast(r, Silence(n - 1), TimedOut);
      QuietTurn(r.(readTries := 10 - n));
      assert Naks(n - 1) + ([21] + [24, 24, 24, 24, 24, 24]) == Naks(n) + [24, 24, 24, 24, 24, 24];
    }
  }

  // ----- blocks that are damaged up to nine times --------------------------

  /** The length of the next block after one that took k attempts more than one. */
  function NextLength(len: nat, k: nat): nat {
    if k == 0 then if len <= 7680 then len + 512 else 8192
    else if len >= 128 then len / 2 else 64
  }

  /** The length of block n, when block i arrives damaged bad(i) times before it arrives well. */
  function LengthOf(bad: nat -> nat, n: nat): (k: nat)
    ensures 64 <= k <= 8192
  {
    if n == 0 then 512 else NextLength(LengthOf(bad, n - 1), bad(n - 1))
  }

  function SumOf(bad: nat -> nat, n: nat): nat {
    if n == 0 then 0 else SumOf(bad, n - 1) + LengthOf(bad, n - 1)
  }

  ghost predicate FullOf(bad: nat -> nat, size: nat) {
    exists n :: SumOf(bad, n) == size
  }

  lemma {:induction false} SumOfGrows(bad: nat -> nat, m: nat, n: nat)
    requires m < n
    ensures SumOf(bad, m) < SumOf(bad, n)
  {
    if m < n - 1 {
      SumOfGrows(bad, m, n - 1);
    }
  }

  lemma NotFullOf(bad: nat -> nat, size: nat, n: nat)
    requires SumOf(bad, n) < size < SumOf(bad, n + 1)
    ensures !FullOf(bad, size)
  {
    if m: nat :| SumOf(bad, m) == size {
      if m < n {
        SumOfGrows(bad, m, n);
      } else if m > n + 1 {
        SumOfGrows(bad, n + 1, m);
      }
    }
  }

  /** Send, damage, refuse, answer. */
  const BAD_COPY := [SenderTurn(0), Corrupt(0, false), Receive(Wrote(8192)), Response]
  /** Send, receive, answer. */
  const GOOD_COPY := [SenderTurn(0), Receive(Wrote(8192)), Response]

  function BadCopies(k: nat): seq<Action> {
    if k == 0 then [] else BAD_COPY + BadCopies(k - 1)
  }

  /** The transfer from block n on. */
  function RetriedTransfer(file: Bytes, bad: nat -> nat, n: nat): seq<Action>
    requires SumOf(bad, n) <= |file|
    decreases |file| - SumOf(bad, n)
  {
    if SumOf(bad, n) == |file| then [SenderTurn(0)] + Waits(10)
    else
      var block := [SenderTurn(0)] + BadCopies(bad(n)) + GOOD_COPY;
      if |file| < SumOf(bad, n + 1) then block else block + RetriedTransfer(file, bad, n + 1)
  }

  /** Both sides are before block n. */
  predicate BeforeBlock(y: System, file: Bytes, bad: nat -> nat, n: nat) {
    && y.s.file == file && y.s.pos == SumOf(bad, n) <= |file| && y.s.slen == LengthOf(bad, n) && y.s.phase == Reading
    && y.r.phase == Receiving && y.r.r == y.s.m && y.r.data == file[..SumOf(bad, n)] && y.r.lost == 0
    && y.r.tries == 9 && y.r.readTries == 9 && y.forward == [] && y.back == []
  }

  /** The block at pos has been read and k copies of it have been refused. */
  predicate AfterBad(y: System, file: Bytes, pos: nat, size: nat, len: nat, m: nat, k: nat) {
    && y.s.file == file && pos + size == y.s.pos <= |file| && 0 < size <= len <= 8192 && y.s.slen == len
    && y.s.phase == Ready && y.s.tries == 10 - k && y.s.m == m && y.s.cur == file[pos..pos + size]
    && y.s.last == (size < len) && y.r.phase == Receiving && y.r.r + 1 == m && y.r.data == file[..pos] && y.r.lost == 0
    && y.r.tries == 9 - k && y.r.readTries == 9 && y.forward == [] && y.back == []
  }

  function SizeAt(file: Bytes, pos: nat, len: nat): nat
    requires pos <= |file|
  {
    if pos + len <= |file| then len else |file| - pos
  }

  lemma BlockRead(y: System, file: Bytes, bad: nat -> nat, n: nat)
    requires BeforeBlock(y, file, bad, n) && SumOf(bad, n) < |file|
    ensures AfterBad(Step(y, SenderTurn(0)), file, SumOf(bad, n),
                     SizeAt(file, SumOf(bad, n), LengthOf(bad, n)), LengthOf(bad, n), y.s.m + 1, 0)
  {
    hide SumOf, LengthOf;
  }

  lemma RunBad(y: System)
    ensures Run(y, BAD_COPY) ==
      Step(Step(Step(Step(y, SenderTurn(0)), Corrupt(0, false)), Receive(Wrote(8192))), Response)
  {
    hide Step, Run;
    var a := BAD_COPY;
    assert a == [a[0]] + ([a[1]] + ([a[2]] + [a[3]]));
    RunFirst(y, a[0], [a[1]] + ([a[2]] + [a[3]]));
    var y1 := Step(y, a[0]);
    RunFirst(y1, a[1], [a[2]] + [a[3]]);
    var y2 := Step(y1, a[1]);
    RunFirst(y2, a[2], [a[3]]);
    RunOne(Step(y2, a[2]), a[3]);
  }

  lemma RunGood(y: System)
    ensures Run(y, GOOD_COPY) == Step(Step(Step(y, SenderTurn(0)), Receive(Wrote(8192))), Response)
  {
    hide Step, Run;
    var a := GOOD_COPY;
    assert a == [a[0]] + ([a[1]] + [a[2]]);
    RunFirst(y, a[0], [a[1]] + [a[2]]);
    var y1 := Step(y, a[0]);
    RunFirst(y1, a[1], [a[2]]);
    RunOne(Step(y1, a[1]), a[2]);
  }

  /** One damaged copy. */
  lemma CopyRefused(y: System, file: Bytes, pos: nat, size: nat, len: nat, m: nat, k: nat)
    requires AfterBad(y, file, pos, size, len, m, k) && k < 9
    ensures AfterBad(Run(y, BAD_COPY), file, pos, size, len, m, k + 1)
  {
    hide Run;
    RunBad(y);
    var sent := Step(y, SenderTurn(0));
    assert sent.forward == [Block(m % 256, y.s.cur, y.s.last)];
    var damaged := Step(sent, Corrupt(0, false));
    assert damaged.forward == [Garbage(false)];
    var refused := Step(damaged, Receive(Wrote(8192)));
    assert refused.back == [NAK] && refused.forward == [];
  }

  lemma {:induction false} CopiesRefused(y: System, file: Bytes, pos: nat, size: nat, len: nat, m: nat, k: nat, n: nat)
    requires AfterBad(y, file, pos, size, len, m, k) && k + n <= 9
    ensures AfterBad(Run(y, BadCopies(n)), file, pos, size, len, m, k + n)
    decreases n
  {
    hide Run, AfterBad;
    if n == 0 {
      RunOne(y, Response);
    } else {
      CopyRefused(y, file, pos, size, len, m, k);
      CopiesRefused(Run(y, BAD_COPY), file, pos, size, len, m, k + 1, n - 1);
      RunConcat(y, BAD_COPY, BadCopies(n - 1));
    }
  }

  /** The good copy. */
  lemma CopyTaken(y: System, file: Bytes, pos: nat, size: nat, len: nat, m: nat, k: nat)
    requires AfterBad(y, file, pos, size, len, m, k) && k <= 9 && len >= 64
    ensures var z := Run(y, GOOD_COPY);
      && z.s.file == file && z.s.pos == pos + size && z.s.m == m && z.s.slen == NextLength(len, k)
      && z.r.r == m && z.r.data == file[..pos + size] && z.r.lost == 0 && z.r.tries == 9 && z.r.readTries == 9
      && z.forward == [] && z.back == []
      && z.s.phase == (if size < len then SentOk else Reading)
      && z.r.phase == (if size < len then FileClosed else Receiving)
  {
    hide Run;
    RunGood(y);
    var sent := Step(y, SenderTurn(0));
    assert sent.forward == [Block(m % 256, y.s.cur, y.s.last)];
    var taken := Step(sent, Receive(Wrote(8192)));
    assert file[..pos] + file[pos..pos + size] == file[..pos + size];
    assert taken.back == [ACK] && taken.forward == [];
  }

  lemma {:induction false} RetriedFrom(y: System, file: Bytes, bad: nat -> nat, n: nat)
    requires BeforeBlock(y, file, bad, n) && forall i :: bad(i) <= 9
    ensures var z := Run(y, RetriedTransfer(file, bad, n));
      && z.s.phase == SentOk && z.r.data == file && z.r.lost == 0
      && z.r.phase == if FullOf(bad, |file|) then FileDeleted else FileClosed
    decreases |file| - SumOf(bad, n)
  {
    hide Run, SumOf, LengthOf, FullOf, Waits, AfterBad, BadCopies, NextLength;
    var pos, len := SumOf(bad, n), LengthOf(bad, n);
    NextSumOf(bad, n);
    if pos == |file| {
      IsFullOf(bad, |file|, n);
      assert file[..|file|] == file;
      var x := Step(y, SenderTurn(0));
      RunFirst(y, SenderTurn(0), Waits(10));
      WaitsInVain(x, 9);
    } else {
      var size := SizeAt(file, pos, len);
      BlockRead(y, file, bad, n);
      var read := Step(y, SenderTurn(0));
      CopiesRefused(read, file, pos, size, len, y.s.m + 1, 0, bad(n));
      var last := Run(read, BadCopies(bad(n)));
      CopyTaken(last, file, pos, size, len, y.s.m + 1, bad(n));
      RunFirst(y, SenderTurn(0), BadCopies(bad(n)));
      RunConcat(y, [SenderTurn(0)] + BadCopies(bad(n)), GOOD_COPY);
      var block := [SenderTurn(0)] + BadCopies(bad(n)) + GOOD_COPY;
      assert Run(y, block) == Run(last, GOOD_COPY);
      if |file| < SumOf(bad, n + 1) {
        assert file[..|file|] == file;
        NotFullOf(bad, |file|, n);
      } else {
        RetriedFrom(Run(y, block), file, bad, n + 1);
        RunConcat(y, block, RetriedTransfer(file, bad, n + 1));
      }
    }
  }

  lemma NextSumOf(bad: nat -> nat, n: nat)
    ensures SumOf(bad, n + 1) == SumOf(bad, n) + LengthOf(bad, n)
    ensures LengthOf(bad, n + 1) == NextLength(LengthOf(bad, n), bad(n))
  {
  }

  lemma IsFullOf(bad: nat -> nat, size: nat, n: nat)
    requires SumOf(bad, n) == size
    ensures FullOf(bad, size)
  {
  }

  /** Every file gets through when each block is damaged at most nine times: the sender reports success
      and the receiver has every byte. Which files are closed depends on the block lengths that the
      damage leads to: 512 more after a block that went well, half after one that did not. */
  lemma RetriedTransferSucceeds(file: Bytes, bad: nat -> nat)
    requires forall i :: bad(i) <= 9
    ensures var z := Run(Start(file), RetriedTransfer(file, bad, 0));
      && z.s.phase == SentOk && z.r.data == file && z.r.lost == 0
      && z.r.phase == if FullOf(bad, |file|) then FileDeleted else FileClosed
  {
    hide Run;
    RetriedFrom(Start(file), file, bad, 0);
  }

  // ----- a lost acknowledgement --------------------------------------------

  /** The receiver has taken the block that the sender is at, and no acknowledgement of it is left. */
  predicate Unheard(y: System) {
    Lockstep(y) && !Settled(y.s) && y.r.r == y.s.m && Acks(y.back) == 0
  }

  lemma UnheardStays(y: System, a: Action)
    requires Unheard(y)
    ensures Unheard(Step(y, a))
  {
    StepKeeps(y, a);
    if Possible(y, a) {
      StillUnheard(y, a);
    }
  }

  lemma StillUnheard(y: System, a: Action)
    requires Unheard(y) && Possible(y, a)
    ensures var z := Step(y, a); !Settled(z.s) && z.r.r == z.s.m && Acks(z.back) == 0
  {
    hide OnTheWay, SenderOk, Acks, Together, Due;
    match a {
      case SenderTurn(k) => AcksDrop(y.back, k);
      case Response => NoAckFirst(y.back);
      case Receive(write) =>
        assert !Due(y.r, y.forward[0]) by { FirstFrame(y); OnlyCurrentIsDue(y.forward[0], y.s, y.r); }
        AcksLast(y.back, NAK);
        AcksConcat(y.back, CANS);
        NoAcks();
      case NoBlock(k) =>
        AcksLast(y.back, NAK);
        AcksConcat(y.back + [NAK], CANS);
        NoAcks();
      case LoseBack(i) => AcksWithout(y.back, i);
      case Noise(i, c) => AcksNoise(y.back, i, c);
      case _ =>
    }
  }

  lemma NoAckFirst(back: Bytes)
    requires Acks(back) == 0 && back != []
    ensures back[0] != ACK && Acks(back[1..]) == 0
  {
  }

  /** The receiver does not acknowledge a block twice: once an acknowledgement is lost, the sender never
      finishes this block or the file, whatever happens afterwards. */
  lemma {:induction false} LostAckIsFatal(y: System, actions: seq<Action>)
    requires Unheard(y)
    ensures !Settled(Run(y, actions).s) && Run(y, actions).s.phase != SentOk
    ensures Unheard(Run(y, actions))
    decreases |actions|
  {
    hide Step, Lockstep;
    if actions != [] {
      LostAckIsFatal(y, actions[..|actions| - 1]);
      UnheardStays(Run(y, actions[..|actions| - 1]), actions[|actions| - 1]);
    }
  }
}
