/** JModem over lines that lose nothing: which files are received, and which are received in full
    and then deleted because no block marks their end. */
module JModemLossless {
  import opened Bits
  import opened JModemLink
  import opened JModemMain

  // ----- block lengths -----------------------------------------------------

  /** The length of block n when every block before it was acknowledged at once. */
  function Length(n: nat): (k: nat)
    ensures 0x40 <= k <= DAT_MAX
  {
    if BLK_SIZ + 512 * n > DAT_MAX then DAT_MAX else BLK_SIZ + 512 * n
  }

  /** The length of the first n blocks. */
  function Sum(n: nat): nat {
    if n == 0 then 0 else Sum(n - 1) + Length(n - 1)
  }

  /** The file is made up of full blocks. */
  ghost predicate Full(size: nat) {
    exists n :: Sum(n) == size
  }

  lemma {:induction false} SumGrows(m: nat, n: nat)
    requires m < n
    ensures Sum(m) < Sum(n)
  {
    if m < n - 1 {
      SumGrows(m, n - 1);
    }
  }

  lemma NotFull(size: nat, n: nat)
    requires Sum(n) < size < Sum(n + 1)
    ensures !Full(size)
  {
    if m: nat :| Sum(m) == size {
      if m < n {
        SumGrows(m, n);
      } else if m > n + 1 {
        SumGrows(n + 1, m);
      }
    }
  }

  // ----- the run -----------------------------------------------------------

  /** Read, send, receive, answer. */
  const ONE_BLOCK := [SenderTurn(0), SenderTurn(0), Receive(Wrote(DAT_MAX)), Response]

  /** The receiver waits in vain n times. */
  function Waits(n: nat): seq<Action> {
    if n == 0 then [] else [NoBlock(0)] + Waits(n - 1)
  }

  /** The transfer from block n on. */
  function Transfer(file: Bytes, n: nat): seq<Action>
    requires Sum(n) <= |file|
    decreases |file| - Sum(n)
  {
    if Sum(n) == |file| then [SenderTurn(0)] + Waits(TRIES)
    else if |file| < Sum(n + 1) then ONE_BLOCK
    else ONE_BLOCK + Transfer(file, n + 1)
  }

  /** Both sides are before block n. */
  predicate Before(y: System, file: Bytes, n: nat) {
    && y.s.file == file && y.s.pos == Sum(n) <= |file| && y.s.slen == Length(n) && y.s.phase == Reading
    && y.r.phase == Receiving && y.r.r == y.s.m && y.r.data == file[..Sum(n)] && y.r.lost == 0
    && y.r.readTries == TRIES - 1 && y.forward == [] && y.back == []
  }

  lemma RunFour(y: System)
    ensures var sent := Step(Step(y, SenderTurn(0)), SenderTurn(0));
      Run(y, ONE_BLOCK) == Step(Step(sent, Receive(Wrote(DAT_MAX))), Response)
  {
    hide Step, Run;
    var a := ONE_BLOCK;
    assert a == [a[0]] + ([a[1]] + ([a[2]] + [a[3]]));
    RunFirst(y, a[0], [a[1]] + ([a[2]] + [a[3]]));
    var y1 := Step(y, a[0]);
    RunFirst(y1, a[1], [a[2]] + [a[3]]);
    var y2 := Step(y1, a[1]);
    RunFirst(y2, a[2], [a[3]]);
    RunOne(Step(y2, a[2]), a[3]);
  }

  /** Block n is read, and size bytes of it, the data, are on the way or have been taken. */
  predicate During(z: System, file: Bytes, n: nat, size: nat, m: nat) {
    && z.s.file == file && z.s.pos == Sum(n) + size <= |file| && 0 < size <= Length(n) && z.s.slen == Length(n)
    && z.s.phase == Waiting && z.s.tries == TRIES - 1 && z.s.last == (size < Length(n)) && z.s.m == m
    && z.r.lost == 0 && z.r.readTries == TRIES - 1
  }

  function SizeOf(file: Bytes, n: nat): nat
    requires Sum(n) < |file|
  {
    if Sum(n) + Length(n) <= |file| then Length(n) else |file| - Sum(n)
  }

  /** Reading and sending a block. */
  lemma BlockSent(y: System, file: Bytes, n: nat)
    requires Before(y, file, n) && Sum(n) < |file|
    ensures var z := Step(Step(y, SenderTurn(0)), SenderTurn(0));
      var size := SizeOf(file, n);
      && During(z, file, n, size, y.s.m + 1) && z.r == y.r && z.back == []
      && z.forward == [Block(z.s.m % 256, file[Sum(n)..Sum(n) + size], z.s.last)]
  {
    hide Sum, Length;
  }

  lemma NextSum(n: nat)
    ensures Sum(n + 1) == Sum(n) + Length(n)
  {
  }

  /** Taking it. */
  lemma BlockTaken(z: System, file: Bytes, n: nat, size: nat, m: nat)
    requires During(z, file, n, size, m) && z.back == [] && z.r.phase == Receiving && z.r.r + 1 == m
    requires z.r.data == file[..Sum(n)]
    requires z.forward == [Block(m % 256, file[Sum(n)..Sum(n) + size], z.s.last)]
    ensures var x := Step(z, Receive(Wrote(DAT_MAX)));
      && During(x, file, n, size, m) && x.s == z.s && x.back == [ACK] && x.forward == []
      && x.r.data == file[..Sum(n) + size] && x.r.r == m
      && x.r.phase == if z.s.last then FileClosed else Receiving
  {
    hide Sum, Length;
    assert Length(n) <= DAT_MAX;
    assert file[..Sum(n)] + file[Sum(n)..Sum(n) + size] == file[..Sum(n) + size];
  }

  lemma LongerNext(n: nat)
    ensures Adapt(Length(n), TRIES - 1) == Length(n + 1)
  {
  }

  /** A block in full: the next one, or the end of the file. */
  lemma BlockDone(y: System, file: Bytes, n: nat)
    requires Before(y, file, n) && Sum(n) < |file|
    ensures var z := Run(y, ONE_BLOCK);
      if Sum(n + 1) <= |file| then Before(z, file, n + 1)
      else z.s.phase == SentOk && z.r.data == file && z.r.lost == 0 && z.r.phase == FileClosed
  {
    hide Sum, Run, Length, SendStep, ReceiveStep, NoBlockStep, Adapt;
    RunFour(y);
    BlockSent(y, file, n);
    NextSum(n);
    LongerNext(n);
    var sent := Step(Step(y, SenderTurn(0)), SenderTurn(0));
    BlockTaken(sent, file, n, SizeOf(file, n), y.s.m + 1);
    assert file[..|file|] == file;
  }

  lemma {:induction false} WaitsInVain(y: System, n: nat)
    requires y.r.phase == Receiving && y.r.readTries == n
    ensures var z := Run(y, Waits(n + 1)); z.r == y.r.(phase := FileDeleted, readTries := 0) && z.s == y.s
    decreases n
  {
    hide Run;
    var x := Step(y, NoBlock(0));
    RunFirst(y, NoBlock(0), Waits(n));
    if n == 0 {
      RunOne(x, NoResponse);
    } else {
      WaitsInVain(x, n - 1);
    }
  }

  lemma {:induction false} TransferFrom(y: System, file: Bytes, n: nat)
    requires Before(y, file, n)
    ensures var z := Run(y, Transfer(file, n));
      && z.s.phase == SentOk && z.r.data == file && z.r.lost == 0
      && z.r.phase == if Full(|file|) then FileDeleted else FileClosed
    decreases |file| - Sum(n)
  {
    hide Run, Sum, Full, Waits;
    assert Sum(n + 1) == Sum(n) + Length(n) by { NextSum(n); }
    if Sum(n) == |file| {
      assert Full(|file|) by { IsFull(|file|, n); }
      assert file[..|file|] == file;
      var x := Step(y, SenderTurn(0));
      RunFirst(y, SenderTurn(0), Waits(TRIES));
      WaitsInVain(x, TRIES - 1);
    } else {
      BlockDone(y, file, n);
      if |file| < Sum(n + 1) {
        NotFull(|file|, n);
      } else {
        TransferFrom(Run(y, ONE_BLOCK), file, n + 1);
        RunConcat(y, ONE_BLOCK, Transfer(file, n + 1));
      }
    }
  }

  lemma IsFull(size: nat, n: nat)
    requires Sum(n) == size
    ensures Full(size)
  {
  }

  /** Over lines that lose nothing, with a disk that takes everything: the sender reports success and
      the receiver gets every byte of every file. But it closes the file if and only if its length
      is not a sum of full blocks of 512, 1024, 1536, ... and at last 8192 bytes; otherwise it waits
      in vain for a block that marks the end, and deletes the file. */
  lemma LosslessTransfer(file: Bytes)
    ensures var z := Run(Start(file), Transfer(file, 0));
      && z.s.phase == SentOk && z.r.data == file && z.r.lost == 0
      && z.r.phase == if Full(|file|) then FileDeleted else FileClosed
  {
    hide Run;
    TransferFrom(Start(file), file, 0);
  }

  /** In particular a file of exactly one block, and the empty one. */
  lemma FullBlockIsDeleted(file: Bytes)
    requires |file| == BLK_SIZ || |file| == 0
    ensures var z := Run(Start(file), Transfer(file, 0));
      z.s.phase == SentOk && z.r.data == file && z.r.phase == FileDeleted
  {
    hide Run, Full;
    LosslessTransfer(file);
    assert Sum(0) == 0 && Sum(1) == BLK_SIZ;
    IsFull(|file|, if |file| == 0 then 0 else 1);
  }
}
