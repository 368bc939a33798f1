/** What JModem's encoder and checksum make of data that can be worked out by hand. */
module JModemKnown {
  import opened Bits
  import opened Seqs
  import opened JModemCodec

  // ----- the run-length code -----------------------------------------------

  lemma {:induction false} RunOfRepeat(c: Byte, n: nat)
    ensures Run(Repeat(c, n), c) == n
  {
    if n > 0 {
      assert Repeat(c, n)[1..] == Repeat(c, n - 1);
      RunOfRepeat(c, n - 1);
    }
  }

  /** A run of equal bytes, of whatever length, becomes four bytes: the sentinel, the length with its
      low byte first, and the byte. So does a single sentinel. */
  lemma RunCode(c: Byte, n: nat, stale: Byte)
    requires 2 <= n < 0x1_0000 || (n == 1 && c == 0xbb)
    ensures Encoded(Repeat(c, n), stale) == [0xbb, n % 256, n / 256, c]
  {
    hide Run;
    var s := Repeat(c, n);
    RunOfRepeat(c, n);
    assert s[n..] == [] && s[0] == c;
    assert n > 1 ==> s[1] == c;
  }

  /** Data without a sentinel and without two equal bytes in a row, and not followed by its last byte by
      chance, stays as it is. */
  lemma {:induction false} PlainCode(s: Bytes, stale: Byte)
    requires forall i | 0 <= i < |s| :: s[i] != 0xbb
    requires forall i | 0 <= i < |s| - 1 :: s[i] != s[i + 1]
    requires s != [] ==> s[|s| - 1] != stale
    ensures Encoded(s, stale) == s
    decreases |s|
  {
    if s != [] {
      PlainCode(s[1..], stale);
    }
  }

  // ----- blocks ------------------------------------------------------------

  /** The checksum of a block with the single byte 'A', byte by byte. */
  lemma CrcOfA()
    ensures Crc(0, [7, 0, 4, 1, 65]) == 0x818d
  {
    hide CrcStep;
    assert [7, 0, 4, 1, 65][1..] == [0, 4, 1, 65] && [0, 4, 1, 65][1..] == [4, 1, 65];
    assert [4, 1, 65][1..] == [1, 65] && [1, 65][1..] == [65] && [65][1..] == [];
    CrcSteps();
    assert Crc(224, [0, 4, 1, 65]) == Crc(3584, [4, 1, 65]);
    assert Crc(3584, [4, 1, 65]) == Crc(28704, [1, 65]);
    assert Crc(28704, [1, 65]) == Crc(49285, [65]);
    assert Crc(49285, [65]) == Crc(33165, []);
  }

  lemma StepIs(crc: Word, c: Byte, n: nat, power: nat, low: nat, high: nat)
    requires crc + c < 0x1_0000 && Power(n % 8) == power && (crc + c) * power == low + 0x1_0000 * high && low < 0x1_0000
    ensures CrcStep(crc, c, n) == low + high
  {
  }

  lemma CrcSteps()
    ensures CrcStep(0, 7, 5) == 224 && CrcStep(224, 0, 4) == 3584 && CrcStep(3584, 4, 3) == 28704
    ensures CrcStep(28704, 1, 2) == 49285 && CrcStep(49285, 65, 1) == 33165
  {
    hide CrcStep;
    StepIs(0, 7, 5, 32, 224, 0);
    StepIs(224, 0, 4, 16, 3584, 0);
    StepIs(3584, 4, 3, 8, 28704, 0);
    StepIs(28704, 1, 2, 4, 49284, 1);
    StepIs(49285, 65, 1, 2, 33164, 1);
  }

  /** The block of a file that is one 'A': length, type, number, data, checksum. */
  lemma BlockOfA(stale: Byte)
    requires stale != 65
    ensures Block([65], stale, 1, true) == [7, 0, 4, 1, 65, 0x8d, 0x81]
  {
    hide Crc, Encoded;
    PlainCode([65], stale);
    CrcOfA();
    assert Header(1, 4, 1) + [65] == [7, 0, 4, 1, 65];
  }

  /** A whole block of one byte over and over goes over the line in ten bytes, and says that it is
      compressed. */
  lemma BlockOfRun(c: Byte, stale: Byte, num: Byte, last: bool)
    ensures Block(Repeat(c, 8192), stale, num, last)
         == Closed([10, 0, if last then 6 else 3, num, 0xbb, 0, 32, c])
  {
    hide Closed, Encoded;
    RunCode(c, 8192, stale);
    assert Header(4, 6, num) == [10, 0, 6, num] && Header(4, 3, num) == [10, 0, 3, num];
    assert forall t: Byte :: [10, 0, t, num] + [0xbb, 0, 32, c] == [10, 0, t, num, 0xbb, 0, 32, c];
  }
}
