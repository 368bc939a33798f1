/** The CRC-32 that shifts towards the high end of its register: table, update, and the mirror
    that turns it into the reflected CRC-32. */
module MsbCrc {
  import opened Bits
  import HydraCrc

  const POLYNOMIAL := 0x04c1_1db7
  const TOP := 0x8000_0000
  const WORD := 0x1_0000_0000

  type Word = x: int | 0 <= x < 0x1_0000_0000

  // ----- bit-serial division -----------------------------------------------

  lemma WordXor(a: Word, b: Word)
    ensures Xor(a, b) < WORD
  {
    HydraCrc.Widths();
    XorBound(a, b, 32);
  }

  /** One step of division: shift, and subtract the polynomial if a bit falls out. */
  function Shift(x: Word): Word {
    if x >= TOP then
      WordXor((x - TOP) * 2, POLYNOMIAL);
      Xor((x - TOP) * 2, POLYNOMIAL)
    else x * 2
  }

  function Shifts(x: Word, n: nat): Word
    decreases n
  {
    if n == 0 then x else Shifts(Shift(x), n - 1)
  }

  /** A byte enters at the high end, then eight steps. */
  function Enter(crc: Word, c: Byte): Word {
    WordXor(crc, c as int * 0x100_0000);
    Shifts(Xor(crc, c as int * 0x100_0000), 8)
  }

  function Divide(crc: Word, s: Bytes): Word
    decreases |s|
  {
    if s == [] then crc else Divide(Enter(crc, s[0]), s[1..])
  }

  /** update_crc() */
  function Update(crc: Word, s: Bytes): Word {
    WORD - 1 - Divide(crc, s)
  }

  lemma {:induction false} DivideConcat(crc: Word, s: Bytes, t: Bytes)
    ensures Divide(crc, s + t) == Divide(Divide(crc, s), t)
    decreases |s|
  {
    if s == [] {
      assert s + t == t;
    } else {
      assert (s + t)[1..] == s[1..] + t;
      DivideConcat(Enter(crc, s[0]), s[1..], t);
    }
  }

  /** Updating in two calls takes the complement of the first result. */
  lemma UpdateConcat(crc: Word, s: Bytes, t: Bytes)
    ensures Update(crc, s + t) == Update(WORD - 1 - Update(crc, s), t)
  {
    DivideConcat(crc, s, t);
  }

  // ----- the mirror --------------------------------------------------------

  function Digit(b: bool, weight: nat): nat {
    if b then weight else 0
  }

  /** The n lowest digits of x in the opposite order. */
  function Mirror(x: nat, n: nat): (m: nat)
    ensures m < Pow2(n)
    decreases n
  {
    if n == 0 then 0 else Digit(x % 2 == 1, Pow2(n - 1)) + Mirror(x / 2, n - 1)
  }

  /** The highest digit becomes the lowest. */
  lemma {:induction false} MirrorTop(t: bool, y: nat, n: nat)
    requires y < Pow2(n)
    ensures Mirror(Digit(t, Pow2(n)) + y, n + 1) == Digit(t, 1) + 2 * Mirror(y, n)
    decreases n
  {
    if n > 0 {
      hide Digit;
      HighDigitParts(t, y, n);
      MirrorTop(t, y / 2, n - 1);
    }
  }

  lemma MirrorEven(y: nat, n: nat)
    ensures Mirror(2 * y, n + 1) == Mirror(y, n)
  {
  }

  lemma {:induction false} MirrorTwice(x: nat, n: nat)
    requires x < Pow2(n)
    ensures Mirror(Mirror(x, n), n) == x
    decreases n
  {
    if n > 0 {
      MirrorTop(x % 2 == 1, Mirror(x / 2, n - 1), n - 1);
      MirrorTwice(x / 2, n - 1);
    }
  }

  lemma ShlPow(t: nat, n: nat)
    ensures Shl(t, n) == t * Pow2(n)
    decreases n
  {
    if n > 0 {
      ShlPow(t, n - 1);
    }
  }

  lemma HighDigitParts(t: bool, a: nat, n: nat)
    requires n > 0
    ensures var x := Digit(t, Pow2(n)) + a; x % 2 == a % 2 && x / 2 == Digit(t, Pow2(n - 1)) + a / 2
  {
  }

  lemma SingleDigits(t: bool, u: bool)
    ensures Xor(Digit(t, 1), Digit(u, 1)) == Digit(t != u, 1)
  {
  }

  /** Numbers with one digit above the low n. */
  lemma {:induction false} XorHighDigit(t: bool, a: nat, u: bool, b: nat, n: nat)
    requires a < Pow2(n) && b < Pow2(n)
    ensures Xor(Digit(t, Pow2(n)) + a, Digit(u, Pow2(n)) + b) == Digit(t != u, Pow2(n)) + Xor(a, b)
    decreases n
  {
    hide Xor, Digit;
    if n == 0 {
      SingleDigits(t, u);
      NothingToXor();
    } else {
      var x, y := Digit(t, Pow2(n)) + a, Digit(u, Pow2(n)) + b;
      HighDigitParts(t, a, n);
      HighDigitParts(u, b, n);
      XorHighDigit(t, a / 2, u, b / 2, n - 1);
      XorDigits(x, y);
      XorDigits(a, b);
      HighDigitParts(t != u, Xor(a, b), n);
    }
  }

  lemma {:induction false} MirrorXor(a: nat, b: nat, n: nat)
    ensures Mirror(Xor(a, b), n) == Xor(Mirror(a, n), Mirror(b, n))
    decreases n
  {
    hide Xor;
    if n == 0 {
      NothingToXor();
    } else {
      XorDigits(a, b);
      MirrorXor(a / 2, b / 2, n - 1);
      XorHighDigit(a % 2 == 1, Mirror(a / 2, n - 1), b % 2 == 1, Mirror(b / 2, n - 1), n - 1);
    }
  }

  lemma NothingToXor()
    ensures Xor(0, 0) == 0
  {
  }

  /** A step of division, seen in the mirror, is a step of the reflected CRC. */
  lemma ShiftMirror(x: Word)
    requires Mirror(POLYNOMIAL, 32) == HydraCrc.POLY32
    ensures Mirror(Shift(x), 32) == HydraCrc.Bit(HydraCrc.POLY32, Mirror(x, 32))
  {
    hide Xor, Mirror;
    HydraCrc.Widths();
    HalfWord();
    var t, y := x >= TOP, if x >= TOP then x - TOP else x;
    MirrorTop(t, y, 31);
    MirrorEven(y, 31);
    MirrorXor(2 * y, POLYNOMIAL, 32);
  }

  lemma HalfWord()
    ensures Pow2(31) == TOP
  {
    HydraCrc.Widths();
  }

  lemma {:induction false} ShiftsMirror(x: Word, n: nat)
    requires Mirror(POLYNOMIAL, 32) == HydraCrc.POLY32
    ensures Mirror(Shifts(x, n), 32) == HydraCrc.Steps(HydraCrc.POLY32, Mirror(x, 32), n)
    decreases n
  {
    hide Shift, HydraCrc.Bit, Mirror;
    if n > 0 {
      ShiftMirror(x);
      ShiftsMirror(Shift(x), n - 1);
    }
  }

  /** Digits shifted up by k end up at the low end of the mirror. */
  lemma {:induction false} MirrorShl(y: nat, n: nat, k: nat)
    ensures Mirror(Shl(y, k), n + k) == Mirror(y, n)
    decreases k
  {
    if k > 0 {
      MirrorEven(Shl(y, k - 1), n + k - 1);
      MirrorShl(y, n, k - 1);
    }
  }

  lemma ByteMirror(c: Byte)
    ensures Mirror(c as int * 0x100_0000, 32) == Mirror(c, 8) < 256
  {
    hide Mirror;
    ByteShifts(0);
    ShlPow(c, 24);
    HydraCrc.PowStep(0);
    HydraCrc.PowStep(8);
    HydraCrc.PowStep(16);
    MirrorShl(c, 8, 24);
    assert Mirror(c, 8) < Pow2(8);
  }

  lemma EnterMirror(crc: Word, c: Byte)
    requires Mirror(POLYNOMIAL, 32) == HydraCrc.POLY32
    ensures Mirror(Enter(crc, c), 32) == HydraCrc.Steps(HydraCrc.POLY32, Xor(Mirror(crc, 32), Mirror(c, 8)), 8)
  {
    hide Xor, Mirror, Shifts, HydraCrc.Steps;
    WordXor(crc, c as int * 0x100_0000);
    ShiftsMirror(Xor(crc, c as int * 0x100_0000), 8);
    MirrorXor(crc, c as int * 0x100_0000, 32);
    ByteMirror(c);
  }

  /** The message with the bits of each byte in the opposite order. */
  function Mirrored(s: Bytes): (t: Bytes)
    ensures |t| == |s|
  {
    if s == [] then [] else
      ByteMirror(s[0]);
      [Mirror(s[0], 8)] + Mirrored(s[1..])
  }

  lemma {:induction false} DivideMirror(crc: Word, s: Bytes)
    requires Mirror(POLYNOMIAL, 32) == HydraCrc.POLY32
    ensures Mirror(Divide(crc, s), 32) == HydraCrc.From(HydraCrc.POLY32, Mirror(crc, 32), Mirrored(s))
    decreases |s|
  {
    hide Mirror, Enter, HydraCrc.Steps, Xor;
    if s != [] {
      EnterMirror(crc, s[0]);
      DivideMirror(Enter(crc, s[0]), s[1..]);
      assert Mirrored(s)[1..] == Mirrored(s[1..]);
    }
  }

  // ----- the polynomial in the mirror --------------------------------------

  lemma MirrorBit(y: nat, b: bool, n: nat)
    ensures Mirror(2 * y + Digit(b, 1), n + 1) == Digit(b, Pow2(n)) + Mirror(y, n)
  {
    assert (2 * y + Digit(b, 1)) / 2 == y;
  }

  /** The lowest four digits of a number go to the top. */
  lemma MirrorNibble(q: nat, b3: bool, b2: bool, b1: bool, b0: bool, n: nat)
    ensures Mirror(16 * q + Digit(b3, 8) + Digit(b2, 4) + Digit(b1, 2) + Digit(b0, 1), n + 4)
      == Digit(b0, 8 * Pow2(n)) + Digit(b1, 4 * Pow2(n)) + Digit(b2, 2 * Pow2(n)) + Digit(b3, Pow2(n)) + Mirror(q, n)
  {
    hide Mirror;
    var y3 := 2 * q + Digit(b3, 1);
    var y2 := 2 * y3 + Digit(b2, 1);
    var y1 := 2 * y2 + Digit(b1, 1);
    MirrorBit(q, b3, n);
    MirrorBit(y3, b2, n + 1);
    MirrorBit(y2, b1, n + 2);
    MirrorBit(y1, b0, n + 3);
    Powers(n);
  }

  lemma Powers(n: nat)
    ensures Pow2(n + 1) == 2 * Pow2(n) && Pow2(n + 2) == 4 * Pow2(n) && Pow2(n + 3) == 8 * Pow2(n)
    ensures Pow2(n + 4) == 16 * Pow2(n)
  {
  }

  lemma NothingToMirror(n: nat)
    ensures Mirror(0, 0) == 0 && Pow2(0) == 1
  {
  }

  lemma UpperHalfMirror()
    ensures Mirror(0x04c1, 16) == 0x8320 && Pow2(16) == 0x1_0000
  {
    hide Mirror, Pow2;
    Powers(0);
    Powers(4);
    Powers(8);
    Powers(12);
    NothingToMirror(0);
    MirrorNibble(0, false, false, false, false, 0);
    MirrorNibble(0x0, false, true, false, false, 4);
    MirrorNibble(0x04, true, true, false, false, 8);
    MirrorNibble(0x04c, false, false, false, true, 12);
  }

  /** The reflected polynomial is the mirror image of the standard one. */
  lemma PolynomialMirror()
    ensures Mirror(POLYNOMIAL, 32) == HydraCrc.POLY32
  {
    hide Mirror, Pow2;
    UpperHalfMirror();
    Powers(16);
    Powers(20);
    Powers(24);
    MirrorNibble(0x04c1, false, false, false, true, 16);
    MirrorNibble(0x04c11, true, true, false, true, 20);
    MirrorNibble(0x04c11d, true, false, true, true, 24);
    MirrorNibble(0x04c11db, false, true, true, true, 28);
  }

  lemma OnesMirror()
    ensures Mirror(WORD - 1, 32) == WORD - 1
  {
    MirrorOnes(32);
    HydraCrc.Widths();
  }

  lemma {:induction false} MirrorOnes(n: nat)
    ensures Mirror(Pow2(n) - 1, n) == Pow2(n) - 1
    decreases n
  {
    if n > 0 {
      assert (Pow2(n) - 1) / 2 == Pow2(n - 1) - 1 && (Pow2(n) - 1) % 2 == 1;
      MirrorOnes(n - 1);
    }
  }

  lemma {:induction false} MirrorComplement(x: nat, n: nat)
    requires x < Pow2(n)
    ensures Mirror(Pow2(n) - 1 - x, n) == Pow2(n) - 1 - Mirror(x, n)
    decreases n
  {
    if n > 0 {
      var y := Pow2(n) - 1 - x;
      assert y / 2 == Pow2(n - 1) - 1 - x / 2 && y % 2 != x % 2;
      MirrorComplement(x / 2, n - 1);
    }
  }

  /** On mirrored bytes and in the mirror, update_crc(-1, ...) is the complemented CRC-32 of a
      Hydra packet. */
  lemma UpdateIsHydraCrc(s: Bytes)
    ensures HydraCrc.Crc32(Mirrored(s)) < WORD
    ensures Mirror(Update(WORD - 1, s), 32) == WORD - 1 - HydraCrc.Crc32(Mirrored(s))
  {
    hide Mirror, HydraCrc.From, Divide;
    PolynomialMirror();
    OnesMirror();
    DivideMirror(WORD - 1, s);
    HydraCrc.Widths();
    MirrorComplement(Divide(WORD - 1, s), 32);
  }

  // ----- the code ----------------------------------------------------------

  /** The update of the table-driven code is a byte of bit-serial division. */
  lemma TableStep(crc: Word, c: Byte)
    ensures var i := Xor(crc / 0x100_0000, c);
      && i < 256
      && Xor(crc % 0x100_0000 * 256, Shifts(i * 0x100_0000, 8)) < WORD
      && Xor(crc % 0x100_0000 * 256, Shifts(i * 0x100_0000, 8)) == Enter(crc, c)
  {
    hide Xor, Shifts, Mirror, HydraCrc.Steps, Shift;
    var low, high := crc % 0x100_0000, crc / 0x100_0000;
    ByteXor(high, c);
    var i := Xor(high, c);
    WordXor(low * 256, Shifts(i * 0x100_0000, 8));
    SplitWord(crc, c);
    ShiftsLinear(low, i);
  }

  lemma ByteXor(a: Byte, b: Byte)
    ensures Xor(a, b) < 256
  {
    ByteShifts(0);
    XorBound(a, b, 8);
  }

  /** The byte only meets the highest eight digits. */
  lemma SplitWord(crc: Word, c: Byte)
    ensures Xor(crc / 0x100_0000, c) < 256
    ensures Xor(crc, c as int * 0x100_0000) == Xor(crc / 0x100_0000, c) * 0x100_0000 + crc % 0x100_0000
  {
    hide Xor;
    var low, high := crc % 0x100_0000, crc / 0x100_0000;
    ByteXor(high, c);
    TwentyFour();
    ShlPow(high, 24);
    ShlPow(c, 24);
    ShlPow(Xor(high, c), 24);
    XorJoin(low, high, 24);
    XorJoin(low, Xor(high, c), 24);
    XorShl(high, c, 24);
    XorAssoc(low, Shl(high, 24), Shl(c, 24));
  }

  lemma TwentyFour()
    ensures Pow2(24) == 0x100_0000
  {
    HydraCrc.PowStep(0);
    HydraCrc.PowStep(8);
    HydraCrc.PowStep(16);
  }

  lemma {:induction false} XorShl(a: nat, b: nat, n: nat)
    ensures Xor(Shl(a, n), Shl(b, n)) == Shl(Xor(a, b), n)
    decreases n
  {
    hide Xor, Shl;
    ShlNext(a, n);
    ShlNext(b, n);
    ShlNext(Xor(a, b), n);
    if n > 0 {
      XorShl(a, b, n - 1);
      XorDoubles(Shl(a, n - 1), Shl(b, n - 1));
    }
  }

  lemma ShlNext(a: nat, n: nat)
    ensures Shl(a, n) == if n == 0 then a else 2 * Shl(a, n - 1)
  {
  }

  lemma XorDoubles(a: nat, b: nat)
    ensures Xor(2 * a, 2 * b) == 2 * Xor(a, b)
  {
    hide Xor;
    XorDigits(2 * a, 2 * b);
  }

  /** Digits that do not reach the high end are only shifted. */
  lemma ShiftsLinear(low: nat, i: nat)
    requires low < 0x100_0000 && i < 256
    ensures Shifts(i * 0x100_0000 + low, 8) == Xor(low * 256, Shifts(i * 0x100_0000, 8))
  {
    hide Xor, Shifts, Shl, Pow2;
    TwentyFour();
    ShlPow(i, 24);
    XorJoin(low, i, 24);
    XorComm(low, i * 0x100_0000);
    WordXor(i * 0x100_0000, low);
    ShiftsXor(i * 0x100_0000, low, 8);
    ByteShifts(low);
    XorComm(low * 256, Shifts(i * 0x100_0000, 8));
  }

  lemma SmallOperand(z: nat, n: nat)
    requires n <= 8 && z < Pow2(32 - n)
    ensures z < WORD && (n > 0 ==> z < TOP && 2 * z < Pow2(32 - (n - 1)))
  {
    HydraCrc.Widths();
    HydraCrc.PowMonotone(32 - n, 32);
    if n > 0 {
      HydraCrc.PowMonotone(32 - n, 31);
      HalfWord();
      assert Pow2(32 - (n - 1)) == 2 * Pow2(32 - n);
    }
  }

  lemma NoShl(z: nat)
    ensures Shl(z, 0) == z
  {
  }

  lemma {:induction false} ShiftsXor(x: Word, z: nat, n: nat)
    requires n <= 8 && z < Pow2(32 - n)
    ensures Xor(x, z) < WORD && Shifts(Xor(x, z), n) == Xor(Shifts(x, n), Shl(z, n))
    decreases n
  {
    hide Xor, Shift, Pow2, Shl;
    SmallOperand(z, n);
    WordXor(x, z);
    if n == 0 {
      NoShl(z);
    } else {
      ShiftXor(x, z);
      ShiftsXor(Shift(x), 2 * z, n - 1);
      ShlTwice(z, n - 1);
    }
  }

  lemma {:induction false} ShlTwice(z: nat, n: nat)
    ensures Shl(2 * z, n) == Shl(z, n + 1)
    decreases n
  {
    if n > 0 {
      ShlTwice(z, n - 1);
    }
  }

  lemma ShiftXor(x: Word, z: nat)
    requires z < TOP
    ensures Xor(x, z) < WORD && Shift(Xor(x, z)) == Xor(Shift(x), 2 * z)
  {
    hide Xor, Pow2;
    HalfWord();
    WordXor(x, z);
    WordXor(POLYNOMIAL, 0);
    var t, y := x >= TOP, if x >= TOP then x - TOP else x;
    XorHighDigit(t, y, false, z, 31);
    XorBound(y, z, 31);
    XorDigits(2 * y, 2 * z);
    XorSwap(2 * y, 2 * z, POLYNOMIAL);
  }

  /** The table of gen_crc_table(), and update_crc(). */
  class Table {
    const crcTable: array<Word>

    ghost predicate Valid()
      reads crcTable
    {
      crcTable.Length == 256 && forall i :: 0 <= i < 256 ==> crcTable[i] == Shifts(i * 0x100_0000, 8)
    }

    constructor ()
      ensures Valid() && fresh(crcTable)
    {
      hide Shifts;
      crcTable := new Word[256];
      new;
      var i := 0;
      while i < 256
        invariant 0 <= i <= 256
        invariant forall k :: 0 <= k < i ==> crcTable[k] == Shifts(k * 0x100_0000, 8)
      {
        var crc := Entry(i);
        crcTable[i] := crc;
        i := i + 1;
      }
    }

    static method Entry(i: Byte) returns (crc: Word)
      ensures crc == Shifts(i as int * 0x100_0000, 8)
    {
      crc := i as int * 0x100_0000;
      var j := 8;
      while j > 0
        invariant 0 <= j <= 8
        invariant Shifts(crc, j) == Shifts(i as int * 0x100_0000, 8)
      {
        crc := Shift(crc);
        j := j - 1;
      }
    }

    /** update_crc() on the first bytes of a buffer. */
    method UpdateCrc(accum: Word, data: array<Byte>, size: nat) returns (crc: Word)
      requires Valid() && size <= data.Length
      ensures crc == Update(accum, data[..size])
    {
      hide Shifts, Xor, Enter;
      crc := accum;
      var j := 0;
      ghost var s := data[..size];
      assert s[0..] == s;
      while j < size
        invariant 0 <= j <= size
        invariant Divide(crc, s[j..]) == Divide(accum, s)
      {
        assert s[j..][0] == data[j] && s[j..][1..] == s[j + 1..];
        TableStep(crc, data[j]);
        var i := Xor(crc / 0x100_0000, data[j]);
        crc := Xor(crc % 0x100_0000 * 256, crcTable[i]);
        j := j + 1;
      }
      crc := WORD - 1 - crc;
    }
  }
}
