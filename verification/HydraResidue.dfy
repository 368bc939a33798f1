/** Evaluates the two registers that h_crc16test and h_crc32test compare with. Here words are
    bit-vectors, for which evaluation is cheap; Value ties them to the numbers that the other
    modules use. */
module HydraResidue {
  import opened Bits
  import opened HydraCrc

  predicate Odd(b: bv32) {
    b & 1 == 1
  }

  function Half(b: bv32): bv32 {
    b >> 1
  }

  function XorWord(a: bv32, b: bv32): bv32 {
    a ^ b
  }

  function Value(b: bv32): nat {
    if b == 0 then 0 else (if Odd(b) then 1 else 0) + 2 * Value(Half(b))
  }

  function WordBit(poly: bv32, x: bv32): bv32 {
    if Odd(x) then XorWord(Half(x), poly) else Half(x)
  }

  function WordSteps(poly: bv32, x: bv32, n: nat): bv32
    decreases n
  {
    if n == 0 then x else WordSteps(poly, WordBit(poly, x), n - 1)
  }

  lemma WordXorDigits(a: bv32, b: bv32)
    ensures Half(XorWord(a, b)) == XorWord(Half(a), Half(b))
    ensures Odd(XorWord(a, b)) <==> (Odd(a) != Odd(b))
  {
  }

  lemma WordXorZero(b: bv32)
    ensures XorWord(0, b) == b && Half(0) == 0 && !Odd(0)
  {
  }

  lemma ValueDigits(a: bv32)
    ensures Value(a) % 2 == (if Odd(a) then 1 else 0) && Value(a) / 2 == Value(Half(a))
  {
    hide Odd, Half;
    WordXorZero(0);
  }

  lemma HalfLess(a: bv32)
    requires a != 0
    ensures Half(a) < a
  {
  }

  lemma {:induction false} ValueXor(a: bv32, b: bv32)
    ensures Value(XorWord(a, b)) == Xor(Value(a), Value(b))
    decreases a
  {
    if a == 0 {
      WordXorZero(b);
    } else {
      HalfLess(a);
      ValueXor(Half(a), Half(b));
      ValueXorStep(a, b);
    }
  }

  lemma ValueXorStep(a: bv32, b: bv32)
    requires Value(XorWord(Half(a), Half(b))) == Xor(Value(Half(a)), Value(Half(b)))
    ensures Value(XorWord(a, b)) == Xor(Value(a), Value(b))
  {
    hide Xor, Value, Odd, Half, XorWord;
    WordXorDigits(a, b);
    ValueDigits(a);
    ValueDigits(b);
    ValueDigits(XorWord(a, b));
    XorDigits(Value(a), Value(b));
  }

  lemma {:induction false} ValueSteps(poly: bv32, x: bv32, n: nat)
    ensures Value(WordSteps(poly, x, n)) == Steps(Value(poly), Value(x), n)
    decreases n
  {
    hide Xor, Value, Odd, Half, XorWord;
    if n > 0 {
      ValueDigits(x);
      ValueXor(Half(x), poly);
      ValueSteps(poly, WordBit(poly, x), n - 1);
    }
  }

  /** The lowest hexadecimal digit. */
  lemma ValueHex(b: bv32)
    ensures Value(b) == 16 * Value(b >> 4) + (if b & 1 == 1 then 1 else 0) + (if b & 2 == 2 then 2 else 0)
      + (if b & 4 == 4 then 4 else 0) + (if b & 8 == 8 then 8 else 0)
  {
    NextDigits(b);
    ValueHexDigits(b);
  }

  lemma ValueHexDigits(b: bv32)
    ensures Value(b) == 16 * Value(Half(Half(Half(Half(b))))) + (if Odd(b) then 1 else 0)
      + (if Odd(Half(b)) then 2 else 0) + (if Odd(Half(Half(b))) then 4 else 0)
      + (if Odd(Half(Half(Half(b)))) then 8 else 0)
  {
    hide Value, Odd, Half;
    ValueDigits(b);
    ValueDigits(Half(b));
    ValueDigits(Half(Half(b)));
    ValueDigits(Half(Half(Half(b))));
  }

  lemma NextDigits(b: bv32)
    ensures Half(Half(Half(Half(b)))) == b >> 4
    ensures Odd(Half(b)) <==> b & 2 == 2
    ensures Odd(Half(Half(b))) <==> b & 4 == 4
    ensures Odd(Half(Half(Half(b)))) <==> b & 8 == 8
  {
  }

  lemma FourSteps(poly: bv32, x: bv32, n: nat, y: bv32)
    requires n >= 4 && y == WordBit(poly, WordBit(poly, WordBit(poly, WordBit(poly, x))))
    ensures WordSteps(poly, x, n) == WordSteps(poly, y, n - 4)
  {
    hide WordBit;
    var half := WordBit(poly, WordBit(poly, x));
    assert WordSteps(poly, x, n) == WordSteps(poly, half, n - 2);
    assert WordSteps(poly, half, n - 2) == WordSteps(poly, WordBit(poly, WordBit(poly, half)), n - 4);
  }

  lemma NoSteps(poly: bv32, x: bv32)
    ensures WordSteps(poly, x, 0) == x
  {
  }

  lemma NoValue(b: bv32)
    requires b == 0
    ensures Value(b) == 0
  {
  }

  lemma Values16()
    ensures Value(0x8408) == 0x8408 && Value(0xffff) == 0xffff && Value(0xf0b8) == 0xf0b8
  {
    hide Value;
    NoValue(0);
    ValueHex(0x8408);
    ValueHex(0x840);
    ValueHex(0x84);
    ValueHex(0x8);
    ValueHex(0xffff);
    ValueHex(0xfff);
    ValueHex(0xff);
    ValueHex(0xf);
    ValueHex(0xf0b8);
    ValueHex(0xf0b);
    ValueHex(0xf0);
  }

  lemma Values32()
    ensures Value(0xedb8_8320) == 0xedb8_8320
    ensures Value(0xffff_ffff) == 0xffff_ffff
    ensures Value(0xdebb_20e3) == 0xdebb_20e3
  {
    hide Value;
    NoValue(0);
    ValueHex(0xedb88320);
    ValueHex(0xedb8832);
    ValueHex(0xedb883);
    ValueHex(0xedb88);
    ValueHex(0xedb8);
    ValueHex(0xedb);
    ValueHex(0xed);
    ValueHex(0xe);
    ValueHex(0xffffffff);
    ValueHex(0xfffffff);
    ValueHex(0xffffff);
    ValueHex(0xfffff);
    ValueHex(0xffff);
    ValueHex(0xfff);
    ValueHex(0xff);
    ValueHex(0xf);
    ValueHex(0xdebb20e3);
    ValueHex(0xdebb20e);
    ValueHex(0xdebb20);
    ValueHex(0xdebb2);
    ValueHex(0xdebb);
    ValueHex(0xdeb);
    ValueHex(0xde);
    ValueHex(0xd);
  }

  lemma Steps16()
    ensures Steps(POLY16, 0xffff, 16) == 0xf0b8
  {
    hide WordSteps, Value, Steps;
    Values16();
    ValueSteps(0x8408, 0xffff, 16);
    FourSteps(0x8408, 0xffff, 16, 0xf870);
    FourSteps(0x8408, 0xf870, 12, 0xf87);
    FourSteps(0x8408, 0xf87, 8, 0x737f);
    FourSteps(0x8408, 0x737f, 4, 0xf0b8);
    NoSteps(0x8408, 0xf0b8);
  }

  lemma Steps32()
    ensures Steps(POLY32, 0xffff_ffff, 32) == 0xdebb_20e3
  {
    hide WordSteps, Value, Steps;
    Values32();
    ValueSteps(0xedb8_8320, 0xffff_ffff, 32);
    FourSteps(0xedb88320, 0xffffffff, 32, 0xb2420de3);
    FourSteps(0xedb88320, 0xb2420de3, 28, 0x2dfd1072);
    FourSteps(0xedb88320, 0x2dfd1072, 24, 0x39b1f1cf);
    FourSteps(0xedb88320, 0x39b1f1cf, 20, 0xbe26ed00);
    FourSteps(0xedb88320, 0xbe26ed00, 16, 0xbe26ed0);
    FourSteps(0xedb88320, 0xbe26ed0, 12, 0xbe26ed);
    FourSteps(0xedb88320, 0xbe26ed, 8, 0x86d830ba);
    FourSteps(0xedb88320, 0x86d830ba, 4, 0xdebb20e3);
    NoSteps(0xedb8_8320, 0xdebb_20e3);
  }

  /** h_crc16test accepts every message followed by its complemented CRC-16. */
  lemma Residue16(s: Bytes)
    ensures Crc16(s) <= 0xffff
    ensures Crc16(s + LittleEndian(0xffff - Crc16(s), 2)) == 0xf0b8
  {
    hide Xor, Steps, From, LittleEndian;
    Widths();
    Residue(POLY16, 0xffff, s, 2);
    Steps16();
  }

  /** h_crc32test accepts every message followed by its complemented CRC-32. */
  lemma Residue32(s: Bytes)
    ensures Crc32(s) <= 0xffff_ffff
    ensures Crc32(s + LittleEndian(0xffff_ffff - Crc32(s), 4)) == 0xdebb_20e3
  {
    hide Xor, Steps, From, LittleEndian;
    Widths();
    Residue(POLY32, 0xffff_ffff, s, 4);
    Steps32();
  }
}
