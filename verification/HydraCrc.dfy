/** Reflected CRCs of any width, and the two that Hydra packets use. The register shifts
    towards its low end; a byte enters there. */
module HydraCrc {
  import opened Bits

  const POLY16 := 0x8408
  const POLY32 := 0xedb8_8320

  // ----- bit-serial definition ---------------------------------------------

  function Bit(poly: nat, x: nat): nat {
    if x % 2 == 1 then Xor(x / 2, poly) else x / 2
  }

  function Steps(poly: nat, x: nat, n: nat): nat
    decreases n
  {
    if n == 0 then x else Steps(poly, Bit(poly, x), n - 1)
  }

  /** The register after a message: each byte enters, then eight steps. */
  function From(poly: nat, crc: nat, s: Bytes): nat
    decreases |s|
  {
    if s == [] then crc else From(poly, Steps(poly, Xor(crc, s[0]), 8), s[1..])
  }

  /** crc16block and crc32block */
  function Crc16(s: Bytes): nat {
    From(POLY16, 0xffff, s)
  }

  function Crc32(s: Bytes): nat {
    From(POLY32, 0xffff_ffff, s)
  }

  lemma {:induction false} FromConcat(poly: nat, crc: nat, s: Bytes, t: Bytes)
    ensures From(poly, crc, s + t) == From(poly, From(poly, crc, s), t)
    decreases |s|
  {
    if s == [] {
      assert s + t == t;
    } else {
      assert (s + t)[1..] == s[1..] + t;
      FromConcat(poly, Steps(poly, Xor(crc, s[0]), 8), s[1..], t);
    }
  }

  lemma {:induction false} StepsAgain(poly: nat, x: nat, n: nat, m: nat)
    ensures Steps(poly, x, n + m) == Steps(poly, Steps(poly, x, n), m)
    decreases n
  {
    if n > 0 {
      StepsAgain(poly, Bit(poly, x), n - 1, m);
    }
  }

  // ----- the register is linear --------------------------------------------

  lemma BitShifts(poly: nat, x: nat, z: nat)
    ensures Bit(poly, Xor(x, 2 * z)) == Xor(Bit(poly, x), z)
  {
    XorDigits(x, 2 * z);
    XorSwap(x / 2, z, poly);
  }

  /** Digits that do not reach the low end within n steps are only shifted. */
  lemma {:induction false} StepsShift(poly: nat, x: nat, z: nat, n: nat)
    ensures Steps(poly, Xor(x, Shl(z, n)), n) == Xor(Steps(poly, x, n), z)
    decreases n
  {
    if n > 0 {
      BitShifts(poly, x, Shl(z, n - 1));
      StepsShift(poly, Bit(poly, x), z, n - 1);
    }
  }

  /** The bytes of a message as one number, first byte lowest. */
  function Pack(s: Bytes): nat {
    if s == [] then 0 else s[0] + 256 * Pack(s[1..])
  }

  /** Processing a message is the same as entering it all at once. */
  lemma {:induction false} FromIsSteps(poly: nat, crc: nat, s: Bytes)
    ensures From(poly, crc, s) == Steps(poly, Xor(crc, Pack(s)), 8 * |s|)
    decreases |s|
  {
    hide Xor, Steps;
    if s == [] {
      XorZero(crc);
      StepsNone(poly, crc);
    } else {
      FromIsSteps(poly, Steps(poly, Xor(crc, s[0]), 8), s[1..]);
      EnterByte(poly, crc, s[0], Pack(s[1..]), 8 * |s[1..]|);
    }
  }

  lemma StepsNone(poly: nat, x: nat)
    ensures Steps(poly, x, 0) == x
  {
  }

  lemma EnterByte(poly: nat, crc: nat, c: Byte, rest: nat, n: nat)
    ensures Steps(poly, Xor(Steps(poly, Xor(crc, c), 8), rest), n) == Steps(poly, Xor(crc, c + 256 * rest), 8 + n)
  {
    hide Xor, Steps, Shl;
    var x := Xor(crc, c);
    ByteShifts(rest);
    XorJoin(c, rest, 8);
    XorAssoc(crc, c, Shl(rest, 8));
    StepsShift(poly, x, rest, 8);
    StepsAgain(poly, Xor(x, Shl(rest, 8)), 8, n);
  }

  // ----- the tables --------------------------------------------------------

  /** The update of the table-driven code equals eight bit steps. */
  lemma TableStep(poly: nat, crc: nat, c: Byte)
    ensures Xor(Steps(poly, Xor(crc, c) % 256, 8), crc / 256) == Steps(poly, Xor(crc, c), 8)
  {
    hide Xor, Steps, Shl, Shr, Low;
    var x := Xor(crc, c);
    ByteShifts(x);
    ByteShifts(crc);
    ByteShifts(c);
    ByteShifts(x / 256);
    XorShr(crc, c, 8);
    XorZero(crc / 256);
    LowHigh(x, 8);
    XorJoin(x % 256, x / 256, 8);
    StepsShift(poly, x % 256, x / 256, 8);
  }

  /** One turn of the loops of crc16block and crc32block. */
  lemma FromNext(poly: nat, crc: nat, s: Bytes)
    requires s != []
    ensures From(poly, crc, s) == From(poly, Xor(Steps(poly, Xor(crc, s[0]) % 256, 8), crc / 256), s[1..])
  {
    hide Xor, Steps;
    TableStep(poly, crc, s[0]);
  }

  lemma FromNothing(poly: nat, crc: nat)
    ensures From(poly, crc, []) == crc
  {
  }

  lemma XorZero(a: nat)
    ensures Xor(a, 0) == a
  {
  }

  // ----- width -------------------------------------------------------------

  /** The polynomial has exactly w digits, so that registers of w digits stay such. */
  predicate GoodPoly(poly: nat, w: nat) {
    w > 0 && Pow2(w - 1) <= poly < Pow2(w)
  }

  lemma BitBound(poly: nat, x: nat, w: nat)
    requires GoodPoly(poly, w) && x < Pow2(w)
    ensures Bit(poly, x) < Pow2(w)
  {
    XorBound(x / 2, poly, w);
  }

  lemma {:induction false} StepsBound(poly: nat, x: nat, w: nat, n: nat)
    requires GoodPoly(poly, w) && x < Pow2(w)
    ensures Steps(poly, x, n) < Pow2(w)
    decreases n
  {
    if n > 0 {
      BitBound(poly, x, w);
      StepsBound(poly, Bit(poly, x), w, n - 1);
    }
  }

  lemma {:induction false} PowMonotone(n: nat, m: nat)
    requires n <= m
    ensures Pow2(n) <= Pow2(m)
  {
    if n < m {
      PowMonotone(n, m - 1);
    }
  }

  lemma {:induction false} FromBound(poly: nat, crc: nat, s: Bytes, w: nat)
    requires GoodPoly(poly, w) && crc < Pow2(w) && w >= 8
    ensures From(poly, crc, s) < Pow2(w)
    decreases |s|
  {
    if s != [] {
      ByteShifts(0);
      PowMonotone(8, w);
      XorBound(crc, s[0], w);
      StepsBound(poly, Xor(crc, s[0]), w, 8);
      FromBound(poly, Steps(poly, Xor(crc, s[0]), 8), s[1..], w);
    }
  }

  // ----- the receiver's test -----------------------------------------------

  /** A number as k bytes, lowest first. */
  function LittleEndian(x: nat, k: nat): (s: Bytes)
    ensures |s| == k
    decreases k
  {
    if k == 0 then [] else [x % 256] + LittleEndian(x / 256, k - 1)
  }

  lemma {:induction false} PackLittleEndian(x: nat, k: nat)
    requires x < Pow2(8 * k)
    ensures Pack(LittleEndian(x, k)) == x
    decreases k
  {
    if k > 0 {
      ByteShifts(x);
      ShrBound(x, 8, 8 * (k - 1));
      PackLittleEndian(x / 256, k - 1);
      assert LittleEndian(x, k)[1..] == LittleEndian(x / 256, k - 1);
    }
  }

  /** A message followed by its complemented CRC, low byte first, leaves a register that does
      not depend on the message. */
  lemma Residue(poly: nat, ones: nat, s: Bytes, k: nat)
    requires k > 0 && GoodPoly(poly, 8 * k) && ones == Pow2(8 * k) - 1
    ensures From(poly, ones, s) <= ones
    ensures From(poly, ones, s + LittleEndian(ones - From(poly, ones, s), k)) == Steps(poly, ones, 8 * k)
  {
    hide Xor, Steps, From, Pack, LittleEndian;
    FromBound(poly, ones, s, 8 * k);
    var crc := From(poly, ones, s);
    var tail := LittleEndian(ones - crc, k);
    FromConcat(poly, ones, s, tail);
    FromIsSteps(poly, crc, tail);
    PackLittleEndian(ones - crc, k);
    XorOnes(crc, 8 * k);
    XorAssoc(crc, crc, ones);
    XorSelf(crc);
    XorComm(0, ones);
    XorZero(ones);
  }

  // ----- error detection ---------------------------------------------------

  lemma BitInjective(poly: nat, x: nat, y: nat, w: nat)
    requires GoodPoly(poly, w) && x < Pow2(w) && y < Pow2(w) && Bit(poly, x) == Bit(poly, y)
    ensures x == y
  {
    if x % 2 == y % 2 {
      XorCancel(x / 2, poly);
      XorCancel(y / 2, poly);
    } else {
      TopDigit(poly, x / 2, w);
      TopDigit(poly, y / 2, w);
    }
  }

  lemma TopDigit(poly: nat, h: nat, w: nat)
    requires GoodPoly(poly, w) && h < Pow2(w - 1)
    ensures Xor(h, poly) >= Pow2(w - 1)
  {
    if Xor(h, poly) < Pow2(w - 1) {
      XorBound(Xor(h, poly), h, w - 1);
      XorComm(h, poly);
      XorCancel(poly, h);
    }
  }

  lemma {:induction false} StepsInjective(poly: nat, x: nat, y: nat, w: nat, n: nat)
    requires GoodPoly(poly, w) && x < Pow2(w) && y < Pow2(w) && Steps(poly, x, n) == Steps(poly, y, n)
    ensures x == y
    decreases n
  {
    if n > 0 {
      BitBound(poly, x, w);
      BitBound(poly, y, w);
      StepsInjective(poly, Bit(poly, x), Bit(poly, y), w, n - 1);
      BitInjective(poly, x, y, w);
    }
  }

  lemma {:induction false} PackBound(s: Bytes)
    ensures Pack(s) < Pow2(8 * |s|)
  {
    if s != [] {
      PackBound(s[1..]);
      PowStep(8 * |s[1..]|);
    }
  }

  lemma PowStep(m: nat)
    ensures Pow2(m + 8) == 256 * Pow2(m)
  {
    assert Pow2(m + 2) == 4 * Pow2(m);
    assert Pow2(m + 4) == 4 * Pow2(m + 2);
    assert Pow2(m + 6) == 4 * Pow2(m + 4);
    assert Pow2(m + 8) == 4 * Pow2(m + 6);
  }

  lemma {:induction false} PackInjective(s: Bytes, t: Bytes)
    requires |s| == |t| && Pack(s) == Pack(t)
    ensures s == t
  {
    if s != [] {
      assert Pack(s) % 256 == s[0] && Pack(t) % 256 == t[0];
      PackInjective(s[1..], t[1..]);
      assert s == [s[0]] + s[1..] && t == [t[0]] + t[1..];
    }
  }

  lemma {:induction false} FromInjective(poly: nat, x: nat, y: nat, s: Bytes, w: nat)
    requires GoodPoly(poly, w) && w >= 8 && x < Pow2(w) && y < Pow2(w)
    requires From(poly, x, s) == From(poly, y, s)
    ensures x == y
    decreases |s|
  {
    PackBound(s);
    if s != [] {
      ByteShifts(0);
      PowMonotone(8, w);
      var x', y' := Xor(x, s[0]), Xor(y, s[0]);
      XorBound(x, s[0], w);
      XorBound(y, s[0], w);
      StepsBound(poly, x', w, 8);
      StepsBound(poly, y', w, 8);
      FromInjective(poly, Steps(poly, x', 8), Steps(poly, y', 8), s[1..], w);
      StepsInjective(poly, x', y', w, 8);
      XorCancel(x, s[0]);
      XorCancel(y, s[0]);
    }
  }

  /** Two messages of the same length that differ only within a window no wider than the
      register never have the same CRC. */
  lemma DetectsBurst(poly: nat, init: nat, before: Bytes, x: Bytes, y: Bytes, after: Bytes, k: nat)
    requires k > 0 && GoodPoly(poly, 8 * k) && init < Pow2(8 * k)
    requires |x| == |y| <= k
    requires From(poly, init, before + x + after) == From(poly, init, before + y + after)
    ensures x == y
  {
    var w := 8 * k;
    var crc := From(poly, init, before);
    FromBound(poly, init, before, w);
    FromConcat(poly, init, before + x, after);
    FromConcat(poly, init, before + y, after);
    FromConcat(poly, init, before, x);
    FromConcat(poly, init, before, y);
    FromBound(poly, crc, x, w);
    FromBound(poly, crc, y, w);
    FromInjective(poly, From(poly, crc, x), From(poly, crc, y), after, w);
    FromIsSteps(poly, crc, x);
    FromIsSteps(poly, crc, y);
    PackBound(x);
    PackBound(y);
    PowMonotone(8 * |x|, w);
    XorBound(crc, Pack(x), w);
    XorBound(crc, Pack(y), w);
    StepsInjective(poly, Xor(crc, Pack(x)), Xor(crc, Pack(y)), w, 8 * |x|);
    XorComm(crc, Pack(x));
    XorComm(crc, Pack(y));
    XorCancel(Pack(x), crc);
    XorCancel(Pack(y), crc);
    PackInjective(x, y);
  }

  // ----- Hydra's two CRCs --------------------------------------------------

  lemma Widths()
    ensures Pow2(16) == 0x1_0000 && Pow2(32) == 0x1_0000_0000
    ensures GoodPoly(POLY16, 16) && GoodPoly(POLY32, 32)
  {
    PowStep(0);
    PowStep(8);
    PowStep(16);
    PowStep(24);
  }

  /** CRC-16 tells apart messages that differ within two adjacent bytes, CRC-32 within four. */
  lemma HydraDetectsBursts(before: Bytes, x: Bytes, y: Bytes, after: Bytes)
    requires |x| == |y| && x != y
    ensures |x| <= 2 ==> Crc16(before + x + after) != Crc16(before + y + after)
    ensures |x| <= 4 ==> Crc32(before + x + after) != Crc32(before + y + after)
  {
    Widths();
    if |x| <= 2 && Crc16(before + x + after) == Crc16(before + y + after) {
      DetectsBurst(POLY16, 0xffff, before, x, y, after, 2);
    }
    if |x| <= 4 && Crc32(before + x + after) == Crc32(before + y + after) {
      DetectsBurst(POLY32, 0xffff_ffff, before, x, y, after, 4);
    }
  }

  // ----- the code ----------------------------------------------------------

  /** The tables that hydra_init() fills. */
  class Tables {
    const crc16tab: array<nat>
    const crc32tab: array<nat>

    ghost predicate Valid()
      reads crc16tab, crc32tab
    {
      && crc16tab.Length == 256 && crc32tab.Length == 256
      && (forall i :: 0 <= i < 256 ==> crc16tab[i] == Steps(POLY16, i, 8))
      && (forall i :: 0 <= i < 256 ==> crc32tab[i] == Steps(POLY32, i, 8))
    }

    constructor ()
      ensures Valid() && fresh(crc16tab) && fresh(crc32tab)
    {
      hide Xor, Steps;
      crc16tab := new nat[256];
      crc32tab := new nat[256];
      new;
      var i := 0;
      while i < 256
        invariant 0 <= i <= 256
        invariant forall k :: 0 <= k < i ==> crc16tab[k] == Steps(POLY16, k, 8)
        invariant forall k :: 0 <= k < i ==> crc32tab[k] == Steps(POLY32, k, 8)
      {
        var crc16, crc32 := Entry(i);
        crc16tab[i] := crc16;
        crc32tab[i] := crc32;
        i := i + 1;
      }
    }

    /** The inner loop: eight shifts of both registers. */
    static method Entry(i: nat) returns (crc16: nat, crc32: nat)
      ensures crc16 == Steps(POLY16, i, 8) && crc32 == Steps(POLY32, i, 8)
    {
      crc16, crc32 := i, i;
      var j := 8;
      while j > 0
        invariant 0 <= j <= 8
        invariant Steps(POLY16, crc16, j) == Steps(POLY16, i, 8)
        invariant Steps(POLY32, crc32, j) == Steps(POLY32, i, 8)
      {
        crc16 := if crc16 % 2 == 1 then Xor(crc16 / 2, POLY16) else crc16 / 2;
        crc32 := if crc32 % 2 == 1 then Xor(crc32 / 2, POLY32) else crc32 / 2;
        j := j - 1;
      }
    }

    /** crc16block on the len bytes at the given place of a buffer. */
    method Block16(buf: array<Byte>, at: nat, len: nat) returns (crc: nat)
      requires Valid() && at + len <= buf.Length
      ensures crc == Crc16(buf[at..at + len])
    {
      hide Xor, Steps, From;
      crc := 0xffff;
      var i := 0;
      while i < len
        invariant 0 <= i <= len
        invariant From(POLY16, crc, buf[at + i..at + len]) == Crc16(buf[at..at + len])
      {
        FromNext(POLY16, crc, buf[at + i..at + len]);
        assert buf[at + i..at + len][1..] == buf[at + i + 1..at + len];
        crc := Xor(crc16tab[Xor(crc, buf[at + i]) % 256], crc / 256);
        i := i + 1;
      }
      assert buf[at + len..at + len] == [];
      FromNothing(POLY16, crc);
    }

    /** crc32block */
    method Block32(buf: array<Byte>, at: nat, len: nat) returns (crc: nat)
      requires Valid() && at + len <= buf.Length
      ensures crc == Crc32(buf[at..at + len])
    {
      hide Xor, Steps, From;
      crc := 0xffff_ffff;
      var i := 0;
      while i < len
        invariant 0 <= i <= len
        invariant From(POLY32, crc, buf[at + i..at + len]) == Crc32(buf[at..at + len])
      {
        FromNext(POLY32, crc, buf[at + i..at + len]);
        assert buf[at + i..at + len][1..] == buf[at + i + 1..at + len];
        crc := Xor(crc32tab[Xor(crc, buf[at + i]) % 256], crc / 256);
        i := i + 1;
      }
      assert buf[at + len..at + len] == [];
      FromNothing(POLY32, crc);
    }
  }
}
