/** Machine words as natural numbers: exclusive or by binary digits, powers of two, bytes. */
module Bits {

  type Byte = x: int | 0 <= x < 256

  type Bytes = seq<Byte>

  function Pow2(n: nat): (p: nat)
    ensures p > 0
  {
    if n == 0 then 1 else 2 * Pow2(n - 1)
  }

  /** Small powers of two, without recursion. */
  function Power(n: nat): nat
    requires n < 8
  {
    if n == 0 then 1 else if n == 1 then 2 else if n == 2 then 4 else if n == 3 then 8
    else if n == 4 then 16 else if n == 5 then 32 else if n == 6 then 64 else 128
  }

  /** Exclusive or. */
  function Xor(a: nat, b: nat): nat {
    if a == 0 then b
    else if b == 0 then a
    else (if a % 2 != b % 2 then 1 else 0) + 2 * Xor(a / 2, b / 2)
  }

  // ----- Xor as a group ----------------------------------------------------

  lemma {:induction false} XorDigits(a: nat, b: nat)
    ensures Xor(a, b) / 2 == Xor(a / 2, b / 2)
    ensures Xor(a, b) % 2 == if a % 2 != b % 2 then 1 else 0
  {
  }

  lemma {:induction false} XorSelf(a: nat)
    ensures Xor(a, a) == 0
  {
    if a != 0 {
      XorSelf(a / 2);
    }
  }

  lemma {:induction false} XorComm(a: nat, b: nat)
    ensures Xor(a, b) == Xor(b, a)
  {
    if a != 0 && b != 0 {
      XorComm(a / 2, b / 2);
    }
  }

  lemma {:induction false} XorAssoc(a: nat, b: nat, c: nat)
    ensures Xor(Xor(a, b), c) == Xor(a, Xor(b, c))
  {
    if a != 0 && b != 0 && c != 0 {
      XorAssoc(a / 2, b / 2, c / 2);
      XorDigits(a, b);
      XorDigits(b, c);
      XorDigits(Xor(a, b), c);
      XorDigits(a, Xor(b, c));
    }
  }

  /** (a ^ b) ^ b == a */
  lemma XorCancel(a: nat, b: nat)
    ensures Xor(Xor(a, b), b) == a
  {
    XorAssoc(a, b, b);
    XorSelf(b);
    XorComm(a, 0);
  }

  /** The middle two of four operands may change places. */
  lemma XorSwap(a: nat, b: nat, c: nat)
    ensures Xor(Xor(a, b), c) == Xor(Xor(a, c), b)
  {
    XorAssoc(a, b, c);
    XorComm(b, c);
    XorAssoc(a, c, b);
  }

  // ----- shifts ------------------------------------------------------------

  function Shr(a: nat, n: nat): nat
    decreases n
  {
    if n == 0 then a else Shr(a / 2, n - 1)
  }

  function Shl(a: nat, n: nat): nat
    decreases n
  {
    if n == 0 then a else 2 * Shl(a, n - 1)
  }

  /** The lowest n digits. */
  function Low(a: nat, n: nat): nat
    decreases n
  {
    if n == 0 then 0 else a % 2 + 2 * Low(a / 2, n - 1)
  }

  lemma {:induction false} XorShr(a: nat, b: nat, n: nat)
    ensures Shr(Xor(a, b), n) == Xor(Shr(a, n), Shr(b, n))
    decreases n
  {
    if n > 0 {
      XorDigits(a, b);
      XorShr(a / 2, b / 2, n - 1);
    }
  }

  lemma LowDigits(a: nat, n: nat)
    requires n > 0
    ensures Low(a, n) / 2 == Low(a / 2, n - 1) && Low(a, n) % 2 == a % 2
  {
  }

  lemma {:induction false} XorLow(a: nat, b: nat, n: nat)
    ensures Low(Xor(a, b), n) == Xor(Low(a, n), Low(b, n))
    decreases n
  {
    if n > 0 {
      XorLow(a / 2, b / 2, n - 1);
      LowDigits(a, n);
      LowDigits(b, n);
      LowDigits(Xor(a, b), n);
      XorDigits(a, b);
      XorDigits(Low(a, n), Low(b, n));
    }
  }

  /** Joining a low part to a high part is exclusive or. */
  lemma {:induction false} XorJoin(low: nat, high: nat, n: nat)
    requires low < Pow2(n)
    ensures Xor(low, Shl(high, n)) == low + Shl(high, n)
    decreases n
  {
    if n > 0 {
      XorJoin(low / 2, high, n - 1);
      XorDigits(low, Shl(high, n));
    }
  }

  lemma {:induction false} XorBound(a: nat, b: nat, n: nat)
    requires a < Pow2(n) && b < Pow2(n)
    ensures Xor(a, b) < Pow2(n)
    decreases n
  {
    if n > 0 && a != 0 && b != 0 {
      XorBound(a / 2, b / 2, n - 1);
    }
  }

  /** Xor with all ones is the complement. */
  lemma {:induction false} XorOnes(a: nat, n: nat)
    requires a < Pow2(n)
    ensures Xor(a, Pow2(n) - 1) == Pow2(n) - 1 - a
    decreases n
  {
    if n > 0 {
      XorOnes(a / 2, n - 1);
      XorDigits(a, Pow2(n) - 1);
      assert (Pow2(n) - 1) / 2 == Pow2(n - 1) - 1;
    }
  }

  lemma {:induction false} ShrShl(a: nat, n: nat)
    ensures Shr(Shl(a, n), n) == a
    decreases n
  {
    if n > 0 {
      ShrShl(a, n - 1);
    }
  }

  /** A number is its low part joined to its high part. */
  lemma {:induction false} LowHigh(a: nat, n: nat)
    ensures a == Low(a, n) + Shl(Shr(a, n), n) && Low(a, n) < Pow2(n)
    decreases n
  {
    if n > 0 {
      LowHigh(a / 2, n - 1);
    }
  }

  lemma {:induction false} ShrBound(a: nat, n: nat, m: nat)
    requires a < Pow2(n + m)
    ensures Shr(a, n) < Pow2(m)
    decreases n
  {
    if n > 0 {
      ShrBound(a / 2, n - 1, m);
    }
  }

  /** Shifts by the widths that occur as divisions by constants. */
  lemma ByteShifts(a: nat)
    ensures Shr(a, 8) == a / 256 && Low(a, 8) == a % 256 && Shl(a, 8) == 256 * a && Pow2(8) == 256
    ensures Shr(a, 4) == a / 16 && Low(a, 4) == a % 16 && Shl(a, 4) == 16 * a && Pow2(4) == 16
  {
    hide Shr, Low, Shl;
    NibbleShifts(a);
    NibbleShifts(a / 16);
    NibbleShifts(16 * a);
    NibbleShifts(a / 16 % 16);
    ShrAgain(a, 4, 4);
    LowAgain(a, 4, 4);
    ShlAgain(a, 4, 4);
    assert Pow2(6) == 64;
  }

  lemma NibbleShifts(a: nat)
    ensures Shr(a, 4) == a / 16 && Low(a, 4) == a % 16 && Shl(a, 4) == 16 * a && Pow2(4) == 16
  {
    assert Shr(a, 2) == a / 2 / 2 == a / 4;
    assert Shr(a / 4, 2) == a / 4 / 2 / 2;
    assert Low(a / 4, 2) == a / 4 % 4;
    assert Low(a, 4) == a % 2 + 2 * (a / 2 % 2 + 2 * Low(a / 2 / 2, 2));
  }

  lemma {:induction false} ShrAgain(a: nat, n: nat, m: nat)
    ensures Shr(a, n + m) == Shr(Shr(a, n), m)
    decreases n
  {
    if n > 0 {
      ShrAgain(a / 2, n - 1, m);
    }
  }

  lemma {:induction false} ShlAgain(a: nat, n: nat, m: nat)
    ensures Shl(a, n + m) == Shl(Shl(a, n), m)
    decreases m
  {
    if m > 0 {
      ShlAgain(a, n, m - 1);
    }
  }

  lemma {:induction false} LowAgain(a: nat, n: nat, m: nat)
    ensures Low(a, n + m) == Low(a, n) + Shl(Low(Shr(a, n), m), n)
    decreases n
  {
    if n > 0 {
      LowAgain(a / 2, n - 1, m);
    }
  }
}
