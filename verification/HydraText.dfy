/** Numbers and strings in packet bodies, as C lays them out in a buffer and reads them back. */
module HydraText {
  import opened Bits
  import HydraWire

  // ----- longs -------------------------------------------------------------

  /** A signed long of 32 bits. */
  predicate InLong(x: int) {
    -0x8000_0000 <= x < 0x8000_0000
  }

  /** The 32 bits of a long. */
  function Bits32(x: int): nat {
    x % 0x1_0000_0000
  }

  function Signed(w: nat): int {
    if w >= 0x8000_0000 then w - 0x1_0000_0000 else w
  }

  /** h_long1(txbufin) = x, on a machine that stores the low byte first. */
  function Long(x: int): (s: Bytes)
    ensures |s| == 4
  {
    var w := Bits32(x);
    [w % 0x100, w / 0x100 % 0x100, w / 0x1_0000 % 0x100, w / 0x100_0000]
  }

  /** A byte of the receive buffer. */
  function At(buf: Bytes, i: nat): Byte {
    if i < |buf| then buf[i] else 0
  }

  function ReadLong(buf: Bytes, at: nat): int {
    Signed(At(buf, at) + 0x100 * At(buf, at + 1) + 0x1_0000 * At(buf, at + 2) + 0x100_0000 * At(buf, at + 3))
  }

  lemma FourBytes(w: nat)
    ensures w == w % 0x100 + 0x100 * (w / 0x100 % 0x100) +
      0x1_0000 * (w / 0x1_0000 % 0x100) + 0x100_0000 * (w / 0x100_0000)
  {
    assert w / 0x1_0000 == w / 0x100 / 0x100;
    assert w / 0x100_0000 == w / 0x1_0000 / 0x100;
  }

  lemma SignedBits(x: int)
    ensures Signed(Bits32(x)) == x <==> InLong(x)
  {
  }

  lemma ReadAt(buf: Bytes, at: nat, x: int)
    requires at + 4 <= |buf| && buf[at..at + 4] == Long(x)
    ensures ReadLong(buf, at) == Signed(Bits32(x))
  {
    var s := buf[at..at + 4];
    assert buf[at] == s[0] && buf[at + 1] == s[1] && buf[at + 2] == s[2] && buf[at + 3] == s[3];
    FourBytes(Bits32(x));
    hide Signed, Bits32;
  }

  /** A number comes back from the wire exactly if it fits a long. */
  lemma LongRoundTrip(x: int, before: Bytes, after: Bytes)
    ensures ReadLong(before + Long(x) + after, |before|) == x <==> InLong(x)
  {
    hide Long, ReadLong, Signed, Bits32, InLong;
    ReadAt(before + Long(x) + after, |before|, x);
    SignedBits(x);
  }

  // ----- strings -----------------------------------------------------------

  /** A string of C: no character is NUL. */
  predicate Plain(s: string) {
    forall c | c in s :: 0 < c as int < 256
  }

  function Chars(s: string): Bytes {
    seq(|s|, i requires 0 <= i < |s| => s[i] as int % 256)
  }

  /** s with its NUL. */
  function Ended(s: string): Bytes {
    Chars(s) + [0]
  }

  /** strlen() */
  function StrLen(buf: Bytes, at: nat): nat
    decreases |buf| - at
  {
    if at >= |buf| || buf[at] == 0 then 0 else 1 + StrLen(buf, at + 1)
  }

  lemma {:induction false} StrLenInside(buf: Bytes, at: nat)
    requires at <= |buf|
    ensures at + StrLen(buf, at) <= |buf|
    decreases |buf| - at
  {
    if at < |buf| && buf[at] != 0 {
      StrLenInside(buf, at + 1);
    }
  }

  lemma {:induction false} StrLenStops(buf: Bytes, at: nat)
    requires at + StrLen(buf, at) < |buf|
    ensures buf[at + StrLen(buf, at)] == 0
    ensures forall i | at <= i < at + StrLen(buf, at) :: buf[i] != 0
    decreases |buf| - at
  {
    if buf[at] != 0 {
      StrLenStops(buf, at + 1);
    }
  }

  function Text(buf: Bytes, at: nat): string {
    seq(StrLen(buf, at), i requires 0 <= i => At(buf, at + i) as char)
  }

  lemma {:induction false} StrLenIs(buf: Bytes, at: nat, n: nat)
    requires at + n < |buf| && buf[at + n] == 0 && forall i | at <= i < at + n :: buf[i] != 0
    ensures StrLen(buf, at) == n
    decreases n
  {
    if n > 0 {
      StrLenIs(buf, at + 1, n - 1);
    }
  }

  lemma TextBack(before: Bytes, s: string, after: Bytes)
    requires Plain(s)
    ensures Text(before + Chars(s) + [0] + after, |before|) == s
    ensures StrLen(before + Chars(s) + [0] + after, |before|) == |s|
  {
    var buf := before + Chars(s) + [0] + after;
    assert buf[|before| + |s|] == 0;
    forall i | 0 <= i < |s| ensures buf[|before| + i] as char == s[i] && buf[|before| + i] != 0 {
      assert buf[|before| + i] == Chars(s)[i];
      assert s[i] in s;
    }
    forall i | |before| <= i < |before| + |s| ensures buf[i] != 0 {
      assert buf[|before| + (i - |before|)] != 0;
    }
    StrLenIs(buf, |before|, |s|);
    forall i | 0 <= i < |s| ensures Text(buf, |before|)[i] == s[i] {
      assert Text(buf, |before|)[i] == At(buf, |before| + i) as char;
      assert buf[|before| + i] as char == s[i];
    }
  }

  lemma NextText(before: Bytes, s: string, after: Bytes)
    requires Plain(s)
    ensures var buf := before + (Ended(s) + after);
      Text(buf, |before|) == s && StrLen(buf, |before|) == |s|
    ensures before + (Ended(s) + after) == (before + Ended(s)) + after && |before + Ended(s)| == |before| + |s| + 1
  {
    hide Text, StrLen;
    TextBack(before, s, after);
    assert before + Chars(s) + [0] + after == before + (Ended(s) + after);
  }

  lemma CharsLength()
    ensures forall s :: |Chars(s)| == |s|
  {
  }

  // ----- longs as text -----------------------------------------------------

  /** The lowest n hexadecimal digits of w, highest first. */
  function Digits(w: nat, n: nat): (s: Bytes)
    ensures |s| == n
  {
    if n == 0 then [] else Digits(w / 16, n - 1) + [HydraWire.HexDigit(w % 16)]
  }

  /** The value of a hexadecimal digit for scanf(), or -1. */
  function ScanVal(c: Byte): int {
    if 48 <= c <= 57 then c - 48 else if 97 <= c <= 102 then c - 87 else if 65 <= c <= 70 then c - 55 else -1
  }

  function Value(digits: Bytes): int {
    if digits == [] then 0 else 16 * Value(digits[..|digits| - 1]) + ScanVal(digits[|digits| - 1])
  }

  /** How many of the next n bytes are digits. */
  function DigitRun(buf: Bytes, at: nat, n: nat): (k: nat)
    ensures k <= n
    decreases n
  {
    if n == 0 || ScanVal(At(buf, at)) < 0 then 0 else 1 + DigitRun(buf, at + 1, n - 1)
  }

  function Copied(buf: Bytes, at: nat, n: nat): Bytes {
    seq<Byte>(n, i requires 0 <= i < n => At(buf, at + i))
  }

  /** "%08lx" in scanf(). */
  function ScanLong(buf: Bytes, at: nat): int {
    Signed(Bits32(Value(Copied(buf, at, DigitRun(buf, at, 8)))))
  }

  function Pow16(n: nat): nat {
    if n == 0 then 1 else 16 * Pow16(n - 1)
  }

  lemma {:induction false} ValueOfDigits(w: nat, n: nat)
    requires w < Pow16(n)
    ensures Value(Digits(w, n)) == w
    ensures forall i | 0 <= i < n :: ScanVal(Digits(w, n)[i]) >= 0
  {
    if n > 0 {
      ValueOfDigits(w / 16, n - 1);
      assert Digits(w, n)[..n - 1] == Digits(w / 16, n - 1);
    }
  }

  lemma {:induction false} DigitRunIs(buf: Bytes, at: nat, n: nat)
    requires at + n <= |buf| && forall i | at <= i < at + n :: ScanVal(buf[i]) >= 0
    ensures DigitRun(buf, at, n) == n
    decreases n
  {
    if n > 0 {
      DigitRunIs(buf, at + 1, n - 1);
    }
  }

  lemma ScanBack(before: Bytes, x: int, after: Bytes)
    requires InLong(x)
    ensures var buf := before + (Digits(Bits32(x), 8) + after);
      ScanLong(buf, |before|) == x && DigitRun(buf, |before|, 8) == 8
  {
    hide Digits, ScanVal, Value, Pow16, DigitRun, Signed, Bits32, InLong;
    var ds := Digits(Bits32(x), 8);
    var buf := before + (ds + after);
    assert Bits32(x) < Pow16(8) by { PowerOfEight(); BitsBound(x); }
    ValueOfDigits(Bits32(x), 8);
    forall i | |before| <= i < |before| + 8 ensures ScanVal(buf[i]) >= 0 {
      assert buf[i] == ds[i - |before|];
    }
    DigitRunIs(buf, |before|, 8);
    forall i | 0 <= i < 8 ensures Copied(buf, |before|, 8)[i] == ds[i] {
      assert buf[|before| + i] == ds[i];
      assert Copied(buf, |before|, 8)[i] == At(buf, |before| + i);
    }
    assert Copied(buf, |before|, 8) == ds;
    assert Bits32(Bits32(x)) == Bits32(x) by { BitsBound(x); }
    SignedBits(x);
  }

  lemma BitsBound(x: int)
    ensures Bits32(x) < 0x1_0000_0000 && Bits32(Bits32(x)) == Bits32(x)
  {
  }

  lemma PowerOfEight()
    ensures Pow16(8) == 0x1_0000_0000
  {
    assert Pow16(2) == 256;
    assert Pow16(4) == 0x1_0000;
    assert Pow16(6) == 0x100_0000;
  }

  lemma Assoc(a: Bytes, b: Bytes, c: Bytes)
    ensures a + (b + c) == a + b + c
  {
  }
}
