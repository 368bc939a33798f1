/** Each of the four packet formats decodes to what was encoded. */
module HydraBodies {
  import opened Bits
  import opened Seqs
  import opened HydraWire

  // ----- HEX ---------------------------------------------------------------

  lemma HexDigitValue(n: nat)
    requires n < 16
    ensures HexVal(HexDigit(n)) == n && HexDigit(n) != BACKSLASH && 32 <= HexDigit(n) < 127
  {
  }

  lemma {:induction false} HexTextLength(s: Bytes)
    ensures |s| <= |HexText(s)| <= 3 * |s|
  {
    if s != [] {
      HexTextLength(s[1..]);
    }
  }

  lemma {:induction false} HexTextIsAscii(s: Bytes)
    ensures forall i :: 0 <= i < |HexText(s)| ==> HexText(s)[i] < 128
  {
    if s != [] {
      HexTextIsAscii(s[1..]);
      var head, tail := HexByte(s[0]), HexText(s[1..]);
      if s[0] >= 128 {
        HexDigitValue(s[0] / 16);
        HexDigitValue(s[0] % 16);
      }
      assert forall i :: 0 <= i < |head| ==> head[i] < 128;
      assert HexText(s) == head + tail;
    }
  }

  lemma HexTextNext(s: Bytes)
    requires s != []
    ensures HexText(s) == HexByte(s[0]) + HexText(s[1..])
  {
  }

  /** The HEX loop on a buffer that holds the text of s from p on. */
  lemma {:induction false} HexReadsText(b: Bytes, p: nat, end: nat, s: Bytes)
    requires p <= end && end + 2 < |b| && b[p..end] == HexText(s)
    ensures HexRead(b, p, end) == Decoded(true, s, end)
    decreases |s|
  {
    hide HexByte, HexText;
    if s == [] {
      HexTextLength(s);
    } else {
      HexTextNext(s);
      var head, tail := HexByte(s[0]), HexText(s[1..]);
      Slices(b, p, end, head, tail);
      HexReadsText(b, p + |head|, end, s[1..]);
      HexReadsByte(b, p, end, s[0]);
      assert s == [s[0]] + s[1..];
    }
  }

  lemma HexReadsByte(b: Bytes, p: nat, end: nat, c: Byte)
    requires p + |HexByte(c)| <= end && end + 2 < |b| && b[p..p + |HexByte(c)|] == HexByte(c)
    ensures HexRead(b, p, end) == Prepend([c], HexRead(b, p + |HexByte(c)|, end))
  {
    var head := HexByte(c);
    assert b[p] == b[p..p + |head|][0] == head[0];
    if c >= 128 {
      HexDigitValue(c / 16);
      HexDigitValue(c % 16);
      assert b[p + 1] == b[p..p + |head|][1] && b[p + 2] == b[p..p + |head|][2];
      assert 16 * (c / 16) + c % 16 == c;
    } else if c == BACKSLASH {
      assert b[p + 1] == b[p..p + |head|][1];
    }
  }

  // ----- ASC ---------------------------------------------------------------

  lemma {:induction false} SeptetsLength(c: nat, n: nat, s: Bytes)
    requires n < 7
    ensures 7 * |Septets(c, n, s)| <= 8 * |s| + n + 6
    decreases |s|
  {
    if s != [] {
      var v := c + s[0] * Power(n);
      if n + 1 >= 7 {
        SeptetsLength(0, 0, s[1..]);
      } else {
        SeptetsLength(v / 128, n + 1, s[1..]);
      }
    }
  }

  lemma {:induction false} SeptetsAreAscii(c: nat, n: nat, s: Bytes)
    requires n < 7
    ensures forall i :: 0 <= i < |Septets(c, n, s)| ==> Septets(c, n, s)[i] < 128
    decreases |s|
  {
    if s != [] {
      var v := c + s[0] * Power(n);
      if n + 1 >= 7 {
        SeptetsAreAscii(0, 0, s[1..]);
      } else {
        SeptetsAreAscii(v / 128, n + 1, s[1..]);
      }
    }
  }

  /** Between bytes the encoder still has the n high bits c of the last byte to send, and the
      decoder has its 8 - n low bits i. */
  predicate Split(b: Byte, n: nat, c: nat, i: nat) {
    0 < n < 7 && i < Power(8 - n) && b == i + c * Power(8 - n)
  }

  lemma Quotient(v: nat, d: nat, q: nat, r: nat)
    requires d == 128 || d == 256
    requires v == d * q + r && r < d
    ensures v / d == q && v % d == r
  {
    if d == 128 {
      assert v == 128 * q + r;
    } else {
      assert v == 256 * q + r;
    }
  }

  /** A byte cut in two where the seventh new bit falls. */
  lemma Cut(x: Byte, n: nat)
    requires 0 < n < 7
    ensures var m := Power(7 - n); x == x % m + x / m * m && x % m < m
  {
  }

  /** The next byte x: one septet goes over, which completes byte b. */
  lemma SplitMoves(b: Byte, n: nat, c: nat, i: nat, x: Byte)
    requires Split(b, n, c, i)
    ensures var v := c + x * Power(n); var u := i + v % 128 * Power(8 - n);
      && u % 256 == b && u / 256 == x % Power(7 - n) && v / 128 == x / Power(7 - n)
  {
    var m := Power(7 - n);
    var x0, x1 := x % m, x / m;
    Cut(x, n);
    var v := c + x * Power(n);
    var s := c + x0 * Power(n);
    SeptetParts(b, n, c, i, x, x0, x1);
    hide Power, Split;
    Quotient(v, 128, x1, s);
    Quotient(i + s * Power(8 - n), 256, x0, b);
  }

  lemma SeptetParts(b: Byte, n: nat, c: nat, i: nat, x: Byte, x0: nat, x1: nat)
    requires Split(b, n, c, i) && x == x0 + x1 * Power(7 - n) && x0 < Power(7 - n)
    ensures c + x * Power(n) == 128 * x1 + (c + x0 * Power(n)) && c + x0 * Power(n) < 128
    ensures i + (c + x0 * Power(n)) * Power(8 - n) == 256 * x0 + b
  {
    if n == 1 {
    } else if n == 2 {
    } else if n == 3 {
    } else if n == 4 {
    } else if n == 5 {
    }
  }

  lemma SplitEnds(b: Byte, n: nat, c: nat, i: nat)
    requires Split(b, n, c, i)
    ensures c < 128 && i + c % 128 * Power(8 - n) == b
  {
    if n == 1 {
    } else if n == 2 {
    } else if n == 3 {
    } else if n == 4 {
    } else if n == 5 {
    }
  }

  lemma OctetsNext(i: nat, n: nat, c: Byte, t: Bytes)
    requires n < 8 && c < 128
    ensures var v := i + c * Power(n);
      Octets(i, n, [c] + t) == if n + 7 >= 8 then [v % 256] + Octets(v / 256, n - 1, t) else Octets(v, n + 7, t)
  {
    hide Octets, Power;
    var s := [c] + t;
    assert s[0] == c && s[1..] == t && c % 128 == c;
    OctetsStep(i, n, s);
  }

  lemma OctetsStep(i: nat, n: nat, t: Bytes)
    requires n < 8 && t != []
    ensures var v := Added(i, n, t[0]);
      Octets(i, n, t) == if n + 7 >= 8 then [v % 256] + Octets(v / 256, n - 1, t[1..]) else Octets(v, n + 7, t[1..])
  {
    hide Added;
  }

  lemma OctetsOfNothing(i: nat, n: nat)
    requires n < 8
    ensures Octets(i, n, []) == []
  {
  }

  lemma SeptetsNext(c: nat, n: nat, s: Bytes)
    requires n < 7 && s != []
    ensures var v := c + s[0] * Power(n);
      Septets(c, n, s) ==
        if n == 6 then [v % 128] + ([v / 128 % 128] + Septets(0, 0, s[1..]))
        else [v % 128] + Septets(v / 128, n + 1, s[1..])
  {
  }

  lemma {:induction false} OctetsOfPending(b: Byte, n: nat, c: nat, i: nat, s: Bytes)
    requires Split(b, n, c, i)
    ensures Octets(i, 8 - n, Septets(c, n, s)) == [b] + s
    decreases |s|, 0
  {
    hide Octets, Septets, Split, Power;
    SplitWithin(b, n, c, i);
    if s == [] {
      LastSeptet(b, n, c, i);
    } else {
      var x := s[0];
      SplitMoves(b, n, c, i, x);
      if n == 6 {
        OctetsOfSeptets(s[1..]);
        SeventhByte(b, c, i, x, s);
      } else {
        SplitOf(x, n);
        OctetsOfPending(x, n + 1, x / Power(7 - n), x % Power(7 - n), s[1..]);
        assert s == [x] + s[1..];
        MiddleByte(b, n, c, i, x % Power(7 - n), x / Power(7 - n), s);
      }
    }
  }

  lemma SplitWithin(b: Byte, n: nat, c: nat, i: nat)
    requires Split(b, n, c, i)
    ensures 0 < n < 7
  {
  }

  lemma SplitOf(x: Byte, n: nat)
    requires 0 < n < 6
    ensures Power(7 - n) > 0 && Split(x, n + 1, x / Power(7 - n), x % Power(7 - n))
  {
    Cut(x, n);
  }

  lemma LastSeptet(b: Byte, n: nat, c: nat, i: nat)
    requires Split(b, n, c, i)
    ensures Octets(i, 8 - n, Septets(c, n, [])) == [b] + []
  {
    hide Octets, Septets, Power;
    SplitEnds(b, n, c, i);
    SeptetsLast(c, n);
    OctetsNext(i, 8 - n, c % 128, []);
    OctetsOfNothing(b / 256, 7 - n);
    assert [c % 128] + [] == [c % 128];
  }

  /** A byte x that is not the seventh: it sends one septet and leaves itself split. */
  lemma MiddleByte(b: Byte, n: nat, c: nat, i: nat, low: nat, high: nat, s: Bytes)
    requires s != [] && 0 < n < 6
    requires var v := c + s[0] * Power(n); var u := i + v % 128 * Power(8 - n);
      u % 256 == b && u / 256 == low && v / 128 == high
    requires Octets(low, 7 - n, Septets(high, n + 1, s[1..])) == s
    ensures Octets(i, 8 - n, Septets(c, n, s)) == [b] + s
  {
    hide Octets, Septets, Power;
    SeptetsNext(c, n, s);
    OctetsNext(i, 8 - n, (c + s[0] * Power(n)) % 128, Septets(high, n + 1, s[1..]));
  }

  lemma SeventhByte(b: Byte, c: nat, i: nat, x: Byte, s: Bytes)
    requires s != [] && x == s[0] && Split(b, 6, c, i) && Octets(0, 0, Septets(0, 0, s[1..])) == s[1..]
    ensures Octets(i, 2, Septets(c, 6, s)) == [b] + s
  {
    hide Octets, Septets, Split, Power;
    SixBits();
    var v := c + x * Power(6);
    SplitMoves(b, 6, c, i, x);
    SeptetsNext(c, 6, s);
    var rest := Septets(0, 0, s[1..]);
    OctetsNext(i, 2, v % 128, [v / 128 % 128] + rest);
    HighBits(x);
    OctetsNext(x % 2, 1, x / 2, rest);
    assert s == [x] + s[1..];
  }

  lemma SixBits()
    ensures Power(6) == 64 && Power(2) == 4 && Power(1) == 2
  {
  }

  lemma HighBits(x: Byte)
    ensures x / 2 % 128 == x / 2 && x % 2 + x / 2 * 2 == x && x % 256 == x && x / 256 == 0
  {
  }

  lemma SeptetsLast(c: nat, n: nat)
    requires n < 7
    ensures Septets(c, n, []) == if n > 0 then [c % 128] else []
  {
  }

  lemma FirstSeptet(x: Byte)
    ensures Split(x, 1, x / 128, x % 128) && x * Power(0) == x && x % 128 * Power(0) == x % 128
  {
  }

  /** Decoding the ASC form of any bytes gives them back. */
  lemma {:induction false} OctetsOfSeptets(s: Bytes)
    ensures Octets(0, 0, Septets(0, 0, s)) == s
    decreases |s|, 1
  {
    hide Octets, Septets, Split, Power;
    if s == [] {
      SeptetsLast(0, 0);
      OctetsOfNothing(0, 0);
    } else {
      var x := s[0];
      SeptetsNext(0, 0, s);
      FirstSeptet(x);
      OctetsNext(0, 0, x % 128, Septets(x / 128, 1, s[1..]));
      OctetsOfPending(x, 1, x / 128, x % 128, s[1..]);
      assert s == [x] + s[1..];
    }
  }

  // ----- UUE ---------------------------------------------------------------

  lemma UueCharValue(c: nat)
    requires c < 64
    ensures UueVal(UueChar(c)) == c && !UueBad(UueChar(c)) && 33 <= UueChar(c) <= 96
  {
  }

  lemma {:induction false} UueTextShape(s: Bytes)
    ensures 3 * |UueText(s)| <= 4 * |s| + 4
    ensures forall i :: 0 <= i < |UueText(s)| ==> 33 <= UueText(s)[i] <= 96
  {
    if |s| >= 3 {
      UueTextShape(s[3..]);
    }
  }

  lemma UueGroup(x: Byte, y: Byte, z: Byte)
    ensures var c0, c1 := UueChar(x / 4), UueChar(x % 4 * 16 + y / 16);
      var c2, c3 := UueChar(y % 16 * 4 + z / 64), UueChar(z % 64);
      && !UueBad(c0) && !UueBad(c1) && !UueBad(c2)
      && UueFirst(c0, c1) == x && UueSecond(c1, c2) == y && UueThird(c2, c3) == z
  {
    hide UueChar, UueVal, UueBad;
    UueCharValue(x / 4);
    UueCharValue(x % 4 * 16 + y / 16);
    UueCharValue(y % 16 * 4 + z / 64);
    UueCharValue(z % 64);
    UueArithmetic(x, y, z);
  }

  lemma UueArithmetic(x: Byte, y: Byte, z: Byte)
    ensures (x % 4 * 16 + y / 16) / 16 == x % 4 && (x % 4 * 16 + y / 16) % 16 == y / 16
    ensures (y % 16 * 4 + z / 64) / 4 == y % 16 && (y % 16 * 4 + z / 64) % 4 == z / 64
  {
  }

  /** The UUE loop on a buffer that holds the text of s from p on. */
  lemma {:induction false} UueReadsText(b: Bytes, p: nat, end: nat, s: Bytes)
    requires p <= end <= |b| && b[p..end] == UueText(s)
    ensures UueRead(b, p, end).ok && UueRead(b, p, end).out == s
    decreases |s|
  {
    if |s| >= 3 {
      var head := UueText(s)[..4];
      assert UueText(s) == head + UueText(s[3..]);
      Slices(b, p, end, head, UueText(s[3..]));
      UueReadsText(b, p + 4, end, s[3..]);
      UueReadsGroup(b, p, end, s[0], s[1], s[2]);
      assert s == [s[0], s[1], s[2]] + s[3..];
    } else {
      UueReadsTail(b, p, end, s);
    }
  }

  lemma UueReadsGroup(b: Bytes, p: nat, end: nat, x: Byte, y: Byte, z: Byte)
    requires p + 4 <= end <= |b|
    requires b[p..p + 4] ==
      [UueChar(x / 4), UueChar(x % 4 * 16 + y / 16), UueChar(y % 16 * 4 + z / 64), UueChar(z % 64)]
    ensures UueRead(b, p, end) == Prepend([x, y, z], UueRead(b, p + 4, end))
  {
    hide UueChar, UueVal, UueBad, UueFirst, UueSecond, UueThird;
    UueGroup(x, y, z);
    var g := b[p..p + 4];
    assert b[p] == g[0] && b[p + 1] == g[1] && b[p + 2] == g[2] && b[p + 3] == g[3];
  }

  lemma UueReadsTail(b: Bytes, p: nat, end: nat, s: Bytes)
    requires p <= end <= |b| && |s| < 3 && b[p..end] == UueText(s)
    ensures UueRead(b, p, end).ok && UueRead(b, p, end).out == s
  {
    hide UueChar, UueRead;
    assert |b[p..end]| == end - p;
    UueReadsNothing(b, p);
    if |s| == 2 {
      UueReadsPair(b, p, s[0], s[1]);
      assert s == [s[0]] + [s[1]];
    } else if |s| == 1 {
      UueReadsSingle(b, p, s[0]);
    }
  }

  lemma UueReadsNothing(b: Bytes, p: nat)
    requires p <= |b|
    ensures UueRead(b, p, p) == Decoded(true, [], p)
  {
  }

  lemma UueReadsPair(b: Bytes, p: nat, x: Byte, y: Byte)
    requires p + 3 <= |b| && b[p..p + 3] == [UueChar(x / 4), UueChar(x % 4 * 16 + y / 16), UueChar(y % 16 * 4)]
    ensures UueRead(b, p, p + 3) == Decoded(true, [x] + [y], p)
  {
    hide UueChar, UueVal, UueBad, UueRead, UueFirst, UueSecond;
    var g := b[p..p + 3];
    assert b[p] == g[0] && b[p + 1] == g[1] && b[p + 2] == g[2];
    UueCharValue(x / 4);
    UuePairValues(x, y);
    UueReadTwo(b, p);
  }

  lemma UueReadTwo(b: Bytes, p: nat)
    requires p + 3 <= |b| && !UueBad(b[p])
    ensures UueRead(b, p, p + 3) == Decoded(true, [UueFirst(b[p], b[p + 1])] + [UueSecond(b[p + 1], b[p + 2])], p)
  {
    hide UueBad, UueFirst, UueSecond;
  }

  lemma UuePairValues(x: Byte, y: Byte)
    ensures UueFirst(UueChar(x / 4), UueChar(x % 4 * 16 + y / 16)) == x
    ensures UueSecond(UueChar(x % 4 * 16 + y / 16), UueChar(y % 16 * 4)) == y
  {
    hide UueChar, UueVal, UueBad;
    UueCharValue(x / 4);
    UueCharValue(x % 4 * 16 + y / 16);
    UueCharValue(y % 16 * 4);
    UueArithmetic(x, y, 0);
  }

  lemma UueReadsSingle(b: Bytes, p: nat, x: Byte)
    requires p + 2 <= |b| && b[p..p + 2] == [UueChar(x / 4), UueChar(x % 4 * 16)]
    ensures UueRead(b, p, p + 2) == Decoded(true, [x], p)
  {
    hide UueChar, UueVal, UueBad;
    UueCharValue(x / 4);
    UueCharValue(x % 4 * 16);
    var g := b[p..p + 2];
    assert b[p] == g[0] && b[p + 1] == g[1];
  }

  // ----- any format --------------------------------------------------------

  predicate IsFormat(f: Byte) {
    f == BINPKT || f == HEXPKT || f == ASCPKT || f == UUEPKT
  }

  /** A body of legal length fits the receive buffer. */
  lemma TextFits(f: Byte, s: Bytes)
    requires IsFormat(f) && |s| <= MAXPAYLOAD + if f == HEXPKT then 3 else 5
    ensures |Text(f, s)| <= MAXPKTLEN
  {
    HexTextLength(s);
    SeptetsLength(0, 0, s);
    UueTextShape(s);
  }

  /** Decoding what has been stored gives the bytes that were encoded. */
  lemma BodyRoundTrip(w: Wire, s: Bytes)
    requires ValidWire(w) && IsFormat(w.fmt) && 0 <= w.ptr <= MAXPKTLEN
    requires w.buf[..w.ptr] == Text(w.fmt, s)
    ensures DecodeBody(w).ok && DecodeBody(w).out == s
  {
    if w.fmt == HEXPKT {
      HexReadsText(w.buf, 0, w.ptr, s);
    } else if w.fmt == ASCPKT {
      OctetsOfSeptets(s);
    } else if w.fmt == UUEPKT {
      UueReadsText(w.buf, 0, w.ptr, s);
    }
  }
}
