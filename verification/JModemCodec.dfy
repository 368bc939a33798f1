/** JModem's run-length code, its rotating checksum and the block that carries both. */
module JModemCodec {
  import opened Bits
  import opened Seqs

  const SENTINEL: Byte := 0xbb
  const DAT_MAX := 0x2000
  const DAT_LEN := 0x2400
  const OVRHD := 6
  const JM_MAX := 0xffff
  const NORM: Byte := 1
  const COMP: Byte := 2
  const EOF: Byte := 4

  type Word = x: int | 0 <= x < 0x1_0000

  /** Two bytes of a buffer as a word. */
  function Pair(low: Byte, high: Byte): Word {
    low as int + 256 * (high as int)
  }

  // ----- the run-length code -----------------------------------------------

  /** How many bytes at the start of s equal c. */
  function Run(s: Bytes, c: Byte): (n: nat)
    ensures n <= |s|
    ensures forall i :: 0 <= i < n ==> s[i] == c
    ensures n < |s| ==> s[n] != c
  {
    if s == [] || s[0] != c then 0 else 1 + Run(s[1..], c)
  }

  /** The byte after the first one; after the last byte of the data lies whatever the buffer
      held before. */
  function Next(s: Bytes, stale: Byte): Byte
    requires s != []
  {
    if |s| > 1 then s[1] else stale
  }

  function RunPiece(n: nat, c: Byte): Bytes {
    [SENTINEL, n % 256, n / 256 % 256, c]
  }

  /** What encode() writes when it does not give up. */
  function Encoded(s: Bytes, stale: Byte): Bytes
    decreases |s|
  {
    if s == [] then []
    else if s[0] == SENTINEL || s[0] == Next(s, stale) then
      var n := Run(s, s[0]);
      RunPiece(n, s[0]) + Encoded(s[n..], stale)
    else [s[0]] + Encoded(s[1..], stale)
  }

  /** decode() on b[p..limit]. It reads the three bytes after a sentinel wherever the limit is. */
  function Decoded(b: Bytes, p: nat, limit: nat): Bytes
    requires limit + 3 <= |b|
    decreases |b| - p
  {
    if p >= limit then []
    else if b[p] == SENTINEL then Repeat(b[p + 3], Pair(b[p + 1], b[p + 2])) + Decoded(b, p + 4, limit)
    else [b[p]] + Decoded(b, p + 1, limit)
  }

  lemma {:induction false} EncodedIsNotEmpty(s: Bytes, stale: Byte)
    ensures s != [] ==> Encoded(s, stale) != []
  {
  }

  lemma RunSplits(s: Bytes, c: Byte)
    ensures s == Repeat(c, Run(s, c)) + s[Run(s, c)..]
  {
  }

  /** Reading one run back. */
  lemma DecodedRun(b: Bytes, p: nat, limit: nat, n: nat, c: Byte)
    requires p + 4 <= limit && limit + 3 <= |b| && n < 0x1_0000 && b[p..p + 4] == RunPiece(n, c)
    ensures Decoded(b, p, limit) == Repeat(c, n) + Decoded(b, p + 4, limit)
  {
    var g := b[p..p + 4];
    assert b[p] == g[0] && b[p + 1] == g[1] && b[p + 2] == g[2] && b[p + 3] == g[3];
    assert n % 256 + 256 * (n / 256 % 256) == n;
  }

  lemma DecodedSingle(b: Bytes, p: nat, limit: nat)
    requires p < limit && limit + 3 <= |b| && b[p] != SENTINEL
    ensures Decoded(b, p, limit) == [b[p]] + Decoded(b, p + 1, limit)
  {
  }

  lemma DecodedEnd(b: Bytes, p: nat, limit: nat)
    requires limit <= p && limit + 3 <= |b|
    ensures Decoded(b, p, limit) == []
  {
  }

  /** decode() gives back what encode() was given, whatever lay behind the data. */
  lemma {:induction false} DecodeEncoded(b: Bytes, p: nat, limit: nat, s: Bytes, stale: Byte)
    requires p <= limit && limit + 3 <= |b| && |s| < 0x1_0000 && b[p..limit] == Encoded(s, stale)
    ensures Decoded(b, p, limit) == s
    decreases |s|
  {
    hide Decoded, Run;
    if s == [] {
      DecodedEnd(b, p, limit);
    } else if s[0] == SENTINEL || s[0] == Next(s, stale) {
      var n := Run(s, s[0]);
      Slices(b, p, limit, RunPiece(n, s[0]), Encoded(s[n..], stale));
      DecodedRun(b, p, limit, n, s[0]);
      DecodeEncoded(b, p + 4, limit, s[n..], stale);
      RunSplits(s, s[0]);
    } else {
      Slices(b, p, limit, [s[0]], Encoded(s[1..], stale));
      assert b[p] == b[p..p + 1][0];
      DecodedSingle(b, p, limit);
      DecodeEncoded(b, p + 1, limit, s[1..], stale);
      assert s == [s[0]] + s[1..];
    }
  }

  // ----- the checksum ------------------------------------------------------

  /** _rotl() of a 16-bit word by fewer than eight places. */
  function Rotl(x: Word, k: nat): Word
    requires k < 8
  {
    RotlBound(x, k);
    x * Power(k) % 0x1_0000 + x * Power(k) / 0x1_0000
  }

  lemma RotlBound(x: Word, k: nat)
    requires k < 8
    ensures var v := x * Power(k); 0 <= v % 0x1_0000 + v / 0x1_0000 < 0x1_0000
  {
    var v, high := x * Power(k), x * Power(k) / 0x1_0000;
    assert 0 <= high < Power(k) && v <= 0xffff * Power(k);
    assert v % 0x1_0000 <= 0x1_0000 - Power(k) by {
      LowPart(x, k);
    }
  }

  /** What stays in the word is a multiple of the power. */
  lemma LowPart(x: Word, k: nat)
    requires k < 8
    ensures x * Power(k) % 0x1_0000 <= 0x1_0000 - Power(k)
  {
    if k == 0 {
    } else if k == 1 {
    } else if k == 2 {
    } else if k == 3 {
    } else if k == 4 {
    } else if k == 5 {
    } else if k == 6 {
    }
  }

  /** One turn of the loop of calc_crc(), with n bytes to go. */
  function CrcStep(crc: Word, c: Byte, n: nat): Word {
    Rotl((crc + c) % 0x1_0000, n % 8)
  }

  function Crc(crc: Word, s: Bytes): Word
    decreases |s|
  {
    if s == [] then crc else Crc(CrcStep(crc, s[0], |s|), s[1..])
  }

  /** calc_crc(GET_CRC, ...) on a whole block: zero means intact. */
  function Check(block: Bytes): Word
    requires |block| >= 3
  {
    var n := |block| - 2;
    (Crc(0, block[..n]) - Pair(block[n], block[n + 1])) % 0x1_0000
  }

  // ----- blocks ------------------------------------------------------------

  /** Header and data of a block: length, type, number. */
  function Header(size: nat, typ: Byte, num: Byte): Bytes {
    [(size + OVRHD) % 256, (size + OVRHD) / 256 % 256, typ, num]
  }

  function Closed(body: Bytes): Bytes {
    var crc := Crc(0, body);
    body + [crc % 256, crc / 256]
  }

  /** The length that encode() returns. */
  function EncodedLength(s: Bytes, stale: Byte): nat {
    var n := |Encoded(s, stale)|;
    if n > DAT_MAX then JM_MAX else n
  }

  /** The block that the sender builds: compressed if that is shorter. */
  function Block(data: Bytes, stale: Byte, num: Byte, last: bool): Bytes {
    var base: Byte := if last then EOF else NORM;
    if EncodedLength(data, stale) < |data| then
      Closed(Header(|Encoded(data, stale)|, base + COMP, num) + Encoded(data, stale))
    else Closed(Header(|data|, base, num) + data)
  }

  /** What the receiver makes of a block of length len that has passed the checks; the buffer
      goes on behind the block. */
  function Opened(b: Bytes, len: nat): Bytes
    requires OVRHD <= len && len + 3 <= |b|
  {
    if b[2] / 2 % 2 == 1 then Decoded(b, 4, len - 2) else b[4..len - 2]
  }

  lemma CheckClosed(body: Bytes)
    requires |body| >= 1
    ensures Check(Closed(body)) == 0 && |Closed(body)| == |body| + 2
  {
    var b := Closed(body);
    assert b[..|body|] == body;
  }

  /** Block b, with more of the buffer behind it, is what the receiver needs to get the data. */
  predicate Delivers(b: Bytes, behind: Bytes, data: Bytes, num: Byte, last: bool) {
    && OVRHD < |b| <= DAT_MAX + OVRHD && |behind| >= 3
    && Pair(b[0], b[1]) == |b|
    && Check(b) == 0
    && b[3] == num && (b[2] / 4 % 2 == 1 <==> last)
    && Opened(b + behind, |b|) == data
  }

  /** Whatever form the sender chooses, the receiver's check is zero and it writes the data. */
  lemma BlockRoundTrip(data: Bytes, stale: Byte, num: Byte, last: bool, behind: Bytes)
    requires 1 <= |data| <= DAT_MAX && |behind| >= 3
    ensures Delivers(Block(data, stale, num, last), behind, data, num, last)
  {
    hide Encoded, Opened, Closed, Check, Decoded;
    if EncodedLength(data, stale) < |data| {
      EncodedIsNotEmpty(data, stale);
      CompressedOpens(data, stale, num, if last then EOF + COMP else NORM + COMP, behind);
    } else {
      PlainOpens(data, num, if last then EOF else NORM, behind);
    }
  }

  lemma HeaderReads(typ: Byte, num: Byte, s: Bytes)
    requires |s| <= DAT_MAX
    ensures var b := Closed(Header(|s|, typ, num) + s);
      && |b| == |s| + OVRHD && Pair(b[0], b[1]) == |b| && b[2] == typ && b[3] == num && Check(b) == 0
      && b[4..|b| - 2] == s
  {
    hide Crc, Check;
    var body := Header(|s|, typ, num) + s;
    CheckClosed(body);
    var b := Closed(body);
    assert b[0] == body[0] && b[1] == body[1] && b[2] == body[2] && b[3] == body[3];
    assert b[..|body|] == body && body[4..] == s;
    assert b[4..|b| - 2] == b[..|body|][4..];
  }

  predicate Opens(b: Bytes, size: nat, behind: Bytes, data: Bytes, num: Byte, typ: Byte) {
    && |b| == size + OVRHD && size > 0 && |behind| >= 3
    && Pair(b[0], b[1]) == |b| && b[2] == typ && b[3] == num && Check(b) == 0
    && Opened(b + behind, |b|) == data
  }

  lemma PlainOpens(data: Bytes, num: Byte, typ: Byte, behind: Bytes)
    requires 1 <= |data| <= DAT_MAX && |behind| >= 3 && (typ == NORM || typ == EOF)
    ensures Opens(Closed(Header(|data|, typ, num) + data), |data|, behind, data, num, typ)
  {
    hide Check, Closed, Crc, Header;
    HeaderReads(typ, num, data);
    var b := Closed(Header(|data|, typ, num) + data);
    assert (b + behind)[4..|b| - 2] == b[4..|b| - 2];
    assert (b + behind)[2] == b[2];
  }

  lemma CompressedOpens(data: Bytes, stale: Byte, num: Byte, typ: Byte, behind: Bytes)
    requires 1 <= |data| <= DAT_MAX && |Encoded(data, stale)| <= DAT_MAX && |behind| >= 3
    requires typ == NORM + COMP || typ == EOF + COMP
    ensures var e := Encoded(data, stale); Opens(Closed(Header(|e|, typ, num) + e), |e|, behind, data, num, typ)
  {
    hide Check, Closed, Encoded, Decoded, Crc, Header;
    var e := Encoded(data, stale);
    EncodedIsNotEmpty(data, stale);
    HeaderReads(typ, num, e);
    var b := Closed(Header(|e|, typ, num) + e);
    var all := b + behind;
    assert all[4..|b| - 2] == b[4..|b| - 2];
    assert all[2] == b[2];
    DecodeEncoded(all, 4, |b| - 2, data, stale);
  }

  // ----- error detection ---------------------------------------------------

  /** Rotating exchanges the k high bits and the rest. */
  lemma RotlParts(x: Word, k: nat)
    requires k < 8
    ensures var p := Power(k); var m := 0x1_0000 / p;
      Rotl(x, k) == x % m * p + x / m && 0 <= x / m < p && x == x / m * m + x % m
  {
    var p := Power(k);
    var m := 0x1_0000 / p;
    var q, r := x / m, x % m;
    WordParts(x, k);
    assert x * p == 0x1_0000 * q + r * p && 0 <= r * p < 0x1_0000 by { WordTimes(x, k, q, r); }
    WordQuotient(x * p, q, r * p);
  }

  lemma WordParts(x: Word, k: nat)
    requires k < 8
    ensures var p := Power(k); var m := 0x1_0000 / p;
      m * p == 0x1_0000 && 0 <= x / m < p && x == x / m * m + x % m && x % m < m
  {
    if k == 0 {
    } else if k == 1 {
    } else if k == 2 {
    } else if k == 3 {
    } else if k == 4 {
    } else if k == 5 {
    } else if k == 6 {
    }
  }

  lemma WordTimes(x: Word, k: nat, q: nat, r: nat)
    requires k < 8 && x == q * (0x1_0000 / Power(k)) + r && r < 0x1_0000 / Power(k)
    ensures x * Power(k) == 0x1_0000 * q + r * Power(k) && r * Power(k) < 0x1_0000
  {
    hide Power;
    WordParts(x, k);
    Products(q, 0x1_0000 / Power(k), r, Power(k));
  }

  lemma Products(q: nat, m: nat, r: nat, p: nat)
    requires r < m && p > 0
    ensures (q * m + r) * p == m * p * q + r * p && r * p < m * p
  {
  }

  lemma WordQuotient(v: nat, q: nat, r: nat)
    requires v == 0x1_0000 * q + r && r < 0x1_0000
    ensures v / 0x1_0000 == q && v % 0x1_0000 == r
  {
  }

  lemma RotlInjective(x: Word, y: Word, k: nat)
    requires k < 8 && Rotl(x, k) == Rotl(y, k)
    ensures x == y
  {
    RotlParts(x, k);
    RotlParts(y, k);
    var m := 0x1_0000 / Power(k);
    SameParts(k, x % m, x / m, y % m, y / m);
  }

  lemma SameParts(k: nat, a: nat, b: nat, c: nat, d: nat)
    requires k < 8 && b < Power(k) && d < Power(k) && a * Power(k) + b == c * Power(k) + d
    ensures a == c && b == d
  {
    if k == 0 {
    } else if k == 1 {
    } else if k == 2 {
    } else if k == 3 {
    } else if k == 4 {
    } else if k == 5 {
    } else if k == 6 {
    }
  }

  lemma StepInjective(c: Word, d: Word, x: Byte, n: nat)
    requires CrcStep(c, x, n) == CrcStep(d, x, n)
    ensures c == d
  {
    RotlInjective((c + x) % 0x1_0000, (d + x) % 0x1_0000, n % 8);
  }

  lemma {:induction false} CrcInjective(c: Word, d: Word, s: Bytes)
    requires Crc(c, s) == Crc(d, s)
    ensures c == d
    decreases |s|
  {
    hide CrcStep;
    if s != [] {
      CrcInjective(CrcStep(c, s[0], |s|), CrcStep(d, s[0], |s|), s[1..]);
      StepInjective(c, d, s[0], |s|);
    }
  }

  /** A change of one byte changes the checksum. */
  lemma {:induction false} CrcDetects(crc: Word, s: Bytes, i: nat, x: Byte)
    requires i < |s| && Crc(crc, s) == Crc(crc, s[i := x])
    ensures x == s[i]
    decreases |s|
  {
    hide Rotl;
    var t := s[i := x];
    if i == 0 {
      assert t[1..] == s[1..];
      CrcInjective(CrcStep(crc, s[0], |s|), CrcStep(crc, x, |s|), s[1..]);
      RotlInjective((crc + s[0]) % 0x1_0000, (crc + x) % 0x1_0000, |s| % 8);
      SumInjective(crc, s[0], x);
    } else {
      assert t[1..] == s[1..][i - 1 := x];
      CrcDetects(CrcStep(crc, s[0], |s|), s[1..], i - 1, x);
    }
  }

  lemma SumInjective(crc: Word, x: Byte, y: Byte)
    requires (crc + x) % 0x1_0000 == (crc + y) % 0x1_0000
    ensures x == y
  {
  }

  /** Of an intact block, no version with one byte changed passes the check. */
  lemma OneByteDetected(block: Bytes, i: nat, x: Byte)
    requires |block| >= 3 && i < |block| && Check(block) == 0 && x != block[i]
    ensures Check(block[i := x]) != 0
  {
    hide Crc;
    var n := |block| - 2;
    var other := block[i := x];
    if i < n {
      assert other[..n] == block[..n][i := x];
      if Check(other) == 0 {
        SameWord(Crc(0, block[..n]), Crc(0, other[..n]), Pair(block[n], block[n + 1]));
        CrcDetects(0, block[..n], i, x);
      }
    } else {
      assert other[..n] == block[..n];
    }
  }

  lemma SameWord(a: Word, b: Word, c: Word)
    requires (a - c) % 0x1_0000 == 0 && (b - c) % 0x1_0000 == 0
    ensures a == b
  {
  }
}
