/** The buffer routines of JModem as they are written, proved equal to JModemCodec. */
module JModemBlock {
  import opened Bits
  import opened Seqs
  import opened JModemCodec

  lemma {:induction false} RunIs(s: Bytes, c: Byte, n: nat)
    requires n <= |s| && (forall i :: 0 <= i < n ==> s[i] == c) && (n < |s| ==> s[n] != c)
    ensures Run(s, c) == n
  {
    if n > 0 {
      RunIs(s[1..], c, n - 1);
    }
  }

  lemma EncodedStep(s: Bytes, stale: Byte)
    requires s != []
    ensures Encoded(s, stale) ==
      if s[0] == SENTINEL || s[0] == Next(s, stale) then
        RunPiece(Run(s, s[0]), s[0]) + Encoded(s[Run(s, s[0])..], stale)
      else [s[0]] + Encoded(s[1..], stale)
    ensures s[0] == SENTINEL || s[0] == Next(s, stale) ==> Run(s, s[0]) > 0
  {
  }

  lemma EncodedNothing(stale: Byte)
    ensures Encoded([], stale) == []
  {
  }

  /** The inner loop of encode(): how many bytes from p on equal dupl. */
  method CountRun(inb: array<Byte>, p: nat, left: nat, dupl: Byte) returns (howMany: nat)
    requires p + left < inb.Length
    ensures howMany == Run(inb[p..p + left], dupl)
  {
    howMany := 0;
    ghost var s := inb[p..p + left];
    while inb[p + howMany] == dupl && left - howMany > 0
      invariant howMany <= left
      invariant forall i :: 0 <= i < howMany ==> s[i] == dupl
      decreases left - howMany
    {
      assert s[howMany] == inb[p + howMany];
      howMany := howMany + 1;
    }
    assert howMany < left ==> s[howMany] == inb[p + howMany];
    RunIs(s, dupl, howMany);
  }

  /** *out++ for each byte of s. */
  method Append(outb: array<Byte>, count: nat, s: Bytes)
    requires count + |s| <= outb.Length
    modifies outb
    ensures outb[..count + |s|] == old(outb[..count]) + s
    ensures outb[count + |s|..] == old(outb[..])[count + |s|..]
  {
    var i := 0;
    while i < |s|
      invariant 0 <= i <= |s|
      invariant outb[..count + i] == old(outb[..count]) + s[..i]
      invariant outb[count + i..] == old(outb[..])[count + i..]
    {
      outb[count + i] := s[i];
      i := i + 1;
    }
  }

  /** One turn of the loop of encode(): a run or a single byte. */
  method EncodeOne(inb: array<Byte>, from: nat, len: nat, outb: array<Byte>, at: nat) returns (count: nat, p: nat)
    requires inb != outb && from < len < inb.Length && at + 4 <= outb.Length
    modifies outb
    ensures from < p <= len && at < count <= at + 4 && outb[count..] == old(outb[..])[count..]
    ensures outb[..count] + Encoded(inb[p..len], inb[len]) == old(outb[..at]) + Encoded(inb[from..len], inb[len])
  {
    hide Encoded, RunPiece, Run;
    ghost var rest, stale, before := inb[from..len], inb[len], outb[..at];
    EncodedStep(rest, stale);
    var c := inb[from];
    assert c == rest[0] && inb[from + 1] == Next(rest, stale);
    if c == SENTINEL || c == inb[from + 1] {
      var howMany := CountRun(inb, from, len - from, c);
      assert inb[from..from + (len - from)] == rest;
      p, count := from + howMany, at + 4;
      assert rest[howMany..] == inb[p..len];
      PieceLength(howMany, c);
      Append(outb, at, RunPiece(howMany, c));
      ConcatAssoc(before, RunPiece(howMany, c), Encoded(inb[p..len], stale));
    } else {
      p, count := from + 1, at + 1;
      assert rest[1..] == inb[p..len];
      Append(outb, at, [c]);
      ConcatAssoc(before, [c], Encoded(inb[p..len], stale));
    }
  }

  /** encode(): gives up as soon as more than DAT_MAX bytes have been written, and so never
      writes more than DAT_MAX + 4. */
  method Encode(len: nat, inb: array<Byte>, outb: array<Byte>) returns (count: nat)
    requires inb != outb && len < inb.Length && DAT_MAX + 4 <= outb.Length
    modifies outb
    ensures count == EncodedLength(inb[..len], inb[len])
    ensures count != JM_MAX ==> outb[..count] == Encoded(inb[..len], inb[len])
    ensures outb[DAT_MAX + 4..] == old(outb[..])[DAT_MAX + 4..]
  {
    hide Encoded, RunPiece, Run;
    ghost var s, stale := inb[..len], inb[len];
    var p: nat := 0;
    count := 0;
    assert inb[0..len] == s;
    while p < len
      invariant p <= len && count <= DAT_MAX
      invariant outb[..count] + Encoded(inb[p..len], stale) == Encoded(s, stale)
      invariant outb[DAT_MAX + 4..] == old(outb[..])[DAT_MAX + 4..]
    {
      ghost var before := outb[..];
      ghost var at := count;
      count, p := EncodeOne(inb, p, len, outb, count);
      TailKept(outb[..], before, count, at + 4, DAT_MAX + 4);
      if count > DAT_MAX {
        return JM_MAX;
      }
    }
    assert inb[len..len] == [];
    EncodedNothing(stale);
  }

  lemma PieceLength(n: nat, c: Byte)
    ensures |RunPiece(n, c)| == 4
  {
  }

  lemma TailKept(after: Bytes, before: Bytes, from: nat, middle: nat, at: nat)
    requires |after| == |before| && from <= middle <= at <= |after| && after[from..] == before[from..]
    ensures after[at..] == before[at..]
  {
    assert after[at..] == after[from..][at - from..];
    assert before[at..] == before[from..][at - from..];
  }

  // ----- decode() ----------------------------------------------------------

  lemma DecodedStep(b: Bytes, p: nat, limit: nat)
    requires p < limit && limit + 3 <= |b|
    ensures Decoded(b, p, limit) ==
      if b[p] == SENTINEL then Repeat(b[p + 3], Pair(b[p + 1], b[p + 2])) + Decoded(b, p + 4, limit)
      else [b[p]] + Decoded(b, p + 1, limit)
  {
  }

  lemma DecodedNothing(b: Bytes, p: nat, limit: nat)
    requires limit <= p && limit + 3 <= |b|
    ensures Decoded(b, p, limit) == []
  {
  }

  /** decode() on len bytes at a place of the input buffer. */
  method Decode(inb: array<Byte>, at: nat, len: nat, outb: array<Byte>) returns (j: nat)
    requires inb != outb && at + len + 3 <= inb.Length
    requires |Decoded(inb[..], at, at + len)| <= outb.Length
    modifies outb
    ensures j <= outb.Length && outb[..j] == Decoded(inb[..], at, at + len)
  {
    hide Decoded, Repeat;
    ghost var b := inb[..];
    var p, limit := at, at + len;
    j := 0;
    while p < limit
      invariant at <= p && j <= outb.Length
      invariant outb[..j] + Decoded(b, p, limit) == Decoded(b, at, limit)
      decreases inb.Length - p
    {
      j, p := DecodeOne(inb, p, limit, outb, j);
    }
    DecodedNothing(b, p, limit);
  }

  /** One turn of the loop: a run or a single byte. */
  method DecodeOne(inb: array<Byte>, from: nat, limit: nat, outb: array<Byte>, at: nat) returns (j: nat, p: nat)
    requires inb != outb && from < limit && limit + 3 <= inb.Length
    requires at + |Decoded(inb[..], from, limit)| <= outb.Length
    modifies outb
    ensures from < p && j <= outb.Length
    ensures outb[..j] + Decoded(inb[..], p, limit) == old(outb[..at]) + Decoded(inb[..], from, limit)
  {
    hide Decoded, Repeat;
    DecodedStep(inb[..], from, limit);
    ghost var before := outb[..at];
    if inb[from] == SENTINEL {
      var i := Pair(inb[from + 1], inb[from + 2]);
      var c := inb[from + 3];
      ConcatAssoc(before, Repeat(c, i), Decoded(inb[..], from + 4, limit));
      RepeatLength(c, i);
      Fill(outb, at, c, i);
      j, p := at + i, from + 4;
    } else {
      ConcatAssoc(before, [inb[from]], Decoded(inb[..], from + 1, limit));
      outb[at] := inb[from];
      j, p := at + 1, from + 1;
    }
  }

  lemma RepeatLength(c: Byte, n: nat)
    ensures |Repeat(c, n)| == n
  {
  }

  /** The loop that expands one run. */
  method Fill(outb: array<Byte>, j: nat, c: Byte, count: nat)
    requires j + count <= outb.Length
    modifies outb
    ensures outb[..j + count] == old(outb[..j]) + Repeat(c, count)
  {
    var i := count;
    while i > 0
      invariant 0 <= i <= count
      invariant outb[..j] == old(outb[..j])
      invariant forall k :: j <= k < j + count - i ==> outb[k] == c
    {
      outb[j + count - i] := c;
      i := i - 1;
    }
    assert outb[j..j + count] == Repeat(c, count);
    assert outb[..j + count] == outb[..j] + outb[j..j + count];
  }

  // ----- calc_crc() --------------------------------------------------------

  /** How often the loop of calc_crc() turns: all but the last two bytes of a block, and nearly or
      wholly 65536 times for a length without room for a checksum and a byte before it. */
  function Span(len: Word): (n: nat)
    ensures n == if len < 3 then 0xfffe + len else len - 2
  {
    if (len - 2) % 0x1_0000 == 0 then 0x1_0000 else (len - 2) % 0x1_0000
  }

  lemma StepModulo(crc: Word, c: Byte, n: nat, m: nat)
    requires n % 8 == m % 8
    ensures CrcStep(crc, c, n) == CrcStep(crc, c, m)
  {
  }

  /** The loop of calc_crc(). */
  method Sum(len: Word, buf: array<Byte>) returns (crc: Word)
    requires Span(len) <= buf.Length
    ensures crc == Crc(0, buf[..Span(len)])
  {
    hide CrcStep;
    var length: Word := (len - 2) % 0x1_0000;
    ghost var n := Span(len);
    var at := 0;
    crc := 0;
    ghost var s := buf[..n];
    assert s[0..] == s;
    var more := true;
    while more
      invariant 0 <= at <= n
      invariant more ==> length == (n - at) % 0x1_0000
      invariant more <==> at < n
      invariant Crc(crc, s[at..]) == Crc(0, s)
      decreases n - at
    {
      assert s[at..][0] == buf[at] && s[at..][1..] == s[at + 1..];
      StepModulo(crc, buf[at], n - at, length);
      crc := CrcStep(crc, buf[at], length);
      at := at + 1;
      length := (length - 1) % 0x1_0000;
      more := length != 0;
    }
  }

  /** GET_CRC */
  method GetCrc(len: Word, buf: array<Byte>) returns (difference: Word)
    requires Span(len) + 2 <= buf.Length
    ensures difference == Check(buf[..Span(len) + 2])
  {
    hide Crc;
    var crc := Sum(len, buf);
    var at := Span(len);
    ghost var block := buf[..at + 2];
    assert block[..at] == buf[..at] && block[at] == buf[at] && block[at + 1] == buf[at + 1];
    difference := (crc - Pair(buf[at], buf[at + 1])) % 0x1_0000;
  }

  /** SET_CRC */
  method SetCrc(len: Word, buf: array<Byte>)
    requires Span(len) + 2 <= buf.Length
    modifies buf
    ensures buf[..Span(len) + 2] == Closed(old(buf[..Span(len)]))
    ensures buf[Span(len) + 2..] == old(buf[..])[Span(len) + 2..]
  {
    var crc := Sum(len, buf);
    var at := Span(len);
    buf[at] := crc % 256;
    buf[at + 1] := crc / 256;
  }

  // ----- building a block --------------------------------------------------

  /** What main() does with the data that it has read: encode into the compression buffer,
      choose the shorter form, fill in the header and the checksum. */
  method Build(dataRead: nat, last: bool, num: Byte, file: array<Byte>, comp: array<Byte>, out: array<Byte>)
    returns (len: nat)
    requires 1 <= dataRead <= DAT_MAX && file.Length == comp.Length == out.Length == DAT_LEN
    requires file != comp && file != out && comp != out
    modifies comp, out
    ensures len <= out.Length && out[..len] == Block(file[..dataRead], file[dataRead], num, last)
  {
    hide Closed, Encoded, EncodedLength;
    ghost var data, stale := file[..dataRead], file[dataRead];
    var typ: Byte := if last then EOF else NORM;
    var size := Encode(dataRead, file, comp);
    ghost var body;
    if size < dataRead {
      typ := typ + COMP;
      body := comp[..size];
    } else {
      size := dataRead;
      body := data;
    }
    Append(out, 4, if size < dataRead then comp[..size] else file[..size]);
    assert out[4..4 + size] == body;
    out[0], out[1], out[2], out[3] := (size + OVRHD) % 256, (size + OVRHD) / 256 % 256, typ, num;
    len := size + OVRHD;
    HeaderWritten(out[..], size, typ, num, body);
    SetCrc(len, out);
  }

  lemma HeaderWritten(out: Bytes, size: nat, typ: Byte, num: Byte, body: Bytes)
    requires |body| == size && size + 4 <= |out| && out[4..4 + size] == body
    requires out[0] == (size + OVRHD) % 256 && out[1] == (size + OVRHD) / 256 % 256 && out[2] == typ && out[3] == num
    ensures out[..4 + size] == Header(size, typ, num) + body
  {
    assert out[..4] == Header(size, typ, num);
    assert out[..4 + size] == out[..4] + out[4..4 + size];
  }

  /** What main() does with a good block: expand or copy its data to the file buffer. */
  method Open(len: nat, inb: array<Byte>, file: array<Byte>) returns (size: nat)
    requires inb != file && OVRHD <= len && len + 3 <= inb.Length && |Opened(inb[..], len)| <= file.Length
    modifies file
    ensures size <= file.Length && file[..size] == Opened(inb[..], len)
  {
    hide Decoded;
    if inb[2] / 2 % 2 == 1 {
      size := Decode(inb, 4, len - OVRHD, file);
    } else {
      size := len - OVRHD;
      Append(file, 0, inb[4..len - 2]);
      assert file[..0] == [];
    }
  }
}
