/** rle_compress() and rle_extract() as they are written, on streams with an end-of-file flag. */
module RleCode {
  import opened Bits
  import opened Rle
  import opened Seqs

  const EOF := -1

  /** A file opened for reading. The flag is set by a read that finds nothing. */
  class Reader {
    const data: Bytes
    var pos: nat
    var eof: bool

    ghost predicate Valid()
      reads this
    {
      pos <= |data| && (eof ==> pos == |data|)
    }

    constructor (data: Bytes)
      ensures Valid() && this.data == data && pos == 0 && !eof
    {
      this.data := data;
      pos, eof := 0, false;
    }

    /** fgetc() */
    method Getc() returns (c: int)
      requires Valid()
      modifies this
      ensures Valid() && -1 <= c < 256
      ensures c == (if old(pos) < |data| then data[old(pos)] else EOF)
      ensures pos == old(pos) + (if c == EOF then 0 else 1) && eof == (old(eof) || c == EOF)
    {
      if pos < |data| {
        c := data[pos];
        pos := pos + 1;
      } else {
        c := EOF;
        eof := true;
      }
    }

    /** fgetc() stored in a byte, for a reader that is at place at. */
    method GetByte(ghost at: nat) returns (c: Byte)
      requires Valid() && pos == Min(at, |data|) && eof == (at > |data|)
      modifies this
      ensures Valid() && pos == Min(at + 1, |data|) && eof == (at + 1 > |data|)
      ensures c == Read(data, at)
    {
      var i := Getc();
      c := if i == EOF then FF else i;
    }
  }

  /** What comes of writing everything to a disk with the given room. */
  function Cut(s: Bytes, room: nat): Bytes {
    s[..Min(room, |s|)]
  }

  lemma CutNothing(s: Bytes, room: nat)
    requires |s| <= room
    ensures Cut(s, room) == s
  {
  }

  lemma CutLonger(s: Bytes, more: Bytes, room: nat)
    requires |s| > room
    ensures Cut(s + more, room) == Cut(s, room)
  {
  }

  /** A file opened for writing, on a disk with room for so many bytes. The error flag is set by a
      write that does not fit. */
  class Writer {
    const room: nat
    var out: Bytes
    var failed: bool

    ghost predicate Valid()
      reads this
    {
      |out| <= room && (failed ==> |out| == room)
    }

    /** s was to be written behind before. */
    ghost predicate Wrote(before: Bytes, s: Bytes)
      reads this
    {
      out == Cut(before + s, room) && failed == (|before + s| > room)
    }

    constructor (room: nat)
      ensures Valid() && this.room == room && out == [] && !failed
    {
      this.room := room;
      out, failed := [], false;
    }

    /** fputc() */
    method Putc(c: Byte) returns (ok: bool)
      requires Valid()
      modifies this
      ensures Valid() && ok == (|old(out)| < room)
      ensures !old(failed) ==> Wrote(old(out), [c])
      ensures old(failed) ==> failed && out == old(out)
      ensures ok ==> out == old(out) + [c] && !failed
      ensures !ok ==> failed
    {
      ok := |out| < room;
      if ok {
        out := out + [c];
      } else {
        failed := true;
      }
    }

    /** fwrite() */
    method Write(s: Bytes) returns (ok: bool)
      requires Valid() && !failed
      modifies this
      ensures Valid() && Wrote(old(out), s) && ok == !failed
      ensures ok ==> out == old(out) + s
    {
      ok := |out| + |s| <= room;
      failed := !ok;
      out := out + if ok then s else s[..room - |out|];
    }
  }

  lemma ReadSlice(s: Bytes, b: nat, i: nat)
    requires b <= |s|
    ensures Read(s[b..], i) == Read(s, b + i)
  {
  }

  lemma CompressedLiteral(s: Bytes)
    requires s != [] && Read(s, 0) != Read(s, 1)
    ensures var n := LiteralLength(s); Compressed(s) == [n - 1] + s[..n] + Compressed(s[n..])
  {
  }

  lemma LiteralNext(s: Bytes, i: nat)
    requires 1 <= i <= LONGEST_LITERAL
    ensures LiteralStop(s, i) ==
      if i >= |s| || i == LONGEST_LITERAL || Read(s, i) == Read(s, i - 1) then i else LiteralStop(s, i + 1)
  {
  }

  lemma RunNext(s: Bytes, c: Byte, k: nat)
    requires k <= LONGEST_RUN
    ensures RunLength(s, c, k) == if k == LONGEST_RUN || Read(s, k) != c then k else RunLength(s, c, k + 1)
  {
  }

  /** The literal loop: t[0] and t[1] are the bytes at places b and b + 1, and differ. It stops
      at index i, with t[0] to t[i] filled from place b on. */
  method FillLiteral(f: Reader, t: array<Byte>, ghost b: nat) returns (i: nat)
    requires f.Valid() && t.Length == 129 && b < |f.data|
    requires f.pos == Min(b + 2, |f.data|) && f.eof == (b + 2 > |f.data|)
    requires t[0] == Read(f.data, b) && t[1] == Read(f.data, b + 1) && t[0] != t[1]
    modifies f, t
    ensures f.Valid() && i == LiteralStop(f.data[b..], 1)
    ensures 1 <= i <= 128 && forall k :: 0 <= k <= i ==> t[k] == Read(f.data, b + k)
    ensures f.pos == Min(b + i + 1, |f.data|) && f.eof == (b + i + 1 > |f.data|)
  {
    hide LiteralStop;
    ghost var s := f.data[b..];
    ReadSlice(f.data, b, 0);
    ReadSlice(f.data, b, 1);
    LiteralNext(s, 1);
    i := 1;
    if !f.eof {
      i := 2;
      t[2] := f.GetByte(b + 2);
      while !f.eof && i < 128 && t[i] != t[i - 1]
        invariant 2 <= i <= 128 && f.Valid()
        invariant forall k :: 0 <= k <= i ==> t[k] == Read(f.data, b + k)
        invariant f.pos == Min(b + i + 1, |f.data|) && f.eof == (b + i + 1 > |f.data|)
        invariant LiteralStop(s, 1) == LiteralStop(s, i)
        decreases 128 - i
      {
        ReadSlice(f.data, b, i);
        ReadSlice(f.data, b, i - 1);
        LiteralNext(s, i);
        i := i + 1;
        var c := f.GetByte(b + i);
        t[i] := c;
      }
      ReadSlice(f.data, b, i);
      ReadSlice(f.data, b, i - 1);
      LiteralNext(s, i);
    }
  }

  /** The run loop: two equal bytes have been read from place b on. It stops with the count that
      is written plus 126, and the byte after the run. */
  method FillRun(f: Reader, c: Byte, ghost b: nat) returns (i: nat, next: Byte)
    requires f.Valid() && b < |f.data| && f.pos == Min(b + 2, |f.data|) && f.eof == (b + 2 > |f.data|)
    requires Read(f.data, b) == c && Read(f.data, b + 1) == c
    modifies f
    ensures f.Valid() && 3 <= i <= 130 && i - 1 == RunLength(f.data[b..], c, 0)
    ensures next == Read(f.data, b + i - 1) && f.pos == Min(b + i, |f.data|) && f.eof == (b + i > |f.data|)
  {
    hide RunLength;
    ghost var s := f.data[b..];
    ReadSlice(f.data, b, 0);
    ReadSlice(f.data, b, 1);
    RunNext(s, c, 0);
    RunNext(s, c, 1);
    i := 2;
    next := f.GetByte(b + i);
    i := i + 1;
    while i < 130 && next == c
      invariant 3 <= i <= 130 && f.Valid()
      invariant next == Read(f.data, b + i - 1) && f.pos == Min(b + i, |f.data|) && f.eof == (b + i > |f.data|)
      invariant RunLength(s, c, 0) == RunLength(s, c, i - 1)
      decreases 130 - i
    {
      ReadSlice(f.data, b, i - 1);
      RunNext(s, c, i - 1);
      next := f.GetByte(b + i);
      i := i + 1;
    }
    ReadSlice(f.data, b, i - 1);
    RunNext(s, c, i - 1);
  }

  lemma SliceOfSlice(s: Bytes, b: nat, n: nat)
    requires b + n <= |s|
    ensures s[b..][n..] == s[b + n..] && s[b..][..n] == s[b..b + n]
  {
  }

  /** rle_compress() on a file with the given contents: it writes the compressed file, or as much of
      it as the disk has room for and then reports the error. */
  method Compress(data: Bytes, room: nat) returns (out: Bytes, ok: bool)
    ensures out == Cut(Compressed(data), room) && ok == (|Compressed(data)| <= room)
  {
    hide Compressed, LiteralStop, RunLength, LiteralLength;
    var f := new Reader(data);
    var w := new Writer(room);
    var t := new Byte[129](_ => 0);
    t[0] := f.GetByte(0);
    ghost var b := 0;
    assert data[0..] == data;
    while !f.eof
      invariant f.Valid() && f.data == data && fresh(f) && t.Length == 129 && fresh(t)
      invariant w.Valid() && w.room == room && fresh(w) && !w.failed
      invariant f.pos == Min(b + 1, |data|) && f.eof == (b + 1 > |data|) && b <= |data|
      invariant t[0] == Read(data, b) && w.out + Compressed(data[b..]) == Compressed(data)
      decreases |data| - b
    {
      ReadSlice(data, b, 0);
      ReadSlice(data, b, 1);
      t[1] := f.GetByte(b + 1);
      if t[0] != t[1] {
        var keep: bool;
        b, keep := CompressLiteral(f, t, b, w);
        if w.failed {
          break;
        }
        if !keep {
          continue;
        }
      }
      b := CompressRun(f, t, b, w);
      if w.failed {
        break;
      }
    }
    out, ok := w.out, !w.failed;
    assert !w.failed ==> data[b..] == [];
    CompressedNothing();
  }

  lemma CompressedNothing()
    ensures Compressed([]) == []
  {
  }

  /** What the blocks so far and the rest of the input amount to: all of it, if nothing failed. */
  ghost predicate Written(w: Writer, before: Bytes, now: Bytes, rest: Bytes)
    reads w
  {
    if w.failed then w.out == Cut(before + Compressed(now), w.room) && |before + Compressed(now)| > w.room
    else w.out + Compressed(rest) == before + Compressed(now)
  }

  lemma WrittenBlock(w: Writer, before: Bytes, block: Bytes, now: Bytes, rest: Bytes)
    requires w.Valid() && w.Wrote(before, block) && Compressed(now) == block + Compressed(rest)
    ensures Written(w, before, now, rest)
  {
    hide Compressed;
    ConcatAssoc(before, block, Compressed(rest));
    if w.failed {
      CutLonger(before + block, Compressed(rest), w.room);
    }
  }

  /** A block is written as a byte and some more: the second call is left out if the first fails. */
  method PutBlock(w: Writer, c: Byte, s: Bytes)
    requires w.Valid() && !w.failed
    modifies w
    ensures w.Valid() && w.Wrote(old(w.out), [c] + s)
  {
    ghost var before := w.out;
    var ok := w.Putc(c);
    ConcatAssoc(before, [c], s);
    if ok {
      ok := w.Write(s);
    } else {
      assert Cut(before + ([c] + s), w.room) == before;
    }
  }

  /** The first branch of the loop body: one literal block is written, and if it was ended by two
      equal bytes those are the first of a run. */
  method CompressLiteral(f: Reader, t: array<Byte>, ghost b: nat, w: Writer) returns (ghost b': nat, keep: bool)
    requires f.Valid() && t.Length == 129 && b < |f.data|
    requires f.pos == Min(b + 2, |f.data|) && f.eof == (b + 2 > |f.data|)
    requires t[0] == Read(f.data, b) && t[1] == Read(f.data, b + 1) && t[0] != t[1]
    requires w.Valid() && !w.failed
    modifies f, t, w
    ensures f.Valid() && w.Valid() && b < b' <= |f.data| && t[0] == Read(f.data, b')
    ensures Written(w, old(w.out), f.data[b..], f.data[b'..])
    ensures keep ==> b' < |f.data| && Read(f.data, b' + 1) == t[0]
    ensures var at := if keep then b' + 2 else b' + 1; f.pos == Min(at, |f.data|) && f.eof == (at > |f.data|)
  {
    hide Compressed, LiteralStop, Written, LiteralLength, Cut;
    ghost var s, before := f.data[b..], w.out;
    var i := FillLiteral(f, t, b);
    keep := LiteralEnd(f, t, b, i);
    if keep {
      i := i - 1;
    }
    CompressedLiteral(s);
    SliceOfSlice(f.data, b, i);
    assert t[..i] == s[..i] by { LiteralRead(f.data, b, i, t[..i]); }
    PutBlock(w, i - 1, t[..i]);
    b' := b + i;
    WrittenBlock(w, before, [i - 1] + s[..i], s, f.data[b'..]);
    t[0] := t[i];
  }

  /** Whether the literal was ended by two equal bytes. */
  method LiteralEnd(f: Reader, t: array<Byte>, ghost b: nat, i: nat) returns (keep: bool)
    requires t.Length == 129 && b < |f.data| && i == LiteralStop(f.data[b..], 1) && 1 <= i <= 128
    requires Read(f.data, b) != Read(f.data, b + 1)
    requires forall k :: 0 <= k <= i ==> t[k] == Read(f.data, b + k)
    ensures keep == (Read(f.data, b + i) == Read(f.data, b + i - 1)) && (keep ==> b + i - 1 < |f.data|)
    ensures (if keep then i - 1 else i) == LiteralLength(f.data[b..])
    ensures LiteralLength(f.data[b..]) > 0
  {
    hide LiteralStop;
    ghost var s := f.data[b..];
    ReadSlice(f.data, b, 0);
    ReadSlice(f.data, b, 1);
    ReadSlice(f.data, b, i);
    ReadSlice(f.data, b, i - 1);
    LiteralStops(s, 1);
    keep := t[i] == t[i - 1];
  }

  lemma LiteralRead(data: Bytes, b: nat, i: nat, t: Bytes)
    requires b + i <= |data| && |t| == i && forall k :: 0 <= k < i ==> t[k] == Read(data, b + k)
    ensures t == data[b..][..i]
  {
  }

  /** The rest of the loop body: one run block is written. */
  method CompressRun(f: Reader, t: array<Byte>, ghost b: nat, w: Writer) returns (ghost b': nat)
    requires f.Valid() && t.Length == 129 && b < |f.data|
    requires f.pos == Min(b + 2, |f.data|) && f.eof == (b + 2 > |f.data|)
    requires Read(f.data, b) == t[0] && Read(f.data, b + 1) == t[0]
    requires w.Valid() && !w.failed
    modifies f, t, w
    ensures f.Valid() && w.Valid() && b < b' <= |f.data| && t[0] == Read(f.data, b')
    ensures Written(w, old(w.out), f.data[b..], f.data[b'..])
    ensures f.pos == Min(b' + 1, |f.data|) && f.eof == (b' + 1 > |f.data|)
  {
    hide Compressed, RunLength, Written;
    ghost var s, before := f.data[b..], w.out;
    ReadSlice(f.data, b, 0);
    ReadSlice(f.data, b, 1);
    var i, next := FillRun(f, t[0], b);
    CompressedRun(s);
    b' := Min(b + i - 1, |f.data|);
    SliceOfSlice(f.data, b, b' - b);
    PutBlock(w, i + 125, [t[0]]);
    assert [i + 125] + [t[0]] == [i + 125, t[0]];
    WrittenBlock(w, before, [i + 125, t[0]], s, f.data[b'..]);
    t[0] := next;
  }

  // ----- extraction --------------------------------------------------------

  lemma CutInside(data: Bytes, b: nat, p: nat, end: nat, before: Bytes, room: nat)
    requires b <= p < end <= |data| && |before + data[b..p]| == room
    ensures before + data[b..p] == Cut(before + data[b..end], room) && |before + data[b..end]| > room
  {
    assert data[b..end] == data[b..p] + data[p..end];
    ConcatAssoc(before, data[b..p], data[p..end]);
  }

  /** The inner loop for a literal of which the first byte has been read. The last byte read, or
      EOF, is what decides about errors afterwards. A write that fails ends the loop. */
  method CopyLiteral(f: Reader, w: Writer, count: nat, first: Byte) returns (j: int)
    requires f.Valid() && 1 <= count <= 128 && 1 <= f.pos && f.data[f.pos - 1] == first && w.Valid() && !w.failed
    modifies f, w
    ensures f.Valid() && w.Valid() && -1 <= j < 256 && old(f.pos) <= f.pos <= |f.data|
    ensures w.Wrote(old(w.out), f.data[old(f.pos) - 1..Min(old(f.pos) - 1 + count, |f.data|)])
    ensures !w.failed ==> f.pos == Min(old(f.pos) - 1 + count, |f.data|)
    ensures if w.failed then j != EOF else j == EOF <==> |f.data| < old(f.pos) - 1 + count
  {
    ghost var b, before := f.pos - 1, w.out;
    j := first;
    var max := count;
    while max > 0
      invariant 0 <= max <= count && f.Valid() && w.Valid() && !w.failed
      invariant 0 <= j < 256 && b + 1 <= f.pos
      invariant max > 0 ==> f.pos == b + count - max + 1 <= |f.data| && f.data[f.pos - 1] == j
      invariant max > 0 ==> w.out == before + f.data[b..f.pos - 1]
      invariant max == 0 ==> f.pos == b + count <= |f.data| && w.out == before + f.data[b..f.pos]
    {
      max := max - 1;
      var ok := w.Putc(j);
      if !ok {
        CutInside(f.data, b, f.pos - 1, Min(b + count, |f.data|), before, w.room);
        return;
      }
      if max > 0 {
        j := f.Getc();
        if j == EOF {
          CutNothing(before + f.data[b..f.pos], w.room);
          return;
        }
      }
    }
    CutNothing(before + f.data[b..f.pos], w.room);
  }

  /** The inner loop for a run. */
  method CopyRun(w: Writer, count: nat, c: Byte)
    requires w.Valid() && !w.failed
    modifies w
    ensures w.Valid() && w.Wrote(old(w.out), Repeat(c, count))
  {
    ghost var before := w.out;
    var max := count;
    while max > 0
      invariant 0 <= max <= count && w.Valid() && !w.failed
      invariant w.out == before + Repeat(c, count - max)
    {
      assert Repeat(c, count - max) + [c] == Repeat(c, count - max + 1);
      max := max - 1;
      var ok := w.Putc(c);
      if !ok {
        assert w.out == Cut(before + Repeat(c, count), w.room);
        return;
      }
    }
  }

  lemma ExtractNext(t: Bytes)
    requires |t| >= 2
    ensures t[0] < 128 && |t| < t[0] as int + 2 ==> Extract(t) == Extracted(t[1..], false)
    ensures t[0] < 128 && |t| >= t[0] as int + 2 ==>
      var rest := Extract(t[t[0] as int + 2..]); Extract(t) == rest.(out := t[1..t[0] as int + 2] + rest.out)
    ensures t[0] >= 128 ==> var rest := Extract(t[2..]); Extract(t) == rest.(out := Repeat(t[1], t[0] - 126) + rest.out)
  {
  }

  lemma ExtractShort(t: Bytes)
    requires |t| < 2
    ensures Extract(t) == Extracted([], t == [])
  {
  }

  /** What the blocks so far and the rest of the file amount to: all of it, if nothing failed. */
  ghost predicate Restored(w: Writer, before: Bytes, now: Bytes, rest: Bytes)
    reads w
  {
    if w.failed then w.out == Cut(before + Extract(now).out, w.room) && |before + Extract(now).out| > w.room
    else w.out + Extract(rest).out == before + Extract(now).out && Extract(rest).ok == Extract(now).ok
  }

  lemma RestoredBlock(w: Writer, before: Bytes, block: Bytes, now: Bytes, rest: Bytes)
    requires w.Valid() && w.Wrote(before, block) && Extract(now) == Extract(rest).(out := block + Extract(rest).out)
    ensures Restored(w, before, now, rest)
  {
    hide Extract;
    ConcatAssoc(before, block, Extract(rest).out);
    if w.failed {
      CutLonger(before + block, Extract(rest).out, w.room);
    }
  }

  /** Block by block. */
  lemma RestoredMore(w: Writer, before: Bytes, data: Bytes, now: Bytes, rest: Bytes)
    requires before + Extract(now).out == Extract(data).out && Extract(now).ok == Extract(data).ok
    requires Restored(w, before, now, rest)
    ensures Restored(w, [], data, rest)
  {
    hide Extract;
    assert [] + Extract(data).out == Extract(data).out;
  }

  lemma LiteralRestored(w: Writer, before: Bytes, data: Bytes, p: nat, i: Byte, pos: nat)
    requires w.Valid() && p + 2 <= |data| && data[p] == i < 128 && pos <= |data|
    requires var n := Min(i + 1, |data| - p - 1);
      w.Wrote(before, data[p + 1..p + 1 + n]) && (w.failed || (n == i + 1 && pos == p + 1 + n))
    ensures Restored(w, before, data[p..], data[pos..])
  {
    hide Extract;
    var t := data[p..];
    var n := Min(i + 1, |data| - p - 1);
    ExtractNext(t);
    LiteralSlices(data, p, n);
    if n == i + 1 {
      RestoredBlock(w, before, t[1..n + 1], t, data[p + n + 1..]);
    }
  }

  /** What one block writes; j is EOF if the block is cut short. */
  method ExtractBlock(f: Reader, w: Writer, i: Byte, first: Byte) returns (j: int)
    requires f.Valid() && 2 <= f.pos && f.data[f.pos - 2] == i && f.data[f.pos - 1] == first && w.Valid() && !w.failed
    modifies f, w
    ensures f.Valid() && w.Valid() && -1 <= j < 256 && old(f.pos) <= f.pos
    ensures j == EOF ==> f.pos == |f.data| && !w.failed
    ensures j == EOF ==> var now := Extract(f.data[old(f.pos) - 2..]); w.out == old(w.out) + now.out && !now.ok
    ensures j != EOF ==> Restored(w, old(w.out), f.data[old(f.pos) - 2..], f.data[f.pos..])
  {
    hide Extract, Repeat, Restored;
    ghost var p, before := f.pos - 2, w.out;
    ghost var t := f.data[p..];
    assert t[0] == i && t[1] == first;
    ExtractNext(t);
    if i < 128 {
      j := CopyLiteral(f, w, i as int + 1, first);
      ghost var n := Min(i as int + 1, |f.data| - p - 1);
      LiteralSlices(f.data, p, n);
      if j != EOF {
        LiteralRestored(w, before, f.data, p, i, f.pos);
      }
    } else {
      CopyRun(w, i - 126, first);
      j := first;
      assert t[2..] == f.data[p + 2..];
      RestoredBlock(w, before, Repeat(first, i - 126), t, f.data[p + 2..]);
    }
  }

  lemma AllRestored(w: Writer, data: Bytes, rest: Bytes)
    requires w.Valid() && Restored(w, [], data, rest) && Extract(rest).out == []
    ensures w.out == Cut(Extract(data).out, w.room) && w.failed == (|Extract(data).out| > w.room)
    ensures !w.failed ==> Extract(rest).ok == Extract(data).ok
  {
    hide Extract;
    assert [] + Extract(data).out == Extract(data).out;
    assert w.out + [] == w.out;
  }

  /** rle_extract() on a file with the given contents: it writes what is specified, or as much of it
      as the disk has room for, and reports success exactly if all of it is written, the file is
      sound and errno was zero on entry. */
  method ExtractFile(data: Bytes, room: nat, errno: bool) returns (out: Bytes, ok: bool)
    ensures out == Cut(Extract(data).out, room)
    ensures ok == (Extract(data).ok && |Extract(data).out| <= room && !errno)
  {
    hide Extract, Repeat;
    var f := new Reader(data);
    var w := new Writer(room);
    var i: int, j: int := 0, 0;
    assert data[0..] == data;
    while true
      invariant f.Valid() && f.data == data && fresh(f) && 0 <= j < 256
      invariant w.Valid() && w.room == room && fresh(w)
      invariant Restored(w, [], data, data[f.pos..])
      decreases |data| - f.pos
    {
      ghost var t := data[f.pos..];
      i := f.Getc();
      if i == EOF {
        ExtractShort(t);
        AllRestored(w, data, t);
        break;
      }
      j := f.Getc();
      if j == EOF {
        ExtractShort(t);
        AllRestored(w, data, t);
        break;
      }
      if !w.failed {      // another write would fail again, before more of the block is read
        ghost var before := w.out;
        j := ExtractBlock(f, w, i, j);
        if j == EOF {
          assert [] + Extract(data).out == Extract(data).out;
          assert w.out == Extract(data).out && !Extract(data).ok;
        } else {
          RestoredMore(w, before, data, t, data[f.pos..]);
        }
      }
      if j == EOF {
        i := f.Getc();
        break;
      }
    }
    out, ok := w.out, !errno && j != EOF && i == EOF && !w.failed;
  }

  lemma LiteralSlices(data: Bytes, p: nat, n: nat)
    requires p + 1 + n <= |data|
    ensures data[p..][1..n + 1] == data[p + 1..p + 1 + n] && data[p..][n + 1..] == data[p + n + 1..]
    ensures p + 1 + n == |data| ==> data[p..][1..] == data[p + 1..p + 1 + n]
  {
  }
}
