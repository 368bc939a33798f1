/** The RLE file format: what rle_compress() writes, what rle_extract() makes of any file, and
    what comes back. At the end of the input a read gives EOF, which the compressor stores in a
    byte, as 255. */
module Rle {
  import opened Bits
  import opened Seqs

  const FF: Byte := 255
  const LONGEST_LITERAL := 128
  const LONGEST_RUN := 129

  /** What a read at index i gives. */
  function Read(s: Bytes, i: nat): Byte {
    if i < |s| then s[i] else FF
  }

  // ----- compression -------------------------------------------------------

  /** Where the search for two equal neighbours stops: at the end of the input, at the longest
      literal, or at the second of two equal bytes. */
  function LiteralStop(s: Bytes, i: nat): nat
    requires 1 <= i <= LONGEST_LITERAL
    decreases LONGEST_LITERAL - i
  {
    if i >= |s| || i == LONGEST_LITERAL || Read(s, i) == Read(s, i - 1) then i else LiteralStop(s, i + 1)
  }

  /** How many bytes from the start are the same, as reads see it, up to the longest run. */
  function RunLength(s: Bytes, c: Byte, k: nat): nat
    requires k <= LONGEST_RUN
    decreases LONGEST_RUN - k
  {
    if k == LONGEST_RUN || Read(s, k) != c then k else RunLength(s, c, k + 1)
  }

  function Min(a: nat, b: nat): nat {
    if a < b then a else b
  }

  lemma LiteralStops(s: Bytes, i: nat)
    requires 1 <= i <= LONGEST_LITERAL && s != [] && i <= |s|
    ensures var n := LiteralStop(s, i); i <= n <= LONGEST_LITERAL && n <= |s|
    ensures var n := LiteralStop(s, i); n < |s| && n < LONGEST_LITERAL ==> s[n] == s[n - 1]
    decreases LONGEST_LITERAL - i
  {
  }

  lemma RunStops(s: Bytes, c: Byte, k: nat)
    requires k <= LONGEST_RUN && forall i :: 0 <= i < k ==> Read(s, i) == c
    ensures var n := RunLength(s, c, k); k <= n <= LONGEST_RUN && forall i :: 0 <= i < n ==> Read(s, i) == c
    ensures var n := RunLength(s, c, k); n < LONGEST_RUN ==> Read(s, n) != c
    decreases LONGEST_RUN - k
  {
  }

  /** The second of two equal bytes is left to the run that follows. */
  function LiteralLength(s: Bytes): (n: nat)
    requires s != [] && Read(s, 0) != Read(s, 1)
    ensures 1 <= n <= |s| && n <= LONGEST_LITERAL
  {
    LiteralStops(s, 1);
    var i := LiteralStop(s, 1);
    if Read(s, i) == Read(s, i - 1) then i - 1 else i
  }

  /** What rle_compress() writes. */
  function Compressed(s: Bytes): Bytes
    decreases |s|
  {
    if s == [] then []
    else if Read(s, 0) == Read(s, 1) then
      RunStops(s, s[0], 0);
      var k := RunLength(s, s[0], 0);
      [k + 126, s[0]] + Compressed(s[Min(k, |s|)..])
    else
      var n := LiteralLength(s);
      [n - 1] + s[..n] + Compressed(s[n..])
  }

  // ----- extraction --------------------------------------------------------

  /** What is written, and whether the file was sound. */
  datatype Extracted = Extracted(out: Bytes, ok: bool)

  /** What rle_extract() does with a file: a block that is cut short ends it with EBADMSG, after
      the part that is there has been written. */
  function Extract(t: Bytes): Extracted
    decreases |t|
  {
    if t == [] then Extracted([], true)
    else if |t| == 1 then Extracted([], false)
    else if t[0] < 128 then
      if |t| < t[0] as int + 2 then Extracted(t[1..], false)
      else
        var rest := Extract(t[t[0] as int + 2..]);
        rest.(out := t[1..t[0] as int + 2] + rest.out)
    else
      var rest := Extract(t[2..]);
      rest.(out := Repeat(t[1], t[0] - 126) + rest.out)
  }

  // ----- the round trip ----------------------------------------------------

  /** How many bytes 255 the input ends with. */
  function TrailingFF(s: Bytes): nat {
    if s == [] || s[|s| - 1] != FF then 0 else 1 + TrailingFF(s[..|s| - 1])
  }

  /** How many more are needed for a multiple of the longest run. */
  function Padding(n: nat): nat {
    (LONGEST_RUN - n % LONGEST_RUN) % LONGEST_RUN
  }

  function Padded(s: Bytes): Bytes {
    s + Repeat(FF, Padding(TrailingFF(s)))
  }

  lemma {:induction false} TrailingFFIs(s: Bytes)
    ensures var n := TrailingFF(s);
      n <= |s| && (forall i :: |s| - n <= i < |s| ==> s[i] == FF) && (n < |s| ==> s[|s| - n - 1] != FF)
  {
    if s != [] && s[|s| - 1] == FF {
      TrailingFFIs(s[..|s| - 1]);
    }
  }

  lemma {:induction false} TrailingFFUnique(s: Bytes, n: nat)
    requires n <= |s| && (forall i :: |s| - n <= i < |s| ==> s[i] == FF) && (n < |s| ==> s[|s| - n - 1] != FF)
    ensures TrailingFF(s) == n
  {
    if n > 0 {
      assert s[|s| - 1] == FF;
      TrailingFFUnique(s[..|s| - 1], n - 1);
    }
  }

  lemma TrailingFFRest(s: Bytes, n: nat)
    requires n <= |s|
    ensures TrailingFF(s) <= |s| - n ==> TrailingFF(s[n..]) == TrailingFF(s)
    ensures TrailingFF(s) == |s| ==> TrailingFF(s[n..]) == |s| - n
  {
    hide TrailingFF;
    TrailingFFIs(s);
    var rest := s[n..];
    var m := TrailingFF(s);
    var k := if m <= |s| - n then m else m - n;
    if m <= |s| - n || m == |s| {
      forall i | |rest| - k <= i < |rest| ensures rest[i] == FF {
        assert rest[i] == s[n + i];
      }
      assert k < |rest| ==> rest[|rest| - k - 1] == s[|s| - k - 1];
      TrailingFFUnique(rest, k);
    }
  }

  lemma PaddingShift(m: nat)
    requires m >= LONGEST_RUN
    ensures Padding(m - LONGEST_RUN) == Padding(m)
  {
    assert (m - LONGEST_RUN) % LONGEST_RUN == m % LONGEST_RUN;
  }

  lemma NoPadding(m: nat)
    ensures Padding(m) == 0 <==> m % LONGEST_RUN == 0
  {
  }

  lemma NothingTrails(s: Bytes)
    requires s == [] || s[|s| - 1] != FF
    ensures TrailingFF(s) == 0
  {
  }

  /** Leaving out the start does not change the padding as long as the run of 255 at the end is
      not cut, or is cut by a longest run. */
  lemma PaddedRest(s: Bytes, n: nat)
    requires n <= |s|
    requires TrailingFF(s) <= |s| - n || (TrailingFF(s) == |s| && n == LONGEST_RUN)
    ensures Padded(s) == s[..n] + Padded(s[n..])
  {
    hide TrailingFF, Padding, Repeat;
    TrailingFFRest(s, n);
    var rest := s[n..];
    if TrailingFF(s) == |s| && n == LONGEST_RUN {
      PaddingShift(|s|);
    }
    var pad := Repeat(FF, Padding(TrailingFF(rest)));
    assert s == s[..n] + rest;
    assert s[..n] + (rest + pad) == s + pad;
  }

  /** A literal block and what follows it. */
  lemma ExtractLiteral(block: Bytes, rest: Bytes)
    requires 1 <= |block| <= LONGEST_LITERAL
    ensures Extract([|block| - 1] + block + rest) == Extract(rest).(out := block + Extract(rest).out)
  {
    var t := [|block| - 1] + block + rest;
    assert t[1..|block| + 1] == block;
    assert t[|block| + 1..] == rest;
  }

  lemma ExtractRun(k: nat, c: Byte, rest: Bytes)
    requires 2 <= k <= LONGEST_RUN
    ensures Extract([k + 126, c] + rest) == Extract(rest).(out := Repeat(c, k) + Extract(rest).out)
  {
    var t := [k + 126, c] + rest;
    assert t[2..] == rest;
  }

  lemma CompressedRun(s: Bytes)
    requires s != [] && Read(s, 0) == Read(s, 1)
    ensures var k := RunLength(s, s[0], 0);
      2 <= k <= LONGEST_RUN && Compressed(s) == [k + 126, s[0]] + Compressed(s[Min(k, |s|)..])
  {
    hide Read, RunLength, Min, Compressed;
    RunBounds(s);
    CompressedIs(s, RunLength(s, s[0], 0));
  }

  lemma RunBounds(s: Bytes)
    requires s != [] && Read(s, 0) == Read(s, 1)
    ensures 2 <= RunLength(s, s[0], 0) <= LONGEST_RUN
  {
    hide Read, RunLength;
    RunAtLeastTwo(s);
    RunNoLonger(s, s[0], 0);
  }

  lemma RunNoLonger(s: Bytes, c: Byte, k: nat)
    requires k <= LONGEST_RUN
    ensures RunLength(s, c, k) <= LONGEST_RUN
    decreases LONGEST_RUN - k
  {
  }

  lemma CompressedIs(s: Bytes, k: nat)
    requires s != [] && Read(s, 0) == Read(s, 1) && k == RunLength(s, s[0], 0) && 2 <= k <= LONGEST_RUN
    ensures Compressed(s) == [k + 126, s[0]] + Compressed(s[Min(k, |s|)..])
  {
    hide Read, LiteralLength, RunLength, Min;
  }

  lemma RunRoundTrip(s: Bytes)
    requires s != [] && Read(s, 0) == Read(s, 1)
    requires var k := RunLength(s, s[0], 0); var rest := s[Min(k, |s|)..];
      Extract(Compressed(rest)) == Extracted(Padded(rest), true)
    ensures Extract(Compressed(s)) == Extracted(Padded(s), true)
  {
    hide Extract, Compressed, Padded, RunLength, Read, Repeat;
    CompressedRun(s);
    var k := RunLength(s, s[0], 0);
    ExtractRun(k, s[0], Compressed(s[Min(k, |s|)..]));
    PaddedRun(s);
  }

  /** A run that ends before the end of the input, or a run of 255 that is as long as can be. */
  lemma PaddedRun(s: Bytes)
    requires s != [] && Read(s, 0) == Read(s, 1)
    ensures var k := RunLength(s, s[0], 0); Padded(s) == Repeat(s[0], k) + Padded(s[Min(k, |s|)..])
  {
    hide Padded, RunLength;
    CompressedRun(s);
    var k := RunLength(s, s[0], 0);
    RunStops(s, s[0], 0);
    if k <= |s| {
      assert forall i :: 0 <= i < k ==> Read(s, i) == s[i];
      assert s[..k] == Repeat(s[0], k);
      RunPadding(s, k);
    } else {
      OnlyFF(s, k);
    }
  }

  lemma RunAtLeastTwo(s: Bytes)
    requires s != [] && Read(s, 0) == Read(s, 1)
    ensures RunLength(s, s[0], 0) >= 2
  {
    assert RunLength(s, s[0], 0) == RunLength(s, s[0], 1) == RunLength(s, s[0], 2);
    RunStops(s, s[0], 2) by {
      assert forall i :: 0 <= i < 2 ==> Read(s, i) == s[0];
    }
  }

  lemma RunPadding(s: Bytes, k: nat)
    requires 2 <= k <= LONGEST_RUN && k <= |s| && (forall i :: 0 <= i < k ==> s[i] == s[0])
    requires k < LONGEST_RUN ==> Read(s, k) != s[0]
    ensures Padded(s) == s[..k] + Padded(s[k..])
  {
    RunIsNotCut(s, k);
    PaddedRest(s, k);
  }

  lemma RunIsNotCut(s: Bytes, k: nat)
    requires 2 <= k <= LONGEST_RUN && k <= |s| && (forall i :: 0 <= i < k ==> s[i] == s[0])
    requires k < LONGEST_RUN ==> Read(s, k) != s[0]
    ensures TrailingFF(s) <= |s| - k || (TrailingFF(s) == |s| && k == LONGEST_RUN)
  {
    hide TrailingFF;
    TrailingFFIs(s);
    assert s[k - 1] == s[0];
  }

  /** The input is nothing but a run of 255 that is shorter than the longest run. */
  lemma OnlyFF(s: Bytes, k: nat)
    requires 0 < |s| < k <= LONGEST_RUN && (forall i :: 0 <= i < k ==> Read(s, i) == s[0])
    requires k < LONGEST_RUN ==> Read(s, k) != s[0]
    ensures Padded(s) == Repeat(s[0], k) + Padded(s[|s|..])
  {
    assert Read(s, |s|) == FF;
    assert Read(s, k) == FF;
    assert forall i :: 0 <= i < |s| ==> Read(s, i) == s[i];
    TrailingFFUnique(s, |s|);
    assert s[|s|..] == [];
    assert Padded([]) == [];
    assert s + Repeat(FF, LONGEST_RUN - |s|) == Repeat(FF, LONGEST_RUN);
  }

  lemma LiteralRoundTrip(s: Bytes)
    requires s != [] && Read(s, 0) != Read(s, 1)
    requires Extract(Compressed(s[LiteralLength(s)..])) == Extracted(Padded(s[LiteralLength(s)..]), true)
    ensures Extract(Compressed(s)) == Extracted(Padded(s), true)
  {
    hide Extract, Padded, LiteralLength, LiteralStop, RunLength;
    var n := LiteralLength(s);
    ExtractLiteral(s[..n], Compressed(s[n..]));
    LiteralPadding(s);
  }

  /** No two neighbours within a literal are the same, so it does not cut the run at the end. */
  lemma {:induction false} LiteralDiffers(s: Bytes, i: nat, j: nat)
    requires 1 <= i <= LONGEST_LITERAL && i <= |s| && i <= j < LiteralStop(s, i)
    ensures Read(s, j) != Read(s, j - 1)
    decreases LONGEST_LITERAL - i
  {
    LiteralStops(s, i);
    if i < j {
      LiteralDiffers(s, i + 1, j);
    }
  }

  lemma LiteralPadding(s: Bytes)
    requires s != [] && Read(s, 0) != Read(s, 1)
    ensures var n := LiteralLength(s); Padded(s) == s[..n] + Padded(s[n..])
  {
    var n := LiteralLength(s);
    LiteralIsNotCut(s);
    TrailingFFIs(s);
    PaddedRest(s, n);
  }

  lemma LiteralIsNotCut(s: Bytes)
    requires s != [] && Read(s, 0) != Read(s, 1)
    ensures TrailingFF(s) <= |s| - LiteralLength(s)
  {
    hide TrailingFF, LiteralStop;
    var n := LiteralLength(s);
    TrailingFFIs(s);
    LiteralEnd(s);
  }

  /** A literal ends with a byte other than 255 or before one, or 255 and another byte follow. */
  lemma LiteralEnd(s: Bytes)
    requires s != [] && Read(s, 0) != Read(s, 1)
    ensures var n := LiteralLength(s); s[n - 1] != FF || (n < |s| && s[n] != FF)
  {
    LiteralStops(s, 1);
    var n, i := LiteralLength(s), LiteralStop(s, 1);
    if n < i {
      LiteralDiffers(s, 1, n);
    } else {
      assert Read(s, n) != Read(s, n - 1);
    }
  }

  /** Extracting the compressed file gives the input with its trailing run of 255 lengthened to
      the next multiple of 129. */
  lemma {:induction false} RoundTrip(s: Bytes)
    ensures Extract(Compressed(s)) == Extracted(Padded(s), true)
    decreases |s|
  {
    hide Extract, Compressed, LiteralStop, RunLength;
    if s == [] {
      EmptyRoundTrip();
    } else if Read(s, 0) == Read(s, 1) {
      RunAtLeastTwo(s);
      RoundTrip(s[Min(RunLength(s, s[0], 0), |s|)..]);
      RunRoundTrip(s);
    } else {
      RoundTrip(s[LiteralLength(s)..]);
      LiteralRoundTrip(s);
    }
  }

  lemma EmptyRoundTrip()
    ensures Extract(Compressed([])) == Extracted(Padded([]), true)
  {
  }

  /** The input comes back as it was exactly if its trailing run of 255 is a multiple of 129 bytes
      long, so whenever the last byte is another one. */
  lemma ExactRoundTrip(s: Bytes)
    ensures Extract(Compressed(s)).out == s <==> TrailingFF(s) % LONGEST_RUN == 0
    ensures s == [] || s[|s| - 1] != FF ==> Extract(Compressed(s)) == Extracted(s, true)
  {
    hide Extract, Compressed, TrailingFF, Padding, Repeat;
    RoundTrip(s);
    assert |Padded(s)| == |s| + Padding(TrailingFF(s));
    NoPadding(TrailingFF(s));
    assert s + [] == s;
    if s == [] || s[|s| - 1] != FF {
      NothingTrails(s);
    }
  }

  // ----- the format --------------------------------------------------------

  /** A complete block: a literal of up to 128 bytes or a run of up to 129. */
  datatype Block = Literal(bytes: Bytes) | Run(c: Byte, count: nat)

  predicate Proper(b: Block) {
    match b
    case Literal(bytes) => 1 <= |bytes| <= LONGEST_LITERAL
    case Run(_, count) => 2 <= count <= LONGEST_RUN
  }

  function EncodedBlock(b: Block): Bytes
    requires Proper(b)
  {
    match b
    case Literal(bytes) => [|bytes| - 1] + bytes
    case Run(c, count) => [count + 126, c]
  }

  function Encoded(blocks: seq<Block>): Bytes
    requires forall b <- blocks :: Proper(b)
  {
    if blocks == [] then [] else EncodedBlock(blocks[0]) + Encoded(blocks[1..])
  }

  function Meaning(blocks: seq<Block>): Bytes {
    if blocks == [] then []
    else
      var rest := Meaning(blocks[1..]);
      match blocks[0]
      case Literal(bytes) => bytes + rest
      case Run(c, count) => Repeat(c, count) + rest
  }

  /** A sequence of complete blocks is extracted without error to what it means. */
  lemma {:induction false} BlocksExtract(blocks: seq<Block>)
    requires forall b <- blocks :: Proper(b)
    ensures Extract(Encoded(blocks)) == Extracted(Meaning(blocks), true)
  {
    hide Extract;
    if blocks == [] {
      EmptyExtract();
    } else {
      assert Proper(blocks[0]);
      BlocksExtract(blocks[1..]);
      match blocks[0] {
        case Literal(bytes) => ExtractLiteral(bytes, Encoded(blocks[1..]));
        case Run(c, count) => ExtractRun(count, c, Encoded(blocks[1..]));
      }
    }
  }

  lemma EmptyExtract()
    ensures Extract([]) == Extracted([], true)
  {
  }

  /** The blocks of a file that is extracted without error. */
  function Parse(t: Bytes): seq<Block>
    decreases |t|
  {
    if |t| < 2 then []
    else if t[0] < 128 then
      if |t| < t[0] as int + 2 then [] else [Literal(t[1..t[0] as int + 2])] + Parse(t[t[0] as int + 2..])
    else [Run(t[1], t[0] - 126)] + Parse(t[2..])
  }

  lemma {:induction false} ParseIsProper(t: Bytes)
    ensures forall b <- Parse(t) :: Proper(b)
    decreases |t|
  {
    if |t| >= 2 {
      if t[0] >= 128 {
        ParseIsProper(t[2..]);
      } else if |t| >= t[0] as int + 2 {
        ParseIsProper(t[t[0] as int + 2..]);
      }
    }
  }

  lemma EncodedFirst(b: Block, blocks: seq<Block>)
    requires Proper(b) && forall b <- blocks :: Proper(b)
    ensures Encoded([b] + blocks) == EncodedBlock(b) + Encoded(blocks)
  {
    assert ([b] + blocks)[1..] == blocks;
  }

  /** The first block of a sound file, and the rest of it. */
  lemma SoundFirst(t: Bytes)
    requires Extract(t).ok && t != []
    ensures |t| >= 2
    ensures t[0] >= 128 ==> Extract(t[2..]).ok && Parse(t) == [Run(t[1], t[0] - 126)] + Parse(t[2..])
    ensures t[0] < 128 ==> var n := t[0] as int + 2;
      n <= |t| && Extract(t[n..]).ok && Parse(t) == [Literal(t[1..n])] + Parse(t[n..])
  {
  }

  lemma {:induction false} SoundIsBlocks(t: Bytes)
    requires Extract(t).ok
    ensures (forall b <- Parse(t) :: Proper(b)) && Encoded(Parse(t)) == t
    decreases |t|
  {
    hide Extract, Encoded;
    ParseIsProper(t);
    if t == [] {
      assert Encoded([]) == [] by { NoBlocks(); }
    } else {
      SoundFirst(t);
      var n := if t[0] >= 128 then 2 else t[0] as int + 2;
      SoundIsBlocks(t[n..]);
      if t[0] >= 128 {
        EncodedFirst(Run(t[1], t[0] - 126), Parse(t[2..]));
        assert t == [t[0], t[1]] + t[2..];
      } else {
        EncodedFirst(Literal(t[1..n]), Parse(t[n..]));
        assert t == [t[0]] + t[1..n] + t[n..];
      }
    }
  }

  lemma NoBlocks()
    ensures Encoded([]) == []
  {
  }

  /** rle_extract() reports EBADMSG exactly for files that are not a sequence of complete blocks. */
  lemma SoundExactlyForBlocks(t: Bytes)
    ensures Extract(t).ok <==> exists blocks: seq<Block> :: (forall b <- blocks :: Proper(b)) && Encoded(blocks) == t
  {
    hide Extract, Encoded, Parse;
    if Extract(t).ok {
      SoundIsBlocks(t);
    }
    if exists blocks: seq<Block> :: (forall b <- blocks :: Proper(b)) && Encoded(blocks) == t {
      var blocks: seq<Block> :| (forall b <- blocks :: Proper(b)) && Encoded(blocks) == t;
      BlocksExtract(blocks);
    }
  }

  // ----- size --------------------------------------------------------------

  /** A literal before a run is paid for by the run. */
  lemma {:induction false} SizeBound(s: Bytes)
    requires s == [] || s[|s| - 1] != FF
    ensures 3 * |Compressed(s)| <= 4 * |s| + 2
    ensures s != [] && Read(s, 0) == Read(s, 1) ==> 3 * |Compressed(s)| <= 4 * |s|
    decreases |s|
  {
    if s != [] {
      if Read(s, 0) == Read(s, 1) {
        RunAtLeastTwo(s);
        RunStops(s, s[0], 0);
        var k := RunLength(s, s[0], 0);
        RunIsReal(s, k);
        SizeBound(s[k..]);
        assert |Compressed(s)| == 2 + |Compressed(s[k..])|;
      } else {
        var n := LiteralLength(s);
        SizeBound(s[n..]);
        assert |Compressed(s)| == 1 + n + |Compressed(s[n..])|;
        AfterLiteral(s);
      }
    }
  }

  /** After a literal comes a run, or the end, or the literal was as long as can be. */
  lemma AfterLiteral(s: Bytes)
    requires s != [] && Read(s, 0) != Read(s, 1)
    ensures var n := LiteralLength(s); var rest := s[n..];
      rest == [] || n == LONGEST_LITERAL || Read(rest, 0) == Read(rest, 1)
  {
    LiteralStops(s, 1);
    var n := LiteralLength(s);
    assert forall i :: Read(s[n..], i) == Read(s, n + i);
  }

  /** Without 255 at the end, a run ends where the input does. */
  lemma RunIsReal(s: Bytes, k: nat)
    requires s != [] && s[|s| - 1] != FF && forall i :: 0 <= i < k ==> Read(s, i) == s[0]
    ensures k <= |s|
  {
    assert k > |s| ==> Read(s, |s|) == Read(s, |s| - 1);
  }

  // ----- what is saved -----------------------------------------------------

  lemma {:induction false} RunOfRepeat(c: Byte, n: nat, k: nat)
    requires c != FF && k <= n && k <= LONGEST_RUN
    ensures RunLength(Repeat(c, n), c, k) == Min(n, 129)
    decreases LONGEST_RUN - k
  {
    if k < n && k < LONGEST_RUN {
      RunOfRepeat(c, n, k + 1);
    }
  }

  /** A run of m times 129 equal bytes becomes m pairs. */
  lemma {:induction false} RunIsPairs(c: Byte, m: nat)
    requires c != FF
    ensures Compressed(Repeat(c, 129 * m)) == seq(2 * m, i => if i % 2 == 0 then 255 else c)
    decreases m
  {
    hide RunLength;
    var s, pairs := Repeat(c, 129 * m), seq(2 * m, i => if i % 2 == 0 then 255 else c);
    if m > 0 {
      RunOfRepeat(c, 129 * m, 0);
      assert s[129..] == Repeat(c, 129 * (m - 1));
      RunIsPairs(c, m - 1);
      assert pairs == [255, c] + seq(2 * (m - 1), i => if i % 2 == 0 then 255 else c);
    }
  }

  /** A shorter run is one pair. */
  lemma ShortRun(c: Byte, n: nat)
    requires c != FF && 2 <= n <= 129
    ensures Compressed(Repeat(c, n)) == [n + 126, c]
  {
    hide RunLength;
    RunOfRepeat(c, n, 0);
    assert Repeat(c, n)[n..] == [];
  }

  lemma {:induction false} NoStop(s: Bytes, i: nat)
    requires 1 <= i <= |s| <= 128 && forall k | 0 <= k < |s| - 1 :: s[k] != s[k + 1]
    ensures LiteralStop(s, i) == |s|
    decreases LONGEST_LITERAL - i
  {
    if i < |s| {
      NoStop(s, i + 1);
    }
  }

  lemma WholeLiteral(s: Bytes)
    requires 1 <= |s| <= 128 && s[|s| - 1] != FF && forall k | 0 <= k < |s| - 1 :: s[k] != s[k + 1]
    ensures Read(s, 0) != Read(s, 1) && LiteralLength(s) == |s|
  {
    hide LiteralStop;
    NoStop(s, 1);
  }

  /** Up to 128 bytes of which no two neighbours are equal are one literal. */
  lemma OneLiteral(s: Bytes)
    requires 1 <= |s| <= 128 && s[|s| - 1] != FF && forall k | 0 <= k < |s| - 1 :: s[k] != s[k + 1]
    ensures Compressed(s) == [|s| - 1] + s
  {
    hide LiteralLength, RunLength, Read;
    WholeLiteral(s);
    assert s[..|s|] == s && s[|s|..] == [];
    assert Compressed([]) == [];
  }
}
