/** The body of an INIT packet, and what is read from it. The flag strings are read with strtok(),
    which cuts them in the receive buffer; the windows and the prefix are then looked for behind
    what is left of the string of wanted options. */
module HydraInit {
  import opened Bits
  import opened HydraTypes
  import opened HydraText
  import opened HydraFlags

  /** Revision, program, version and machine. */
  const APPINFO := "2b1aab00HydraCom,1.00 PC"
  /** Longest prefix that is kept. */
  const PKTPREFIX := 31

  /** Windows as text. */
  function WindowText(txwindow: int, rxwindow: int): Bytes {
    Digits(Bits32(txwindow), 8) + Digits(Bits32(rxwindow), 8)
  }

  /** What HTX_INIT puts into the transmit buffer; no prefix is asked for. */
  function InitBody(can: string, want: string, txwindow: int, rxwindow: int): Bytes {
    Ended(APPINFO) + (Ended(can) + (Ended(want) + (WindowText(txwindow, rxwindow) + ([0] + [0]))))
  }

  /** What the session takes from an INIT packet. */
  datatype Fields = Fields(can: string, want: string, txwindow: int, rxwindow: int, prefix: string)

  /** The places of the two flag strings in the buffer. */
  function CanAt(buf: Bytes): nat {
    StrLen(buf, 0) + 1
  }

  function WantAt(buf: Bytes): nat {
    CanAt(buf) + StrLen(buf, CanAt(buf)) + 1
  }

  /** The buffer after both flag strings have been read. */
  function AfterFlags(buf: Bytes): Bytes {
    Cut(Cut(buf, WantAt(buf)), CanAt(buf))
  }

  /** Two longs in hexadecimal, one behind the other: scanf() leaves out what it does not find. */
  function ScanWindows(buf: Bytes, at: nat): (int, int) {
    var first := DigitRun(buf, at, 8);
    (ScanLong(buf, at), if first == 0 then 0 else ScanLong(buf, at + first))
  }

  function ReadInit(buf: Bytes): Fields {
    var after, q := AfterFlags(buf), WantAt(buf);
    var r := q + StrLen(after, q) + 1;
    var prefix := Text(after, r + StrLen(after, r) + 1);
    Fields(Text(Cut(buf, q), CanAt(buf)), Text(buf, q), ScanWindows(after, r).0, ScanWindows(after, r).1,
           if |prefix| > PKTPREFIX then prefix[..PKTPREFIX] else prefix)
  }

  // ----- the shape of flag strings -----------------------------------------

  /** Names of three characters with commas between them. */
  predicate FlagString(w: string) {
    && Plain(w) && |w| % 4 == 3
    && forall i :: 0 <= i < |w| ==> (w[i] == ',' <==> i % 4 == 3)
  }

  lemma LongerShape(s: string, name: string)
    requires s == "" || FlagString(s)
    requires |name| == 3 && Plain(name) && ',' !in name
    ensures FlagString(Longer(s, name))
  {
    assert name[0] in name && name[1] in name && name[2] in name;
    if s == "" {
      assert Longer(s, name) == name;
    } else {
      var w := Longer(s, name);
      forall i | 0 <= i < |w| ensures w[i] == ',' <==> i % 4 == 3 {
        assert w[i] == if i < |s| then s[i] else if i == |s| then ',' else name[i - |s| - 1];
      }
    }
  }

  lemma RowsArePlain(i: nat)
    requires i < |FLAGS|
    ensures |FLAGS[i].name| == 3 && Plain(FLAGS[i].name) && ',' !in FLAGS[i].name
  {
  }

  lemma {:induction false} NamesShape(val: Options, n: nat)
    requires n <= |FLAGS|
    ensures var w := Names(FLAGS, val, n); (w == "" || FlagString(w)) && |w| <= 4 * n
  {
    hide FlagString;
    if n > 0 {
      NamesShape(val, n - 1);
      RowsArePlain(n - 1);
      if FLAGS[n - 1].flag in val {
        LongerShape(Names(FLAGS, val, n - 1), FLAGS[n - 1].name);
      }
    }
  }

  // ----- where the strings are found ---------------------------------------

  /** The buffer from the string of wanted options on. */
  predicate WantsAt(buf: Bytes, q: nat, want: string, behind: Bytes) {
    q <= |buf| && buf[q..] == Ended(want) + behind
  }

  lemma SameText(b: Bytes, c: Bytes, at: nat)
    requires |b| == |c| && at + StrLen(b, at) < |b|
    requires forall i | at <= i <= at + StrLen(b, at) :: c[i] == b[i]
    ensures Text(c, at) == Text(b, at) && StrLen(c, at) == StrLen(b, at)
  {
    StrLenStops(b, at);
    StrLenIs(c, at, StrLen(b, at));
    forall i | 0 <= i < |Text(b, at)| ensures Text(c, at)[i] == Text(b, at)[i] {
      assert Text(c, at)[i] == At(c, at + i) as char;
      assert Text(b, at)[i] == At(b, at + i) as char;
    }
  }

  /** Cutting one string leaves everything outside of it alone. */
  lemma CutInside(b: Bytes, at: nat, i: nat)
    requires i < |b| && (i <= at || i >= at + StrLen(b, at))
    ensures Cut(b, at)[i] == b[i]
  {
  }

  /** Both strings are read as they were written, and what is behind the first is cut once. */
  lemma FlagsRead(can: string, want: string, behind: Bytes)
    requires Plain(can) && Plain(want)
    ensures var buf := Ended(APPINFO) + (Ended(can) + (Ended(want) + behind));
      && CanAt(buf) == |APPINFO| + 1 && WantAt(buf) == |APPINFO| + |can| + 2
      && StrLen(buf, WantAt(buf)) == |want| && WantsAt(buf, WantAt(buf), want, behind)
      && Text(Cut(buf, WantAt(buf)), CanAt(buf)) == can && Text(buf, WantAt(buf)) == want
      && AfterFlags(buf)[WantAt(buf)..] == Cut(buf, WantAt(buf))[WantAt(buf)..]
  {
    hide StrLen, Text, Ended, Plain, Cut;
    var a, c, w := Ended(APPINFO), Ended(can), Ended(want);
    var buf := a + (c + (w + behind));
    assert Plain(APPINFO) by { AppInfoIsPlain(); }
    NextText([], APPINFO, c + (w + behind));
    assert [] + (a + (c + (w + behind))) == buf && [] + a == a;
    NextText(a, can, w + behind);
    NextText(a + c, want, behind);
    var p, q := |APPINFO| + 1, |APPINFO| + |can| + 2;
    assert |a + c| == q && buf == (a + c) + (w + behind);
    assert |w| == |want| + 1 by { EndedLength(want); }
    CutLength(buf, q);
    forall i | p <= i <= p + StrLen(buf, p) ensures Cut(buf, q)[i] == buf[i] {
      CutInside(buf, q, i);
    }
    SameText(buf, Cut(buf, q), p);
    CutLength(Cut(buf, q), p);
    forall i | q <= i < |buf| ensures Cut(Cut(buf, q), p)[i] == Cut(buf, q)[i] {
      CutInside(Cut(buf, q), p, i);
    }
  }

  lemma EndedLength(s: string)
    ensures |Ended(s)| == |s| + 1
  {
  }

  lemma CutLength(b: Bytes, at: nat)
    ensures |Cut(b, at)| == |b|
  {
  }

  lemma AppInfoIsPlain()
    ensures Plain(APPINFO)
  {
  }

  // ----- at most one option is wanted --------------------------------------

  lemma NotCut(buf: Bytes, q: nat, want: string, behind: Bytes)
    requires WantsAt(buf, q, want, behind) && Plain(want) && ',' !in want && StrLen(buf, q) == |want|
    ensures Cut(buf, q) == buf
  {
    hide StrLen;
    forall i | q <= i < q + |want| ensures buf[i] != COMMA {
      assert buf[i] == buf[q..][i - q] == Ended(want)[i - q] == Chars(want)[i - q];
      assert want[i - q] in want;
    }
  }

  lemma DigitsAreDigits(tx: int, rx: int, i: nat)
    requires i < 16
    ensures |WindowText(tx, rx)| == 16 && ScanVal(WindowText(tx, rx)[i]) >= 0 && WindowText(tx, rx)[i] != 0
  {
    hide Digits, Value, Pow16, Bits32;
    BitsBound(tx);
    BitsBound(rx);
    PowerOfEight();
    ValueOfDigits(Bits32(tx), 8);
    ValueOfDigits(Bits32(rx), 8);
    assert WindowText(tx, rx)[i] == if i < 8 then Digits(Bits32(tx), 8)[i] else Digits(Bits32(rx), 8)[i - 8];
  }

  lemma WindowTextLength(b: Bytes, r: nat, tx: int, rx: int, rest: Bytes)
    requires r <= |b| && b[r..] == WindowText(tx, rx) + ([0] + [0] + rest)
    ensures StrLen(b, r) == 16 && StrLen(b, r + 17) == 0
    ensures Text(b, r + 17) == "" && Text(b, r) == WindowString(tx, rx)
  {
    hide StrLen, WindowText, ScanVal;
    DigitsAreDigits(tx, rx, 0);
    forall i | r <= i < r + 16 ensures b[i] == WindowText(tx, rx)[i - r] && b[i] != 0 {
      DigitsAreDigits(tx, rx, i - r);
      assert b[i] == b[r..][i - r];
    }
    assert b[r + 16] == b[r..][16] == 0 && b[r + 17] == b[r..][17] == 0;
    StrLenIs(b, r, 16);
    StrLenIs(b, r + 17, 0);
    forall i | 0 <= i < 16 ensures Text(b, r)[i] == WindowString(tx, rx)[i] {
      assert Text(b, r)[i] == At(b, r + i) as char;
      assert b[r + i] == WindowText(tx, rx)[i];
    }
  }

  /** The text of the windows, as a string. */
  function WindowString(txwindow: int, rxwindow: int): (s: string)
    ensures |s| == 16
  {
    seq(16, i requires 0 <= i < 16 => At(WindowText(txwindow, rxwindow), i) as char)
  }

  lemma WindowsScanned(before: Bytes, tx: int, rx: int, rest: Bytes)
    requires InLong(tx) && InLong(rx)
    ensures ScanWindows(before + (WindowText(tx, rx) + rest), |before|) == (tx, rx)
  {
    hide ScanLong, DigitRun, Digits, InLong;
    var x, y := Digits(Bits32(tx), 8), Digits(Bits32(rx), 8);
    var b := before + (WindowText(tx, rx) + rest);
    Assoc(x, y, rest);
    assert b == before + (x + (y + rest));
    ScanBack(before, tx, y + rest);
    assert b == (before + x) + (y + rest) by { Assoc(before, x, y + rest); }
    ScanBack(before + x, rx, rest);
  }

  /** With at most one name there is nothing to cut, and everything is read as it was written. */
  lemma OneName(can: string, want: string, tx: int, rx: int, rest: Bytes)
    requires Plain(can) && Plain(want) && ',' !in want && InLong(tx) && InLong(rx)
    ensures ReadInit(InitBody(can, want, tx, rx) + rest) == Fields(can, want, tx, rx, "")
  {
    hide StrLen, Text, Cut, Ended, Plain, InLong, ScanWindows, WindowText, CanAt, WantAt, AfterFlags;
    var behind := WindowText(tx, rx) + ([0] + [0] + rest);
    var buf := InitBody(can, want, tx, rx) + rest;
    BodyIs(can, want, tx, rx, rest);
    FlagsRead(can, want, behind);
    var q := WantAt(buf);
    NotCut(buf, q, want, behind);
    AfterLength(buf);
    var after := AfterFlags(buf);
    var r := q + |want| + 1;
    var before := after[..q];
    assert after == before + (Ended(want) + behind);
    NextText(before, want, behind);
    assert |before + Ended(want)| == r by { EndedLength(want); }
    assert after[r..] == behind by { assert after == (before + Ended(want)) + behind; }
    WindowTextLength(after, r, tx, rx, rest);
    WindowsScanned(before + Ended(want), tx, rx, [0] + [0] + rest);
  }

  lemma AfterLength(buf: Bytes)
    ensures |AfterFlags(buf)| == |buf|
  {
  }

  lemma BodyIs(can: string, want: string, tx: int, rx: int, rest: Bytes)
    ensures InitBody(can, want, tx, rx) + rest
      == Ended(APPINFO) + (Ended(can) + (Ended(want) + (WindowText(tx, rx) + ([0] + [0] + rest))))
  {
    hide Ended, WindowText;
    var a, c, w, x := Ended(APPINFO), Ended(can), Ended(want), WindowText(tx, rx);
    assert [0] + [0] + rest == ([0] + [0]) + rest;
    Assoc(x, [0] + [0], rest);
    Assoc(w, x + ([0] + [0]), rest);
    Assoc(c, w + (x + ([0] + [0])), rest);
    Assoc(a, c + (w + (x + ([0] + [0]))), rest);
  }

  // ----- more than one is wanted -------------------------------------------

  /** The first two strings in a cut string of flags, and the third or what is behind. */
  lemma CutNames(buf: Bytes, q: nat, want: string, behind: Bytes)
    requires WantsAt(buf, q, want, behind) && FlagString(want) && |want| >= 7 && StrLen(buf, q) == |want|
    ensures var c := Cut(buf, q);
      && q + |want| < |c| == |buf| && StrLen(c, q) == 3 && StrLen(c, q + 4) == 3 && Text(c, q + 4) == want[4..7]
      && (|want| == 7 ==> c[q + 8..] == behind)
      && (|want| > 7 ==> Text(c, q + 8) == want[8..11])
  {
    hide StrLen, Text, Cut, FlagString;
    var c := Cut(buf, q);
    assert |want| % 4 == 3 by { FlagEnds(want); }
    CutLength(buf, q);
    CutEnd(buf, q, want, behind);
    forall i | q <= i < q + |want| ensures c[i] == if (i - q) % 4 == 3 then 0 else want[i - q] as int % 256 {
      CutAtCommas(buf, q, want, behind, i - q);
    }
    NameAt(c, q, want, 0);
    NameAt(c, q, want, 4);
    if |want| > 7 {
      NameAt(c, q, want, 8);
    }
  }

  lemma FlagEnds(w: string)
    requires FlagString(w)
    ensures |w| % 4 == 3
  {
  }

  lemma CutAtCommas(buf: Bytes, q: nat, want: string, behind: Bytes, i: nat)
    requires WantsAt(buf, q, want, behind) && FlagString(want) && StrLen(buf, q) == |want| && i < |want|
    ensures Cut(buf, q)[q + i] == if i % 4 == 3 then 0 else want[i] as int % 256
  {
    hide StrLen;
    assert buf[q + i] == buf[q..][i] == Ended(want)[i] == Chars(want)[i];
    assert want[i] in want;
    if i > 0 {
      assert buf[q + i - 1] == buf[q..][i - 1] == Ended(want)[i - 1] == Chars(want)[i - 1];
      assert want[i - 1] in want;
    }
  }

  lemma CutEnd(buf: Bytes, q: nat, want: string, behind: Bytes)
    requires WantsAt(buf, q, want, behind) && StrLen(buf, q) == |want|
    ensures q + |want| < |buf| && Cut(buf, q)[q + |want|] == 0 && Cut(buf, q)[q + |want| + 1..] == behind
  {
    hide StrLen;
    EndedLength(want);
    var n := |want|;
    assert buf[q + n] == buf[q..][n] == Ended(want)[n] == 0;
    assert buf[q..][n + 1..] == behind;
    forall i | q + n + 1 <= i < |buf| ensures Cut(buf, q)[i] == behind[i - q - n - 1] {
      assert buf[i] == buf[q..][i - q];
    }
  }

  /** The cut string of flags at place q. */
  ghost predicate Names4(c: Bytes, q: nat, want: string) {
    && q + |want| < |c| && c[q + |want|] == 0
    && forall i | q <= i < q + |want| :: c[i] == if (i - q) % 4 == 3 then 0 else want[i - q] as int % 256
  }

  lemma NameChar(c: Bytes, q: nat, want: string, i: nat)
    requires FlagString(want) && Names4(c, q, want) && i <= |want|
    ensures i == |want| || i % 4 == 3 ==> c[q + i] == 0
    ensures i < |want| && i % 4 != 3 ==> c[q + i] != 0 && c[q + i] as char == want[i]
  {
    if i < |want| {
      assert want[i] in want;
    }
  }

  /** A name at place j of the cut string. */
  lemma NameAt(c: Bytes, q: nat, want: string, j: nat)
    requires FlagString(want) && Names4(c, q, want) && j % 4 == 0 && j + 3 <= |want|
    ensures StrLen(c, q + j) == 3 && Text(c, q + j) == want[j..j + 3]
  {
    hide StrLen, FlagString, Names4;
    assert q + |want| < |c| by { NamesWithin(c, q, want); }
    NameChar(c, q, want, j);
    NameChar(c, q, want, j + 1);
    NameChar(c, q, want, j + 2);
    NameChar(c, q, want, j + 3);
    assert (j + 3) % 4 == 3 && (j + 2) % 4 == 2 && (j + 1) % 4 == 1;
    StrLenIs(c, q + j, 3);
    var s, r := Text(c, q + j), q + j;
    assert s[0] == At(c, r + 0) as char && s[1] == At(c, r + 1) as char && s[2] == At(c, r + 2) as char;
  }

  lemma NamesWithin(c: Bytes, q: nat, want: string)
    requires Names4(c, q, want)
    ensures q + |want| < |c|
  {
  }

  /** What a scan for two longs makes of a name of the table that can be the second one: C is a
      hexadecimal digit, T and H are none. */
  lemma NameScanned(c: Bytes, r: nat, name: string)
    requires Text(c, r) == name && name in {"TLN", "CTL", "HIC", "HI8"} && StrLen(c, r) == 3 && r + 3 < |c|
    ensures ScanWindows(c, r) == (if name == "CTL" then 12 else 0, 0)
  {
    hide StrLen;
    assert Text(c, r)[0] == At(c, r + 0) as char && Text(c, r)[1] == At(c, r + 1) as char;
    if name == "CTL" {
      assert c[r] == 67 && c[r + 1] == 84;
      assert DigitRun(c, r + 1, 7) == 0 && DigitRun(c, r, 8) == 1;
      assert Copied(c, r, 1) == [67] && Value([67]) == 12 by { assert [67][..0] == []; }
      assert DigitRun(c, r + 1, 8) == 0 && Copied(c, r + 1, 0) == [];
    } else {
      assert ScanVal(c[r]) < 0;
      assert Copied(c, r, 0) == [];
    }
  }

  /** What is read for the windows when more than one option is wanted. */
  lemma SeveralNames(can: string, want: string, tx: int, rx: int, rest: Bytes)
    requires Plain(can) && FlagString(want) && |want| >= 7 && want[4..7] in {"TLN", "CTL", "HIC", "HI8"}
    ensures |want| == 7 || |want| >= 11
    ensures ReadInit(InitBody(can, want, tx, rx) + rest) ==
      Fields(can, want, if want[4..7] == "CTL" then 12 else 0, 0,
             if |want| == 7 then WindowString(tx, rx) else want[8..11])
  {
    hide StrLen, Text, Cut, Ended, ScanWindows, WindowText, WindowString, CanAt, WantAt, AfterFlags, FlagString;
    assert Plain(want) && |want| % 4 == 3 by { FlagEnds(want); FlagsArePlain(want); }
    hide Plain;
    var behind := WindowText(tx, rx) + ([0] + [0] + rest);
    var buf := InitBody(can, want, tx, rx) + rest;
    BodyIs(can, want, tx, rx, rest);
    FlagsRead(can, want, behind);
    var q := WantAt(buf);
    var c, after := Cut(buf, q), AfterFlags(buf);
    AfterLength(buf);
    CutNames(buf, q, want, behind);
    SameBehind(after, c, q);
    NameScanned(after, q + 4, want[4..7]);
    if |want| == 7 {
      WindowTextLength(after, q + 8, tx, rx, rest);
    }
  }

  lemma FlagsArePlain(w: string)
    requires FlagString(w)
    ensures Plain(w)
  {
  }

  /** What is read behind q is the same in both buffers. */
  lemma SameBehind(b: Bytes, c: Bytes, q: nat)
    requires q <= |b| == |c| && b[q..] == c[q..]
    ensures forall at | at >= q :: StrLen(b, at) == StrLen(c, at)
    ensures forall at | at >= q :: Text(b, at) == Text(c, at)
    ensures forall at | q <= at <= |b| :: b[at..] == c[at..]
  {
    hide StrLen, Text;
    forall at | at >= q ensures StrLen(b, at) == StrLen(c, at) && Text(b, at) == Text(c, at) {
      SameFrom(b, c, q, at);
    }
    forall at | q <= at <= |b| ensures b[at..] == c[at..] {
      assert b[at..] == b[q..][at - q..] && c[at..] == c[q..][at - q..];
    }
  }

  lemma {:induction false} SameFrom(b: Bytes, c: Bytes, q: nat, at: nat)
    requires q <= |b| == |c| && b[q..] == c[q..] && at >= q
    ensures StrLen(b, at) == StrLen(c, at) && Text(b, at) == Text(c, at)
    decreases |b| - at
  {
    assert forall i | q <= i < |b| :: b[i] == b[q..][i - q] == c[q..][i - q] == c[i];
    if at < |b| {
      SameFrom(b, c, q, at + 1);
    }
    assert StrLen(b, at) == StrLen(c, at);
    forall i | 0 <= i < |Text(b, at)| ensures Text(b, at)[i] == Text(c, at)[i] {
      assert Text(b, at)[i] == At(b, at + i) as char && Text(c, at)[i] == At(c, at + i) as char;
    }
  }

  /** The flag strings come back whatever the windows are. */
  lemma StringsRead(can: string, want: string, tx: int, rx: int)
    requires Plain(can) && Plain(want)
    ensures var f := ReadInit(InitBody(can, want, tx, rx)); f.can == can && f.want == want
  {
    hide StrLen, Text, Cut, Ended, Plain, ScanWindows, WindowText, CanAt, WantAt, AfterFlags;
    FlagsRead(can, want, WindowText(tx, rx) + ([0] + [0]));
  }

  /** Those that a side sends. */
  lemma NamesRead(o: Options, tx: int, rx: int)
    ensures var can, want := Names(FLAGS, CAN_OPTIONS, |FLAGS|), Names(FLAGS, o, |FLAGS|);
      var f := ReadInit(InitBody(can, want, tx, rx)); f.can == can && f.want == want
  {
    hide Names, ReadInit, InitBody;
    NamesShape(CAN_OPTIONS, |FLAGS|);
    NamesShape(o, |FLAGS|);
    StringsRead(Names(FLAGS, CAN_OPTIONS, |FLAGS|), Names(FLAGS, o, |FLAGS|), tx, rx);
  }

  // ----- in terms of the options wanted ------------------------------------

  /** The flags of val among the first n rows. */
  function Taken(val: Options, n: nat): Options {
    set f | f in val && Ordinal(f) < n
  }

  lemma RowOrdinal(f: Flag)
    ensures Ordinal(f) < |FLAGS| && FLAGS[Ordinal(f)].flag == f
  {
  }

  lemma OrdinalRow(i: nat)
    requires i < |FLAGS|
    ensures Ordinal(FLAGS[i].flag) == i
  {
  }

  lemma TakenNext(val: Options, n: nat)
    requires 0 < n <= |FLAGS|
    ensures var f := FLAGS[n - 1].flag;
      && Taken(val, n) == Taken(val, n - 1) + (if f in val then {f} else {})
      && f !in Taken(val, n - 1)
  {
    hide Ordinal;
    OrdinalRow(n - 1);
    forall f | f in Taken(val, n) && Ordinal(f) == n - 1 ensures f == FLAGS[n - 1].flag {
      RowOrdinal(f);
    }
  }

  /** One name for each flag. */
  lemma {:induction false} NamesCount(val: Options, n: nat)
    requires n <= |FLAGS|
    ensures var k := |Taken(val, n)|; |Names(FLAGS, val, n)| == if k == 0 then 0 else 4 * k - 1
  {
    hide Ordinal, Taken;
    if n == 0 {
      NothingTaken(val);
    } else {
      NamesCount(val, n - 1);
      TakenNext(val, n);
      RowsArePlain(n - 1);
    }
  }

  lemma NothingTaken(val: Options)
    ensures Taken(val, 0) == {}
  {
  }

  lemma AllTaken(val: Options)
    ensures Taken(val, |FLAGS|) == val
  {
    hide Ordinal;
    forall f | f in val ensures Ordinal(f) < |FLAGS| {
      RowOrdinal(f);
    }
  }

  lemma {:induction false} NamesGrow(val: Options, m: nat, n: nat)
    requires m <= n <= |FLAGS|
    ensures Names(FLAGS, val, m) <= Names(FLAGS, val, n)
  {
    if m < n {
      NamesGrow(val, m, n - 1);
    }
  }

  /** The second of the names that an operator can ask for is CTL. */
  predicate SecondIsCtl(o: Options) {
    CtlChrs in o && (XonXoff in o <==> Telenet !in o)
  }

  /** s with the name, if the flag is wanted. */
  function With(o: Options, f: Flag, s: string, name: string): string {
    if f in o then Longer(s, name) else s
  }

  lemma FirstFive(o: Options)
    ensures Names(FLAGS, o, 2) == With(o, Telenet, With(o, XonXoff, "", "XON"), "TLN")
    ensures Names(FLAGS, o, 5)
      == With(o, HighBit, With(o, HighCtl, With(o, CtlChrs, Names(FLAGS, o, 2), "CTL"), "HIC"), "HI8")
  {
    assert Names(FLAGS, o, 0) == "";
    assert Names(FLAGS, o, 1) == With(o, XonXoff, "", "XON");
    assert Names(FLAGS, o, 3) == With(o, CtlChrs, Names(FLAGS, o, 2), "CTL");
    assert Names(FLAGS, o, 4) == With(o, HighCtl, Names(FLAGS, o, 3), "HIC");
  }

  /** The names of the first rows, as far as the second name goes. */
  lemma FirstRows(o: Options)
    requires Wanted(o)
    ensures var w := Names(FLAGS, o, 5);
      |w| >= 7 ==> w[4..7] in {"TLN", "CTL", "HIC", "HI8"} && (w[4..7] == "CTL" <==> SecondIsCtl(o))
  {
    hide Names;
    FirstFive(o);
    var two := Names(FLAGS, o, 2);
    var three := With(o, CtlChrs, two, "CTL");
    var four := With(o, HighCtl, three, "HIC");
    var w := With(o, HighBit, four, "HI8");
    if |two| >= 7 {
      assert two == "XON,TLN" && w[..7] == two;
    } else if |three| >= 7 {
      assert |two| == 3 && three == two + "," + "CTL" && w[..7] == three;
      assert three[4..7] == "CTL";
    } else if |four| >= 7 {
      assert |three| == 3 && four == three + "," + "HIC" && w[..7] == four;
      assert four[4..7] == "HIC";
    } else if |w| >= 7 {
      assert |four| == 3 && w == four + "," + "HI8";
      assert w[4..7] == "HI8";
    }
  }

  lemma {:induction false} NothingMore(o: Options, n: nat)
    requires Wanted(o) && 5 <= n <= |FLAGS|
    ensures Names(FLAGS, o, n) == Names(FLAGS, o, 5)
  {
    if n > 5 {
      NothingMore(o, n - 1);
      assert FLAGS[n - 1].flag !in o by { LaterRows(n - 1); }
    }
  }

  lemma LaterRows(i: nat)
    requires 5 <= i < |FLAGS|
    ensures FLAGS[i].flag !in CAN_OPTIONS - UNN_OPTIONS
  {
  }

  /** What the peer reads for the windows of a side that wants options o and announces the given
      ones: with more than one name the scan begins at the second. */
  datatype Limits = Limits(txwindow: int, rxwindow: int)

  function AsRead(o: Options, txwindow: int, rxwindow: int): Limits {
    if |o| <= 1 then Limits(txwindow, rxwindow) else Limits(if SecondIsCtl(o) then 12 else 0, 0)
  }

  /** And what it takes for the prefix that is asked for. */
  function PrefixRead(o: Options, txwindow: int, rxwindow: int): string {
    var w := Names(FLAGS, o, |FLAGS|);
    if |o| <= 1 then "" else if |o| == 2 || |w| < 11 then WindowString(txwindow, rxwindow) else w[8..11]
  }

  lemma WantShape(o: Options)
    requires Wanted(o)
    ensures var w := Names(FLAGS, o, |FLAGS|);
      && Plain(w) && |w| == (if |o| == 0 then 0 else 4 * |o| - 1)
      && (|o| <= 1 ==> ',' !in w)
      && (|o| >= 2 ==> FlagString(w) && |w| >= 7 && w[4..7] in {"TLN", "CTL", "HIC", "HI8"})
      && (|o| >= 2 ==> (w[4..7] == "CTL" <==> SecondIsCtl(o)))
  {
    hide Names, SecondIsCtl;
    NamesShape(o, |FLAGS|);
    NamesCount(o, |FLAGS|);
    AllTaken(o);
    NothingMore(o, |FLAGS|);
    FirstRows(o);
  }

  /** What an INIT packet says, exactly: flag strings always come back; windows and prefix as they
      were written if and only if at most one option is wanted or they happen to look the same. */
  lemma InitRead(o: Options, txwindow: int, rxwindow: int, rest: Bytes)
    requires Wanted(o) && InLong(txwindow) && InLong(rxwindow)
    ensures var can, want := Names(FLAGS, CAN_OPTIONS, |FLAGS|), Names(FLAGS, o, |FLAGS|);
      ReadInit(InitBody(can, want, txwindow, rxwindow) + rest) ==
        Fields(can, want, AsRead(o, txwindow, rxwindow).txwindow, AsRead(o, txwindow, rxwindow).rxwindow,
               PrefixRead(o, txwindow, rxwindow))
  {
    hide Names, ReadInit, InitBody, FlagString, SecondIsCtl, WindowString, InLong;
    NamesShape(CAN_OPTIONS, |FLAGS|);
    var can, want := Names(FLAGS, CAN_OPTIONS, |FLAGS|), Names(FLAGS, o, |FLAGS|);
    assert Plain(can) by { if can != "" { FlagsArePlain(can); } }
    WantShape(o);
    hide Plain;
    if |o| <= 1 {
      OneName(can, want, txwindow, rxwindow, rest);
    } else {
      SeveralNames(can, want, txwindow, rxwindow, rest);
    }
  }

  // ----- the prefix --------------------------------------------------------

  /** Letters and digits, the first of them no packet type. */
  predicate HarmlessPrefix(s: string) {
    && (forall c | c in s :: '0' <= c <= '9' || 'A' <= c <= 'Z' || 'a' <= c <= 'f')
    && (s != "" ==> '0' <= s[0] <= '9' || 'A' <= s[0] <= 'Z')
  }

  predicate NameChars(s: string) {
    forall c | c in s :: '0' <= c <= '9' || 'A' <= c <= 'Z' || c == ','
  }

  lemma RowChars(i: nat)
    requires i < |FLAGS|
    ensures NameChars(FLAGS[i].name)
  {
  }

  lemma {:induction false} NamesChars(val: Options, n: nat)
    requires n <= |FLAGS|
    ensures NameChars(Names(FLAGS, val, n))
  {
    if n > 0 {
      NamesChars(val, n - 1);
      RowChars(n - 1);
    }
  }

  lemma {:induction false} DigitsAreHex(w: nat, n: nat)
    ensures forall d | d in Digits(w, n) :: 48 <= d <= 57 || 97 <= d <= 102
  {
    if n > 0 {
      DigitsAreHex(w / 16, n - 1);
    }
  }

  lemma {:induction false} FirstDigit(w: nat, n: nat)
    requires n > 0 && w < 8 * Pow16(n - 1)
    ensures 48 <= Digits(w, n)[0] < 56
  {
    if n > 1 {
      FirstDigit(w / 16, n - 1);
    }
  }

  /** The text of windows that are not negative begins with a digit from 0 to 7. */
  lemma WindowStringIsHarmless(txwindow: int, rxwindow: int)
    requires 0 <= txwindow && InLong(txwindow)
    ensures HarmlessPrefix(WindowString(txwindow, rxwindow))
  {
    hide Digits, Pow16, InLong;
    var x, y := Digits(Bits32(txwindow), 8), Digits(Bits32(rxwindow), 8);
    DigitsAreHex(Bits32(txwindow), 8);
    DigitsAreHex(Bits32(rxwindow), 8);
    assert Bits32(txwindow) < 8 * Pow16(7) by { HalfRange(txwindow); }
    FirstDigit(Bits32(txwindow), 8);
    var t, s := WindowText(txwindow, rxwindow), WindowString(txwindow, rxwindow);
    assert t == x + y && t[0] == x[0] && s[0] == t[0] as char;
    forall c | c in s ensures '0' <= c <= '9' || 'a' <= c <= 'f' {
      var i :| 0 <= i < 16 && s[i] == c;
      assert c == t[i] as char && (t[i] in x || t[i] in y);
    }
  }

  lemma HalfRange(x: int)
    requires 0 <= x && InLong(x)
    ensures Bits32(x) == x && x < 8 * Pow16(7)
  {
    assert Pow16(3) == 0x1000;
    assert Pow16(5) == 0x10_0000;
    assert Pow16(7) == 0x1000_0000;
  }

  lemma PrefixIsHarmless(o: Options, txwindow: int, rxwindow: int)
    requires Wanted(o) && 0 <= txwindow && InLong(txwindow)
    ensures HarmlessPrefix(PrefixRead(o, txwindow, rxwindow))
  {
    hide Names, InLong;
    var w := Names(FLAGS, o, |FLAGS|);
    if |o| == 2 || |w| < 11 {
      hide WindowString;
      WindowStringIsHarmless(txwindow, rxwindow);
    } else if |o| > 2 {
      hide FlagString, Taken;
      WantShape(o);
      NamesChars(o, |FLAGS|);
      NoCommaInName(w);
    }
  }

  lemma NoCommaInName(w: string)
    requires FlagString(w) && |w| >= 11 && NameChars(w)
    ensures HarmlessPrefix(w[8..11])
  {
    forall c | c in w[8..11] ensures '0' <= c <= '9' || 'A' <= c <= 'Z' {
      var i :| 0 <= i < 3 && w[8..11][i] == c;
      assert c == w[8 + i] && w[8 + i] in w && (8 + i) % 4 == i;
    }
    assert w[8..11][0] in w[8..11];
  }

  // ----- the code ----------------------------------------------------------

  /** strlen() */
  method CountChars(buf: array<Byte>, at: nat) returns (n: nat)
    requires at + StrLen(buf[..], at) < buf.Length
    ensures n == StrLen(buf[..], at)
  {
    ghost var b := buf[..];
    StrLenStops(b, at);
    n := 0;
    while buf[at + n] != 0
      invariant n <= StrLen(b, at)
      decreases StrLen(b, at) - n
    {
      assert b[at + n] != 0;
      n := n + 1;
    }
    StrLenIs(b, at, n) by {
      assert forall i | at <= i < at + n :: b[i] != 0;
    }
  }

  /** "%08lx" of sscanf(): the number and how many digits it has. */
  method ScanNumber(buf: array<Byte>, at: nat) returns (value: int, count: nat)
    requires at + StrLen(buf[..], at) < buf.Length
    ensures value == ScanLong(buf[..], at) && count == DigitRun(buf[..], at, 8)
    ensures count <= StrLen(buf[..], at)
  {
    hide DigitRun, StrLen, Copied, Value;
    ghost var b := buf[..];
    var v := 0;
    count := 0;
    ScanNothing(b, at);
    while count < 8 && ScanVal(buf[at + count]) >= 0
      invariant count <= 8 && count <= StrLen(b, at)
      invariant DigitRun(b, at, 8) == count + DigitRun(b, at + count, 8 - count)
      invariant v == Value(Copied(b, at, count))
    {
      ScanOne(b, at, count);
      v := 16 * v + ScanVal(buf[at + count]);
      count := count + 1;
    }
    NoDigit(b, at + count, 8 - count);
    value := Signed(Bits32(v));
  }

  lemma ScanNothing(b: Bytes, at: nat)
    ensures Value(Copied(b, at, 0)) == 0
  {
    assert Copied(b, at, 0) == [];
  }

  lemma NoDigit(b: Bytes, at: nat, n: nat)
    requires n == 0 || ScanVal(At(b, at)) < 0
    ensures DigitRun(b, at, n) == 0
  {
  }

  /** One more digit, which is not the end of the string. */
  lemma ScanOne(b: Bytes, at: nat, n: nat)
    requires n < 8 && at + StrLen(b, at) < |b| && n <= StrLen(b, at) && ScanVal(b[at + n]) >= 0
    ensures n < StrLen(b, at)
    ensures DigitRun(b, at + n, 8 - n) == 1 + DigitRun(b, at + (n + 1), 8 - (n + 1))
    ensures Value(Copied(b, at, n + 1)) == 16 * Value(Copied(b, at, n)) + ScanVal(b[at + n])
  {
    StrLenStops(b, at);
    var s := Copied(b, at, n + 1);
    assert s[..|s| - 1] == Copied(b, at, n);
    assert s[|s| - 1] == At(b, at + n);
  }

  lemma {:induction false} StrLenBound(b: Bytes, at: nat, end: nat)
    requires at <= end < |b| && b[end] == 0
    ensures at + StrLen(b, at) <= end
    decreases end - at
  {
    if b[at] != 0 {
      StrLenBound(b, at + 1, end);
    }
  }

  /** Where the five strings of an INIT body end at the latest. */
  function EndOf(can: string, want: string, i: nat): nat {
    if i == 0 then |APPINFO|
    else if i == 1 then |APPINFO| + |can| + 1
    else if i == 2 then |APPINFO| + |can| + |want| + 2
    else if i == 3 then |APPINFO| + |can| + |want| + 19
    else |APPINFO| + |can| + |want| + 20
  }

  ghost predicate FiveStrings(b: Bytes, can: string, want: string) {
    |b| == EndOf(can, want, 4) + 1 && forall i: nat | i <= 4 :: b[EndOf(can, want, i)] == 0
  }

  lemma BodyHasFive(can: string, want: string, tx: int, rx: int)
    ensures FiveStrings(InitBody(can, want, tx, rx), can, want)
  {
    hide Digits;
    var b := InitBody(can, want, tx, rx);
    var a, c, w, x := Ended(APPINFO), Ended(can), Ended(want), WindowText(tx, rx);
    assert b == a + c + w + x + [0] + [0];
    assert |a| == EndOf(can, want, 0) + 1 && |a + c| == EndOf(can, want, 1) + 1;
    assert |a + c + w| == EndOf(can, want, 2) + 1 && |a + c + w + x| == EndOf(can, want, 3);
    assert b[EndOf(can, want, 0)] == a[|a| - 1] == 0;
    assert b[EndOf(can, want, 1)] == (a + c)[|a + c| - 1] == c[|c| - 1] == 0;
    assert b[EndOf(can, want, 2)] == (a + c + w)[|a + c + w| - 1] == w[|w| - 1] == 0;
  }

  lemma CutKeepsFive(b: Bytes, at: nat, can: string, want: string)
    requires FiveStrings(b, can, want)
    ensures FiveStrings(Cut(b, at), can, want)
  {
    CutLength(b, at);
  }

  /** String i begins within the buffer and ends there, and the next one begins behind it. */
  lemma NextEnds(b: Bytes, can: string, want: string, at: nat, i: nat)
    requires FiveStrings(b, can, want) && i <= 4 && at <= EndOf(can, want, i)
    ensures at + StrLen(b, at) <= EndOf(can, want, i) < |b|
    ensures i < 4 ==> at + StrLen(b, at) + 1 <= EndOf(can, want, i + 1)
  {
    hide StrLen;
    StrLenBound(b, at, EndOf(can, want, i));
  }

  /** Both flag strings are read, and cut, in the receive buffer. */
  method ReadFlags(rxbuf: array<Byte>, ghost can: string, ghost want: string)
    returns (wanted: Options, possible: Options, q: nat)
    requires FiveStrings(rxbuf[..], can, want)
    modifies rxbuf
    ensures q == WantAt(old(rxbuf[..])) && rxbuf[..] == AfterFlags(old(rxbuf[..]))
    ensures wanted == FlagsOf(FLAGS, ReadInit(old(rxbuf[..])).want)
    ensures possible == FlagsOf(FLAGS, ReadInit(old(rxbuf[..])).can)
    ensures FiveStrings(rxbuf[..], can, want) && q <= EndOf(can, want, 2)
  {
    hide StrLen, Text, Cut, FlagsOf, EndOf, FiveStrings, ScanWindows;
    ghost var b := rxbuf[..];
    NextEnds(b, can, want, 0, 0);
    var n := CountChars(rxbuf, 0);
    var p := n + 1;
    NextEnds(b, can, want, p, 1);
    n := CountChars(rxbuf, p);
    q := p + n + 1;
    NextEnds(b, can, want, q, 2);
    wanted := GetFlags(FLAGS, rxbuf, q);
    CutKeepsFive(b, q, can, want);
    NextEnds(rxbuf[..], can, want, p, 1);
    CutKeepsFive(rxbuf[..], p, can, want);
    possible := GetFlags(FLAGS, rxbuf, p);
  }

  /** The windows and the prefix are then looked for behind what is left of the string at q. */
  method ReadWindows(rxbuf: array<Byte>, q: nat, ghost body: Bytes, ghost can: string, ghost want: string)
    returns (first: int, second: int, prefix: string)
    requires rxbuf[..] == AfterFlags(body) && q == WantAt(body)
    requires FiveStrings(rxbuf[..], can, want) && q <= EndOf(can, want, 2)
    ensures var f := ReadInit(body); first == f.txwindow && second == f.rxwindow && prefix == f.prefix
  {
    hide StrLen, Text, Cut, EndOf, FiveStrings, ScanLong, DigitRun, AfterFlags, WantAt;
    ghost var b := rxbuf[..];
    NextEnds(b, can, want, q, 2);
    var n := CountChars(rxbuf, q);
    var p := q + n + 1;
    NextEnds(b, can, want, p, 3);
    var count: nat, more: nat;
    first, count := ScanNumber(rxbuf, p);
    second := 0;
    if count > 0 {
      NextEnds(b, can, want, p + count, 3) by { assert p + count <= EndOf(can, want, 3); }
      second, more := ScanNumber(rxbuf, p + count);
    }
    n := CountChars(rxbuf, p);
    p := p + n + 1;
    NextEnds(b, can, want, p, 4);
    n := CountChars(rxbuf, p);
    TextIs(b, p);
    prefix := Name(rxbuf[..], p, p + if n > PKTPREFIX then PKTPREFIX else n);
    NameIsText(b, p, if n > PKTPREFIX then PKTPREFIX else n);
  }

  lemma NameIsText(b: Bytes, at: nat, n: nat)
    requires at + StrLen(b, at) < |b| && n <= StrLen(b, at)
    ensures Name(b, at, at + n) == Text(b, at)[..n]
  {
    forall i | 0 <= i < n ensures Name(b, at, at + n)[i] == Text(b, at)[..n][i] {
      assert Text(b, at)[i] == At(b, at + i) as char;
    }
  }
}
