/** Option words as lists of three-letter names in INIT packets, and the option
    negotiation that both sides carry out on them. */
module HydraFlags {
  import opened Bits
  import opened HydraTypes
  import opened HydraText

  datatype Row = Row(name: string, flag: Flag)

  /** The flag table, without its terminating zero entry. */
  const FLAGS: seq<Row> := [
    Row("XON", XonXoff), Row("TLN", Telenet), Row("CTL", CtlChrs), Row("HIC", HighCtl), Row("HI8", HighBit),
    Row("BRK", CanBrk), Row("ASC", CanAsc), Row("UUE", CanUue), Row("C32", Crc32), Row("DEV", Device), Row("FPT", Fpt)]

  // ----- writing flags -----------------------------------------------------

  /** The names of the flags set in val among the first n, separated by commas. */
  function Names(flags: seq<Row>, val: Options, n: nat): string
    requires n <= |flags|
  {
    if n == 0 then ""
    else
      var s := Names(flags, val, n - 1);
      if flags[n - 1].flag in val then Longer(s, flags[n - 1].name) else s
  }

  function Longer(s: string, name: string): string {
    if s == "" then name else s + "," + name
  }

  method PutFlags(flags: seq<Row>, val: Options) returns (buf: string)
    ensures buf == Names(flags, val, |flags|)
  {
    buf := "";
    var i := 0;
    while i < |flags|
      invariant 0 <= i <= |flags|
      invariant buf == Names(flags, val, i)
    {
      if flags[i].flag in val {
        if |buf| > 0 {
          buf := buf + ",";
        }
        buf := buf + flags[i].name;
      }
      i := i + 1;
    }
  }

  // ----- reading flags -----------------------------------------------------

  /** The value of one name, zero for an unknown one. */
  function ValueOf(flags: seq<Row>, name: string): Options {
    if flags == [] then {}
    else if name == flags[0].name then {flags[0].flag}
    else ValueOf(flags[1..], name)
  }

  /** What strtok finds: the maximal runs of characters other than commas. The run being
      collected is cur. */
  function Tokens(s: string, cur: string): seq<string> {
    if s == "" then if cur == "" then [] else [cur]
    else if s[0] == ',' && cur == "" then Tokens(s[1..], "")
    else if s[0] == ',' then [cur] + Tokens(s[1..], "")
    else Tokens(s[1..], cur + [s[0]])
  }

  function Union(flags: seq<Row>, tokens: seq<string>): Options {
    if tokens == [] then {} else ValueOf(flags, tokens[0]) + Union(flags, tokens[1..])
  }

  /** The option word named by a flag string. */
  function FlagsOf(flags: seq<Row>, s: string): Options {
    Union(flags, Tokens(s, ""))
  }

  const COMMA: Byte := 44

  /** What strtok() leaves of the string at a place of a buffer once it has come to end: a NUL for
      each comma that ends a token. */
  function CutUpTo(buf: Bytes, at: nat, end: nat): (c: Bytes)
    ensures |c| == |buf|
  {
    seq<Byte>(|buf|, i requires 0 <= i < |buf| =>
      if at < i < end && buf[i] == COMMA && buf[i - 1] != COMMA then 0 else buf[i])
  }

  /** And when it has come to the end of the string. */
  function Cut(buf: Bytes, at: nat): Bytes {
    CutUpTo(buf, at, at + StrLen(buf, at))
  }

  /** get_flags(): the string in the buffer is cut into its names. */
  method GetFlags(flags: seq<Row>, buf: array<Byte>, at: nat) returns (val: Options)
    requires at + StrLen(buf[..], at) < buf.Length
    modifies buf
    ensures val == FlagsOf(flags, Text(old(buf[..]), at))
    ensures buf[..] == Cut(old(buf[..]), at)
  {
    hide StrLen, Text, CutUpTo, FlagsOf;
    ghost var b, s := buf[..], Text(buf[..], at);
    TextIs(b, at);
    val := {};
    var p := at;
    CutNothing(b, at);
    assert s[0..] == s;
    while buf[p] != 0
      invariant at <= p <= at + |s| < buf.Length && CutTo(buf[..], b, at, p, |s|)
      invariant val + FlagsOf(flags, s[p - at..]) == FlagsOf(flags, s)
      decreases at + |s| - p
    {
      var v: Options;
      v, p := NextName(flags, buf, p, b, s, at);
      val := val + v;
    }
    CutSoFar(b, at, p, buf[..]);
    assert s[p - at..] == "";
    NoFlags(flags);
  }

  /** strtok() has come to place p of the string of length n at place at. */
  ghost predicate CutTo(c: Bytes, b: Bytes, at: nat, p: nat, n: nat) {
    c == CutUpTo(b, at, p) && at <= p <= at + n < |b| && (p == at || p == at + n || b[p - 1] == COMMA)
  }

  /** One comma or one name. */
  method NextName(flags: seq<Row>, buf: array<Byte>, p: nat, ghost b: Bytes, ghost s: string, ghost at: nat)
    returns (v: Options, p': nat)
    requires CutTo(buf[..], b, at, p, |s|) && buf[p] != 0 && HoldsText(b, at, s)
    modifies buf
    ensures p < p' && CutTo(buf[..], b, at, p', |s|)
    ensures FlagsOf(flags, s[p - at..]) == v + FlagsOf(flags, s[p' - at..])
  {
    hide CutUpTo, FlagsOf, ValueOf, Tokens;
    CutSoFar(b, at, p, buf[..]);
    if buf[p] == COMMA {
      SkipComma(flags, s, p - at);
      CutSkips(b, at, p);
      v, p' := {}, p + 1;
    } else {
      var q := EndOfToken(buf, p, s, at);
      v := Lookup(flags, Name(buf[..], p, q));
      FirstToken(flags, s, p - at, q - at);
      FlagsOfToken(flags, s, p - at, q - at);
      CutToken(b, at, p, q);
      p' := q;
      if buf[q] == COMMA {
        SkipComma(flags, s, q - at);
        buf[q] := 0;
        p' := q + 1;
      }
    }
  }

  ghost predicate HoldsText(b: Bytes, at: nat, s: string) {
    && at + |s| < |b| && b[at + |s|] == 0
    && forall k :: at <= k < at + |s| ==> b[k] != 0 && b[k] as char == s[k - at]
  }

  lemma TokensNext(buf: string, p: nat, q: nat)
    requires p <= q < |buf| && buf[q] != ','
    ensures Tokens(buf[q..], buf[p..q]) == Tokens(buf[q + 1..], buf[p..q + 1])
  {
    var s := buf[q..];
    assert s[0] == buf[q] && s[1..] == buf[q + 1..];
    assert buf[p..q] + [buf[q]] == buf[p..q + 1];
  }

  /** The characters of a buffer from p to q. */
  function Name(b: Bytes, p: nat, q: nat): string
    requires p <= q <= |b|
  {
    seq(q - p, i requires 0 <= i < q - p => b[p + i] as char)
  }

  /** The inner part of strtok(): the end of the token that starts at p. */
  method EndOfToken(buf: array<Byte>, p: nat, ghost s: string, ghost at: nat) returns (q: nat)
    requires at <= p < at + |s| < buf.Length && buf[at + |s|] == 0
    requires forall k :: p <= k < at + |s| ==> buf[k] != 0 && buf[k] as char == s[k - at]
    requires s[p - at] != ','
    ensures p < q <= at + |s| && (q == at + |s| || s[q - at] == ',')
    ensures Tokens(s[p - at..], "") == Tokens(s[q - at..], s[p - at..q - at])
    ensures forall k :: p <= k < q ==> buf[k] != COMMA
    ensures Name(buf[..], p, q) == s[p - at..q - at]
  {
    hide Tokens;
    q := p;
    assert s[p - at..p - at] == "";
    while buf[q] != 0 && buf[q] != COMMA
      invariant p <= q <= at + |s| && (q == p ==> s[q - at] != ',')
      invariant Tokens(s[p - at..], "") == Tokens(s[q - at..], s[p - at..q - at])
      invariant forall k :: p <= k < q ==> buf[k] != COMMA
      decreases at + |s| - q
    {
      TokensNext(s, p - at, q - at);
      q := q + 1;
    }
  }

  lemma TextIs(b: Bytes, at: nat)
    requires at + StrLen(b, at) < |b|
    ensures |Text(b, at)| == StrLen(b, at) && HoldsText(b, at, Text(b, at))
  {
    StrLenStops(b, at);
    var s := Text(b, at);
    forall k | at <= k < at + |s| ensures b[k] != 0 && b[k] as char == s[k - at] {
      assert s[k - at] == At(b, at + (k - at)) as char;
    }
  }

  /** Nothing is cut behind the place that has been reached. */
  lemma CutSoFar(b: Bytes, at: nat, p: nat, c: Bytes)
    requires c == CutUpTo(b, at, p)
    ensures forall k :: p <= k < |b| ==> c[k] == b[k]
  {
  }

  lemma CutNothing(b: Bytes, at: nat)
    ensures CutUpTo(b, at, at) == b
  {
  }

  lemma CutSkips(b: Bytes, at: nat, p: nat)
    requires at <= p < |b| && (p == at || b[p - 1] == COMMA)
    ensures CutUpTo(b, at, p + 1) == CutUpTo(b, at, p)
  {
  }

  lemma CutToken(b: Bytes, at: nat, p: nat, q: nat)
    requires at <= p < q < |b| && forall k :: p <= k < q ==> b[k] != COMMA
    ensures CutUpTo(b, at, q) == CutUpTo(b, at, p)
    ensures b[q] == COMMA ==> CutUpTo(b, at, q + 1) == CutUpTo(b, at, p)[q := 0]
  {
  }

  lemma SkipComma(flags: seq<Row>, s: string, i: nat)
    requires i < |s| && s[i] == ','
    ensures FlagsOf(flags, s[i..]) == FlagsOf(flags, s[i + 1..])
  {
    assert s[i..][1..] == s[i + 1..];
  }

  lemma NoFlags(flags: seq<Row>)
    ensures FlagsOf(flags, "") == {}
  {
  }

  lemma FlagsOfToken(flags: seq<Row>, s: string, i: nat, j: nat)
    requires i <= j <= |s| && Tokens(s[i..], "") == [s[i..j]] + Tokens(s[j..], "")
    ensures FlagsOf(flags, s[i..]) == ValueOf(flags, s[i..j]) + FlagsOf(flags, s[j..])
  {
    hide Tokens;
    var all := Tokens(s[i..], "");
    assert all[0] == s[i..j] && all[1..] == Tokens(s[j..], "");
  }

  method Lookup(flags: seq<Row>, name: string) returns (value: Options)
    ensures value == ValueOf(flags, name)
  {
    var i := 0;
    while i < |flags|
      invariant 0 <= i <= |flags|
      invariant ValueOf(flags, name) == ValueOf(flags[i..], name)
    {
      assert flags[i..][1..] == flags[i + 1..];
      if name == flags[i].name {
        return {flags[i].flag};
      }
      i := i + 1;
    }
    return {};
  }

  lemma FirstToken(flags: seq<Row>, buf: string, p: nat, q: nat)
    requires p < q <= |buf| && (q == |buf| || buf[q] == ',')
    requires Tokens(buf[p..], "") == Tokens(buf[q..], buf[p..q])
    ensures Tokens(buf[p..], "") == [buf[p..q]] + Tokens(buf[q..], "")
  {
    if q == |buf| {
      assert buf[q..] == "";
    }
  }

  // ----- round trip --------------------------------------------------------

  /** Names are distinct, not empty and free of commas. */
  predicate GoodTable(flags: seq<Row>) {
    && (forall i :: 0 <= i < |flags| ==> flags[i].name != "" && ',' !in flags[i].name)
    && (forall i, j :: 0 <= i < j < |flags| ==> flags[i].name != flags[j].name)
  }

  lemma {:induction false} TokensOfAppended(s: string, cur: string, t: string)
    requires t != "" && ',' !in t
    ensures Tokens(s + "," + t, cur) == Tokens(s, cur) + [t]
  {
    if s == "" {
      assert "" + "," + t == "," + t;
      assert ("," + t)[1..] == t;
      TokenAlone(t, "");
      assert "" + t == t;
    } else {
      assert (s + "," + t)[1..] == s[1..] + "," + t;
      TokensOfAppended(s[1..], if s[0] == ',' then "" else cur + [s[0]], t);
    }
  }

  lemma {:induction false} TokenAlone(t: string, cur: string)
    requires cur + t != "" && ',' !in t
    ensures Tokens(t, cur) == [cur + t]
  {
    if t == "" {
      assert cur + t == cur;
    } else {
      assert cur + t == cur + [t[0]] + t[1..];
      TokenAlone(t[1..], cur + [t[0]]);
    }
  }

  lemma {:induction false} UnionOfAppended(flags: seq<Row>, tokens: seq<string>, t: string)
    ensures Union(flags, tokens + [t]) == Union(flags, tokens) + ValueOf(flags, t)
  {
    if tokens == [] {
      assert [] + [t] == [t];
      assert [t][1..] == [];
    } else {
      assert (tokens + [t])[1..] == tokens[1..] + [t];
      UnionOfAppended(flags, tokens[1..], t);
    }
  }

  lemma {:induction false} ValueOfRow(flags: seq<Row>, i: nat)
    requires GoodTable(flags) && i < |flags|
    ensures ValueOf(flags, flags[i].name) == {flags[i].flag}
  {
    if i > 0 {
      assert GoodTable(flags[1..]);
      ValueOfRow(flags[1..], i - 1);
    }
  }

  /** Appending one name to a flag string adds its value. */
  lemma FlagsOfLonger(flags: seq<Row>, s: string, t: string)
    requires t != "" && ',' !in t
    ensures FlagsOf(flags, Longer(s, t)) == FlagsOf(flags, s) + ValueOf(flags, t)
  {
    if s == "" {
      TokenAlone(t, "");
      assert "" + t == t;
      assert [t][1..] == [];
    } else {
      TokensOfAppended(s, "", t);
      UnionOfAppended(flags, Tokens(s, ""), t);
    }
  }

  lemma {:induction false} NamesRoundTrip(flags: seq<Row>, val: Options, n: nat)
    requires GoodTable(flags) && n <= |flags|
    ensures FlagsOf(flags, Names(flags, val, n)) == set i | 0 <= i < n && flags[i].flag in val :: flags[i].flag
  {
    if n > 0 {
      NamesRoundTrip(flags, val, n - 1);
      ValueOfRow(flags, n - 1);
      FlagsOfLonger(flags, Names(flags, val, n - 1), flags[n - 1].name);
    }
  }

  /** get_flags inverts put_flags on every option word. */
  lemma FlagsRoundTrip(val: Options)
    ensures FlagsOf(FLAGS, Names(FLAGS, val, |FLAGS|)) == val
  {
    DistinctNames();
    NamesRoundTrip(FLAGS, val, |FLAGS|);
    forall f | f in val ensures exists i :: 0 <= i < |FLAGS| && FLAGS[i].flag in val && FLAGS[i].flag == f {
      var i := Ordinal(f);
      assert FLAGS[i].flag == f;
    }
  }

  function Ordinal(f: Flag): nat {
    match f
    case XonXoff => 0 case Telenet => 1 case CtlChrs => 2 case HighCtl => 3 case HighBit => 4 case CanBrk => 5
    case CanAsc => 6 case CanUue => 7 case Crc32 => 8 case Device => 9 case Fpt => 10
  }

  /** Where a name stands in the table, by its first and last letter. */
  function IndexOf(name: string): nat
    requires |name| == 3
  {
    match name[0]
    case 'X' => 0
    case 'T' => 1
    case 'C' => if name[2] == 'L' then 2 else 8
    case 'H' => if name[2] == 'C' then 3 else 4
    case 'B' => 5
    case 'A' => 6
    case 'U' => 7
    case 'D' => 9
    case _ => 10
  }

  lemma RowAt(i: nat)
    requires i < 11
    ensures |FLAGS| == 11 && |FLAGS[i].name| == 3 && ',' !in FLAGS[i].name && IndexOf(FLAGS[i].name) == i
  {
  }

  lemma DistinctNames()
    ensures |FLAGS| == 11 && GoodTable(FLAGS)
  {
    hide IndexOf;
    forall i | 0 <= i < 11
      ensures |FLAGS| == 11 && |FLAGS[i].name| == 3 && ',' !in FLAGS[i].name && IndexOf(FLAGS[i].name) == i
    {
      RowAt(i);
    }
    forall i, j | 0 <= i < j < 11 ensures FLAGS[i].name != FLAGS[j].name {
      assert IndexOf(FLAGS[i].name) != IndexOf(FLAGS[j].name);
    }
  }

  // ----- negotiation -------------------------------------------------------

  /** rxoptions after an INIT packet with the peer's CAN and WANT strings. */
  function Negotiated(options: Options, can: string, want: string): Options {
    (options + UNN_OPTIONS + FlagsOf(FLAGS, want)) * FlagsOf(FLAGS, can) * CAN_OPTIONS
  }

  /** The receiver gives up the session when this holds. */
  predicate Incompatible(options: Options, negotiated: Options) {
    Word(negotiated) < Word(options * NEC_OPTIONS)
  }

  /** The link options of two endpoints that want the given options. */
  function LinkOptions(mine: Options, theirs: Options): Options {
    (mine + UNN_OPTIONS + theirs) * CAN_OPTIONS
  }

  /** The options hydra_init() keeps of what the operator asked for. */
  predicate Wanted(options: Options) {
    options <= CAN_OPTIONS - UNN_OPTIONS
  }

  /** Both sides compute the same link options, which grant everything either side wants,
      and neither side finds the other incompatible. */
  lemma NegotiationAgrees(mine: Options, theirs: Options)
    requires Wanted(mine) && Wanted(theirs)
    ensures var can, want := Names(FLAGS, CAN_OPTIONS, |FLAGS|), Names(FLAGS, theirs, |FLAGS|);
      Negotiated(mine, can, want) == LinkOptions(mine, theirs)
    ensures LinkOptions(mine, theirs) == LinkOptions(theirs, mine) >= mine + theirs
    ensures !Incompatible(mine, LinkOptions(mine, theirs))
  {
    FlagsRoundTrip(CAN_OPTIONS);
    FlagsRoundTrip(theirs);
  }

  /** The compatibility test never turns away a peer that grants every vital option asked for. */
  lemma GrantedIsCompatible(options: Options, can: string, want: string)
    requires options * NEC_OPTIONS <= Negotiated(options, can, want)
    ensures !Incompatible(options, Negotiated(options, can, want))
  {
    MoreBitsMore(options * NEC_OPTIONS, Negotiated(options, can, want));
  }

  lemma MoreBitsMore(o: Options, more: Options)
    requires o <= more
    ensures Word(o) <= Word(more)
  {
    hide Bit;
    BitMore(o, more, XonXoff, 0x1);
    BitMore(o, more, Telenet, 0x2);
    BitMore(o, more, CtlChrs, 0x4);
    BitMore(o, more, HighCtl, 0x8);
    BitMore(o, more, HighBit, 0x10);
    BitMore(o, more, CanBrk, 0x20);
    BitMore(o, more, CanAsc, 0x40);
    BitMore(o, more, CanUue, 0x80);
    BitMore(o, more, Crc32, 0x100);
    BitMore(o, more, Device, 0x200);
    BitMore(o, more, Fpt, 0x400);
  }

  lemma BitMore(o: Options, more: Options, flag: Flag, weight: nat)
    requires o <= more
    ensures Bit(o, flag, weight) <= Bit(more, flag, weight)
  {
  }

  /** The bits of an option word, lowest first. */
  function FlagAt(k: nat): Flag
    requires k < 11
  {
    match k
    case 0 => XonXoff case 1 => Telenet case 2 => CtlChrs case 3 => HighCtl case 4 => HighBit case 5 => CanBrk
    case 6 => CanAsc case 7 => CanUue case 8 => Crc32 case 9 => Device case _ => Fpt
  }

  function Weight(k: nat): (w: nat)
    ensures w > 0
  {
    if k == 0 then 1 else 2 * Weight(k - 1)
  }

  /** The k lowest bits as a number. */
  function LowWord(o: Options, k: nat): (w: nat)
    requires k <= 11
    ensures w < Weight(k)
  {
    if k == 0 then 0 else LowWord(o, k - 1) + Bit(o, FlagAt(k - 1), Weight(k - 1))
  }

  lemma LowWordIsWord(o: Options)
    ensures LowWord(o, 11) == Word(o)
  {
    hide Bit;
    assert Weight(2) == 4 && Weight(4) == 16 && Weight(6) == 64 && Weight(8) == 256 && Weight(10) == 1024;
    assert LowWord(o, 2) == Bit(o, XonXoff, 1) + Bit(o, Telenet, 2);
    assert LowWord(o, 4) == LowWord(o, 2) + Bit(o, CtlChrs, 4) + Bit(o, HighCtl, 8);
    assert LowWord(o, 6) == LowWord(o, 4) + Bit(o, HighBit, 16) + Bit(o, CanBrk, 32);
    assert LowWord(o, 8) == LowWord(o, 6) + Bit(o, CanAsc, 64) + Bit(o, CanUue, 128);
    assert LowWord(o, 10) == LowWord(o, 8) + Bit(o, Crc32, 256) + Bit(o, Device, 512);
  }

  /** Every required bit that is missing lies below a bit that was granted without being required. */
  predicate Outweighed(required: Options, granted: Options, k: nat)
    requires k <= 11
  {
    forall i :: 0 <= i < k && FlagAt(i) in required && FlagAt(i) !in granted ==>
      exists j :: i < j < k && FlagAt(j) in granted && FlagAt(j) !in required
  }

  lemma {:induction false} HighestBitDecides(required: Options, granted: Options, k: nat)
    requires k <= 11
    ensures LowWord(required, k) <= LowWord(granted, k) <==> Outweighed(required, granted, k)
  {
    hide FlagAt;
    if k > 0 {
      HighestBitDecides(required, granted, k - 1);
      var f := FlagAt(k - 1);
      if f in granted && f !in required {
        assert Outweighed(required, granted, k);
      } else if f in required && f !in granted {
        assert !Outweighed(required, granted, k);
      } else {
        SameTopBit(required, granted, k);
      }
    }
  }

  lemma SameTopBit(required: Options, granted: Options, k: nat)
    requires 0 < k <= 11 && (FlagAt(k - 1) in required <==> FlagAt(k - 1) in granted)
    ensures Outweighed(required, granted, k) <==> Outweighed(required, granted, k - 1)
  {
    hide FlagAt;
  }

  /** The receiver accepts exactly when every required option that is missing lies below an option
      that was granted without being required. */
  lemma AcceptedExactlyIf(options: Options, negotiated: Options)
    ensures !Incompatible(options, negotiated) <==> Outweighed(options * NEC_OPTIONS, negotiated, 11)
  {
    hide Word, Outweighed, LowWord;
    LowWordIsWord(options * NEC_OPTIONS);
    LowWordIsWord(negotiated);
    HighestBitDecides(options * NEC_OPTIONS, negotiated, 11);
  }

  /** But it compares option words as numbers: a peer that can only do CRC-32 passes when
      XON/XOFF escaping was asked for. */
  lemma AcceptanceIsNot()
    ensures var n := Negotiated({XonXoff}, "C32", "");
      !Incompatible({XonXoff}, n) && !({XonXoff} * NEC_OPTIONS <= n)
  {
    DistinctNames();
    FlagsOfLonger(FLAGS, "", "C32");
    assert FLAGS[8] == Row("C32", Crc32);
    ValueOfRow(FLAGS, 8);
    assert FlagsOf(FLAGS, "") == {};
    assert FlagsOf(FLAGS, "C32") == {Crc32};
    var n := Negotiated({XonXoff}, "C32", "");
    assert n == {Crc32};
    assert {XonXoff} * NEC_OPTIONS == {XonXoff};
  }
}
