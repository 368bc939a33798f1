/** qodem's UTF-8 encoder and its table-driven decoder. */
module Utf8 {
  import opened Bits
  import opened Seqs

  const ACCEPT := 0
  const REJECT := 1

  // ----- the encoder -------------------------------------------------------

  /** What utf8_encode() writes. It does not look for surrogates, and writes the low byte of a
      negative argument. */
  function Encode(ch: int): Bytes {
    if ch <= 0x7f then [ch % 256]
    else if ch <= 0x7ff then [0xc0 + ch / 64 % 32, 0x80 + ch % 64]
    else if ch <= 0xffff then [0xe0 + ch / 4096 % 16, 0x80 + ch / 64 % 64, 0x80 + ch % 64]
    else if ch <= 0x10_ffff then
      [0xf0 + ch / 262144 % 8, 0x80 + ch / 4096 % 64, 0x80 + ch / 64 % 64, 0x80 + ch % 64]
    else []
  }

  /** Unicode scalar values: the code points of section 3 of RFC 3629. */
  predicate Scalar(ch: int) {
    0 <= ch < 0xd800 || 0xdfff < ch <= 0x10_ffff
  }

  function EncodeAll(s: seq<int>): Bytes {
    if s == [] then [] else Encode(s[0]) + EncodeAll(s[1..])
  }

  /** utf8_encode() on a buffer of at least four bytes. */
  method Utf8Encode(ch: int, buffer: array<Byte>) returns (n: nat)
    requires buffer.Length >= 4
    modifies buffer
    ensures n == |Encode(ch)| && buffer[..n] == Encode(ch) && buffer[n..] == old(buffer[..])[n..]
  {
    if ch <= 0x7f {
      buffer[0] := ch % 256;
      return 1;
    }
    if ch <= 0x7ff {
      buffer[0] := 0xc0 + ch / 64 % 32;
      buffer[1] := 0x80 + ch % 64;
      return 2;
    }
    if ch <= 0xffff {
      buffer[0] := 0xe0 + ch / 4096 % 16;
      buffer[1] := 0x80 + ch / 64 % 64;
      buffer[2] := 0x80 + ch % 64;
      return 3;
    }
    if ch <= 0x10_ffff {
      buffer[0] := 0xf0 + ch / 262144 % 8;
      buffer[1] := 0x80 + ch / 4096 % 64;
      buffer[2] := 0x80 + ch / 64 % 64;
      buffer[3] := 0x80 + ch % 64;
      return 4;
    }
    return 0;
  }

  // ----- the decoder's tables ----------------------------------------------

  type Class = x: int | 0 <= x < 12
  type StateNumber = x: int | 0 <= x < 9

  const CLASSES_E: seq<Class> := [10, 3, 3, 3, 3, 3, 3, 3, 3, 3, 3, 3, 3, 4, 3, 3]
  const CLASSES_F: seq<Class> := [11, 6, 6, 6, 5, 8, 8, 8, 8, 8, 8, 8, 8, 8, 8, 8]

  /** The first 256 entries of utf8d, stretch by stretch. */
  function ClassOf(b: Byte): Class {
    if b < 0x80 then 0
    else if b < 0x90 then 1
    else if b < 0xa0 then 9
    else if b < 0xc0 then 7
    else if b < 0xc2 then 8
    else if b < 0xe0 then 2
    else if b < 0xf0 then CLASSES_E[b - 0xe0]
    else CLASSES_F[b - 0xf0]
  }

  const ROW0: seq<StateNumber> := [0, 1, 2, 3, 5, 8, 7, 1, 1, 1, 4, 6, 1, 1, 1, 1]
  const ROW1: seq<StateNumber> := [1, 1, 1, 1, 1, 1, 1, 1, 1, 1, 1, 1, 1, 1, 1, 1]
  const ROW2: seq<StateNumber> := [1, 0, 1, 1, 1, 1, 1, 0, 1, 0, 1, 1, 1, 1, 1, 1]
  const ROW3: seq<StateNumber> := [1, 2, 1, 1, 1, 1, 1, 2, 1, 2, 1, 1, 1, 1, 1, 1]
  const ROW4: seq<StateNumber> := [1, 1, 1, 1, 1, 1, 1, 2, 1, 1, 1, 1, 1, 1, 1, 1]
  const ROW5: seq<StateNumber> := [1, 2, 1, 1, 1, 1, 1, 1, 1, 2, 1, 1, 1, 1, 1, 1]
  const ROW6: seq<StateNumber> := [1, 1, 1, 1, 1, 1, 1, 3, 1, 3, 1, 1, 1, 1, 1, 1]
  const ROW7: seq<StateNumber> := [1, 3, 1, 1, 1, 1, 1, 3, 1, 3, 1, 1, 1, 1, 1, 1]
  const ROW8: seq<StateNumber> := [1, 3, 1, 1, 1, 1, 1, 1, 1, 1, 1, 1, 1, 1, 1, 1]

  /** utf8d[256 + state * 16 + type] */
  function Next(state: StateNumber, c: Class): StateNumber {
    match state
    case 0 => ROW0[c]
    case 1 => ROW1[c]
    case 2 => ROW2[c]
    case 3 => ROW3[c]
    case 4 => ROW4[c]
    case 5 => ROW5[c]
    case 6 => ROW6[c]
    case 7 => ROW7[c]
    case _ => ROW8[c]
  }

  /** (0xff >> c) & b */
  function LeadBits(c: Class, b: Byte): nat {
    if c == 0 then b
    else if c == 1 then b % 128
    else if c == 2 then b % 64
    else if c == 3 then b % 32
    else if c == 4 then b % 16
    else if c == 5 then b % 8
    else if c == 6 then b % 4
    else if c == 7 then b % 2
    else 0
  }

  // ----- the decoder -------------------------------------------------------

  datatype Dfa = Dfa(state: StateNumber, codep: nat)

  /** utf8_decode() */
  function Step(d: Dfa, b: Byte): Dfa {
    Dfa(Next(d.state, ClassOf(b)),
        if d.state != ACCEPT then b % 64 + d.codep * 64 % 0x1_0000_0000 else LeadBits(ClassOf(b), b))
  }

  /** The state after a string, and the code points reported on the way. */
  datatype Decoding = Decoding(end: Dfa, points: seq<int>)

  function Feed(d: Dfa, s: Bytes): Decoding
    decreases |s|
  {
    if s == [] then Decoding(d, [])
    else
      var next := Step(d, s[0]);
      var rest := Feed(next, s[1..]);
      if next.state == ACCEPT then rest.(points := [next.codep] + rest.points) else rest
  }

  class Decoder {
    var state: StateNumber
    var codep: nat

    /** utf8_decode() with its two variables. */
    method Utf8Decode(b: Byte) returns (r: StateNumber)
      modifies this
      ensures Dfa(state, codep) == Step(old(Dfa(state, codep)), b) && r == state
    {
      var typ := ClassOf(b);
      codep := if state != ACCEPT then b % 64 + codep * 64 % 0x1_0000_0000 else LeadBits(typ, b);
      state := Next(state, typ);
      return state;
    }
  }

  // ----- the automaton in words --------------------------------------------

  /** The states after a lead byte: how many bytes are to follow, and from which range the next
      one must be. */
  function Low(state: StateNumber): nat {
    if state == 4 then 0xa0 else if state == 6 then 0x90 else 0x80
  }

  function High(state: StateNumber): nat {
    if state == 5 then 0x9f else if state == 8 then 0x8f else 0xbf
  }

  function After(state: StateNumber): StateNumber {
    if state == 2 then ACCEPT else if state <= 5 then 2 else 3
  }

  lemma LeadByte(codep: nat, b: Byte)
    ensures Step(Dfa(ACCEPT, codep), b) ==
      if b < 0x80 then Dfa(ACCEPT, b)
      else if 0xc2 <= b < 0xe0 then Dfa(2, b - 0xc0)
      else if 0xe0 <= b < 0xf0 then Dfa(if b == 0xe0 then 4 else if b == 0xed then 5 else 3, b - 0xe0)
      else if 0xf0 <= b < 0xf5 then Dfa(if b == 0xf0 then 6 else if b == 0xf4 then 8 else 7, b - 0xf0)
      else Step(Dfa(ACCEPT, codep), b)
    ensures 0x80 <= b < 0xc2 || 0xf5 <= b ==> Step(Dfa(ACCEPT, codep), b).state == REJECT
  {
  }

  lemma NextByte(d: Dfa, b: Byte)
    requires 2 <= d.state && d.codep < 0x400_0000
    ensures Low(d.state) <= b <= High(d.state) ==> Step(d, b) == Dfa(After(d.state), d.codep * 64 + b % 64)
    ensures !(Low(d.state) <= b <= High(d.state)) ==> Step(d, b).state == REJECT
  {
  }

  lemma {:induction false} RejectStays(d: Dfa, s: Bytes)
    requires d.state == REJECT
    ensures Feed(d, s).end.state == REJECT && Feed(d, s).points == []
    decreases |s|
  {
    if s != [] {
      assert Step(d, s[0]).state == REJECT;
      RejectStays(Step(d, s[0]), s[1..]);
    }
  }

  lemma FeedFirst(d: Dfa, b: Byte, s: Bytes)
    ensures var next := Step(d, b); var rest := Feed(next, s);
      Feed(d, [b] + s) == if next.state == ACCEPT then rest.(points := [next.codep] + rest.points) else rest
  {
    assert ([b] + s)[1..] == s;
  }

  // ----- one code point ----------------------------------------------------

  /** A code point of n bytes, its last n - 1 of which are to come: the tail of its encoding. */
  function Tail(ch: nat, n: nat): Bytes {
    if n == 0 then []
    else if n == 1 then [0x80 + ch % 64]
    else if n == 2 then [0x80 + ch / 64 % 64, 0x80 + ch % 64]
    else [0x80 + ch / 4096 % 64, 0x80 + ch / 64 % 64, 0x80 + ch % 64]
  }

  lemma LastByte(d: Dfa, b: Byte, s: Bytes)
    requires d.state == 2 && d.codep < 0x400_0000 && 0x80 <= b <= 0xbf
    ensures var ch := d.codep * 64 + b % 64; var rest := Feed(Dfa(ACCEPT, ch), s);
      Feed(d, [b] + s) == rest.(points := [ch] + rest.points)
  {
    hide Step, Feed;
    NextByte(d, b);
    FeedFirst(d, b, s);
  }

  lemma MiddleByte(d: Dfa, b: Byte, s: Bytes)
    requires 3 <= d.state && d.codep < 0x400_0000 && Low(d.state) <= b <= High(d.state)
    ensures Feed(d, [b] + s) == Feed(Dfa(After(d.state), d.codep * 64 + b % 64), s)
  {
    hide Step, Feed;
    NextByte(d, b);
    FeedFirst(d, b, s);
  }

  lemma Parts(ch: nat)
    ensures ch / 64 / 64 == ch / 4096 && ch / 4096 / 64 == ch / 262144
    ensures ch == ch / 64 * 64 + ch % 64 && ch / 64 == ch / 4096 * 64 + ch / 64 % 64
    ensures ch / 4096 == ch / 262144 * 64 + ch / 4096 % 64
  {
  }

  lemma TwoMore(d: Dfa, ch: nat, s: Bytes)
    requires d.state in {3, 4, 5} && ch < 0x11_0000 && d.codep == ch / 4096
    requires Low(d.state) <= 0x80 + ch / 64 % 64 <= High(d.state)
    ensures var rest := Feed(Dfa(ACCEPT, ch), s); Feed(d, Tail(ch, 2) + s) == rest.(points := [ch] + rest.points)
  {
    hide Feed;
    Parts(ch);
    var x: Byte, y: Byte := 0x80 + ch / 64 % 64, 0x80 + ch % 64;
    assert x % 64 == ch / 64 % 64 && y % 64 == ch % 64;
    assert Tail(ch, 2) + s == [x] + ([y] + s);
    MiddleByte(d, x, [y] + s);
    LastByte(Dfa(2, ch / 64), y, s);
  }

  lemma ThreeMore(d: Dfa, ch: nat, s: Bytes)
    requires d.state in {6, 7, 8} && ch < 0x11_0000 && d.codep == ch / 262144
    requires Low(d.state) <= 0x80 + ch / 4096 % 64 <= High(d.state)
    ensures var rest := Feed(Dfa(ACCEPT, ch), s); Feed(d, Tail(ch, 3) + s) == rest.(points := [ch] + rest.points)
  {
    hide Feed;
    Parts(ch);
    var x: Byte := 0x80 + ch / 4096 % 64;
    assert x % 64 == ch / 4096 % 64;
    assert Tail(ch, 3) + s == [x] + (Tail(ch, 2) + s);
    MiddleByte(d, x, Tail(ch, 2) + s);
    TwoMore(Dfa(3, ch / 4096), ch, s);
  }

  /** A scalar value is decoded, whatever follows. */
  lemma ScalarDecodes(codep: nat, ch: int, s: Bytes)
    requires Scalar(ch)
    ensures var rest := Feed(Dfa(ACCEPT, ch), s);
      Feed(Dfa(ACCEPT, codep), Encode(ch) + s) == rest.(points := [ch] + rest.points)
  {
    hide Feed, Step;
    if ch <= 0x7f {
      LeadByte(codep, ch);
      FeedFirst(Dfa(ACCEPT, codep), ch, s);
    } else if ch <= 0x7ff {
      ScalarOfTwo(codep, ch, s);
    } else if ch <= 0xffff {
      ScalarOfThree(codep, ch, s);
    } else {
      ScalarOfFour(codep, ch, s);
    }
  }

  lemma ScalarOfTwo(codep: nat, ch: nat, s: Bytes)
    requires 0x7f < ch <= 0x7ff
    ensures var rest := Feed(Dfa(ACCEPT, ch), s);
      Feed(Dfa(ACCEPT, codep), Encode(ch) + s) == rest.(points := [ch] + rest.points)
  {
    hide Feed, Step;
    var a: Byte, x: Byte := 0xc0 + ch / 64, 0x80 + ch % 64;
    assert x % 64 == ch % 64 && ch / 64 % 32 == ch / 64;
    assert Encode(ch) + s == [a] + ([x] + s);
    LeadByte(codep, a);
    FeedFirst(Dfa(ACCEPT, codep), a, [x] + s);
    Parts(ch);
    LastByte(Dfa(2, ch / 64), x, s);
  }

  lemma ScalarOfThree(codep: nat, ch: nat, s: Bytes)
    requires 0x7ff < ch <= 0xffff && Scalar(ch)
    ensures var rest := Feed(Dfa(ACCEPT, ch), s);
      Feed(Dfa(ACCEPT, codep), Encode(ch) + s) == rest.(points := [ch] + rest.points)
  {
    hide Feed, Step;
    var a: Byte := 0xe0 + ch / 4096;
    assert ch / 4096 % 16 == ch / 4096;
    assert Encode(ch) + s == [a] + (Tail(ch, 2) + s);
    LeadByte(codep, a);
    FeedFirst(Dfa(ACCEPT, codep), a, Tail(ch, 2) + s);
    ThreeRange(ch);
    TwoMore(Dfa(if a == 0xe0 then 4 else if a == 0xed then 5 else 3, ch / 4096), ch, s);
  }

  lemma ThreeRange(ch: nat)
    requires 0x7ff < ch <= 0xffff && Scalar(ch)
    ensures ch / 4096 == 0 ==> 0x20 <= ch / 64 % 64
    ensures ch / 4096 == 0xd ==> ch / 64 % 64 < 0x20
  {
    Parts(ch);
  }

  lemma ScalarOfFour(codep: nat, ch: nat, s: Bytes)
    requires 0xffff < ch <= 0x10_ffff
    ensures var rest := Feed(Dfa(ACCEPT, ch), s);
      Feed(Dfa(ACCEPT, codep), Encode(ch) + s) == rest.(points := [ch] + rest.points)
  {
    hide Feed, Step;
    var a: Byte := 0xf0 + ch / 262144;
    assert ch / 262144 % 8 == ch / 262144;
    assert Encode(ch) + s == [a] + (Tail(ch, 3) + s);
    LeadByte(codep, a);
    FeedFirst(Dfa(ACCEPT, codep), a, Tail(ch, 3) + s);
    FourRange(ch);
    ThreeMore(Dfa(if a == 0xf0 then 6 else if a == 0xf4 then 8 else 7, ch / 262144), ch, s);
  }

  lemma FourRange(ch: nat)
    requires 0xffff < ch <= 0x10_ffff
    ensures ch / 262144 == 0 ==> 0x10 <= ch / 4096 % 64
    ensures ch / 262144 == 4 ==> ch / 4096 % 64 < 0x10
  {
    Parts(ch);
  }

  /** Decoding the concatenated encodings of scalar values gives those values. */
  lemma {:induction false} DecodeEncoded(codep: nat, points: seq<int>)
    requires forall p <- points :: Scalar(p)
    ensures var d := Feed(Dfa(ACCEPT, codep), EncodeAll(points)); d.points == points && d.end.state == ACCEPT
    decreases |points|
  {
    hide Feed, Encode;
    if points == [] {
      FeedNothing(Dfa(ACCEPT, codep));
    } else {
      assert Scalar(points[0]);
      ScalarDecodes(codep, points[0], EncodeAll(points[1..]));
      DecodeEncoded(points[0], points[1..]);
      assert points == [points[0]] + points[1..];
    }
  }

  lemma FeedNothing(d: Dfa)
    ensures Feed(d, []) == Decoding(d, [])
  {
  }

  // ----- what is accepted --------------------------------------------------

  /** A string that is not rejected and does not stop within a code point starts with the
      encoding of one. */
  lemma FirstPoint(codep: nat, s: Bytes) returns (ch: int, rest: Bytes)
    requires s != [] && Feed(Dfa(ACCEPT, codep), s).end.state == ACCEPT
    ensures Scalar(ch) && s == Encode(ch) + rest
  {
    hide Feed, Step, Encode;
    var b, t := s[0], s[1..];
    assert s == [b] + t;
    FeedFirst(Dfa(ACCEPT, codep), b, t);
    LeadByte(codep, b);
    var d := Step(Dfa(ACCEPT, codep), b);
    if d.state == REJECT {
      RejectStays(d, t);
      assert false;
      ch, rest := 0, t;
    } else if d.state == ACCEPT {
      ch, rest := b, t;
      OneByte(b);
    } else if d.state == 2 {
      var c1: Byte;
      c1, rest := AnotherByte(d, t);
      ch := d.codep * 64 + c1 % 64;
      TwoBytes(b, c1);
      ConcatAssoc([b], [c1], rest);
    } else if d.state <= 5 {
      var c1: Byte, c2: Byte, u: Bytes;
      c1, u := AnotherByte(d, t);
      MiddleByte(d, c1, u);
      var e := Dfa(After(d.state), d.codep * 64 + c1 % 64);
      c2, rest := AnotherByte(e, u);
      ch := e.codep * 64 + c2 % 64;
      ThreeBytes(b, c1, c2);
      assert s == [b, c1, c2] + rest;
    } else {
      ch, rest := FourthByte(b, t, d);
    }
  }

  lemma FourthByte(b: Byte, t: Bytes, d: Dfa) returns (ch: int, rest: Bytes)
    requires 0xf0 <= b < 0xf5 && d == Dfa(if b == 0xf0 then 6 else if b == 0xf4 then 8 else 7, b - 0xf0)
    requires Feed(d, t).end.state == ACCEPT
    ensures Scalar(ch) && [b] + t == Encode(ch) + rest
  {
    hide Feed, Step, Encode;
    var c1, u := AnotherByte(d, t);
    MiddleByte(d, c1, u);
    var e := Dfa(After(d.state), d.codep * 64 + c1 % 64);
    var c2, v := AnotherByte(e, u);
    MiddleByte(e, c2, v);
    var f := Dfa(After(e.state), e.codep * 64 + c2 % 64);
    var c3, w := AnotherByte(f, v);
    ch, rest := f.codep * 64 + c3 % 64, w;
    FourBytes(b, c1, c2, c3);
    assert [b] + t == [b, c1, c2, c3] + rest;
  }

  /** Within a code point another byte must come, and be in range. */
  lemma AnotherByte(d: Dfa, t: Bytes) returns (b: Byte, rest: Bytes)
    requires 2 <= d.state && d.codep < 0x400_0000 && Feed(d, t).end.state == ACCEPT
    ensures t == [b] + rest && Low(d.state) <= b <= High(d.state)
  {
    hide Step;
    assert t != [];
    b, rest := t[0], t[1..];
    NextByte(d, b);
    if !(Low(d.state) <= b <= High(d.state)) {
      RejectStays(Step(d, b), rest);
    }
  }

  lemma OneByte(b: Byte)
    requires b < 0x80
    ensures Encode(b) == [b]
  {
  }

  lemma TwoBytes(b: Byte, c: Byte)
    requires 0xc2 <= b < 0xe0 && 0x80 <= c <= 0xbf
    ensures var ch := (b - 0xc0) * 64 + c % 64; Scalar(ch) && Encode(ch) == [b] + [c]
  {
    Quotient((b - 0xc0) * 64 + c % 64, b - 0xc0, c % 64);
  }

  lemma Quotient(v: nat, q: nat, r: nat)
    requires v == q * 64 + r && r < 64
    ensures v / 64 == q && v % 64 == r
  {
  }

  lemma ThreeBytes(b: Byte, c1: Byte, c2: Byte)
    requires 0xe0 <= b < 0xf0 && 0x80 <= c1 <= 0xbf && 0x80 <= c2 <= 0xbf
    requires (b == 0xe0 ==> 0xa0 <= c1) && (b == 0xed ==> c1 <= 0x9f)
    ensures var ch := ((b - 0xe0) * 64 + c1 % 64) * 64 + c2 % 64; Scalar(ch) && Encode(ch) == [b, c1, c2]
  {
    var q := (b - 0xe0) * 64 + c1 % 64;
    Quotient(q * 64 + c2 % 64, q, c2 % 64);
    Quotient(q, b - 0xe0, c1 % 64);
    Parts(q * 64 + c2 % 64);
  }

  lemma FourBytes(b: Byte, c1: Byte, c2: Byte, c3: Byte)
    requires 0xf0 <= b < 0xf5 && 0x80 <= c1 <= 0xbf && 0x80 <= c2 <= 0xbf && 0x80 <= c3 <= 0xbf
    requires (b == 0xf0 ==> 0x90 <= c1) && (b == 0xf4 ==> c1 <= 0x8f)
    ensures var ch := (((b - 0xf0) * 64 + c1 % 64) * 64 + c2 % 64) * 64 + c3 % 64;
      Scalar(ch) && Encode(ch) == [b, c1, c2, c3]
  {
    hide Encode;
    var p := (b - 0xf0) * 64 + c1 % 64;
    var q := p * 64 + c2 % 64;
    var ch := q * 64 + c3 % 64;
    Quotient(ch, q, c3 % 64);
    Quotient(q, p, c2 % 64);
    Quotient(p, b - 0xf0, c1 % 64);
    Parts(ch);
    ContinuationBytes(c1);
    ContinuationBytes(c2);
    ContinuationBytes(c3);
    EncodeFour(ch, b - 0xf0, c1 % 64, c2 % 64, c3 % 64);
  }

  lemma ContinuationBytes(c: Byte)
    requires 0x80 <= c <= 0xbf
    ensures 0x80 + c % 64 == c
  {
  }

  lemma EncodeFour(ch: nat, a: nat, x: nat, y: nat, z: nat)
    requires 0xffff < ch <= 0x10_ffff && a < 8
    requires ch / 262144 == a && ch / 4096 % 64 == x && ch / 64 % 64 == y && ch % 64 == z
    ensures Encode(ch) == [0xf0 + a, 0x80 + x, 0x80 + y, 0x80 + z]
  {
  }

  /** Every string that takes the decoder from ACCEPT to ACCEPT is exactly the concatenation of
      the encodings of the code points that it reports, and those are scalar values: no overlong
      forms and no surrogates. */
  lemma {:induction false} AcceptedIsEncoded(codep: nat, s: Bytes)
    requires Feed(Dfa(ACCEPT, codep), s).end.state == ACCEPT
    ensures var points := Feed(Dfa(ACCEPT, codep), s).points;
      (forall p <- points :: Scalar(p)) && EncodeAll(points) == s
    decreases |s|
  {
    hide Feed, Encode;
    if s == [] {
      FeedNothing(Dfa(ACCEPT, codep));
    } else {
      var ch, rest := FirstPoint(codep, s);
      ScalarDecodes(codep, ch, rest);
      EncodeNotEmpty(ch);
      AcceptedIsEncoded(ch, rest);
      var more := Feed(Dfa(ACCEPT, ch), rest).points;
      assert ([ch] + more)[1..] == more;
    }
  }

  lemma EncodeNotEmpty(ch: int)
    requires Scalar(ch)
    ensures Encode(ch) != []
  {
  }

  /** An argument of utf8_encode() comes back from the decoder exactly if it is a scalar value. */
  lemma RoundTripsExactly(codep: nat, ch: int)
    ensures var r := Feed(Dfa(ACCEPT, codep), Encode(ch));
      r.points == [ch] && r.end.state == ACCEPT <==> Scalar(ch)
  {
    hide Feed, Encode;
    if Scalar(ch) {
      ScalarDecodes(codep, ch, []);
      FeedNothing(Dfa(ACCEPT, ch));
      assert Encode(ch) + [] == Encode(ch);
    }
    if Feed(Dfa(ACCEPT, codep), Encode(ch)).points == [ch] && Feed(Dfa(ACCEPT, codep), Encode(ch)).end.state == ACCEPT {
      AcceptedIsEncoded(codep, Encode(ch));
      assert ch in [ch];
    }
  }

  /** One scalar value of each length. */
  lemma KnownEncodings()
    ensures Encode(0x24) == [0x24] && Encode(0xa2) == [0xc2, 0xa2]
    ensures Encode(0x20ac) == [0xe2, 0x82, 0xac]
    ensures Encode(0x1_0348) == [0xf0, 0x90, 0x8d, 0x88]
  {
    assert [0xe0 + 0x20ac / 4096 % 16, 0x80 + 0x20ac / 64 % 64, 0x80 + 0x20ac % 64] == [0xe2, 0x82, 0xac];
  }
}
