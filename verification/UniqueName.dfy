/** unique_name(): find a name that no file has by counting in the extension. */
module UniqueName {

  // ----- extensions as odometers -------------------------------------------

  predicate IsDigit(c: char) {
    '0' <= c <= '9'
  }

  function Succ(c: char): char
    requires '0' <= c < '9'
  {
    (c as int + 1) as char
  }

  type Extension = e: string | |e| == 3 witness "000"

  function Digit(c: char): char {
    if IsDigit(c) then c else '0'
  }

  /** One turn of the search loop: the next extension to try. */
  function Advance(e: Extension): Extension {
    if !IsDigit(e[2]) then [e[0], e[1], '0']
    else if e[2] != '9' then [e[0], e[1], Succ(e[2])]
    else if Digit(e[1]) != '9' then [e[0], Succ(Digit(e[1])), '0']
    else if Digit(e[0]) != '9' then [Succ(Digit(e[0])), '0', '0']
    else ['0', '0', '0']
  }

  function Number(c: char): nat {
    if IsDigit(c) then c as int - '0' as int else 0
  }

  function Value(e: Extension): nat {
    Number(e[0]) * 100 + Number(e[1]) * 10 + Number(e[2])
  }

  predicate Numeric(e: Extension) {
    IsDigit(e[0]) && IsDigit(e[1]) && IsDigit(e[2])
  }

  function DigitChar(n: nat): char
    requires n < 10
  {
    ('0' as int + n) as char
  }

  /** The numeric extension with the given value. */
  function Numeral(k: nat): Extension
    requires k < 1000
  {
    [DigitChar(k / 100), DigitChar(k / 10 % 10), DigitChar(k % 10)]
  }

  lemma ValueNumeral(e: Extension)
    requires Numeric(e)
    ensures Value(e) < 1000 && Numeral(Value(e)) == e
  {
    var a, b, c := Number(e[0]), Number(e[1]), Number(e[2]);
    ThreeDigits(a, b, c);
    hide Number;
    OfNumber(e[0]);
    OfNumber(e[1]);
    OfNumber(e[2]);
  }

  lemma ThreeDigits(a: nat, b: nat, c: nat)
    requires a < 10 && b < 10 && c < 10
    ensures var k := a * 100 + b * 10 + c; k / 100 == a && k / 10 % 10 == b && k % 10 == c
  {
    var k := a * 100 + b * 10 + c;
    assert k == 10 * (10 * a + b) + c;
    assert k / 10 == 10 * a + b;
  }

  lemma OfNumber(c: char)
    requires IsDigit(c)
    ensures Number(c) < 10 && DigitChar(Number(c)) == c
  {
  }

  /** Numeric extensions count up and around. */
  lemma AdvanceCounts(e: Extension)
    requires Numeric(e)
    ensures Numeric(Advance(e)) && Value(Advance(e)) == (Value(e) + 1) % 1000
  {
  }

  // ----- the search --------------------------------------------------------

  /** A path whose last three characters are e. */
  function Name(head: string, e: Extension): string {
    head + e
  }

  /** Some path that ends in a numeral is free. */
  ghost predicate Free(head: string, existing: set<string>, k: nat) {
    k < 1000 && Name(head, Numeral(k)) !in existing
  }

  /** How far the extension is from being numeric, and then from the free value k. */
  function Kind(e: Extension): nat {
    if !IsDigit(e[2]) then 3 else if !IsDigit(e[1]) then 2 else if !IsDigit(e[0]) then 1 else 0
  }

  function Distance(e: Extension, k: nat): nat {
    if Kind(e) == 0 then (k - Value(e)) % 1000 else 999 - Number(e[1]) * 10 - Number(e[2])
  }

  lemma AdvanceDecreases(e: Extension, k: nat)
    requires k < 1000 && e != Numeral(k)
    ensures Kind(Advance(e)) < Kind(e) || (Kind(Advance(e)) == Kind(e) && Distance(Advance(e), k) < Distance(e, k))
  {
    if Numeric(e) {
      AdvanceCounts(e);
      ValueNumeral(e);
      CloserByOne(Value(e), k);
    }
  }

  lemma CloserByOne(v: nat, k: nat)
    requires v < 1000 && k < 1000 && v != k
    ensures (k - (v + 1) % 1000) % 1000 < (k - v) % 1000
  {
    if v < 999 {
      assert (k - v) % 1000 == if k > v then k - v else k - v + 1000;
      assert (k - v - 1) % 1000 == if k > v then k - v - 1 else k - v - 1 + 1000;
    }
  }

  function Advances(e: Extension, n: nat): Extension {
    if n == 0 then e else Advance(Advances(e, n - 1))
  }

  /** The search ends. */
  ghost predicate Ends(head: string, e: Extension, existing: set<string>) {
    exists n: nat :: Name(head, Advances(e, n)) !in existing
  }

  /** name is free, and every name that the search passes over is taken. */
  ghost predicate FirstFree(head: string, e: Extension, existing: set<string>, name: string) {
    exists n: nat :: FreeAt(head, e, existing, name, n)
  }

  ghost predicate FreeAt(head: string, e: Extension, existing: set<string>, name: string, n: nat) {
    && name == Name(head, Advances(e, n)) && name !in existing
    && (forall i: nat :: i < n ==> Name(head, Advances(e, i)) in existing)
  }

  /** Whenever one of the thousand numeric extensions is free, the search ends, with whatever
      extension it begins. */
  lemma {:induction false} FreeIsReached(head: string, e: Extension, existing: set<string>, k: nat)
    requires Free(head, existing, k)
    ensures Ends(head, e, existing)
    decreases Kind(e), Distance(e, k)
  {
    hide Advance, Name, Numeral;
    if Name(head, e) !in existing {
      assert Advances(e, 0) == e;
    } else {
      AdvanceDecreases(e, k);
      FreeIsReached(head, Advance(e), existing, k);
      var n: nat :| Name(head, Advances(Advance(e), n)) !in existing;
      AdvancesShift(e, n);
    }
  }

  lemma {:induction false} AdvancesShift(e: Extension, n: nat)
    ensures Advances(Advance(e), n) == Advances(e, n + 1)
  {
    hide Advance;
    if n > 0 {
      AdvancesShift(e, n - 1);
    }
  }

  lemma {:induction false} StaysNumeric(e: Extension, n: nat)
    requires Numeric(e)
    ensures Numeric(Advances(e, n))
  {
    if n > 0 {
      StaysNumeric(e, n - 1);
      AdvanceCounts(Advances(e, n - 1));
    }
  }

  /** From a numeric extension the search ends only if one of the thousand is free. */
  lemma EndsExactlyIfFree(head: string, e: Extension, existing: set<string>)
    requires Numeric(e)
    ensures Ends(head, e, existing) <==> exists k: nat :: Free(head, existing, k)
  {
    hide Advance, Advances, Name, Numeral, Value;
    if n: nat :| Name(head, Advances(e, n)) !in existing {
      StaysNumeric(e, n);
      ValueNumeral(Advances(e, n));
      assert Free(head, existing, Value(Advances(e, n)));
    }
    if k: nat :| Free(head, existing, k) {
      FreeIsReached(head, e, existing, k);
    }
  }

  /** The result of the search is unique. */
  lemma FirstFreeIsOne(head: string, e: Extension, existing: set<string>, name: string, other: string)
    requires FirstFree(head, e, existing, name) && FirstFree(head, e, existing, other)
    ensures name == other
  {
    hide Advances, Name;
    var n: nat :| FreeAt(head, e, existing, name, n);
    var m: nat :| FreeAt(head, e, existing, other, m);
  }

  // ----- the code ----------------------------------------------------------

  const NUL := 0 as char

  /** The buffer holds s and its terminator. */
  ghost predicate Holds(b: seq<char>, s: string) {
    |s| < |b| && b[..|s|] == s && b[|s|] == NUL && NUL !in s
  }

  /** The path is cut at its first dot. */
  predicate AtDot(stem: string, tail: string) {
    '.' !in stem && (tail == "" || tail[0] == '.')
  }

  const SUFFIX := ".000"

  /** The characters of ".000" from one place to another. */
  function Suffix(from: nat, n: nat): string
    requires n <= 4
  {
    if n > from then SUFFIX[from..n] else ""
  }

  /** The path after padding with the end of ".000". */
  function Padded(stem: string, tail: string): (s: string)
    ensures |s| >= |stem| + 4
  {
    stem + tail + Suffix(|tail|, 4)
  }

  /** Everything but the last three characters. */
  function Head(s: string): string
    requires |s| >= 3
  {
    s[..|s| - 3]
  }

  function Last(s: string): Extension
    requires |s| >= 3
  {
    s[|s| - 3..]
  }

  /** Where the string ends, and what is in it. */
  lemma CharAt(b: seq<char>, s: string, p: nat)
    requires Holds(b, s) && p <= |s|
    ensures p < |b| && (b[p] == NUL <==> p == |s|) && (p < |s| ==> b[p] == s[p])
  {
    if p < |s| {
      assert b[p] == b[..|s|][p];
      assert s[p] in s;
    }
  }

  lemma DotAt(stem: string, tail: string, p: nat)
    requires AtDot(stem, tail) && p <= |stem|
    ensures p < |stem| ==> (stem + tail)[p] != '.'
    ensures p == |stem| && tail != "" ==> (stem + tail)[p] == '.'
  {
    if p < |stem| {
      assert stem[p] in stem;
    }
  }

  /** Find the first '.', or the end. */
  method FindDot(path: array<char>, ghost stem: string, ghost tail: string) returns (p: nat)
    requires Holds(path[..], stem + tail) && AtDot(stem, tail)
    ensures p == |stem|
  {
    hide Holds;
    ghost var s := stem + tail;
    p := 0;
    CharAt(path[..], s, p);
    DotAt(stem, tail, p);
    while path[p] != NUL && path[p] != '.'
      invariant p <= |stem| && p < path.Length
      invariant (path[p] == NUL <==> p == |s|) && (p < |s| ==> path[p] == s[p])
      invariant (p < |stem| ==> s[p] != '.') && (p == |stem| && tail != "" ==> s[p] == '.')
      decreases |s| - p
    {
      p := p + 1;
      CharAt(path[..], s, p);
      DotAt(stem, tail, p);
    }
  }

  lemma SuffixGrows(from: nat, n: nat)
    requires n < 4
    ensures Suffix(from, n + 1) == if n >= from then Suffix(from, n) + [SUFFIX[n]] else Suffix(from, n)
    ensures n >= from ==> |Suffix(from, n)| == n - from
    ensures n < from ==> Suffix(from, n) == ""
  {
  }

  /** Writing a character over the terminator, and another terminator behind it. */
  lemma OneMore(b: seq<char>, s: string, c: char)
    requires Holds(b, s) && |s| + 1 < |b| && c != NUL
    ensures Holds(b[|s| := c][|s| + 1 := NUL], s + [c])
  {
    var b' := b[|s| := c][|s| + 1 := NUL];
    assert b'[..|s| + 1] == b[..|s|] + [c];
  }

  /** Pad the extension to three characters. */
  method Pad(path: array<char>, at: nat, ghost stem: string, ghost tail: string)
    requires Holds(path[..], stem + tail) && at == |stem| && |Padded(stem, tail)| < path.Length
    modifies path
    ensures Holds(path[..], Padded(stem, tail))
  {
    hide Holds;
    var p, n := at, 0;
    ghost var end := stem + tail;
    while n < 4
      invariant 0 <= n <= 4 && p == at + n
      invariant end == stem + tail + Suffix(|tail|, n)
      invariant Holds(path[..], end)
    {
      CharAt(path[..], end, p);
      SuffixGrows(|tail|, n);
      if path[p] == NUL {
        OneMore(path[..], end, SUFFIX[n]);
        path[p] := SUFFIX[n];
        p := p + 1;
        path[p] := NUL;
        end := end + [SUFFIX[n]];
      } else {
        p := p + 1;
      }
      n := n + 1;
    }
  }

  /** The body of the search loop, on the characters of the extension in place. */
  method Count(path: array<char>, len: nat, ghost head: string, ghost e: Extension)
    requires Holds(path[..], Name(head, e)) && len == |head| + 3
    modifies path
    ensures Holds(path[..], Name(head, Advance(e)))
  {
    ghost var b := path[..];
    ExtensionAt(path[..], head, e);
    var p := len - 1;
    if !IsDigit(path[p]) {
      path[p] := '0';
    } else {
      var n := 3;
      while n > 0
        invariant 0 <= n <= 3 && p == len - 4 + n
        invariant path[..p + 1] == b[..p + 1]
        invariant path[..len - 3] == b[..len - 3] && path[len..] == b[len..]
        invariant n < 3 ==> path[len - 1] == '0' && IsDigit(e[2]) && e[2] == '9'
        invariant n < 2 ==> path[len - 2] == '0' && Digit(e[1]) == '9'
        invariant n < 1 ==> path[len - 3] == '0' && Digit(e[0]) == '9'
      {
        n := n - 1;
        assert path[p] == path[..p + 1][p] == b[p];
        if !IsDigit(path[p]) {
          path[p] := '0';
        }
        if path[p] != '9' {
          path[p] := Succ(path[p]);
          break;
        } else {
          path[p] := '0';
          p := p - 1;
        }
      }
    }
    ExtensionIs(path[..], b, head, e, Advance(e));
  }

  lemma ExtensionAt(b: seq<char>, head: string, e: Extension)
    requires Holds(b, Name(head, e))
    ensures |head| + 3 < |b| && b[..|head|] == head
    ensures b[|head|] == e[0] && b[|head| + 1] == e[1] && b[|head| + 2] == e[2]
  {
    var s := Name(head, e);
    assert b[..|head|] == b[..|s|][..|head|];
    assert b[|head|] == s[|head|] && b[|head| + 1] == s[|head| + 1] && b[|head| + 2] == s[|head| + 2];
  }

  lemma ExtensionIs(b: seq<char>, before: seq<char>, head: string, e: Extension, next: Extension)
    requires Holds(before, Name(head, e)) && |b| == |before| && next == Advance(e)
    requires b[..|head|] == before[..|head|] && b[|head| + 3..] == before[|head| + 3..]
    requires b[|head|] == next[0] && b[|head| + 1] == next[1] && b[|head| + 2] == next[2]
    ensures Holds(b, Name(head, next))
  {
    ExtensionAt(before, head, e);
    var s := Name(head, next);
    assert b[..|s|] == b[..|head|] + [b[|head|], b[|head| + 1], b[|head| + 2]];
    assert b[|s|] == b[|head| + 3..][0];
    NotNul(head, e);
    NoNulNext(e);
  }

  lemma NotNul(head: string, e: Extension)
    requires NUL !in Name(head, e)
    ensures NUL !in head && NUL !in e
  {
    forall i | 0 <= i < |head| ensures head[i] != NUL {
      assert Name(head, e)[i] in Name(head, e);
    }
    forall i | 0 <= i < 3 ensures e[i] != NUL {
      assert Name(head, e)[|head| + i] in Name(head, e);
    }
  }

  lemma NoNulNext(e: Extension)
    requires NUL !in e
    ensures NUL !in Advance(e)
  {
    assert e[0] in e && e[1] in e;
  }

  /** strlen() */
  method StrLen(path: array<char>, ghost s: string) returns (n: nat)
    requires Holds(path[..], s)
    ensures n == |s|
  {
    hide Holds;
    n := 0;
    CharAt(path[..], s, n);
    while path[n] != NUL
      invariant n <= |s| && n < path.Length && (path[n] == NUL <==> n == |s|)
      decreases |s| - n
    {
      n := n + 1;
      CharAt(path[..], s, n);
    }
  }

  /** unique_name(): path holds the name, existing are the names of the files. A name that no file
      has is left alone; otherwise the name is padded, and its last three characters are counted up
      to the first free name. Without a free name the loop does not end. */
  method MakeUnique(path: array<char>, existing: set<string>, ghost stem: string, ghost tail: string)
    returns (ghost name: string)
    requires Holds(path[..], stem + tail) && AtDot(stem, tail)
    requires var s := Padded(stem, tail);
      stem + tail in existing ==> |s| < path.Length && Ends(Head(s), Last(s), existing)
    modifies path
    ensures Holds(path[..], name) && name !in existing
    ensures stem + tail !in existing ==> name == stem + tail
    ensures var s := Padded(stem, tail); stem + tail in existing ==> FirstFree(Head(s), Last(s), existing, name)
  {
    hide Advance, Holds, Padded;
    name := stem + tail;
    var n := StrLen(path, name);
    HeldString(path[..], name);
    if path[..n] in existing {
      var p := FindDot(path, stem, tail);
      Pad(path, p, stem, tail);
      HeadAndLast(Padded(stem, tail));
      name := SearchFree(path, existing, Head(Padded(stem, tail)), Last(Padded(stem, tail)));
    }
  }

  lemma HeadAndLast(s: string)
    requires |s| >= 3
    ensures Name(Head(s), Last(s)) == s
  {
  }

  /** The search loop. */
  method SearchFree(path: array<char>, existing: set<string>, ghost head: string, ghost first: Extension)
    returns (ghost name: string)
    requires Holds(path[..], Name(head, first)) && Ends(head, first, existing)
    modifies path
    ensures Holds(path[..], name) && FirstFree(head, first, existing, name)
  {
    hide Advance, Holds;
    ghost var end: nat :| Name(head, Advances(first, end)) !in existing;
    ghost var i: nat, e := 0, first;
    name := Name(head, e);
    HeldString(path[..], name);
    var n := StrLen(path, name);
    while path[..n] in existing
      invariant Holds(path[..], name) && name == Name(head, e) && n == |name| == |head| + 3 && n < path.Length
      invariant path[..n] == name && e == Advances(first, i) && i <= end
      invariant forall j: nat :: j < i ==> Name(head, Advances(first, j)) in existing
      decreases end - i
    {
      Count(path, n, head, e);
      e, i := Advance(e), i + 1;
      name := Name(head, e);
      HeldString(path[..], name);
    }
    assert FreeAt(head, first, existing, name, i);
  }

  lemma HeldString(b: seq<char>, s: string)
    requires Holds(b, s)
    ensures |s| < |b| && b[..|s|] == s
  {
  }

  /** What is tried after some extensions, and how short ones are filled up. */
  lemma KnownNames()
    ensures Advance("abc") == "ab0" && Advance("ab7") == "ab8" && Advance("ab9") == "a10" && Advance("a99") == "100"
    ensures Advance("999") == "000"
    ensures Padded("file", "") == "file.000" && Padded("file", ".c") == "file.c00"
    ensures Padded("file", ".doc") == "file.doc" && Padded("file", ".html") == "file.html"
  {
    assert Suffix(0, 4) == ".000" && Suffix(2, 4) == "00" && Suffix(4, 4) == "" && Suffix(5, 4) == "";
  }
}
