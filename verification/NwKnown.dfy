/** Known facts about the cipher that no other table would meet: where a nibble travels in sixteen
    rounds, and what two keys make of a block of zeros. */
module NwKnown {
  import opened Bits
  import opened NwCrypt

  // ----- the table, entry by entry -----------------------------------------

  function Row0(v: Nibble): Nibble {
    match v
    case 0 => 15
    case 1 => 8
    case 2 => 5
    case 3 => 7
    case 4 => 12
    case 5 => 2
    case 6 => 14
    case 7 => 9
    case 8 => 0
    case 9 => 1
    case 10 => 6
    case 11 => 13
    case 12 => 3
    case 13 => 4
    case 14 => 11
    case _ => 10
  }

  function Row1(v: Nibble): Nibble {
    match v
    case 0 => 2
    case 1 => 12
    case 2 => 14
    case 3 => 6
    case 4 => 15
    case 5 => 0
    case 6 => 1
    case 7 => 8
    case 8 => 13
    case 9 => 3
    case 10 => 10
    case 11 => 4
    case 12 => 9
    case 13 => 11
    case 14 => 5
    case _ => 7
  }

  function Row2(v: Nibble): Nibble {
    match v
    case 0 => 5
    case 1 => 2
    case 2 => 9
    case 3 => 15
    case 4 => 12
    case 5 => 4
    case 6 => 13
    case 7 => 0
    case 8 => 14
    case 9 => 10
    case 10 => 6
    case 11 => 8
    case 12 => 11
    case 13 => 1
    case 14 => 3
    case _ => 7
  }

  function Row3(v: Nibble): Nibble {
    match v
    case 0 => 15
    case 1 => 13
    case 2 => 2
    case 3 => 6
    case 4 => 7
    case 5 => 8
    case 6 => 5
    case 7 => 9
    case 8 => 0
    case 9 => 4
    case 10 => 12
    case 11 => 3
    case 12 => 1
    case 13 => 10
    case 14 => 11
    case _ => 14
  }

  function Row4(v: Nibble): Nibble {
    match v
    case 0 => 5
    case 1 => 14
    case 2 => 2
    case 3 => 11
    case 4 => 13
    case 5 => 10
    case 6 => 7
    case 7 => 0
    case 8 => 8
    case 9 => 6
    case 10 => 4
    case 11 => 1
    case 12 => 15
    case 13 => 12
    case 14 => 3
    case _ => 9
  }

  function Row5(v: Nibble): Nibble {
    match v
    case 0 => 8
    case 1 => 2
    case 2 => 15
    case 3 => 10
    case 4 => 5
    case 5 => 9
    case 6 => 6
    case 7 => 12
    case 8 => 0
    case 9 => 11
    case 10 => 1
    case 11 => 13
    case 12 => 7
    case 13 => 3
    case 14 => 4
    case _ => 14
  }

  function Row6(v: Nibble): Nibble {
    match v
    case 0 => 14
    case 1 => 8
    case 2 => 0
    case 3 => 9
    case 4 => 4
    case 5 => 11
    case 6 => 2
    case 7 => 7
    case 8 => 12
    case 9 => 3
    case 10 => 10
    case 11 => 5
    case 12 => 13
    case 13 => 1
    case 14 => 6
    case _ => 15
  }

  function Row7(v: Nibble): Nibble {
    match v
    case 0 => 1
    case 1 => 4
    case 2 => 8
    case 3 => 10
    case 4 => 13
    case 5 => 11
    case 6 => 7
    case 7 => 14
    case 8 => 5
    case 9 => 15
    case 10 => 3
    case 11 => 9
    case 12 => 0
    case 13 => 2
    case 14 => 6
    case _ => 12
  }

  function Row8(v: Nibble): Nibble {
    match v
    case 0 => 5
    case 1 => 3
    case 2 => 12
    case 3 => 8
    case 4 => 11
    case 5 => 2
    case 6 => 14
    case 7 => 10
    case 8 => 4
    case 9 => 1
    case 10 => 13
    case 11 => 0
    case 12 => 6
    case 13 => 7
    case 14 => 15
    case _ => 9
  }

  function Row9(v: Nibble): Nibble {
    match v
    case 0 => 6
    case 1 => 0
    case 2 => 11
    case 3 => 14
    case 4 => 13
    case 5 => 4
    case 6 => 12
    case 7 => 15
    case 8 => 7
    case 9 => 2
    case 10 => 8
    case 11 => 10
    case 12 => 1
    case 13 => 5
    case 14 => 3
    case _ => 9
  }

  function Row10(v: Nibble): Nibble {
    match v
    case 0 => 11
    case 1 => 5
    case 2 => 10
    case 3 => 14
    case 4 => 15
    case 5 => 1
    case 6 => 12
    case 7 => 0
    case 8 => 6
    case 9 => 4
    case 10 => 2
    case 11 => 9
    case 12 => 3
    case 13 => 13
    case 14 => 7
    case _ => 8
  }

  function Row11(v: Nibble): Nibble {
    match v
    case 0 => 7
    case 1 => 2
    case 2 => 10
    case 3 => 0
    case 4 => 14
    case 5 => 8
    case 6 => 15
    case 7 => 4
    case 8 => 12
    case 9 => 11
    case 10 => 9
    case 11 => 1
    case 12 => 5
    case 13 => 13
    case 14 => 3
    case _ => 6
  }

  function Row12(v: Nibble): Nibble {
    match v
    case 0 => 7
    case 1 => 4
    case 2 => 15
    case 3 => 9
    case 4 => 5
    case 5 => 1
    case 6 => 12
    case 7 => 11
    case 8 => 0
    case 9 => 3
    case 10 => 8
    case 11 => 14
    case 12 => 2
    case 13 => 10
    case 14 => 6
    case _ => 13
  }

  function Row13(v: Nibble): Nibble {
    match v
    case 0 => 9
    case 1 => 4
    case 2 => 8
    case 3 => 0
    case 4 => 10
    case 5 => 3
    case 6 => 1
    case 7 => 12
    case 8 => 5
    case 9 => 15
    case 10 => 7
    case 11 => 2
    case 12 => 11
    case 13 => 14
    case 14 => 6
    case _ => 13
  }

  function Row14(v: Nibble): Nibble {
    match v
    case 0 => 9
    case 1 => 5
    case 2 => 4
    case 3 => 7
    case 4 => 14
    case 5 => 8
    case 6 => 3
    case 7 => 1
    case 8 => 13
    case 9 => 11
    case 10 => 12
    case 11 => 2
    case 12 => 0
    case 13 => 15
    case 14 => 6
    case _ => 10
  }

  function Row15(v: Nibble): Nibble {
    match v
    case 0 => 9
    case 1 => 10
    case 2 => 11
    case 3 => 13
    case 4 => 5
    case 5 => 3
    case 6 => 15
    case 7 => 0
    case 8 => 1
    case 9 => 12
    case 10 => 8
    case 11 => 7
    case 12 => 6
    case 13 => 4
    case 14 => 14
    case _ => 2
  }

  function Row16(v: Nibble): Nibble {
    match v
    case 0 => 3
    case 1 => 14
    case 2 => 15
    case 3 => 2
    case 4 => 13
    case 5 => 12
    case 6 => 4
    case 7 => 5
    case 8 => 9
    case 9 => 6
    case 10 => 0
    case 11 => 1
    case 12 => 11
    case 13 => 7
    case 14 => 10
    case _ => 8
  }

  lemma Row0Is(v: Nibble)
    ensures ROW0[v] == Row0(v)
  {
  }

  lemma Row1Is(v: Nibble)
    ensures ROW1[v] == Row1(v)
  {
  }

  lemma Row2Is(v: Nibble)
    ensures ROW2[v] == Row2(v)
  {
  }

  lemma Row3Is(v: Nibble)
    ensures ROW3[v] == Row3(v)
  {
  }

  lemma Row4Is(v: Nibble)
    ensures ROW4[v] == Row4(v)
  {
  }

  lemma Row5Is(v: Nibble)
    ensures ROW5[v] == Row5(v)
  {
  }

  lemma Row6Is(v: Nibble)
    ensures ROW6[v] == Row6(v)
  {
  }

  lemma Row7Is(v: Nibble)
    ensures ROW7[v] == Row7(v)
  {
  }

  lemma Row8Is(v: Nibble)
    ensures ROW8[v] == Row8(v)
  {
  }

  lemma Row9Is(v: Nibble)
    ensures ROW9[v] == Row9(v)
  {
  }

  lemma Row10Is(v: Nibble)
    ensures ROW10[v] == Row10(v)
  {
  }

  lemma Row11Is(v: Nibble)
    ensures ROW11[v] == Row11(v)
  {
  }

  lemma Row12Is(v: Nibble)
    ensures ROW12[v] == Row12(v)
  {
  }

  lemma Row13Is(v: Nibble)
    ensures ROW13[v] == Row13(v)
  {
  }

  lemma Row14Is(v: Nibble)
    ensures ROW14[v] == Row14(v)
  {
  }

  lemma Row15Is(v: Nibble)
    ensures ROW15[v] == Row15(v)
  {
  }

  lemma Row16Is(v: Nibble)
    ensures ROW16[v] == Row16(v)
  {
  }

  /** The table, entry by entry. */
  function Entry(r: nat, v: Nibble): Nibble
    requires r < 17
  {
    match r
    case 0 => Row0(v)
    case 1 => Row1(v)
    case 2 => Row2(v)
    case 3 => Row3(v)
    case 4 => Row4(v)
    case 5 => Row5(v)
    case 6 => Row6(v)
    case 7 => Row7(v)
    case 8 => Row8(v)
    case 9 => Row9(v)
    case 10 => Row10(v)
    case 11 => Row11(v)
    case 12 => Row12(v)
    case 13 => Row13(v)
    case 14 => Row14(v)
    case 15 => Row15(v)
    case _ => Row16(v)
  }

  lemma EntryIs(r: nat, v: Nibble)
    requires r < 17
    ensures Shuffle(r)[v] == Entry(r, v)
  {
    hide Row0, Row1, Row2, Row3, Row4, Row5, Row6, Row7, Row8, Row9, Row10, Row11, Row12, Row13, Row14, Row15, Row16;
    match r
    case 0 => Row0Is(v);
    case 1 => Row1Is(v);
    case 2 => Row2Is(v);
    case 3 => Row3Is(v);
    case 4 => Row4Is(v);
    case 5 => Row5Is(v);
    case 6 => Row6Is(v);
    case 7 => Row7Is(v);
    case 8 => Row8Is(v);
    case 9 => Row9Is(v);
    case 10 => Row10Is(v);
    case 11 => Row11Is(v);
    case 12 => Row12Is(v);
    case 13 => Row13Is(v);
    case 14 => Row14Is(v);
    case 15 => Row15Is(v);
    case _ => Row16Is(v);
  }

  // ----- the way of a nibble -----------------------------------------------

  /** Where the permutation layer puts the nibble from place p. */
  function NextPlace(p: Nibble): Nibble {
    Inverse(Shuffle(MOVES), p)
  }

  /** And where it is after n rounds. */
  function PlaceAfter(p: Nibble, n: nat): Nibble {
    if n == 0 then p else NextPlace(PlaceAfter(p, n - 1))
  }

  /** One round, nibble by nibble: the one at place p meets row p and goes on to the next place. */
  lemma Travels(s: State, p: Nibble)
    ensures EncryptRound(s).block[NextPlace(p)] == Shuffle(p)[XorNibble(s.block[p], s.key[p])]
  {
    hide Shuffle, XorNibble, Inverse;
    InverseIsInverse(Shuffle(MOVES), p);
  }

  /** The places one after the other, beginning at 0. */
  function Way(i: Nibble): Nibble {
    match i
    case 0 => 0
    case 1 => 10
    case 2 => 14
    case 3 => 1
    case 4 => 11
    case 5 => 12
    case 6 => 5
    case 7 => 7
    case 8 => 13
    case 9 => 4
    case 10 => 6
    case 11 => 9
    case 12 => 8
    case 13 => 15
    case 14 => 2
    case _ => 3
  }

  /** Where a place stands on the way. */
  function OnWay(p: Nibble): Nibble {
    match p
    case 0 => 0
    case 1 => 3
    case 2 => 14
    case 3 => 15
    case 4 => 9
    case 5 => 6
    case 6 => 10
    case 7 => 7
    case 8 => 12
    case 9 => 11
    case 10 => 1
    case 11 => 4
    case 12 => 5
    case 13 => 8
    case 14 => 2
    case _ => 13
  }

  lemma WayIsWay(i: Nibble)
    ensures OnWay(Way(i)) == i && Way(OnWay(i)) == i
    ensures Row16(Way(if i == 15 then 0 else i + 1)) == Way(i)
  {
  }

  lemma NextOnWay(i: Nibble)
    ensures NextPlace(Way(i)) == Way(if i == 15 then 0 else i + 1)
  {
    hide Way, OnWay, Row16;
    var j := Way(if i == 15 then 0 else i + 1);
    WayIsWay(i);
    Row16Is(j);
    InverseOf(ROW16, j);
  }

  lemma {:induction false} PlaceOnWay(p: Nibble, n: nat)
    ensures PlaceAfter(p, n) == Way((OnWay(p) + n) % 16)
  {
    hide NextPlace, OnWay, Way;
    WayIsWay(p);
    if n > 0 {
      PlaceOnWay(p, n - 1);
      NextOnWay((OnWay(p) + n - 1) % 16);
      AroundTheWay(OnWay(p) + n - 1);
    }
  }

  lemma AroundTheWay(i: nat)
    ensures (i + 1) % 16 == if i % 16 == 15 then 0 else i % 16 + 1
  {
  }

  /** The permutation is one cycle: in the sixteen rounds every nibble comes to all sixteen places, and
      so through every substitution row, exactly once, and is then back where it began. */
  lemma OneCycle(p: Nibble, q: Nibble)
    ensures PlaceAfter(p, 16) == p
    ensures exists n: nat :: n < 16 && PlaceAfter(p, n) == q
    ensures forall m: nat, n: nat :: m < n < 16 ==> PlaceAfter(p, m) != PlaceAfter(p, n)
  {
    hide PlaceAfter, OnWay, Way;
    WayIsWay(p);
    WayIsWay(q);
    PlaceOnWay(p, 16);
    Reaches(OnWay(p), OnWay(q));
    PlaceOnWay(p, (OnWay(q) - OnWay(p)) % 16);
    forall m: nat, n: nat | m < n < 16 ensures PlaceAfter(p, m) != PlaceAfter(p, n) {
      PlaceOnWay(p, m);
      PlaceOnWay(p, n);
      WayIsWay((OnWay(p) + m) % 16);
      WayIsWay((OnWay(p) + n) % 16);
      Apart(OnWay(p), m, n);
    }
  }

  lemma Reaches(i: Nibble, j: Nibble)
    ensures (i + (j - i) % 16) % 16 == j && (i + 16) % 16 == i
  {
  }

  lemma Apart(i: nat, m: nat, n: nat)
    requires m < n < 16
    ensures (i + m) % 16 != (i + n) % 16
  {
  }

  // ----- known answers -----------------------------------------------------

  /** Exclusive or of nibbles, digit by digit. */
  function Digits(a: Nibble, b: Nibble): Nibble {
    (if a % 2 != b % 2 then 1 else 0) + (if a / 2 % 2 != b / 2 % 2 then 2 else 0) +
    (if a / 4 % 2 != b / 4 % 2 then 4 else 0) + (if a / 8 != b / 8 then 8 else 0)
  }

  lemma XorIsDigits(a: Nibble, b: Nibble)
    ensures XorNibble(a, b) == Digits(a, b)
  {
    hide Xor;
    XorDigits(a, b);
    XorDigits(a / 2, b / 2);
    XorDigits(a / 4, b / 4);
    XorSmall(a / 8, b / 8);
    Halves(a);
    Halves(b);
  }

  lemma Halves(a: Nibble)
    ensures a / 2 / 2 == a / 4 && a / 4 / 2 == a / 8 && a / 8 < 2
  {
  }

  lemma XorSmall(a: nat, b: nat)
    requires a < 2 && b < 2
    ensures Xor(a, b) == if a != b then 1 else 0
  {
  }

  /** Sixteen nibbles by name. */
  datatype Nibbles16 = N(
    n0: Nibble,
    n1: Nibble,
    n2: Nibble,
    n3: Nibble,
    n4: Nibble,
    n5: Nibble,
    n6: Nibble,
    n7: Nibble,
    n8: Nibble,
    n9: Nibble,
    n10: Nibble,
    n11: Nibble,
    n12: Nibble,
    n13: Nibble,
    n14: Nibble,
    n15: Nibble)

  function Get(x: Nibbles16, i: Nibble): Nibble {
    match i
    case 0 => x.n0
    case 1 => x.n1
    case 2 => x.n2
    case 3 => x.n3
    case 4 => x.n4
    case 5 => x.n5
    case 6 => x.n6
    case 7 => x.n7
    case 8 => x.n8
    case 9 => x.n9
    case 10 => x.n10
    case 11 => x.n11
    case 12 => x.n12
    case 13 => x.n13
    case 14 => x.n14
    case _ => x.n15
  }

  function ToBlock(x: Nibbles16): Block {
    seq(16, i requires 0 <= i < 16 => Get(x, i))
  }

  /** A round with the rows of the permutation and the substitution written out. */
  function Round(k: Nibbles16, b: Nibbles16): Nibbles16 {
    N(Row3(Digits(b.n3, k.n3)),
      Row14(Digits(b.n14, k.n14)),
      Row15(Digits(b.n15, k.n15)),
      Row2(Digits(b.n2, k.n2)),
      Row13(Digits(b.n13, k.n13)),
      Row12(Digits(b.n12, k.n12)),
      Row4(Digits(b.n4, k.n4)),
      Row5(Digits(b.n5, k.n5)),
      Row9(Digits(b.n9, k.n9)),
      Row6(Digits(b.n6, k.n6)),
      Row0(Digits(b.n0, k.n0)),
      Row1(Digits(b.n1, k.n1)),
      Row11(Digits(b.n11, k.n11)),
      Row7(Digits(b.n7, k.n7)),
      Row10(Digits(b.n10, k.n10)),
      Row8(Digits(b.n8, k.n8)))
  }

  function Turn(k: Nibbles16): Nibbles16 {
    N(k.n15, k.n0, k.n1, k.n2, k.n3, k.n4, k.n5, k.n6, k.n7, k.n8, k.n9, k.n10, k.n11, k.n12, k.n13, k.n14)
  }

  lemma RoundAt(k: Nibbles16, b: Nibbles16, i: Nibble)
    ensures var p := Row16(i); Get(Round(k, b), i) == Entry(p, Digits(Get(b, p), Get(k, p)))
    ensures Get(Turn(k), i) == Get(k, if i == 0 then 15 else i - 1)
  {
    hide Digits, Row0, Row1, Row2, Row3, Row4, Row5, Row6, Row7, Row8, Row9, Row10, Row11, Row12, Row13, Row14, Row15;
  }

  lemma RoundIsRound(k: Nibbles16, b: Nibbles16)
    ensures EncryptRound(State(ToBlock(k), ToBlock(b))) == State(ToBlock(Turn(k)), ToBlock(Round(k, b)))
  {
    hide Digits, Round, Turn, Get, Entry, Row16, XorNibble, Shuffle;
    var x, y := ToBlock(k), ToBlock(b);
    forall i | 0 <= i < 16
      ensures Moved(Substituted(y, x))[i] == ToBlock(Round(k, b))[i] && RotatedUp(x)[i] == ToBlock(Turn(k))[i]
    {
      RoundAt(k, b, i);
      EntryIs(MOVES, i);
      assert Entry(MOVES, i) == Row16(i) by { LastEntry(i); }
      var p := Row16(i);
      EntryIs(p, Digits(y[p], x[p]));
      XorIsDigits(y[p], x[p]);
    }
  }

  lemma LastEntry(i: Nibble)
    ensures Entry(MOVES, i) == Row16(i)
  {
    hide Row16;
  }

  function Rounds(k: Nibbles16, b: Nibbles16, n: nat): Nibbles16
    decreases n
  {
    if n == 0 then b else Rounds(Turn(k), Round(k, b), n - 1)
  }

  lemma {:induction false} RoundsAre(k: Nibbles16, b: Nibbles16, n: nat)
    ensures EncryptRounds(State(ToBlock(k), ToBlock(b)), n).block == ToBlock(Rounds(k, b, n))
    decreases n
  {
    hide EncryptRound, ToBlock, Round, Turn;
    if n > 0 {
      RoundIsRound(k, b);
      RoundsAre(Turn(k), Round(k, b), n - 1);
      RoundsFirst(State(ToBlock(k), ToBlock(b)), n);
    }
  }

  lemma {:induction false} RoundsFirst(s: State, n: nat)
    requires n > 0
    ensures EncryptRounds(s, n) == EncryptRounds(EncryptRound(s), n - 1)
  {
    hide EncryptRound;
    if n > 1 {
      RoundsFirst(s, n - 1);
    }
  }

  lemma OneMore(k: Nibbles16, b: Nibbles16, k2: Nibbles16, b2: Nibbles16, n: nat)
    requires n > 0 && k2 == Turn(k) && b2 == Round(k, b)
    ensures Rounds(k, b, n) == Rounds(k2, b2, n - 1)
  {
  }

  lemma NoMore(k: Nibbles16, b: Nibbles16)
    ensures Rounds(k, b, 0) == b
  {
  }

  lemma ZerosTurn()
    ensures Turn(N(0, 0, 0, 0, 0, 0, 0, 0, 0, 0, 0, 0, 0, 0, 0, 0)) == N(0, 0, 0, 0, 0, 0, 0, 0, 0, 0, 0, 0, 0, 0, 0, 0)
  {
  }

  lemma Zeros1()
    ensures Round(N(0, 0, 0, 0, 0, 0, 0, 0, 0, 0, 0, 0, 0, 0, 0, 0),
                  N(0, 0, 0, 0, 0, 0, 0, 0, 0, 0, 0, 0, 0, 0, 0, 0))
      == N(15, 9, 9, 5, 9, 7, 5, 8, 6, 14, 15, 2, 7, 1, 11, 5)
  {
  }

  lemma Zeros2()
    ensures Round(N(0, 0, 0, 0, 0, 0, 0, 0, 0, 0, 0, 0, 0, 0, 0, 0),
                  N(15, 9, 9, 5, 9, 7, 5, 8, 6, 14, 15, 2, 7, 1, 11, 5))
      == N(8, 2, 3, 10, 4, 11, 6, 12, 3, 11, 10, 3, 10, 5, 8, 14)
  {
  }

  lemma Zeros3()
    ensures Round(N(0, 0, 0, 0, 0, 0, 0, 0, 0, 0, 0, 0, 0, 0, 0, 0),
                  N(8, 2, 3, 10, 4, 11, 6, 12, 3, 11, 10, 3, 10, 5, 8, 14))
      == N(12, 13, 14, 15, 3, 8, 13, 13, 10, 2, 0, 14, 0, 0, 2, 8)
  {
  }

  lemma Zeros4()
    ensures Round(N(0, 0, 0, 0, 0, 0, 0, 0, 0, 0, 0, 0, 0, 0, 0, 0),
                  N(12, 13, 14, 15, 3, 8, 13, 13, 10, 2, 0, 14, 0, 0, 2, 8))
      == N(14, 4, 1, 3, 9, 7, 11, 0, 11, 1, 3, 11, 3, 2, 11, 13)
  {
  }

  lemma Zeros5()
    ensures Round(N(0, 0, 0, 0, 0, 0, 0, 0, 0, 0, 0, 0, 0, 0, 0, 0),
                  N(14, 4, 1, 3, 9, 7, 11, 0, 11, 1, 3, 11, 3, 2, 11, 13))
      == N(6, 2, 4, 2, 8, 9, 6, 12, 0, 5, 11, 15, 1, 1, 14, 0)
  {
  }

  lemma Zeros6()
    ensures Round(N(0, 0, 0, 0, 0, 0, 0, 0, 0, 0, 0, 0, 0, 0, 0, 0),
                  N(6, 2, 4, 2, 8, 9, 6, 12, 0, 5, 11, 15, 1, 1, 14, 0))
      == N(2, 6, 9, 12, 4, 4, 8, 11, 4, 2, 14, 14, 6, 0, 9, 5)
  {
  }

  lemma Zeros7()
    ensures Round(N(0, 0, 0, 0, 0, 0, 0, 0, 0, 0, 0, 0, 0, 0, 0, 0),
                  N(2, 6, 9, 12, 4, 4, 8, 11, 4, 2, 14, 14, 6, 0, 9, 5))
      == N(1, 11, 3, 10, 9, 12, 13, 5, 11, 12, 5, 1, 3, 9, 7, 11)
  {
  }

  lemma Zeros8()
    ensures Round(N(0, 0, 0, 0, 0, 0, 0, 0, 0, 0, 0, 0, 0, 0, 0, 0),
                  N(1, 11, 3, 10, 9, 12, 13, 5, 11, 12, 5, 1, 3, 9, 7, 11))
      == N(12, 1, 7, 15, 15, 9, 6, 7, 1, 1, 8, 4, 2, 11, 1, 0)
  {
  }

  lemma Zeros9()
    ensures Round(N(0, 0, 0, 0, 0, 0, 0, 0, 0, 0, 0, 0, 0, 0, 0, 0),
                  N(12, 1, 7, 15, 15, 9, 6, 7, 1, 1, 8, 4, 2, 11, 1, 0))
      == N(14, 5, 9, 0, 2, 15, 9, 11, 0, 2, 3, 12, 14, 14, 6, 3)
  {
  }

  lemma Zeros10()
    ensures Round(N(0, 0, 0, 0, 0, 0, 0, 0, 0, 0, 0, 0, 0, 0, 0, 0),
                  N(14, 5, 9, 0, 2, 15, 9, 11, 0, 2, 3, 12, 14, 14, 6, 3))
      == N(15, 3, 13, 10, 6, 6, 2, 14, 11, 3, 11, 0, 5, 9, 14, 5)
  {
  }

  lemma Zeros11()
    ensures Round(N(0, 0, 0, 0, 0, 0, 0, 0, 0, 0, 0, 0, 0, 0, 0, 0),
                  N(15, 3, 13, 10, 6, 6, 2, 14, 11, 3, 11, 0, 5, 9, 14, 5))
      == N(12, 6, 3, 1, 15, 1, 7, 6, 14, 0, 10, 6, 7, 6, 9, 0)
  {
  }

  lemma Zeros12()
    ensures Round(N(0, 0, 0, 0, 0, 0, 0, 0, 0, 0, 0, 0, 0, 0, 0, 0),
                  N(12, 6, 3, 1, 15, 1, 7, 6, 14, 0, 10, 6, 7, 6, 9, 0))
      == N(13, 11, 9, 15, 1, 11, 9, 2, 6, 7, 3, 1, 15, 7, 2, 15)
  {
  }

  lemma Zeros13()
    ensures Round(N(0, 0, 0, 0, 0, 0, 0, 0, 0, 0, 0, 0, 0, 0, 0, 0),
                  N(13, 11, 9, 15, 1, 11, 9, 2, 6, 7, 3, 1, 15, 7, 2, 15))
      == N(14, 4, 2, 10, 12, 13, 14, 13, 15, 3, 4, 4, 2, 8, 14, 14)
  {
  }

  lemma Zeros14()
    ensures Round(N(0, 0, 0, 0, 0, 0, 0, 0, 0, 0, 0, 0, 0, 0, 0, 0),
                  N(14, 4, 2, 10, 12, 13, 14, 13, 15, 3, 4, 4, 2, 8, 14, 14))
      == N(12, 6, 14, 9, 5, 15, 15, 3, 14, 6, 11, 15, 14, 2, 15, 9)
  {
  }

  lemma Zeros15()
    ensures Round(N(0, 0, 0, 0, 0, 0, 0, 0, 0, 0, 0, 0, 0, 0, 0, 0),
                  N(12, 6, 14, 9, 5, 15, 15, 3, 14, 6, 11, 15, 14, 2, 15, 9))
      == N(4, 10, 12, 3, 8, 6, 10, 14, 12, 15, 3, 1, 6, 10, 9, 15)
  {
  }

  lemma Zeros16()
    ensures Round(N(0, 0, 0, 0, 0, 0, 0, 0, 0, 0, 0, 0, 0, 0, 0, 0),
                  N(4, 10, 12, 3, 8, 6, 10, 14, 12, 15, 3, 1, 6, 10, 9, 15))
      == N(6, 11, 2, 11, 7, 12, 8, 6, 9, 10, 12, 10, 2, 6, 14, 6)
  {
  }

  lemma ZerosFour1()
    ensures Rounds(N(0, 0, 0, 0, 0, 0, 0, 0, 0, 0, 0, 0, 0, 0, 0, 0),
                   N(0, 0, 0, 0, 0, 0, 0, 0, 0, 0, 0, 0, 0, 0, 0, 0), 16)
      == Rounds(N(0, 0, 0, 0, 0, 0, 0, 0, 0, 0, 0, 0, 0, 0, 0, 0),
                N(14, 4, 1, 3, 9, 7, 11, 0, 11, 1, 3, 11, 3, 2, 11, 13), 12)
  {
    hide Rounds, Round, Turn;
    ZerosTurn();
    Zeros1();
    OneMore(N(0, 0, 0, 0, 0, 0, 0, 0, 0, 0, 0, 0, 0, 0, 0, 0),
            N(0, 0, 0, 0, 0, 0, 0, 0, 0, 0, 0, 0, 0, 0, 0, 0),
            N(0, 0, 0, 0, 0, 0, 0, 0, 0, 0, 0, 0, 0, 0, 0, 0),
            N(15, 9, 9, 5, 9, 7, 5, 8, 6, 14, 15, 2, 7, 1, 11, 5), 16);
    Zeros2();
    OneMore(N(0, 0, 0, 0, 0, 0, 0, 0, 0, 0, 0, 0, 0, 0, 0, 0),
            N(15, 9, 9, 5, 9, 7, 5, 8, 6, 14, 15, 2, 7, 1, 11, 5),
            N(0, 0, 0, 0, 0, 0, 0, 0, 0, 0, 0, 0, 0, 0, 0, 0),
            N(8, 2, 3, 10, 4, 11, 6, 12, 3, 11, 10, 3, 10, 5, 8, 14), 15);
    Zeros3();
    OneMore(N(0, 0, 0, 0, 0, 0, 0, 0, 0, 0, 0, 0, 0, 0, 0, 0),
            N(8, 2, 3, 10, 4, 11, 6, 12, 3, 11, 10, 3, 10, 5, 8, 14),
            N(0, 0, 0, 0, 0, 0, 0, 0, 0, 0, 0, 0, 0, 0, 0, 0),
            N(12, 13, 14, 15, 3, 8, 13, 13, 10, 2, 0, 14, 0, 0, 2, 8), 14);
    Zeros4();
    OneMore(N(0, 0, 0, 0, 0, 0, 0, 0, 0, 0, 0, 0, 0, 0, 0, 0),
            N(12, 13, 14, 15, 3, 8, 13, 13, 10, 2, 0, 14, 0, 0, 2, 8),
            N(0, 0, 0, 0, 0, 0, 0, 0, 0, 0, 0, 0, 0, 0, 0, 0),
            N(14, 4, 1, 3, 9, 7, 11, 0, 11, 1, 3, 11, 3, 2, 11, 13), 13);
  }

  lemma ZerosFour2()
    ensures Rounds(N(0, 0, 0, 0, 0, 0, 0, 0, 0, 0, 0, 0, 0, 0, 0, 0),
                   N(14, 4, 1, 3, 9, 7, 11, 0, 11, 1, 3, 11, 3, 2, 11, 13), 12)
      == Rounds(N(0, 0, 0, 0, 0, 0, 0, 0, 0, 0, 0, 0, 0, 0, 0, 0),
                N(12, 1, 7, 15, 15, 9, 6, 7, 1, 1, 8, 4, 2, 11, 1, 0), 8)
  {
    hide Rounds, Round, Turn;
    ZerosTurn();
    Zeros5();
    OneMore(N(0, 0, 0, 0, 0, 0, 0, 0, 0, 0, 0, 0, 0, 0, 0, 0),
            N(14, 4, 1, 3, 9, 7, 11, 0, 11, 1, 3, 11, 3, 2, 11, 13),
            N(0, 0, 0, 0, 0, 0, 0, 0, 0, 0, 0, 0, 0, 0, 0, 0),
            N(6, 2, 4, 2, 8, 9, 6, 12, 0, 5, 11, 15, 1, 1, 14, 0), 12);
    Zeros6();
    OneMore(N(0, 0, 0, 0, 0, 0, 0, 0, 0, 0, 0, 0, 0, 0, 0, 0),
            N(6, 2, 4, 2, 8, 9, 6, 12, 0, 5, 11, 15, 1, 1, 14, 0),
            N(0, 0, 0, 0, 0, 0, 0, 0, 0, 0, 0, 0, 0, 0, 0, 0),
            N(2, 6, 9, 12, 4, 4, 8, 11, 4, 2, 14, 14, 6, 0, 9, 5), 11);
    Zeros7();
    OneMore(N(0, 0, 0, 0, 0, 0, 0, 0, 0, 0, 0, 0, 0, 0, 0, 0),
            N(2, 6, 9, 12, 4, 4, 8, 11, 4, 2, 14, 14, 6, 0, 9, 5),
            N(0, 0, 0, 0, 0, 0, 0, 0, 0, 0, 0, 0, 0, 0, 0, 0),
            N(1, 11, 3, 10, 9, 12, 13, 5, 11, 12, 5, 1, 3, 9, 7, 11), 10);
    Zeros8();
    OneMore(N(0, 0, 0, 0, 0, 0, 0, 0, 0, 0, 0, 0, 0, 0, 0, 0),
            N(1, 11, 3, 10, 9, 12, 13, 5, 11, 12, 5, 1, 3, 9, 7, 11),
            N(0, 0, 0, 0, 0, 0, 0, 0, 0, 0, 0, 0, 0, 0, 0, 0),
            N(12, 1, 7, 15, 15, 9, 6, 7, 1, 1, 8, 4, 2, 11, 1, 0), 9);
  }

  lemma ZerosFour3()
    ensures Rounds(N(0, 0, 0, 0, 0, 0, 0, 0, 0, 0, 0, 0, 0, 0, 0, 0),
                   N(12, 1, 7, 15, 15, 9, 6, 7, 1, 1, 8, 4, 2, 11, 1, 0), 8)
      == Rounds(N(0, 0, 0, 0, 0, 0, 0, 0, 0, 0, 0, 0, 0, 0, 0, 0),
                N(13, 11, 9, 15, 1, 11, 9, 2, 6, 7, 3, 1, 15, 7, 2, 15), 4)
  {
    hide Rounds, Round, Turn;
    ZerosTurn();
    Zeros9();
    OneMore(N(0, 0, 0, 0, 0, 0, 0, 0, 0, 0, 0, 0, 0, 0, 0, 0),
            N(12, 1, 7, 15, 15, 9, 6, 7, 1, 1, 8, 4, 2, 11, 1, 0),
            N(0, 0, 0, 0, 0, 0, 0, 0, 0, 0, 0, 0, 0, 0, 0, 0),
            N(14, 5, 9, 0, 2, 15, 9, 11, 0, 2, 3, 12, 14, 14, 6, 3), 8);
    Zeros10();
    OneMore(N(0, 0, 0, 0, 0, 0, 0, 0, 0, 0, 0, 0, 0, 0, 0, 0),
            N(14, 5, 9, 0, 2, 15, 9, 11, 0, 2, 3, 12, 14, 14, 6, 3),
            N(0, 0, 0, 0, 0, 0, 0, 0, 0, 0, 0, 0, 0, 0, 0, 0),
            N(15, 3, 13, 10, 6, 6, 2, 14, 11, 3, 11, 0, 5, 9, 14, 5), 7);
    Zeros11();
    OneMore(N(0, 0, 0, 0, 0, 0, 0, 0, 0, 0, 0, 0, 0, 0, 0, 0),
            N(15, 3, 13, 10, 6, 6, 2, 14, 11, 3, 11, 0, 5, 9, 14, 5),
            N(0, 0, 0, 0, 0, 0, 0, 0, 0, 0, 0, 0, 0, 0, 0, 0),
            N(12, 6, 3, 1, 15, 1, 7, 6, 14, 0, 10, 6, 7, 6, 9, 0), 6);
    Zeros12();
    OneMore(N(0, 0, 0, 0, 0, 0, 0, 0, 0, 0, 0, 0, 0, 0, 0, 0),
            N(12, 6, 3, 1, 15, 1, 7, 6, 14, 0, 10, 6, 7, 6, 9, 0),
            N(0, 0, 0, 0, 0, 0, 0, 0, 0, 0, 0, 0, 0, 0, 0, 0),
            N(13, 11, 9, 15, 1, 11, 9, 2, 6, 7, 3, 1, 15, 7, 2, 15), 5);
  }

  lemma ZerosFour4()
    ensures Rounds(N(0, 0, 0, 0, 0, 0, 0, 0, 0, 0, 0, 0, 0, 0, 0, 0),
                   N(13, 11, 9, 15, 1, 11, 9, 2, 6, 7, 3, 1, 15, 7, 2, 15), 4)
      == Rounds(N(0, 0, 0, 0, 0, 0, 0, 0, 0, 0, 0, 0, 0, 0, 0, 0),
                N(6, 11, 2, 11, 7, 12, 8, 6, 9, 10, 12, 10, 2, 6, 14, 6), 0)
  {
    hide Rounds, Round, Turn;
    ZerosTurn();
    Zeros13();
    OneMore(N(0, 0, 0, 0, 0, 0, 0, 0, 0, 0, 0, 0, 0, 0, 0, 0),
            N(13, 11, 9, 15, 1, 11, 9, 2, 6, 7, 3, 1, 15, 7, 2, 15),
            N(0, 0, 0, 0, 0, 0, 0, 0, 0, 0, 0, 0, 0, 0, 0, 0),
            N(14, 4, 2, 10, 12, 13, 14, 13, 15, 3, 4, 4, 2, 8, 14, 14), 4);
    Zeros14();
    OneMore(N(0, 0, 0, 0, 0, 0, 0, 0, 0, 0, 0, 0, 0, 0, 0, 0),
            N(14, 4, 2, 10, 12, 13, 14, 13, 15, 3, 4, 4, 2, 8, 14, 14),
            N(0, 0, 0, 0, 0, 0, 0, 0, 0, 0, 0, 0, 0, 0, 0, 0),
            N(12, 6, 14, 9, 5, 15, 15, 3, 14, 6, 11, 15, 14, 2, 15, 9), 3);
    Zeros15();
    OneMore(N(0, 0, 0, 0, 0, 0, 0, 0, 0, 0, 0, 0, 0, 0, 0, 0),
            N(12, 6, 14, 9, 5, 15, 15, 3, 14, 6, 11, 15, 14, 2, 15, 9),
            N(0, 0, 0, 0, 0, 0, 0, 0, 0, 0, 0, 0, 0, 0, 0, 0),
            N(4, 10, 12, 3, 8, 6, 10, 14, 12, 15, 3, 1, 6, 10, 9, 15), 2);
    Zeros16();
    OneMore(N(0, 0, 0, 0, 0, 0, 0, 0, 0, 0, 0, 0, 0, 0, 0, 0),
            N(4, 10, 12, 3, 8, 6, 10, 14, 12, 15, 3, 1, 6, 10, 9, 15),
            N(0, 0, 0, 0, 0, 0, 0, 0, 0, 0, 0, 0, 0, 0, 0, 0),
            N(6, 11, 2, 11, 7, 12, 8, 6, 9, 10, 12, 10, 2, 6, 14, 6), 1);
  }

  lemma ZerosPacked()
    ensures NwCrypt.Nibbles([0, 0, 0, 0, 0, 0, 0, 0]) == ToBlock(N(0, 0, 0, 0, 0, 0, 0, 0, 0, 0, 0, 0, 0, 0, 0, 0))
    ensures Packed(ToBlock(N(6, 11, 2, 11, 7, 12, 8, 6, 9, 10, 12, 10, 2, 6, 14, 6)))
         == [182, 178, 199, 104, 169, 172, 98, 110]
  {
  }

  /** The key of eight zeros and the block of eight zeros: b6 b2 c7 68 a9 ac 62 6e. */
  lemma Zeros()
    ensures Encrypted([0, 0, 0, 0, 0, 0, 0, 0], [0, 0, 0, 0, 0, 0, 0, 0])
      == [182, 178, 199, 104, 169, 172, 98, 110]
  {
    hide EncryptRounds, Rounds, NwCrypt.Nibbles, Packed, ToBlock;
    var k, b := N(0, 0, 0, 0, 0, 0, 0, 0, 0, 0, 0, 0, 0, 0, 0, 0), N(0, 0, 0, 0, 0, 0, 0, 0, 0, 0, 0, 0, 0, 0, 0, 0);
    ZerosPacked();
    RoundsAre(k, b, 16);
    ZerosFour1();
    ZerosFour2();
    ZerosFour3();
    ZerosFour4();
    NoMore(N(0, 0, 0, 0, 0, 0, 0, 0, 0, 0, 0, 0, 0, 0, 0, 0),
           N(6, 11, 2, 11, 7, 12, 8, 6, 9, 10, 12, 10, 2, 6, 14, 6));
  }

  lemma Counting1()
    ensures Turn(N(1, 0, 2, 0, 3, 0, 4, 0, 5, 0, 6, 0, 7, 0, 8, 0))
      == N(0, 1, 0, 2, 0, 3, 0, 4, 0, 5, 0, 6, 0, 7, 0, 8)
    ensures Round(N(1, 0, 2, 0, 3, 0, 4, 0, 5, 0, 6, 0, 7, 0, 8, 0),
                  N(0, 0, 0, 0, 0, 0, 0, 0, 0, 0, 0, 0, 0, 0, 0, 0))
      == N(15, 13, 9, 9, 9, 11, 11, 8, 6, 4, 8, 2, 7, 1, 12, 2)
  {
  }

  lemma Counting2()
    ensures Turn(N(0, 1, 0, 2, 0, 3, 0, 4, 0, 5, 0, 6, 0, 7, 0, 8))
      == N(8, 0, 1, 0, 2, 0, 3, 0, 4, 0, 5, 0, 6, 0, 7, 0)
    ensures Round(N(0, 1, 0, 2, 0, 3, 0, 4, 0, 5, 0, 6, 0, 7, 0, 8),
                  N(15, 13, 9, 9, 9, 11, 11, 8, 6, 4, 8, 2, 7, 1, 12, 2))
      == N(3, 0, 8, 10, 1, 11, 6, 0, 0, 5, 10, 9, 14, 0, 6, 14)
  {
  }

  lemma Counting3()
    ensures Turn(N(8, 0, 1, 0, 2, 0, 3, 0, 4, 0, 5, 0, 6, 0, 7, 0))
      == N(0, 8, 0, 1, 0, 2, 0, 3, 0, 4, 0, 5, 0, 6, 0, 7)
    ensures Round(N(8, 0, 1, 0, 2, 0, 3, 0, 4, 0, 5, 0, 6, 0, 7, 0),
                  N(3, 0, 8, 10, 1, 11, 6, 0, 0, 5, 10, 9, 14, 0, 6, 14))
      == N(12, 5, 14, 10, 9, 0, 11, 13, 4, 11, 13, 2, 11, 1, 8, 11)
  {
  }

  lemma Counting4()
    ensures Turn(N(0, 8, 0, 1, 0, 2, 0, 3, 0, 4, 0, 5, 0, 6, 0, 7))
      == N(7, 0, 8, 0, 1, 0, 2, 0, 3, 0, 4, 0, 5, 0, 6, 0)
    ensures Round(N(0, 8, 0, 1, 0, 2, 0, 3, 0, 4, 0, 5, 0, 6, 0, 7),
                  N(12, 5, 14, 10, 9, 0, 11, 13, 4, 11, 13, 2, 11, 1, 8, 11))
      == N(3, 13, 6, 3, 12, 14, 6, 15, 9, 5, 3, 11, 4, 6, 13, 11)
  {
  }

  lemma Counting5()
    ensures Turn(N(7, 0, 8, 0, 1, 0, 2, 0, 3, 0, 4, 0, 5, 0, 6, 0))
      == N(0, 7, 0, 8, 0, 1, 0, 2, 0, 3, 0, 4, 0, 5, 0, 6)
    ensures Round(N(7, 0, 8, 0, 1, 0, 2, 0, 3, 0, 4, 0, 5, 0, 6, 0),
                  N(3, 13, 6, 3, 12, 14, 6, 15, 9, 5, 3, 11, 4, 6, 13, 11))
      == N(6, 2, 7, 3, 1, 4, 12, 4, 4, 4, 12, 11, 1, 12, 0, 13)
  {
  }

  lemma Counting6()
    ensures Turn(N(0, 7, 0, 8, 0, 1, 0, 2, 0, 3, 0, 4, 0, 5, 0, 6))
      == N(6, 0, 7, 0, 8, 0, 1, 0, 2, 0, 3, 0, 4, 0, 5, 0)
    ensures Round(N(0, 7, 0, 8, 0, 1, 0, 2, 0, 3, 0, 4, 0, 5, 0, 6),
                  N(6, 2, 7, 3, 1, 4, 12, 4, 4, 4, 12, 11, 1, 12, 0, 13))
      == N(3, 9, 7, 0, 15, 4, 14, 9, 15, 13, 14, 0, 6, 7, 3, 11)
  {
  }

  lemma Counting7()
    ensures Turn(N(6, 0, 7, 0, 8, 0, 1, 0, 2, 0, 3, 0, 4, 0, 5, 0))
      == N(0, 6, 0, 7, 0, 8, 0, 1, 0, 2, 0, 3, 0, 4, 0, 5)
    ensures Round(N(6, 0, 7, 0, 8, 0, 1, 0, 2, 0, 3, 0, 4, 0, 5, 0),
                  N(3, 9, 7, 0, 15, 4, 14, 9, 15, 13, 14, 0, 6, 7, 3, 11))
      == N(15, 3, 7, 5, 12, 15, 0, 5, 5, 15, 2, 3, 7, 15, 13, 7)
  {
  }

  lemma Counting8()
    ensures Turn(N(0, 6, 0, 7, 0, 8, 0, 1, 0, 2, 0, 3, 0, 4, 0, 5))
      == N(5, 0, 6, 0, 7, 0, 8, 0, 1, 0, 2, 0, 3, 0, 4, 0)
    ensures Round(N(0, 6, 0, 7, 0, 8, 0, 1, 0, 2, 0, 3, 0, 4, 0, 5),
                  N(15, 3, 7, 5, 12, 15, 0, 5, 5, 15, 2, 3, 7, 15, 13, 7))
      == N(2, 15, 11, 0, 2, 11, 15, 12, 5, 14, 10, 0, 7, 13, 10, 2)
  {
  }

  lemma Counting9()
    ensures Turn(N(5, 0, 6, 0, 7, 0, 8, 0, 1, 0, 2, 0, 3, 0, 4, 0))
      == N(0, 5, 0, 6, 0, 7, 0, 8, 0, 1, 0, 2, 0, 3, 0, 4)
    ensures Round(N(5, 0, 6, 0, 7, 0, 8, 0, 1, 0, 2, 0, 3, 0, 4, 0),
                  N(2, 15, 11, 0, 2, 11, 15, 12, 5, 14, 10, 0, 7, 13, 10, 2))
      == N(15, 6, 11, 1, 14, 5, 10, 13, 3, 7, 9, 7, 7, 0, 6, 11)
  {
  }

  lemma Counting10()
    ensures Turn(N(0, 5, 0, 6, 0, 7, 0, 8, 0, 1, 0, 2, 0, 3, 0, 4))
      == N(4, 0, 5, 0, 6, 0, 7, 0, 8, 0, 1, 0, 2, 0, 3, 0)
    ensures Round(N(0, 5, 0, 6, 0, 7, 0, 8, 0, 1, 0, 2, 0, 3, 0, 4),
                  N(15, 6, 11, 1, 14, 5, 10, 13, 3, 7, 9, 7, 7, 0, 6, 11))
      == N(9, 3, 2, 8, 0, 11, 3, 15, 12, 10, 10, 6, 8, 11, 4, 8)
  {
  }

  lemma Counting11()
    ensures Turn(N(4, 0, 5, 0, 6, 0, 7, 0, 8, 0, 1, 0, 2, 0, 3, 0))
      == N(0, 4, 0, 5, 0, 6, 0, 7, 0, 8, 0, 1, 0, 2, 0, 3)
    ensures Round(N(4, 0, 5, 0, 6, 0, 7, 0, 8, 0, 1, 0, 2, 0, 3, 0),
                  N(9, 3, 2, 8, 0, 11, 3, 15, 12, 10, 10, 6, 8, 11, 4, 8))
      == N(0, 1, 1, 0, 2, 8, 7, 13, 8, 4, 4, 6, 15, 12, 9, 11)
  {
  }

  lemma Counting12()
    ensures Turn(N(0, 4, 0, 5, 0, 6, 0, 7, 0, 8, 0, 1, 0, 2, 0, 3))
      == N(3, 0, 4, 0, 5, 0, 6, 0, 7, 0, 8, 0, 1, 0, 2, 0)
    ensures Round(N(0, 4, 0, 5, 0, 6, 0, 7, 0, 8, 0, 1, 0, 2, 0, 3),
                  N(0, 1, 1, 0, 2, 8, 7, 13, 8, 4, 4, 6, 15, 12, 9, 11))
      == N(8, 11, 1, 2, 6, 13, 2, 4, 1, 7, 15, 0, 4, 3, 15, 4)
  {
  }

  lemma Counting13()
    ensures Turn(N(3, 0, 4, 0, 5, 0, 6, 0, 7, 0, 8, 0, 1, 0, 2, 0))
      == N(0, 3, 0, 4, 0, 5, 0, 6, 0, 7, 0, 8, 0, 1, 0, 2)
    ensures Round(N(3, 0, 4, 0, 5, 0, 6, 0, 7, 0, 8, 0, 1, 0, 2, 0),
                  N(8, 11, 1, 2, 6, 13, 2, 4, 1, 7, 15, 0, 4, 3, 15, 4))
      == N(2, 15, 5, 4, 0, 1, 11, 3, 15, 4, 13, 4, 7, 13, 0, 14)
  {
  }

  lemma Counting14()
    ensures Turn(N(0, 3, 0, 4, 0, 5, 0, 6, 0, 7, 0, 8, 0, 1, 0, 2))
      == N(2, 0, 3, 0, 4, 0, 5, 0, 6, 0, 7, 0, 8, 0, 1, 0)
    ensures Round(N(0, 3, 0, 4, 0, 5, 0, 6, 0, 7, 0, 8, 0, 1, 0, 2),
                  N(2, 15, 5, 4, 0, 1, 11, 3, 15, 4, 13, 4, 7, 13, 0, 14))
      == N(15, 9, 6, 4, 11, 11, 5, 5, 14, 5, 5, 9, 5, 11, 13, 9)
  {
  }

  lemma Counting15()
    ensures Turn(N(2, 0, 3, 0, 4, 0, 5, 0, 6, 0, 7, 0, 8, 0, 1, 0))
      == N(0, 2, 0, 3, 0, 4, 0, 5, 0, 6, 0, 7, 0, 8, 0, 1)
    ensures Round(N(2, 0, 3, 0, 4, 0, 5, 0, 6, 0, 7, 0, 8, 0, 1, 0),
                  N(15, 9, 6, 4, 11, 11, 5, 5, 14, 5, 5, 9, 5, 11, 13, 9))
      == N(7, 0, 12, 4, 2, 10, 9, 13, 4, 14, 4, 3, 11, 11, 10, 4)
  {
  }

  lemma Counting16()
    ensures Turn(N(0, 2, 0, 3, 0, 4, 0, 5, 0, 6, 0, 7, 0, 8, 0, 1))
      == N(1, 0, 2, 0, 3, 0, 4, 0, 5, 0, 6, 0, 7, 0, 8, 0)
    ensures Round(N(0, 2, 0, 3, 0, 4, 0, 5, 0, 6, 0, 7, 0, 8, 0, 1),
                  N(7, 0, 12, 4, 2, 10, 9, 13, 4, 14, 4, 3, 11, 11, 10, 4))
      == N(9, 12, 3, 11, 0, 14, 2, 4, 7, 3, 9, 14, 14, 5, 15, 11)
  {
  }

  lemma CountingFour1()
    ensures Rounds(N(1, 0, 2, 0, 3, 0, 4, 0, 5, 0, 6, 0, 7, 0, 8, 0),
                   N(0, 0, 0, 0, 0, 0, 0, 0, 0, 0, 0, 0, 0, 0, 0, 0), 16)
      == Rounds(N(7, 0, 8, 0, 1, 0, 2, 0, 3, 0, 4, 0, 5, 0, 6, 0),
                N(3, 13, 6, 3, 12, 14, 6, 15, 9, 5, 3, 11, 4, 6, 13, 11), 12)
  {
    hide Rounds, Round, Turn;
    Counting1();
    OneMore(N(1, 0, 2, 0, 3, 0, 4, 0, 5, 0, 6, 0, 7, 0, 8, 0),
            N(0, 0, 0, 0, 0, 0, 0, 0, 0, 0, 0, 0, 0, 0, 0, 0),
            N(0, 1, 0, 2, 0, 3, 0, 4, 0, 5, 0, 6, 0, 7, 0, 8),
            N(15, 13, 9, 9, 9, 11, 11, 8, 6, 4, 8, 2, 7, 1, 12, 2), 16);
    Counting2();
    OneMore(N(0, 1, 0, 2, 0, 3, 0, 4, 0, 5, 0, 6, 0, 7, 0, 8),
            N(15, 13, 9, 9, 9, 11, 11, 8, 6, 4, 8, 2, 7, 1, 12, 2),
            N(8, 0, 1, 0, 2, 0, 3, 0, 4, 0, 5, 0, 6, 0, 7, 0),
            N(3, 0, 8, 10, 1, 11, 6, 0, 0, 5, 10, 9, 14, 0, 6, 14), 15);
    Counting3();
    OneMore(N(8, 0, 1, 0, 2, 0, 3, 0, 4, 0, 5, 0, 6, 0, 7, 0),
            N(3, 0, 8, 10, 1, 11, 6, 0, 0, 5, 10, 9, 14, 0, 6, 14),
            N(0, 8, 0, 1, 0, 2, 0, 3, 0, 4, 0, 5, 0, 6, 0, 7),
            N(12, 5, 14, 10, 9, 0, 11, 13, 4, 11, 13, 2, 11, 1, 8, 11), 14);
    Counting4();
    OneMore(N(0, 8, 0, 1, 0, 2, 0, 3, 0, 4, 0, 5, 0, 6, 0, 7),
            N(12, 5, 14, 10, 9, 0, 11, 13, 4, 11, 13, 2, 11, 1, 8, 11),
            N(7, 0, 8, 0, 1, 0, 2, 0, 3, 0, 4, 0, 5, 0, 6, 0),
            N(3, 13, 6, 3, 12, 14, 6, 15, 9, 5, 3, 11, 4, 6, 13, 11), 13);
  }

  lemma CountingFour2()
    ensures Rounds(N(7, 0, 8, 0, 1, 0, 2, 0, 3, 0, 4, 0, 5, 0, 6, 0),
                   N(3, 13, 6, 3, 12, 14, 6, 15, 9, 5, 3, 11, 4, 6, 13, 11), 12)
      == Rounds(N(5, 0, 6, 0, 7, 0, 8, 0, 1, 0, 2, 0, 3, 0, 4, 0),
                N(2, 15, 11, 0, 2, 11, 15, 12, 5, 14, 10, 0, 7, 13, 10, 2), 8)
  {
    hide Rounds, Round, Turn;
    Counting5();
    OneMore(N(7, 0, 8, 0, 1, 0, 2, 0, 3, 0, 4, 0, 5, 0, 6, 0),
            N(3, 13, 6, 3, 12, 14, 6, 15, 9, 5, 3, 11, 4, 6, 13, 11),
            N(0, 7, 0, 8, 0, 1, 0, 2, 0, 3, 0, 4, 0, 5, 0, 6),
            N(6, 2, 7, 3, 1, 4, 12, 4, 4, 4, 12, 11, 1, 12, 0, 13), 12);
    Counting6();
    OneMore(N(0, 7, 0, 8, 0, 1, 0, 2, 0, 3, 0, 4, 0, 5, 0, 6),
            N(6, 2, 7, 3, 1, 4, 12, 4, 4, 4, 12, 11, 1, 12, 0, 13),
            N(6, 0, 7, 0, 8, 0, 1, 0, 2, 0, 3, 0, 4, 0, 5, 0),
            N(3, 9, 7, 0, 15, 4, 14, 9, 15, 13, 14, 0, 6, 7, 3, 11), 11);
    Counting7();
    OneMore(N(6, 0, 7, 0, 8, 0, 1, 0, 2, 0, 3, 0, 4, 0, 5, 0),
            N(3, 9, 7, 0, 15, 4, 14, 9, 15, 13, 14, 0, 6, 7, 3, 11),
            N(0, 6, 0, 7, 0, 8, 0, 1, 0, 2, 0, 3, 0, 4, 0, 5),
            N(15, 3, 7, 5, 12, 15, 0, 5, 5, 15, 2, 3, 7, 15, 13, 7), 10);
    Counting8();
    OneMore(N(0, 6, 0, 7, 0, 8, 0, 1, 0, 2, 0, 3, 0, 4, 0, 5),
            N(15, 3, 7, 5, 12, 15, 0, 5, 5, 15, 2, 3, 7, 15, 13, 7),
            N(5, 0, 6, 0, 7, 0, 8, 0, 1, 0, 2, 0, 3, 0, 4, 0),
            N(2, 15, 11, 0, 2, 11, 15, 12, 5, 14, 10, 0, 7, 13, 10, 2), 9);
  }

  lemma CountingFour3()
    ensures Rounds(N(5, 0, 6, 0, 7, 0, 8, 0, 1, 0, 2, 0, 3, 0, 4, 0),
                   N(2, 15, 11, 0, 2, 11, 15, 12, 5, 14, 10, 0, 7, 13, 10, 2), 8)
      == Rounds(N(3, 0, 4, 0, 5, 0, 6, 0, 7, 0, 8, 0, 1, 0, 2, 0),
                N(8, 11, 1, 2, 6, 13, 2, 4, 1, 7, 15, 0, 4, 3, 15, 4), 4)
  {
    hide Rounds, Round, Turn;
    Counting9();
    OneMore(N(5, 0, 6, 0, 7, 0, 8, 0, 1, 0, 2, 0, 3, 0, 4, 0),
            N(2, 15, 11, 0, 2, 11, 15, 12, 5, 14, 10, 0, 7, 13, 10, 2),
            N(0, 5, 0, 6, 0, 7, 0, 8, 0, 1, 0, 2, 0, 3, 0, 4),
            N(15, 6, 11, 1, 14, 5, 10, 13, 3, 7, 9, 7, 7, 0, 6, 11), 8);
    Counting10();
    OneMore(N(0, 5, 0, 6, 0, 7, 0, 8, 0, 1, 0, 2, 0, 3, 0, 4),
            N(15, 6, 11, 1, 14, 5, 10, 13, 3, 7, 9, 7, 7, 0, 6, 11),
            N(4, 0, 5, 0, 6, 0, 7, 0, 8, 0, 1, 0, 2, 0, 3, 0),
            N(9, 3, 2, 8, 0, 11, 3, 15, 12, 10, 10, 6, 8, 11, 4, 8), 7);
    Counting11();
    OneMore(N(4, 0, 5, 0, 6, 0, 7, 0, 8, 0, 1, 0, 2, 0, 3, 0),
            N(9, 3, 2, 8, 0, 11, 3, 15, 12, 10, 10, 6, 8, 11, 4, 8),
            N(0, 4, 0, 5, 0, 6, 0, 7, 0, 8, 0, 1, 0, 2, 0, 3),
            N(0, 1, 1, 0, 2, 8, 7, 13, 8, 4, 4, 6, 15, 12, 9, 11), 6);
    Counting12();
    OneMore(N(0, 4, 0, 5, 0, 6, 0, 7, 0, 8, 0, 1, 0, 2, 0, 3),
            N(0, 1, 1, 0, 2, 8, 7, 13, 8, 4, 4, 6, 15, 12, 9, 11),
            N(3, 0, 4, 0, 5, 0, 6, 0, 7, 0, 8, 0, 1, 0, 2, 0),
            N(8, 11, 1, 2, 6, 13, 2, 4, 1, 7, 15, 0, 4, 3, 15, 4), 5);
  }

  lemma CountingFour4()
    ensures Rounds(N(3, 0, 4, 0, 5, 0, 6, 0, 7, 0, 8, 0, 1, 0, 2, 0),
                   N(8, 11, 1, 2, 6, 13, 2, 4, 1, 7, 15, 0, 4, 3, 15, 4), 4)
      == Rounds(N(1, 0, 2, 0, 3, 0, 4, 0, 5, 0, 6, 0, 7, 0, 8, 0),
                N(9, 12, 3, 11, 0, 14, 2, 4, 7, 3, 9, 14, 14, 5, 15, 11), 0)
  {
    hide Rounds, Round, Turn;
    Counting13();
    OneMore(N(3, 0, 4, 0, 5, 0, 6, 0, 7, 0, 8, 0, 1, 0, 2, 0),
            N(8, 11, 1, 2, 6, 13, 2, 4, 1, 7, 15, 0, 4, 3, 15, 4),
            N(0, 3, 0, 4, 0, 5, 0, 6, 0, 7, 0, 8, 0, 1, 0, 2),
            N(2, 15, 5, 4, 0, 1, 11, 3, 15, 4, 13, 4, 7, 13, 0, 14), 4);
    Counting14();
    OneMore(N(0, 3, 0, 4, 0, 5, 0, 6, 0, 7, 0, 8, 0, 1, 0, 2),
            N(2, 15, 5, 4, 0, 1, 11, 3, 15, 4, 13, 4, 7, 13, 0, 14),
            N(2, 0, 3, 0, 4, 0, 5, 0, 6, 0, 7, 0, 8, 0, 1, 0),
            N(15, 9, 6, 4, 11, 11, 5, 5, 14, 5, 5, 9, 5, 11, 13, 9), 3);
    Counting15();
    OneMore(N(2, 0, 3, 0, 4, 0, 5, 0, 6, 0, 7, 0, 8, 0, 1, 0),
            N(15, 9, 6, 4, 11, 11, 5, 5, 14, 5, 5, 9, 5, 11, 13, 9),
            N(0, 2, 0, 3, 0, 4, 0, 5, 0, 6, 0, 7, 0, 8, 0, 1),
            N(7, 0, 12, 4, 2, 10, 9, 13, 4, 14, 4, 3, 11, 11, 10, 4), 2);
    Counting16();
    OneMore(N(0, 2, 0, 3, 0, 4, 0, 5, 0, 6, 0, 7, 0, 8, 0, 1),
            N(7, 0, 12, 4, 2, 10, 9, 13, 4, 14, 4, 3, 11, 11, 10, 4),
            N(1, 0, 2, 0, 3, 0, 4, 0, 5, 0, 6, 0, 7, 0, 8, 0),
            N(9, 12, 3, 11, 0, 14, 2, 4, 7, 3, 9, 14, 14, 5, 15, 11), 1);
  }

  lemma CountingPacked()
    ensures NwCrypt.Nibbles([1, 2, 3, 4, 5, 6, 7, 8]) == ToBlock(N(1, 0, 2, 0, 3, 0, 4, 0, 5, 0, 6, 0, 7, 0, 8, 0))
    ensures Packed(ToBlock(N(9, 12, 3, 11, 0, 14, 2, 4, 7, 3, 9, 14, 14, 5, 15, 11)))
         == [201, 179, 224, 66, 55, 233, 94, 191]
  {
  }

  /** The key 1, 2, ..., 8 and the block of eight zeros: c9 b3 e0 42 37 e9 5e bf. */
  lemma Counting()
    ensures Encrypted([1, 2, 3, 4, 5, 6, 7, 8], [0, 0, 0, 0, 0, 0, 0, 0])
      == [201, 179, 224, 66, 55, 233, 94, 191]
  {
    hide EncryptRounds, Rounds, NwCrypt.Nibbles, Packed, ToBlock;
    var k, b := N(1, 0, 2, 0, 3, 0, 4, 0, 5, 0, 6, 0, 7, 0, 8, 0), N(0, 0, 0, 0, 0, 0, 0, 0, 0, 0, 0, 0, 0, 0, 0, 0);
    CountingPacked();
    ZerosPacked();
    RoundsAre(k, b, 16);
    CountingFour1();
    CountingFour2();
    CountingFour3();
    CountingFour4();
    NoMore(N(1, 0, 2, 0, 3, 0, 4, 0, 5, 0, 6, 0, 7, 0, 8, 0),
           N(9, 12, 3, 11, 0, 14, 2, 4, 7, 3, 9, 14, 14, 5, 15, 11));
  }
}
