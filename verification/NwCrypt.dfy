/** The NetWare password cipher: sixteen rounds of substitution, key rotation and permutation
    on the sixteen half-bytes of a block, and the separately written inverse. */
module NwCrypt {
  import opened Bits

  type Nibble = x: int | 0 <= x < 16

  predicate Permutation(r: seq<Nibble>) {
    |r| == 16 && forall i, j :: 0 <= i < j < 16 ==> r[i] != r[j]
  }

  /** A row of sixteen entries of newshuffle: a permutation of the nibbles. */
  type Row = r: seq<Nibble> | Permutation(r) witness [0, 1, 2, 3, 4, 5, 6, 7, 8, 9, 10, 11, 12, 13, 14, 15]

  const ROW0: Row := [0xf, 0x8, 0x5, 0x7, 0xc, 0x2, 0xe, 0x9, 0x0, 0x1, 0x6, 0xd, 0x3, 0x4, 0xb, 0xa]
  const ROW1: Row := [0x2, 0xc, 0xe, 0x6, 0xf, 0x0, 0x1, 0x8, 0xd, 0x3, 0xa, 0x4, 0x9, 0xb, 0x5, 0x7]
  const ROW2: Row := [0x5, 0x2, 0x9, 0xf, 0xc, 0x4, 0xd, 0x0, 0xe, 0xa, 0x6, 0x8, 0xb, 0x1, 0x3, 0x7]
  const ROW3: Row := [0xf, 0xd, 0x2, 0x6, 0x7, 0x8, 0x5, 0x9, 0x0, 0x4, 0xc, 0x3, 0x1, 0xa, 0xb, 0xe]
  const ROW4: Row := [0x5, 0xe, 0x2, 0xb, 0xd, 0xa, 0x7, 0x0, 0x8, 0x6, 0x4, 0x1, 0xf, 0xc, 0x3, 0x9]
  const ROW5: Row := [0x8, 0x2, 0xf, 0xa, 0x5, 0x9, 0x6, 0xc, 0x0, 0xb, 0x1, 0xd, 0x7, 0x3, 0x4, 0xe]
  const ROW6: Row := [0xe, 0x8, 0x0, 0x9, 0x4, 0xb, 0x2, 0x7, 0xc, 0x3, 0xa, 0x5, 0xd, 0x1, 0x6, 0xf]
  const ROW7: Row := [0x1, 0x4, 0x8, 0xa, 0xd, 0xb, 0x7, 0xe, 0x5, 0xf, 0x3, 0x9, 0x0, 0x2, 0x6, 0xc]
  const ROW8: Row := [0x5, 0x3, 0xc, 0x8, 0xb, 0x2, 0xe, 0xa, 0x4, 0x1, 0xd, 0x0, 0x6, 0x7, 0xf, 0x9]
  const ROW9: Row := [0x6, 0x0, 0xb, 0xe, 0xd, 0x4, 0xc, 0xf, 0x7, 0x2, 0x8, 0xa, 0x1, 0x5, 0x3, 0x9]
  const ROW10: Row := [0xb, 0x5, 0xa, 0xe, 0xf, 0x1, 0xc, 0x0, 0x6, 0x4, 0x2, 0x9, 0x3, 0xd, 0x7, 0x8]
  const ROW11: Row := [0x7, 0x2, 0xa, 0x0, 0xe, 0x8, 0xf, 0x4, 0xc, 0xb, 0x9, 0x1, 0x5, 0xd, 0x3, 0x6]
  const ROW12: Row := [0x7, 0x4, 0xf, 0x9, 0x5, 0x1, 0xc, 0xb, 0x0, 0x3, 0x8, 0xe, 0x2, 0xa, 0x6, 0xd]
  const ROW13: Row := [0x9, 0x4, 0x8, 0x0, 0xa, 0x3, 0x1, 0xc, 0x5, 0xf, 0x7, 0x2, 0xb, 0xe, 0x6, 0xd]
  const ROW14: Row := [0x9, 0x5, 0x4, 0x7, 0xe, 0x8, 0x3, 0x1, 0xd, 0xb, 0xc, 0x2, 0x0, 0xf, 0x6, 0xa]
  const ROW15: Row := [0x9, 0xa, 0xb, 0xd, 0x5, 0x3, 0xf, 0x0, 0x1, 0xc, 0x8, 0x7, 0x6, 0x4, 0xe, 0x2]
  const ROW16: Row := [0x3, 0xe, 0xf, 0x2, 0xd, 0xc, 0x4, 0x5, 0x9, 0x6, 0x0, 0x1, 0xb, 0x7, 0xa, 0x8]

  /** The table by rows: two rows for each byte of a block, and one that moves the nibbles. */
  function Shuffle(k: nat): Row
    requires k < 17
  {
    match k
    case 0 => ROW0
    case 1 => ROW1
    case 2 => ROW2
    case 3 => ROW3
    case 4 => ROW4
    case 5 => ROW5
    case 6 => ROW6
    case 7 => ROW7
    case 8 => ROW8
    case 9 => ROW9
    case 10 => ROW10
    case 11 => ROW11
    case 12 => ROW12
    case 13 => ROW13
    case 14 => ROW14
    case 15 => ROW15
    case _ => ROW16
  }

  const MOVES := 16

  // ----- the rounds on nibbles ---------------------------------------------

  type Block = s: seq<Nibble> | |s| == 16 witness [0, 0, 0, 0, 0, 0, 0, 0, 0, 0, 0, 0, 0, 0, 0, 0]

  function XorNibble(a: Nibble, b: Nibble): (c: Nibble) {
    XorNibbleBound(a, b);
    Xor(a, b)
  }

  lemma XorNibbleBound(a: Nibble, b: Nibble)
    ensures Xor(a, b) < 16
  {
    NibbleShifts(0);
    XorBound(a, b, 4);
  }

  function Substituted(x: Block, key: Block): Block {
    seq(16, i requires 0 <= i < 16 => Shuffle(i)[XorNibble(x[i], key[i])])
  }

  function At(x: Block, i: Nibble): Nibble {
    x[i]
  }

  function Moved(x: Block): Block {
    seq(16, i requires 0 <= i < 16 => At(x, Shuffle(MOVES)[i]))
  }

  /** The key moves up by one nibble; the last one comes first. */
  function RotatedUp(key: Block): Block {
    seq(16, i requires 0 <= i < 16 => key[if i == 0 then 15 else i - 1])
  }

  function RotatedDown(key: Block): Block {
    seq(16, i requires 0 <= i < 16 => key[if i == 15 then 0 else i + 1])
  }

  /** Where a row has the given entry, looking from place n down. */
  function Place(r: Row, v: Nibble, n: nat): Nibble
    requires n < 16
  {
    if n == 0 || r[n] == v then n else Place(r, v, n - 1)
  }

  /** The inverse of a row. */
  function Inverse(r: Row, v: Nibble): Nibble {
    Place(r, v, 15)
  }

  function Unmoved(x: Block): Block {
    seq(16, i requires 0 <= i < 16 => At(x, Inverse(Shuffle(MOVES), i)))
  }

  function Unsubstituted(y: Block, key: Block): Block {
    seq(16, i requires 0 <= i < 16 => XorNibble(Inverse(Shuffle(i), y[i]), key[i]))
  }

  /** A key and a block between rounds. */
  datatype State = State(key: Block, block: Block)

  function EncryptRound(s: State): State {
    State(RotatedUp(s.key), Moved(Substituted(s.block, s.key)))
  }

  function DecryptRound(s: State): State {
    State(RotatedDown(s.key), Unsubstituted(Unmoved(s.block), RotatedDown(s.key)))
  }

  function EncryptRounds(s: State, n: nat): State {
    if n == 0 then s else EncryptRound(EncryptRounds(s, n - 1))
  }

  function DecryptRounds(s: State, n: nat): State
    decreases n
  {
    if n == 0 then s else DecryptRounds(DecryptRound(s), n - 1)
  }

  // ----- inversion ---------------------------------------------------------

  lemma {:induction false} PlaceOf(r: Row, j: Nibble, n: nat)
    requires j <= n < 16
    ensures Place(r, r[j], n) == j
  {
    if j < n {
      PlaceOf(r, j, n - 1);
    }
  }

  lemma InverseOf(r: Row, j: Nibble)
    ensures Inverse(r, r[j]) == j
  {
    PlaceOf(r, j, 15);
  }

  /** A row that repeats no entry has them all. */
  lemma InverseIsInverse(r: Row, v: Nibble)
    ensures r[Inverse(r, v)] == v
  {
    if forall j :: 0 <= j < 16 ==> r[j] != v {
      Pigeons(r, v, 16);
      Sixteen(Entries(r, 16) + {v});
    } else {
      var j :| 0 <= j < 16 && r[j] == v;
      InverseOf(r, j);
    }
  }

  function Entries(r: Row, n: nat): set<Nibble>
    requires n <= 16
  {
    set j | 0 <= j < n :: r[j]
  }

  lemma {:induction false} Pigeons(r: Row, v: Nibble, n: nat)
    requires n <= 16 && forall j :: 0 <= j < 16 ==> r[j] != v
    ensures |Entries(r, n)| == n && v !in Entries(r, n)
  {
    if n == 0 {
      assert Entries(r, 0) == {};
    } else {
      Pigeons(r, v, n - 1);
      assert r[n - 1] !in Entries(r, n - 1);
      assert Entries(r, n) == Entries(r, n - 1) + {r[n - 1]};
    }
  }

  lemma {:induction false} BelowSize(n: nat, s: set<int>)
    requires forall x :: x in s ==> 0 <= x < n
    ensures |s| <= n
  {
    if n == 0 {
      assert forall x :: x !in s;
      assert s == {};
    } else {
      BelowSize(n - 1, s - {n - 1});
    }
  }

  /** No seventeen nibbles are all different. */
  lemma Sixteen(s: set<Nibble>)
    ensures |s| <= 16
  {
    BelowSize(16, s);
  }

  lemma XorNibbleTwice(a: Nibble, b: Nibble)
    ensures XorNibble(XorNibble(a, b), b) == a
  {
    XorCancel(a, b);
  }

  lemma UnmoveMoved(x: Block)
    ensures Unmoved(Moved(x)) == x
  {
    forall i | 0 <= i < 16 ensures Unmoved(Moved(x))[i] == x[i] {
      InverseIsInverse(Shuffle(MOVES), i);
    }
  }

  lemma UnsubstituteSubstituted(x: Block, key: Block)
    ensures Unsubstituted(Substituted(x, key), key) == x
  {
    hide Inverse;
    forall i | 0 <= i < 16 ensures Unsubstituted(Substituted(x, key), key)[i] == x[i] {
      InverseOf(Shuffle(i), XorNibble(x[i], key[i]));
      XorNibbleTwice(x[i], key[i]);
    }
  }

  lemma RotateDownUp(key: Block)
    ensures RotatedDown(RotatedUp(key)) == key
  {
  }

  /** A round of decryption takes back a round of encryption, key and all. */
  lemma RoundInverts(s: State)
    ensures DecryptRound(EncryptRound(s)) == s
  {
    hide Substituted, Moved, RotatedUp, RotatedDown, Unmoved, Unsubstituted;
    RotateDownUp(s.key);
    UnmoveMoved(Substituted(s.block, s.key));
    UnsubstituteSubstituted(s.block, s.key);
  }

  lemma {:induction false} RoundsInvert(s: State, n: nat)
    ensures DecryptRounds(EncryptRounds(s, n), n) == s
  {
    hide EncryptRound, DecryptRound;
    if n > 0 {
      RoundInverts(EncryptRounds(s, n - 1));
      RoundsInvert(s, n - 1);
    }
  }

  /** After n rounds the key has moved by n nibbles. */
  lemma {:induction false} KeyMoves(s: State, n: nat)
    requires n <= 16
    ensures forall i :: 0 <= i < 16 ==> EncryptRounds(s, n).key[i] == s.key[(i - n) % 16]
  {
    hide EncryptRounds;
    if n == 0 {
      NoRounds(s);
    } else {
      KeyMoves(s, n - 1);
      KeyNext(s, n);
      forall i | 0 <= i < 16 ensures EncryptRounds(s, n).key[i] == s.key[(i - n) % 16] {
        var before := if i == 0 then 15 else i - 1;
        assert EncryptRounds(s, n).key[i] == EncryptRounds(s, n - 1).key[before];
        assert (before - (n - 1)) % 16 == (i - n) % 16;
      }
    }
  }

  lemma NoRounds(s: State)
    ensures EncryptRounds(s, 0) == s
  {
  }

  lemma KeyNext(s: State, n: nat)
    requires n > 0
    ensures EncryptRounds(s, n).key == RotatedUp(EncryptRounds(s, n - 1).key)
  {
    hide Moved, Substituted;
  }

  lemma KeyComesBack(s: State)
    ensures EncryptRounds(s, 16).key == s.key
  {
    hide EncryptRounds;
    KeyMoves(s, 16);
    var key := EncryptRounds(s, 16).key;
    forall i | 0 <= i < 16 ensures key[i] == s.key[i] {
      assert (i - 16) % 16 == i;
    }
  }

  // ----- bytes -------------------------------------------------------------

  function NibbleAt(b: Bytes, i: nat): Nibble
    requires i < 2 * |b|
  {
    if i % 2 == 0 then b[i / 2] % 16 else b[i / 2] / 16
  }

  /** The nibbles of eight bytes, low half first. */
  function Nibbles(b: Bytes): Block
    requires |b| == 8
  {
    seq(16, i requires 0 <= i < 16 => NibbleAt(b, i))
  }

  function Joined(low: Nibble, high: Nibble): Byte {
    low as int + 16 * (high as int)
  }

  function Packed(x: Block): Bytes {
    seq(8, j requires 0 <= j < 8 => Joined(x[2 * j], x[2 * j + 1]))
  }

  lemma JoinedHalves(low: Nibble, high: Nibble)
    ensures Joined(low, high) % 16 == low && Joined(low, high) / 16 == high
  {
  }

  lemma NibblesOfPacked(x: Block)
    ensures Nibbles(Packed(x)) == x
  {
    forall i | 0 <= i < 16 ensures Nibbles(Packed(x))[i] == x[i] {
      var j := i / 2;
      assert i == 2 * j || i == 2 * j + 1;
      assert Packed(x)[j] == Joined(x[2 * j], x[2 * j + 1]);
      JoinedHalves(x[2 * j], x[2 * j + 1]);
    }
  }

  lemma PackedNibbles(b: Bytes)
    requires |b| == 8
    ensures Packed(Nibbles(b)) == b
  {
    forall j | 0 <= j < 8 ensures Packed(Nibbles(b))[j] == b[j] {
      assert (2 * j) / 2 == j && (2 * j + 1) / 2 == j && (2 * j) % 2 == 0 && (2 * j + 1) % 2 == 1;
    }
  }

  /** newpassencrypt() */
  function Encrypted(key: Bytes, block: Bytes): Bytes
    requires |key| == 8 && |block| == 8
  {
    Packed(EncryptRounds(State(Nibbles(key), Nibbles(block)), 16).block)
  }

  /** nw_decrypt_newpass() */
  function Decrypted(key: Bytes, block: Bytes): Bytes
    requires |key| == 8 && |block| == 8
  {
    Packed(DecryptRounds(State(Nibbles(key), Nibbles(block)), 16).block)
  }

  /** Decrypting with the same key gives the block back. */
  lemma CipherInversion(key: Bytes, block: Bytes)
    requires |key| == 8 && |block| == 8
    ensures Decrypted(key, Encrypted(key, block)) == block
  {
    hide EncryptRounds, DecryptRounds, Nibbles, Packed;
    var s := State(Nibbles(key), Nibbles(block));
    KeyComesBack(s);
    RoundsInvert(s, 16);
    NibblesOfPacked(EncryptRounds(s, 16).block);
    PackedNibbles(block);
  }

  /** Two blocks never encrypt to the same block under one key. */
  lemma CipherInjective(key: Bytes, x: Bytes, y: Bytes)
    requires |key| == |x| == |y| == 8 && Encrypted(key, x) == Encrypted(key, y)
    ensures x == y
  {
    CipherInversion(key, x);
    CipherInversion(key, y);
  }
}
