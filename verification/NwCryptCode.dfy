/** newpassencrypt() and nw_decrypt_newpass() as they are written, on arrays of bytes. */
module NwCryptCode {
  import opened Bits
  import opened NwCrypt

  lemma XorNibbles(a: Byte, b: Byte)
    ensures Xor(a, b) < 256
    ensures Xor(a, b) % 16 == XorNibble(a % 16, b % 16) && Xor(a, b) / 16 == XorNibble(a / 16, b / 16)
  {
    hide Xor, Shr, Low;
    ByteShifts(a);
    XorBound(a, b, 8);
    XorLow(a, b, 4);
    XorShr(a, b, 4);
    NibbleShifts(a);
    NibbleShifts(b);
    NibbleShifts(Xor(a, b));
  }

  lemma NibblesAre(b: Bytes, x: Block)
    requires |b| == 8 && forall i :: 0 <= i < 16 ==> NibbleAt(b, i) == x[i]
    ensures Nibbles(b) == x
  {
  }

  lemma EvenOdd(b: Bytes, j: nat)
    requires j < |b|
    ensures NibbleAt(b, 2 * j) == b[j] % 16 && NibbleAt(b, 2 * j + 1) == b[j] / 16
  {
    assert (2 * j) / 2 == j && (2 * j + 1) / 2 == j && (2 * j) % 2 == 0 && (2 * j + 1) % 2 == 1;
  }

  /** One byte of a buffer set to two nibbles. */
  lemma SetBoth(before: Bytes, after: Bytes, j: nat, low: Nibble, high: Nibble)
    requires j < |before| && after == before[j := Joined(low, high)]
    ensures NibbleAt(after, 2 * j) == low && NibbleAt(after, 2 * j + 1) == high
    ensures forall i :: 0 <= i < 2 * |before| && i != 2 * j && i != 2 * j + 1 ==>
      NibbleAt(after, i) == NibbleAt(before, i)
  {
    EvenOdd(after, j);
    forall i | 0 <= i < 2 * |before| && i != 2 * j && i != 2 * j + 1 ensures NibbleAt(after, i) == NibbleAt(before, i) {
      assert i / 2 != j;
    }
  }

  /** A nibble that is zero, with one added in its place. */
  function WithNibble(c: Byte, odd: bool, v: Nibble): Byte
    requires if odd then c / 16 == 0 else c % 16 == 0
  {
    if odd then c % 16 + 16 * (v as int) else 16 * (c / 16) + v as int
  }

  lemma SetOne(before: Bytes, after: Bytes, i: nat, v: Nibble)
    requires i < 2 * |before| && NibbleAt(before, i) == 0
    requires after == before[i / 2 := WithNibble(before[i / 2], i % 2 == 1, v)]
    ensures NibbleAt(after, i) == v
    ensures forall k :: 0 <= k < 2 * |before| && k != i ==> NibbleAt(after, k) == NibbleAt(before, k)
  {
    forall k | 0 <= k < 2 * |before| && k != i ensures NibbleAt(after, k) == NibbleAt(before, k) {
      if k / 2 == i / 2 {
        assert k % 2 != i % 2;
      }
    }
  }

  // ----- encryption --------------------------------------------------------

  method Substitute(copy: array<Byte>, key: array<Byte>)
    requires copy != key && copy.Length == key.Length == 8
    modifies copy
    ensures Nibbles(copy[..]) == Substituted(old(Nibbles(copy[..])), Nibbles(key[..]))
  {
    hide Shuffle, XorNibble, NibbleAt, Xor;
    ghost var x, k := copy[..], key[..];
    var di := 0;
    while di < 8
      invariant 0 <= di <= 8
      invariant copy[di..] == x[di..]
      invariant forall i :: 0 <= i < 2 * di ==> NibbleAt(copy[..], i) == Substituted(Nibbles(x), Nibbles(k))[i]
    {
      ghost var before := copy[..];
      assert copy[di] == copy[di..][0] == x[di];
      EvenOdd(x, di);
      EvenOdd(k, di);
      XorNibbles(copy[di], key[di]);
      var c := Xor(copy[di], key[di]);
      var cl := Shuffle(2 * di + 1)[c / 16];
      var dl := Shuffle(2 * di)[c % 16];
      copy[di] := Joined(dl, cl);
      SetBoth(before, copy[..], di, dl, cl);
      assert copy[di + 1..] == before[di + 1..] == before[di..][1..] == x[di + 1..];
      di := di + 1;
    }
    NibblesAre(copy[..], Substituted(Nibbles(x), Nibbles(k)));
  }

  /** (a >> 4) | (b << 4) in a byte. */
  function Funnel(a: Byte, b: Byte): Byte {
    Joined(a / 16, b % 16)
  }

  method RotateUp(key: array<Byte>)
    requires key.Length == 8
    modifies key
    ensures Nibbles(key[..]) == RotatedUp(old(Nibbles(key[..])))
  {
    ghost var k := key[..];
    var ch := key[7];
    var bx := 7;
    while bx > 0
      invariant 0 <= bx <= 7
      invariant key[..bx + 1] == k[..bx + 1]
      invariant forall j :: bx < j < 8 ==> key[j] == Funnel(k[j - 1], k[j])
    {
      assert key[bx] == key[..bx + 1][bx] && key[bx - 1] == key[..bx + 1][bx - 1];
      key[bx] := Funnel(key[bx - 1], key[bx]);
      bx := bx - 1;
    }
    assert key[0] == key[..1][0];
    key[0] := Funnel(ch, key[0]);
    FunnelsUp(k, key[..]);
  }

  lemma FunnelsUp(k: Bytes, r: Bytes)
    requires |k| == |r| == 8 && r[0] == Funnel(k[7], k[0]) && forall j :: 0 < j < 8 ==> r[j] == Funnel(k[j - 1], k[j])
    ensures Nibbles(r) == RotatedUp(Nibbles(k))
  {
    hide NibbleAt, RotatedUp, Nibbles, Funnel;
    forall i | 0 <= i < 16 ensures NibbleAt(r, i) == RotatedUp(Nibbles(k))[i] {
      var j := i / 2;
      var before := if j == 0 then 7 else j - 1;
      FunnelUp(k, r, j, before);
      assert i == 2 * j || i == 2 * j + 1;
    }
    NibblesAre(r, RotatedUp(Nibbles(k)));
  }

  lemma FunnelNibbles(a: Byte, b: Byte)
    ensures Funnel(a, b) % 16 == a / 16 && Funnel(a, b) / 16 == b % 16
  {
  }

  /** Both nibbles of byte j. */
  lemma FunnelUp(k: Bytes, r: Bytes, j: nat, before: nat)
    requires |k| == |r| == 8 && j < 8 && before == (if j == 0 then 7 else j - 1) && r[j] == Funnel(k[before], k[j])
    ensures NibbleAt(r, 2 * j) == RotatedUp(Nibbles(k))[2 * j]
    ensures NibbleAt(r, 2 * j + 1) == RotatedUp(Nibbles(k))[2 * j + 1]
  {
    hide NibbleAt, Funnel;
    FunnelNibbles(k[before], k[j]);
    EvenOdd(r, j);
    EvenOdd(k, j);
    EvenOdd(k, before);
    assert RotatedUp(Nibbles(k))[2 * j] == NibbleAt(k, 2 * before + 1);
  }

  /** Nibble di of out comes from the place that the last row of the table names. */
  method MoveNibbles(copy: array<Byte>, out: array<Byte>)
    requires copy != out && copy.Length == out.Length == 8
    modifies out
    ensures Nibbles(out[..]) == Moved(Nibbles(copy[..]))
  {
    hide Shuffle, NibbleAt;
    ghost var x := copy[..];
    Clear(out);
    var di := 0;
    while di < 16
      invariant 0 <= di <= 16
      invariant forall i :: 0 <= i < di ==> NibbleAt(out[..], i) == Moved(Nibbles(x))[i]
      invariant forall i :: di <= i < 16 ==> NibbleAt(out[..], i) == 0
    {
      ghost var before := out[..];
      var n := Shuffle(MOVES)[di];
      HalfIs(x, n);
      var ch := if n % 2 == 1 then copy[n / 2] / 16 else copy[n / 2] % 16;
      HalfIs(before, di);
      out[di / 2] := WithNibble(out[di / 2], di % 2 == 1, ch);
      SetOne(before, out[..], di, ch);
      di := di + 1;
    }
    NibblesAre(out[..], Moved(Nibbles(x)));
  }

  lemma HalfIs(b: Bytes, i: nat)
    requires i < 2 * |b|
    ensures NibbleAt(b, i) == if i % 2 == 1 then b[i / 2] / 16 else b[i / 2] % 16
  {
  }

  /** memset(b, '\0', 8) */
  method Clear(b: array<Byte>)
    requires b.Length == 8
    modifies b
    ensures forall i :: 0 <= i < 16 ==> NibbleAt(b[..], i) == 0
  {
    forall j | 0 <= j < 8 {
      b[j] := 0;
    }
  }

  /** memcpy(to, from, 8) */
  method Copy(to: array<Byte>, from: array<Byte>)
    requires to.Length == from.Length == 8
    modifies to
    ensures to[..] == old(from[..])
  {
    forall j | 0 <= j < 8 {
      to[j] := from[j];
    }
  }

  /** newpassencrypt(): the key array moves through sixteen positions and ends as it began. */
  method NewPassEncrypt(key: array<Byte>, block: array<Byte>, out: array<Byte>)
    requires key.Length == block.Length == out.Length == 8 && key != out
    modifies key, out
    ensures out[..] == Encrypted(old(key[..]), old(block[..]))
    ensures key[..] == old(key[..])
  {
    hide Substituted, Moved, RotatedUp, Nibbles, Packed;
    ghost var s := State(Nibbles(key[..]), Nibbles(block[..]));
    var copy := new Byte[8];
    Copy(copy, block);
    var i := 0;
    while i < 16
      invariant 0 <= i <= 16
      invariant EncryptRounds(s, i) == State(Nibbles(key[..]), Nibbles(copy[..]))
      invariant i > 0 ==> out[..] == copy[..]
    {
      Substitute(copy, key);
      RotateUp(key);
      MoveNibbles(copy, out);
      Copy(copy, out);
      i := i + 1;
    }
    KeyComesBack(s);
    PackedNibbles(key[..]);
    PackedNibbles(old(key[..]));
    PackedNibbles(out[..]);
  }

  // ----- decryption --------------------------------------------------------

  /** Nibble j of the block goes to the place that the last row of the table names. */
  method UnmoveNibbles(copy: array<Byte>, block: array<Byte>)
    requires copy != block && copy.Length == block.Length == 8
    modifies copy
    ensures Nibbles(copy[..]) == Unmoved(Nibbles(block[..]))
  {
    hide Shuffle, NibbleAt, Inverse;
    ghost var x := block[..];
    Clear(copy);
    var j := 0;
    var row := Shuffle(MOVES);
    while j < 16
      invariant 0 <= j <= 16
      invariant forall i :: 0 <= i < j ==> NibbleAt(copy[..], row[i]) == NibbleAt(x, i)
      invariant forall i :: j <= i < 16 ==> NibbleAt(copy[..], row[i]) == 0
    {
      ghost var before := copy[..];
      var n := row[j];
      HalfIs(x, j);
      var ch := if j % 2 == 1 then block[j / 2] / 16 else block[j / 2] % 16;
      HalfIs(before, n);
      copy[n / 2] := WithNibble(copy[n / 2], n % 2 == 1, ch);
      SetOne(before, copy[..], n, ch);
      j := j + 1;
    }
    forall i | 0 <= i < 16 ensures NibbleAt(copy[..], i) == Unmoved(Nibbles(x))[i] {
      InverseIsInverse(row, i);
    }
    NibblesAre(copy[..], Unmoved(Nibbles(x)));
  }

  method RotateDown(key: array<Byte>)
    requires key.Length == 8
    modifies key
    ensures Nibbles(key[..]) == RotatedDown(old(Nibbles(key[..])))
  {
    ghost var k := key[..];
    var first := key[0];
    var j := 0;
    while j < 7
      invariant 0 <= j <= 7
      invariant key[j..] == k[j..]
      invariant forall i :: 0 <= i < j ==> key[i] == Funnel(k[i], k[i + 1])
    {
      assert key[j] == key[j..][0] && key[j + 1] == key[j..][1];
      ghost var before := key[..];
      key[j] := Funnel(key[j], key[j + 1]);
      assert key[j + 1..] == before[j + 1..] == before[j..][1..] == k[j + 1..];
      j := j + 1;
    }
    assert key[7] == key[7..][0];
    key[7] := Funnel(key[7], first);
    FunnelsDown(k, key[..]);
  }

  lemma FunnelsDown(k: Bytes, r: Bytes)
    requires |k| == |r| == 8 && r[7] == Funnel(k[7], k[0]) && forall j :: 0 <= j < 7 ==> r[j] == Funnel(k[j], k[j + 1])
    ensures Nibbles(r) == RotatedDown(Nibbles(k))
  {
    hide NibbleAt, RotatedDown, Nibbles, Funnel;
    forall i | 0 <= i < 16 ensures NibbleAt(r, i) == RotatedDown(Nibbles(k))[i] {
      var j := i / 2;
      var next := if j == 7 then 0 else j + 1;
      FunnelDown(k, r, j, next);
      assert i == 2 * j || i == 2 * j + 1;
    }
    NibblesAre(r, RotatedDown(Nibbles(k)));
  }

  lemma FunnelDown(k: Bytes, r: Bytes, j: nat, next: nat)
    requires |k| == |r| == 8 && j < 8 && next == (if j == 7 then 0 else j + 1) && r[j] == Funnel(k[j], k[next])
    ensures NibbleAt(r, 2 * j) == RotatedDown(Nibbles(k))[2 * j]
    ensures NibbleAt(r, 2 * j + 1) == RotatedDown(Nibbles(k))[2 * j + 1]
  {
    hide NibbleAt, Funnel;
    FunnelNibbles(k[j], k[next]);
    EvenOdd(r, j);
    EvenOdd(k, j);
    EvenOdd(k, next);
    assert RotatedDown(Nibbles(k))[2 * j + 1] == NibbleAt(k, 2 * next);
  }

  /** The inverse table, filled by going through the table once. */
  method InvertTable() returns (inverse: array<Nibble>)
    ensures fresh(inverse) && inverse.Length == 272
    ensures forall r, v :: 0 <= r < 17 && 0 <= v < 16 ==> inverse[16 * r + v] == Inverse(Shuffle(r), v)
  {
    hide Shuffle, Inverse;
    inverse := new Nibble[272];
    var row := 0;
    while row < 17
      invariant 0 <= row <= 17
      invariant forall r, v :: 0 <= r < row && 0 <= v < 16 ==> inverse[16 * r + v] == Inverse(Shuffle(r), v)
    {
      ghost var before := inverse[..];
      var j := 0;
      while j < 16
        invariant 0 <= j <= 16
        invariant forall i :: 0 <= i < j ==> inverse[16 * row + Shuffle(row)[i]] == i
        invariant inverse[..16 * row] == before[..16 * row]
      {
        inverse[16 * row + Shuffle(row)[j]] := j;
        j := j + 1;
      }
      forall r, v | 0 <= r < row + 1 && 0 <= v < 16 ensures inverse[16 * r + v] == Inverse(Shuffle(r), v) {
        if r == row {
          InverseIsInverse(Shuffle(row), v);
        } else {
          assert inverse[16 * r + v] == inverse[..16 * row][16 * r + v] == before[16 * r + v];
        }
      }
      row := row + 1;
    }
  }

  method Unsubstitute(copy: array<Byte>, key: array<Byte>, inverse: array<Nibble>)
    requires copy != key && copy.Length == key.Length == 8 && inverse.Length == 272
    requires forall r, v :: 0 <= r < 17 && 0 <= v < 16 ==> inverse[16 * r + v] == Inverse(Shuffle(r), v)
    modifies copy
    ensures Nibbles(copy[..]) == Unsubstituted(old(Nibbles(copy[..])), Nibbles(key[..]))
  {
    hide Shuffle, XorNibble, NibbleAt, Xor, Inverse;
    ghost var x, k := copy[..], key[..];
    var j := 0;
    while j < 8
      invariant 0 <= j <= 8
      invariant copy[j..] == x[j..]
      invariant forall i :: 0 <= i < 2 * j ==> NibbleAt(copy[..], i) == Unsubstituted(Nibbles(x), Nibbles(k))[i]
    {
      ghost var before := copy[..];
      assert copy[j] == copy[j..][0] == x[j];
      EvenOdd(x, j);
      EvenOdd(k, j);
      var cl := InverseAt(inverse, 2 * j, copy[j] % 16);
      var ch := InverseAt(inverse, 2 * j + 1, copy[j] / 16);
      JoinedHalves(cl, ch);
      XorNibbles(Joined(cl, ch), key[j]);
      var c := Xor(Joined(cl, ch), key[j]);
      copy[j] := c;
      HalvesJoined(c);
      SetBoth(before, copy[..], j, c % 16, c / 16);
      assert copy[j + 1..] == before[j + 1..] == before[j..][1..] == x[j + 1..];
      j := j + 1;
    }
    NibblesAre(copy[..], Unsubstituted(Nibbles(x), Nibbles(k)));
  }

  method InverseAt(inverse: array<Nibble>, row: nat, v: Nibble) returns (c: Nibble)
    requires inverse.Length == 272 && row < 16
    requires forall r, v :: 0 <= r < 17 && 0 <= v < 16 ==> inverse[16 * r + v] == Inverse(Shuffle(r), v)
    ensures c == Inverse(Shuffle(row), v)
  {
    hide Shuffle, Inverse;
    c := inverse[16 * row + v];
  }

  lemma HalvesJoined(c: Byte)
    ensures Joined(c % 16, c / 16) == c
  {
  }

  /** nw_decrypt_newpass(): besides the result, the block array holds the decrypted block, and the
      key array ends as it began. */
  method NwDecryptNewPass(key: array<Byte>, block: array<Byte>, undecr: array<Byte>)
    requires key.Length == block.Length == undecr.Length == 8 && key != block && key != undecr
    modifies key, block, undecr
    ensures undecr[..] == Decrypted(old(key[..]), old(block[..])) && block[..] == undecr[..]
    ensures key[..] == old(key[..])
  {
    hide Unsubstituted, Unmoved, RotatedDown, Nibbles, Packed;
    ghost var s := State(Nibbles(key[..]), Nibbles(block[..]));
    var inverse := InvertTable();
    var copy := new Byte[8];
    var i := 0;
    while i < 16
      invariant 0 <= i <= 16
      invariant DecryptRounds(s, 16) == DecryptRounds(State(Nibbles(key[..]), Nibbles(block[..])), 16 - i)
      invariant i > 0 ==> copy[..] == block[..]
      invariant forall r, v :: 0 <= r < 17 && 0 <= v < 16 ==> inverse[16 * r + v] == Inverse(Shuffle(r), v)
    {
      UnmoveNibbles(copy, block);
      RotateDown(key);
      Unsubstitute(copy, key, inverse);
      Copy(block, copy);
      i := i + 1;
    }
    Copy(undecr, copy);
    KeyComesBackDown(s);
    PackedNibbles(key[..]);
    PackedNibbles(old(key[..]));
    PackedNibbles(undecr[..]);
  }

  /** Sixteen rotations down also bring the key back. */
  lemma KeyComesBackDown(s: State)
    ensures DecryptRounds(s, 16).key == s.key
  {
    hide DecryptRounds;
    KeyMovesDown(s, 16);
    var key := DecryptRounds(s, 16).key;
    forall i | 0 <= i < 16 ensures key[i] == s.key[i] {
      assert (i + 16) % 16 == i;
    }
  }

  lemma RotatedAt(key: Block, i: nat, n: nat)
    requires i < 16 && n > 0
    ensures RotatedDown(key)[(i + n - 1) % 16] == key[(i + n) % 16]
  {
    var before := (i + n - 1) % 16;
    assert (if before == 15 then 0 else before + 1) == (i + n) % 16;
  }

  lemma {:induction false} KeyMovesDown(s: State, n: nat)
    ensures forall i :: 0 <= i < 16 ==> DecryptRounds(s, n).key[i] == s.key[(i + n) % 16]
    decreases n
  {
    hide Unmoved, Unsubstituted, RotatedDown;
    if n > 0 {
      var t := DecryptRound(s);
      KeyMovesDown(t, n - 1);
      forall i | 0 <= i < 16 ensures DecryptRounds(s, n).key[i] == s.key[(i + n) % 16] {
        RotatedAt(s.key, i, n);
      }
    }
  }
}
