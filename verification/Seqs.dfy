/** Facts about sequences of bytes that several components need. */
module Seqs {
  import opened Bits

  /** n times the same byte. */
  function Repeat(c: Byte, n: nat): (s: Bytes)
    ensures |s| == n && forall i :: 0 <= i < n ==> s[i] == c
  {
    seq(n, _ => c)
  }

  lemma ConcatAssoc(a: Bytes, b: Bytes, c: Bytes)
    ensures a + (b + c) == a + b + c
  {
  }

  /** A stretch of a buffer that holds two pieces. */
  lemma Slices(b: Bytes, p: nat, end: nat, head: Bytes, tail: Bytes)
    requires p <= end <= |b| && b[p..end] == head + tail
    ensures p + |head| <= end && b[p..p + |head|] == head && b[p + |head|..end] == tail
  {
    assert |b[p..end]| == |head| + |tail|;
    assert b[p..p + |head|] == b[p..end][..|head|];
    assert b[p + |head|..end] == b[p..end][|head|..];
  }
}
