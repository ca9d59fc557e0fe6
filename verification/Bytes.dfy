/** Byte strings: big-endian numbers, and what stands at an offset. */
module Bytes {

  type byte = x: int | 0 <= x < 256

  function U16(n: nat): (s: seq<byte>)
    requires n < 0x1_0000
    ensures |s| == 2
  {
    var hi: int, lo: int := n / 256, n % 256;
    [hi, lo]
  }

  function U24(n: nat): (s: seq<byte>)
    requires n < 0x100_0000
    ensures |s| == 3
  {
    var hi: int, mid: int, lo: int := n / 0x1_0000, n / 256 % 256, n % 256;
    [hi, mid, lo]
  }

  function Read16(b: seq<byte>, i: nat): (n: nat)
    requires i + 2 <= |b|
    ensures n < 0x1_0000
  {
    b[i] as int * 256 + b[i + 1] as int
  }

  function Read24(b: seq<byte>, i: nat): nat
    requires i + 3 <= |b|
  {
    b[i] as int * 0x1_0000 + b[i + 1] as int * 256 + b[i + 2] as int
  }

  /** `s` stands in `b` at offset `i`. */
  predicate At(b: seq<byte>, i: nat, s: seq<byte>) {
    i + |s| <= |b| && forall k :: 0 <= k < |s| ==> s[k] == b[i + k]
  }

  lemma AtSplit(b: seq<byte>, i: nat, s: seq<byte>, t: seq<byte>)
    requires At(b, i, s + t)
    ensures At(b, i, s) && At(b, i + |s|, t)
  {
    assert forall k :: 0 <= k < |s| ==> (s + t)[k] == s[k];
    assert forall k :: 0 <= k < |t| ==> (s + t)[|s| + k] == t[k];
  }

  lemma AtIndex(b: seq<byte>, i: nat, s: seq<byte>, k: nat)
    requires At(b, i, s) && k < |s|
    ensures b[i + k] == s[k]
  {
  }

  lemma ReadU16(b: seq<byte>, i: nat, n: nat)
    requires n < 0x1_0000 && At(b, i, U16(n))
    ensures Read16(b, i) == n
  {
    AtIndex(b, i, U16(n), 0);
    AtIndex(b, i, U16(n), 1);
  }

  lemma ReadU24(b: seq<byte>, i: nat, n: nat)
    requires n < 0x100_0000 && At(b, i, U24(n))
    ensures Read24(b, i) == n
  {
    AtIndex(b, i, U24(n), 0);
    AtIndex(b, i, U24(n), 1);
    AtIndex(b, i, U24(n), 2);
  }
}
