/**
The ASN.1 tag-length-value reader of the certificate parser.  Tags are single bytes; lengths are
short or long form; a long length is folded into a 64-bit word, so it wraps.
*/
module Tlv {
  import opened Options
  import opened Bytes

  const WORD := 0x1_0000_0000_0000_0000

  datatype Element = Element(tag: byte, value: seq<byte>)

  /** Big-endian value of a string of length octets. */
  function Value(bs: seq<byte>): nat {
    if bs == [] then 0 else Value(bs[..|bs| - 1]) * 256 + bs[|bs| - 1] as int
  }

  /** What precedes the content octets: header length and content length, if the length octets are all there. */
  datatype Header = Header(size: nat, length: nat)

  function ReadHeader(data: seq<byte>): Option<Header>
    requires |data| >= 2
  {
    var n := data[1] as int - 128;
    if n < 0 then Some(Header(2, data[1]))
    else if |data| < 2 + n then None
    else Some(Header(2 + n, Value(data[2..2 + n]) % WORD))
  }

  function ReadTlv(data: seq<byte>): seq<Element>
    decreases |data|
  {
    if |data| < 2 || ReadHeader(data).None? then [] else
      var h := ReadHeader(data).value;
      var end := h.size + h.length;
      if end >= WORD || |data| < end then [] else
        [Element(data[0], data[h.size..end])] + ReadTlv(data[end..])
  }

  lemma WrapStep(v: nat, b: byte)
    ensures (v % WORD * 256 + b as int) % WORD == (v * 256 + b as int) % WORD
  {
    var q := v / WORD;
    assert v == q * WORD + v % WORD;
    ModPlus(v % WORD * 256 + b as int, q * 256);
  }

  lemma {:induction false} ModPlus(a: nat, k: nat)
    ensures (a + k * WORD) % WORD == a % WORD
  {
    if k > 0 {
      ModPlus(a, k - 1);
      assert a + k * WORD == a + (k - 1) * WORD + WORD;
    }
  }

  /** The length loop: shift left by eight in a 64-bit word and add the next octet. */
  method FoldLength(octets: seq<byte>) returns (l: nat)
    ensures l == Value(octets) % WORD
  {
    l := 0;
    for k := 0 to |octets|
      invariant l == Value(octets[..k]) % WORD
    {
      WrapStep(Value(octets[..k]), octets[k]);
      assert octets[..k + 1][..k] == octets[..k];
      l := (l * 256) % WORD + octets[k] as int;
      ShiftedFits(Value(octets[..k]) % WORD, octets[k]);
    }
    assert octets[..|octets|] == octets;
  }

  /** Adding an octet to a shifted word does not carry. */
  lemma ShiftedFits(l: nat, b: byte)
    ensures (l * 256) % WORD + b as int == (l * 256 + b as int) % WORD
  {
    var m := (l * 256) % WORD;
    var k := (l * 256) / WORD;
    assert l * 256 == k * WORD + m;
    assert m == 256 * (l - k * (WORD / 256));
    ModPlus(m + b as int, k);
  }

  /** The header part of one turn; None is the loop's exit on a length that is cut short. */
  method DecodeHeader(data: seq<byte>) returns (h: Option<Header>)
    requires |data| >= 2
    ensures h == ReadHeader(data)
  {
    var lenByte: int := data[1];
    if lenByte < 0x80 {
      return Some(Header(2, lenByte));
    }
    var numBytes := lenByte - 0x80;
    if |data| < 2 + numBytes {
      return None;
    }
    var l := FoldLength(data[2..2 + numBytes]);
    return Some(Header(2 + numBytes, l));
  }

  method ReadElements(bytes: seq<byte>) returns (elements: seq<Element>)
    ensures elements == ReadTlv(bytes)
  {
    elements := [];
    var data := bytes;
    while data != []
      invariant ReadTlv(bytes) == elements + ReadTlv(data)
      decreases |data|
    {
      if |data| < 2 {
        break;
      }
      var h := DecodeHeader(data);
      if h.None? {
        break;
      }
      var end := h.value.size + h.value.length;
      if end >= WORD {
        break;
      }
      if |data| < end {
        break;
      }
      Unfold(data, elements, ReadTlv(bytes));
      elements := elements + [Element(data[0], data[h.value.size..end])];
      data := data[end..];
    }
  }

  lemma Unfold(data: seq<byte>, done: seq<Element>, all: seq<Element>)
    requires ReadTlv(data) != [] && all == done + ReadTlv(data)
    ensures var h := ReadHeader(data).value;
            var end := h.size + h.length;
            all == done + [Element(data[0], data[h.size..end])] + ReadTlv(data[end..])
  {
  }

  // ---------------------------------------------------------------------------
  // Round trip: any well-formed headers, any content, any trailing bytes
  // ---------------------------------------------------------------------------

  /** `h` is a header of `e`: its tag, then its length in short form or in some long form (section 8.1.3 of X.690). */
  ghost predicate IsHeader(h: seq<byte>, e: Element) {
    && |h| >= 2 && h[0] == e.tag && |h| + |e.value| < WORD
    && (if h[1] < 128 then |h| == 2 && |e.value| == h[1]
        else |h| == 2 + (h[1] as int - 128) && |e.value| == Value(h[2..]) % WORD)
  }

  ghost predicate AreHeaders(hs: seq<seq<byte>>, es: seq<Element>) {
    |hs| == |es| && forall i :: 0 <= i < |es| ==> IsHeader(hs[i], es[i])
  }

  /** Headers and contents laid end to end. */
  function Tile(hs: seq<seq<byte>>, es: seq<Element>): seq<byte>
    requires |hs| == |es|
  {
    if es == [] then [] else hs[0] + es[0].value + Tile(hs[1..], es[1..])
  }

  lemma ReadOne(h: seq<byte>, e: Element, rest: seq<byte>)
    requires IsHeader(h, e)
    ensures ReadTlv(h + e.value + rest) == [e] + ReadTlv(rest)
  {
    var data := h + e.value + rest;
    var end := |h| + |e.value|;
    if h[1] >= 128 {
      assert data[2..|h|] == h[2..];
    }
    assert data[|h|..end] == e.value;
    assert data[end..] == rest;
  }

  lemma TileStep(h: seq<byte>, e: Element, more: seq<byte>, es: seq<Element>, rest: seq<byte>)
    requires IsHeader(h, e) && ReadTlv(more + rest) == es + ReadTlv(rest)
    ensures ReadTlv(h + e.value + more + rest) == [e] + es + ReadTlv(rest)
  {
    Regroup(h + e.value, more, rest);
    ReadOne(h, e, more + rest);
    Regroup([e], es, ReadTlv(rest));
  }

  lemma Regroup<T>(x: seq<T>, y: seq<T>, z: seq<T>)
    ensures x + (y + z) == x + y + z
  {
  }

  /** Reading undoes writing, element by element, whatever length forms the writer chose. */
  lemma {:induction false} ReadUndoesTile(hs: seq<seq<byte>>, es: seq<Element>, rest: seq<byte>)
    requires AreHeaders(hs, es)
    ensures ReadTlv(Tile(hs, es) + rest) == es + ReadTlv(rest)
    decreases |es|
  {
    if es == [] {
      assert Tile(hs, es) + rest == rest;
    } else {
      ReadUndoesTile(hs[1..], es[1..], rest);
      TileStep(hs[0], es[0], Tile(hs[1..], es[1..]), es[1..], rest);
      assert [es[0]] + es[1..] == es;
    }
  }

  lemma FirstElement(data: seq<byte>) returns (h: seq<byte>, end: nat)
    requires ReadTlv(data) != []
    ensures 2 <= end <= |data| && IsHeader(h, ReadTlv(data)[0])
    ensures data == h + ReadTlv(data)[0].value + data[end..]
    ensures ReadTlv(data)[1..] == ReadTlv(data[end..])
  {
    var size := ReadHeader(data).value.size;
    end := size + ReadHeader(data).value.length;
    h := data[..size];
    assert h[2..] == data[2..size];
  }

  /** On arbitrary bytes: the elements read, with their headers, tile a prefix, and the remainder reads as nothing. */
  lemma {:induction false} ElementsTileAPrefix(data: seq<byte>) returns (hs: seq<seq<byte>>, rest: seq<byte>)
    ensures AreHeaders(hs, ReadTlv(data))
    ensures data == Tile(hs, ReadTlv(data)) + rest
    ensures ReadTlv(rest) == []
    decreases |data|
  {
    if ReadTlv(data) == [] {
      hs, rest := [], data;
    } else {
      var h, end := FirstElement(data);
      hs, rest := ElementsTileAPrefix(data[end..]);
      TileGrows(h, hs, ReadTlv(data), data, data[end..], rest);
      hs := [h] + hs;
    }
  }

  lemma TileGrows(h: seq<byte>, hs: seq<seq<byte>>, es: seq<Element>, data: seq<byte>, more: seq<byte>, rest: seq<byte>)
    requires es != [] && AreHeaders(hs, es[1..]) && IsHeader(h, es[0])
    requires data == h + es[0].value + more && more == Tile(hs, es[1..]) + rest
    ensures AreHeaders([h] + hs, es) && data == Tile([h] + hs, es) + rest
  {
    assert ([h] + hs)[1..] == hs;
    assert forall i :: 1 <= i < |es| ==> es[i] == es[1..][i - 1];
  }

  // ---------------------------------------------------------------------------
  // A definite-length writer with the shortest length form
  // ---------------------------------------------------------------------------

  function BigEndian(x: nat): seq<byte> {
    if x == 0 then [] else
      var last: int := x % 256;
      BigEndian(x / 256) + [last]
  }

  lemma {:induction false} BigEndianValue(x: nat)
    ensures Value(BigEndian(x)) == x
  {
    if x > 0 {
      BigEndianValue(x / 256);
      var s := BigEndian(x);
      assert s[..|s| - 1] == BigEndian(x / 256);
    }
  }

  lemma {:induction false} BigEndianLength(x: nat, n: nat, bound: nat)
    requires x < bound && bound == Power256(n)
    ensures |BigEndian(x)| <= n
    decreases n
  {
    if x > 0 {
      BigEndianLength(x / 256, n - 1, Power256(n - 1));
    }
  }

  function Power256(n: nat): nat { if n == 0 then 1 else 256 * Power256(n - 1) }

  ghost predicate Writable(e: Element) { |e.value| < WORD - 16 }

  function DerHeader(e: Element): seq<byte>
    requires |e.value| < 128 || |BigEndian(|e.value|)| < 128
  {
    if |e.value| < 128 then [e.tag, |e.value|] else
      var octets := BigEndian(|e.value|);
      var first: int := 128 + |octets|;
      [e.tag, first] + octets
  }

  lemma WritableLength(e: Element)
    requires Writable(e)
    ensures |BigEndian(|e.value|)| <= 8
  {
    assert Power256(8) == WORD by {
      assert Power256(1) == 256 && Power256(2) == 0x1_0000;
      assert Power256(4) == 0x1_0000_0000 && Power256(6) == 0x1_0000_0000_0000;
    }
    BigEndianLength(|e.value|, 8, WORD);
  }

  lemma DerHeaderIsHeader(e: Element)
    requires Writable(e)
    ensures |BigEndian(|e.value|)| < 128 && IsHeader(DerHeader(e), e)
  {
    WritableLength(e);
    BigEndianValue(|e.value|);
    if |e.value| >= 128 {
      assert DerHeader(e)[2..] == BigEndian(|e.value|);
    }
  }

  /** One element in the shortest form (the distinguished encoding of a single-byte tag). */
  ghost function Der(tag: byte, value: seq<byte>): (s: seq<byte>)
    requires Writable(Element(tag, value))
    ensures |s| <= |value| + 10
  {
    DerHeaderIsHeader(Element(tag, value));
    WritableLength(Element(tag, value));
    DerHeader(Element(tag, value)) + value
  }

  /** The reader undoes the writer, and goes on with what follows. */
  lemma ReadUndoesDer(tag: byte, value: seq<byte>, rest: seq<byte>)
    requires Writable(Element(tag, value))
    ensures ReadTlv(Der(tag, value) + rest) == [Element(tag, value)] + ReadTlv(rest)
  {
    DerHeaderIsHeader(Element(tag, value));
    ReadOne(DerHeader(Element(tag, value)), Element(tag, value), rest);
  }

  /** A list of elements, each in its shortest form. */
  ghost function DerAll(es: seq<Element>): (s: seq<byte>)
    requires forall i :: 0 <= i < |es| ==> Writable(es[i])
  {
    if es == [] then [] else Der(es[0].tag, es[0].value) + DerAll(es[1..])
  }

  lemma {:induction false} ReadUndoesDerAll(es: seq<Element>, rest: seq<byte>)
    requires forall i :: 0 <= i < |es| ==> Writable(es[i])
    ensures ReadTlv(DerAll(es) + rest) == es + ReadTlv(rest)
  {
    if es == [] {
      assert DerAll(es) + rest == rest;
    } else {
      ReadUndoesDerAll(es[1..], rest);
      DerHeaderIsHeader(es[0]);
      TileStep(DerHeader(es[0]), es[0], DerAll(es[1..]), es[1..], rest);
      assert [es[0]] + es[1..] == es;
    }
  }
}
