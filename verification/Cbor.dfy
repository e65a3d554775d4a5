/**
 The part of CBOR the program writes, in the shortest form its serializer emits (section 4.2.1 of
 RFC 8949). The encoding is prefix-free, so every byte string has at most one reading.
 */
module Cbor {
  import opened Foundation
  import opened Text

  /** `Map` lists its entries flat: key, value, key, value, in serialization order. */
  datatype Cbor =
    | Uint(n: u64)
    | Nint(n: u64)
    | Bstr(bytes: Bytes)
    | Tstr(text: string)
    | Arr(items: seq<Cbor>)
    | Map(entries: seq<Cbor>)
    | Tag(tag: u64, tagged: Cbor)
    | Bool(b: bool)
    | Null

  /** Every length fits the 64-bit argument of its head. */
  predicate Fits(v: Cbor)
    decreases v, 1
  {
    match v
    case Bstr(b) => |b| < TWO_64
    case Tstr(s) => |Utf8(s)| < TWO_64
    case Arr(items) => |items| < TWO_64 && AllFit(items)
    case Map(entries) => |entries| < TWO_64 && |entries| % 2 == 0 && AllFit(entries)
    case Tag(_, inner) => Fits(inner)
    case _ => true
  }

  predicate AllFit(vs: seq<Cbor>)
    decreases vs, 0
  {
    vs == [] || (Fits(vs[0]) && AllFit(vs[1..]))
  }

  /** Initial byte and shortest argument of a data item. */
  function Head(major: nat, n: nat): (b: Bytes)
    requires major < 8
    ensures |b| >= 1
  {
    if n < 24 then [major * 32 + n]
    else if n < 0x100 then [major * 32 + 24] + BigEndian(n, 1)
    else if n < 0x1_0000 then [major * 32 + 25] + BigEndian(n, 2)
    else if n < TWO_32 then [major * 32 + 26] + BigEndian(n, 4)
    else [major * 32 + 27] + BigEndian(n, 8)
  }

  function Encode(v: Cbor): (b: Bytes)
    decreases v, 1
  {
    match v
    case Uint(n) => Head(0, n)
    case Nint(n) => Head(1, n)
    case Bstr(b) => Head(2, |b|) + b
    case Tstr(s) => Head(3, |Utf8(s)|) + Utf8(s)
    case Arr(items) => Head(4, |items|) + EncodeAll(items)
    case Map(entries) => Head(5, |entries| / 2) + EncodeAll(entries)
    case Tag(t, inner) => Head(6, t) + Encode(inner)
    case Bool(b) => Head(7, if b then 21 else 20)
    case Null => Head(7, 22)
  }

  function EncodeAll(vs: seq<Cbor>): Bytes
    decreases vs, 0
  {
    if vs == [] then [] else Encode(vs[0]) + EncodeAll(vs[1..])
  }

  /** An item takes no more bytes than the list it is in. */
  lemma {:induction false} ItemLength(vs: seq<Cbor>, i: nat)
    requires i < |vs|
    ensures |Encode(vs[i])| <= |EncodeAll(vs)|
    decreases i
  {
    if i > 0 {
      ItemLength(vs[1..], i - 1);
    }
  }

  lemma EntryLength(entries: seq<Cbor>, i: nat)
    requires i < |entries|
    ensures |Encode(entries[i])| < |Encode(Map(entries))|
  {
    hide Head;
    ItemLength(entries, i);
  }

  lemma {:induction false} Utf8AtLeast(s: string)
    ensures |Utf8(s)| >= |s|
  {
    if s != "" {
      Utf8AtLeast(s[1..]);
    }
  }

  lemma TextLength(s: string)
    ensures |Encode(Tstr(s))| > |s|
  {
    Utf8AtLeast(s);
  }

  /** The width of the argument that follows an initial byte. */
  function ArgumentWidth(first: byte): nat {
    var info := first % 32;
    if info == 24 then 1 else if info == 25 then 2 else if info == 26 then 4 else if info == 27 then 8 else 0
  }

  lemma Pow256Values()
    ensures Pow256(1) == 0x100 && Pow256(2) == 0x1_0000 && Pow256(4) == TWO_32 && Pow256(8) == TWO_64
  {
    assert Pow256(4) == 256 * 256 * Pow256(2);
    assert Pow256(6) == 256 * 256 * Pow256(4);
    assert Pow256(8) == 256 * 256 * Pow256(6);
  }

  lemma HeadShape(major: nat, n: nat)
    requires major < 8 && n < TWO_64
    ensures var h := Head(major, n);
            && h[0] / 32 == major
            && |h| == 1 + ArgumentWidth(h[0])
            && n == if |h| == 1 then h[0] % 32 else FromBigEndian(h[1..])
  {
    Pow256Values();
    if n >= 24 {
      var k := if n < 0x100 then 1 else if n < 0x1_0000 then 2 else if n < TWO_32 then 4 else 8;
      BigEndianRoundTrip(n, k);
      assert Head(major, n)[1..] == BigEndian(n, k);
    }
  }

  lemma HeadPrefixFree(m1: nat, n1: nat, m2: nat, n2: nat, x: Bytes, y: Bytes)
    requires m1 < 8 && m2 < 8 && n1 < TWO_64 && n2 < TWO_64
    requires Head(m1, n1) + x == Head(m2, n2) + y
    ensures m1 == m2 && n1 == n2 && x == y
  {
    var g, h := Head(m1, n1), Head(m2, n2);
    HeadShape(m1, n1);
    HeadShape(m2, n2);
    assert g[0] == (g + x)[0] == (h + y)[0] == h[0];
    SplitEqual(g, x, h, y);
  }

  /** The major type and argument in the head of an item, and the bytes after the head. */
  function Parts(v: Cbor): (r: (nat, nat, Bytes))
    requires Fits(v)
    ensures r.0 < 8 && r.1 < TWO_64
    ensures Encode(v) == Head(r.0, r.1) + r.2
  {
    match v
    case Uint(n) => (0, n, [])
    case Nint(n) => (1, n, [])
    case Bstr(b) => (2, |b|, b)
    case Tstr(s) => (3, |Utf8(s)|, Utf8(s))
    case Arr(items) => (4, |items|, EncodeAll(items))
    case Map(entries) => (5, |entries| / 2, EncodeAll(entries))
    case Tag(t, inner) => (6, t, Encode(inner))
    case Bool(b) => (7, if b then 21 else 20, [])
    case Null => (7, 22, [])
  }

  lemma {:induction false} EncodePrefixFree(a: Cbor, b: Cbor, x: Bytes, y: Bytes)
    requires Fits(a) && Fits(b)
    requires Encode(a) + x == Encode(b) + y
    ensures a == b && x == y
    decreases a, 1
  {
    var (m, n, p) := Parts(a);
    var (m', n', p') := Parts(b);
    assert Encode(a) + x == Head(m, n) + (p + x);
    assert Encode(b) + y == Head(m', n') + (p' + y);
    HeadPrefixFree(m, n, m', n', p + x, p' + y);
    match a
    case Bstr(_) => SplitEqual(p, x, p', y);
    case Tstr(s) =>
      SplitEqual(p, x, p', y);
      Utf8Injective(s, b.text);
    case Arr(items) => EncodeAllPrefixFree(items, b.items, x, y);
    case Map(entries) => EncodeAllPrefixFree(entries, b.entries, x, y);
    case Tag(_, inner) => EncodePrefixFree(inner, b.tagged, x, y);
    case _ =>
      assert p == [] && p' == [];
      assert x == p + x && y == p' + y;
  }

  lemma {:induction false} EncodeAllPrefixFree(vs: seq<Cbor>, ws: seq<Cbor>, x: Bytes, y: Bytes)
    requires AllFit(vs) && AllFit(ws) && |vs| == |ws|
    requires EncodeAll(vs) + x == EncodeAll(ws) + y
    ensures vs == ws && x == y
    decreases vs, 0
  {
    if vs == [] {
      assert x == EncodeAll(vs) + x && y == EncodeAll(ws) + y;
    } else {
      var rest, rest' := EncodeAll(vs[1..]) + x, EncodeAll(ws[1..]) + y;
      assert EncodeAll(vs) + x == Encode(vs[0]) + rest;
      assert EncodeAll(ws) + y == Encode(ws[0]) + rest';
      EncodePrefixFree(vs[0], ws[0], rest, rest');
      EncodeAllPrefixFree(vs[1..], ws[1..], x, y);
      assert vs == [vs[0]] + vs[1..] && ws == [ws[0]] + ws[1..];
    }
  }

  lemma EncodeInjective(a: Cbor, b: Cbor)
    requires Fits(a) && Fits(b) && Encode(a) == Encode(b)
    ensures a == b
  {
    assert Encode(a) + [] == Encode(b) + [];
    EncodePrefixFree(a, b, [], []);
  }
}
