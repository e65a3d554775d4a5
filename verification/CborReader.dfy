/**
 A reader of CBOR written from the other side: it takes the shortest form of every item the program
 writes (section 4.2.1 of RFC 8949) and nothing else.
 */
module CborReader {
  import opened Foundation
  import opened Text
  import opened Cbor

  // ---------------------------------------------------------------- UTF-8

  predicate IsContinuation(b: byte) {
    0x80 <= b < 0xC0
  }

  /** One character off the front, in the shortest of the forms of section 3 of RFC 3629. */
  function ReadChar(b: Bytes): (r: Option<(char, Bytes)>)
    ensures r.Some? ==> |r.value.1| < |b|
  {
    if b == [] then None
    else if b[0] < 0x80 then Some((b[0] as char, b[1..]))
    else if |b| < 2 || !IsContinuation(b[1]) then None
    else if 0xC0 <= b[0] < 0xE0 then
      var n := (b[0] as int - 0xC0) * 0x40 + (b[1] as int - 0x80);
      if n >= 0x80 then Some((n as char, b[2..])) else None
    else if |b| < 3 || !IsContinuation(b[2]) then None
    else if 0xE0 <= b[0] < 0xF0 then
      var n := (b[0] as int - 0xE0) * 0x1000 + (b[1] as int - 0x80) * 0x40 + (b[2] as int - 0x80);
      if n >= 0x800 && !(0xD800 <= n < 0xE000) then Some((n as char, b[3..])) else None
    else if |b| < 4 || !IsContinuation(b[3]) then None
    else if 0xF0 <= b[0] < 0xF8 then
      var n := (b[0] as int - 0xF0) * 0x4_0000 + (b[1] as int - 0x80) * 0x1000 + (b[2] as int - 0x80) * 0x40
          + (b[3] as int - 0x80);
      if 0x1_0000 <= n < 0x11_0000 then Some((n as char, b[4..])) else None
    else None
  }

  function ReadUtf8(b: Bytes): Option<string>
    decreases |b|
  {
    if b == [] then Some("")
    else
      var (c, rest) :- ReadChar(b);
      var s :- ReadUtf8(rest);
      Some([c] + s)
  }

  lemma ReadCharOf(c: char, rest: Bytes)
    ensures ReadChar(Utf8Char(c) + rest) == Some((c, rest))
  {
    var b, n := Utf8Char(c) + rest, c as int;
    assert b[|Utf8Char(c)|..] == rest;
    assert forall i :: 0 <= i < |Utf8Char(c)| ==> b[i] == Utf8Char(c)[i];
    assert n == n / 64 * 64 + n % 64;
    assert n / 64 == n / 64 / 64 * 64 + n / 64 % 64;
  }

  lemma {:induction false} ReadUtf8Of(s: string)
    ensures ReadUtf8(Utf8(s)) == Some(s)
  {
    if s != "" {
      ReadCharOf(s[0], Utf8(s[1..]));
      ReadUtf8Of(s[1..]);
      assert s == [s[0]] + s[1..];
    }
  }

  // ---------------------------------------------------------------- items

  /** Major type, argument, and the bytes after the head; an argument in a longer form than needed is refused. */
  function ReadHead(b: Bytes): (r: Option<(nat, nat, Bytes)>)
    ensures r.Some? ==> |r.value.2| < |b| && r.value.1 < TWO_64
  {
    if b == [] then None
    else
      var major, info := b[0] / 32, b[0] % 32;
      if info < 24 then Some((major, info, b[1..]))
      else
        var width := if info == 24 then 1 else if info == 25 then 2 else if info == 26 then 4 else 8;
        if info > 27 || |b| < 1 + width then None
        else
          Pow256Values();
          var n := FromBigEndian(b[1..1 + width]);
          var least := if info == 24 then 24 else if info == 25 then 0x100 else if info == 26 then 0x1_0000 else TWO_32;
          if n < least then None else Some((major, n, b[1 + width..]))
  }

  function ReadItem(b: Bytes): (r: Option<(Cbor, Bytes)>)
    ensures r.Some? ==> |r.value.1| < |b|
    decreases |b|, 0
  {
    var (major, n, rest) :- ReadHead(b);
    if major == 0 then Some((Uint(n), rest))
    else if major == 1 then Some((Nint(n), rest))
    else if major == 2 then
      if n <= |rest| then Some((Bstr(rest[..n]), rest[n..])) else None
    else if major == 3 then
      if n > |rest| then None
      else
        var text :- ReadUtf8(rest[..n]);
        Some((Tstr(text), rest[n..]))
    else if major == 4 then
      var (items, after) :- ReadItems(rest, n);
      Some((Arr(items), after))
    else if major == 5 then
      var (entries, after) :- ReadItems(rest, 2 * n);
      Some((Map(entries), after))
    else if major == 6 then
      var (inner, after) :- ReadItem(rest);
      Some((Tag(n, inner), after))
    else if n == 20 then Some((Bool(false), rest))
    else if n == 21 then Some((Bool(true), rest))
    else if n == 22 then Some((Null, rest))
    else None
  }

  function ReadItems(b: Bytes, count: nat): (r: Option<(seq<Cbor>, Bytes)>)
    ensures r.Some? ==> |r.value.1| <= |b| && |r.value.0| == count
    decreases |b|, count
  {
    if count == 0 then Some(([], b))
    else
      var (first, rest) :- ReadItem(b);
      var (others, after) :- ReadItems(rest, count - 1);
      Some(([first] + others, after))
  }

  lemma ReadHeadOf(major: nat, n: nat, rest: Bytes)
    requires major < 8 && n < TWO_64
    ensures ReadHead(Head(major, n) + rest) == Some((major, n, rest))
  {
    Pow256Values();
    var h := Head(major, n);
    var b := h + rest;
    HeadShape(major, n);
    assert b[0] == h[0] && b[|h|..] == rest && b[1..|h|] == h[1..];
    assert h[0] == major * 32 + h[0] % 32;
  }

  /** Every item that is written is read back, with the bytes after it left alone. */
  lemma {:induction false} ReadItemOf(v: Cbor, rest: Bytes)
    requires Fits(v)
    ensures ReadItem(Encode(v) + rest) == Some((v, rest))
    decreases v, 1
  {
    hide ReadHead, Head, ReadUtf8, Utf8;
    var (major, n, payload) := Parts(v);
    var b := Encode(v) + rest;
    assert b == Head(major, n) + (payload + rest);
    ReadHeadOf(major, n, payload + rest);
    match v
    case Bstr(_) =>
      assert (payload + rest)[..n] == payload && (payload + rest)[n..] == rest;
    case Tstr(s) =>
      assert (payload + rest)[..n] == payload && (payload + rest)[n..] == rest;
      ReadUtf8Of(s);
    case Arr(items) => ReadItemsOf(items, rest);
    case Map(entries) => ReadItemsOf(entries, rest);
    case Tag(_, inner) => ReadItemOf(inner, rest);
    case _ => assert payload + rest == rest;
  }

  lemma {:induction false} ReadItemsOf(vs: seq<Cbor>, rest: Bytes)
    requires AllFit(vs)
    ensures ReadItems(EncodeAll(vs) + rest, |vs|) == Some((vs, rest))
    decreases vs, 0
  {
    if vs == [] {
      assert EncodeAll(vs) + rest == rest;
    } else {
      assert EncodeAll(vs) + rest == Encode(vs[0]) + (EncodeAll(vs[1..]) + rest);
      ReadItemOf(vs[0], EncodeAll(vs[1..]) + rest);
      ReadItemsOf(vs[1..], rest);
      assert vs == [vs[0]] + vs[1..];
    }
  }
}
