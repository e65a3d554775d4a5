/** Base64 and the SubjectPublicKeyInfo wrapping of Ed25519 public keys. */
module Spki {
  import opened Foundation

  // ---------------------------------------------------------------- base64 (section 4 of RFC 4648)

  /** The alphabet: upper case, lower case, digits, plus and slash. */
  function Letter(v: nat): char
    requires v < 64
  {
    if v < 26 then 'A' + v as char
    else if v < 52 then 'a' + (v - 26) as char
    else if v < 62 then '0' + (v - 52) as char
    else if v == 62 then '+'
    else '/'
  }

  function SextetOf(c: char): (r: Option<nat>)
    ensures r.Some? ==> r.value < 64
  {
    if 'A' <= c <= 'Z' then Some(c as int - 'A' as int)
    else if 'a' <= c <= 'z' then Some(c as int - 'a' as int + 26)
    else if '0' <= c <= '9' then Some(c as int - '0' as int + 52)
    else if c == '+' then Some(62)
    else if c == '/' then Some(63)
    else None
  }

  lemma AlphabetInverse(v: nat)
    requires v < 64
    ensures SextetOf(Letter(v)) == Some(v)
  {
  }

  /** The four characters of up to three bytes, padded with `=`. */
  function Group(b0: byte, b1: byte, b2: byte, count: nat): (g: string)
    ensures |g| == 4
  {
    var n := b0 * 0x1_0000 + b1 * 0x100 + b2;
    [Letter(n / 0x4_0000 % 64),
     Letter(n / 0x1000 % 64),
     if count > 1 then Letter(n / 64 % 64) else '=',
     if count > 2 then Letter(n % 64) else '=']
  }

  function Base64(b: Bytes): string {
    if b == [] then ""
    else if |b| == 1 then Group(b[0], 0, 0, 1)
    else if |b| == 2 then Group(b[0], b[1], 0, 2)
    else Group(b[0], b[1], b[2], 3) + Base64(b[3..])
  }

  method Base64Encode(input: Bytes) returns (out: string)
    ensures out == Base64(input)
  {
    hide Group;
    out := "";
    var i := 0;
    while i < |input|
      invariant 0 <= i <= |input|
      invariant Base64(input) == out + Base64(input[i..])
      decreases |input| - i
    {
      var chunk := if i + 3 <= |input| then input[i..i + 3] else input[i..];
      var b0 := chunk[0];
      var b1 := if |chunk| > 1 then chunk[1] else 0;
      var b2 := if |chunk| > 2 then chunk[2] else 0;
      var group := Group(b0, b1, b2, |chunk|);
      assert |chunk| == 3 ==> input[i..][3..] == input[i + 3..];
      assert Base64(input[i..]) == group + Base64(input[i + |chunk|..]);
      assert out + Base64(input[i..]) == (out + group) + Base64(input[i + |chunk|..]);
      out := out + group;
      i := i + |chunk|;
    }
  }

  /** A strict decoder: padding only at the end, and no stray bits under it. */
  /** The three bytes that four sextets stand for. */
  function ThreeBytes(v0: nat, v1: nat, v2: nat, v3: nat): Bytes
    requires v0 < 64 && v1 < 64 && v2 < 64 && v3 < 64
  {
    [v0 * 4 + v1 / 16, v1 % 16 * 16 + v2 / 4, v2 % 4 * 64 + v3]
  }

  function Base64Decode(s: string): Option<Bytes> {
    if s == "" then Some([])
    else if |s| < 4 then None
    else
      var v0 :- SextetOf(s[0]);
      var v1 :- SextetOf(s[1]);
      if s[2..] == "==" then
        if v1 % 16 == 0 then Some([v0 * 4 + v1 / 16]) else None
      else
        var v2 :- SextetOf(s[2]);
        if s[3..] == "=" then
          if v2 % 4 == 0 then Some([v0 * 4 + v1 / 16, v1 % 16 * 16 + v2 / 4]) else None
        else
          var v3 :- SextetOf(s[3]);
          var rest :- Base64Decode(s[4..]);
          Some(ThreeBytes(v0, v1, v2, v3) + rest)
  }

  lemma Quotient64(q: nat, r: nat)
    requires r < 64
    ensures (q * 64 + r) / 64 == q && (q * 64 + r) % 64 == r
  {
  }

  lemma Quotient4096(q: nat, r: nat)
    requires r < 0x1000
    ensures (q * 0x1000 + r) / 0x1000 == q
  {
  }

  lemma Quotient262144(q: nat, r: nat)
    requires r < 0x4_0000
    ensures (q * 0x4_0000 + r) / 0x4_0000 == q
  {
  }

  /** The sextets of a group hold its bytes bit for bit. */
  lemma GroupSextets(b0: byte, b1: byte, b2: byte)
    ensures var n := b0 * 0x1_0000 + b1 * 0x100 + b2;
            && n / 0x4_0000 % 64 == b0 / 4
            && n / 0x1000 % 64 == b0 % 4 * 16 + b1 / 16
            && n / 64 % 64 == b1 % 16 * 4 + b2 / 64
            && n % 64 == b2 % 64
  {
    var q0, q1, q2 := b0 / 4, b1 / 16, b2 / 64;
    var r0, r1, r2 := b0 - q0 * 4, b1 - q1 * 16, b2 - q2 * 64;
    assert b0 == q0 * 4 + r0 && b1 == q1 * 16 + r1 && b2 == q2 * 64 + r2;
    Quotient262144(q0, r0 * 0x1_0000 + b1 * 0x100 + b2);
    Quotient4096(b0 * 16 + q1, r1 * 0x100 + b2);
    Quotient64(q0, r0 * 16 + q1);
    Quotient64(b0 * 1024 + b1 * 4 + q2, r2);
    Quotient64(b0 * 16 + q1, r1 * 4 + q2);
  }

  lemma SextetsGroup(v0: nat, v1: nat, v2: nat, v3: nat)
    requires v0 < 64 && v1 < 64 && v2 < 64 && v3 < 64
    ensures var b0, b1, b2 := v0 * 4 + v1 / 16, v1 % 16 * 16 + v2 / 4, v2 % 4 * 64 + v3;
            && b0 < 256 && b1 < 256 && b2 < 256
            && b0 / 4 == v0 && b0 % 4 * 16 + b1 / 16 == v1 && b1 % 16 * 4 + b2 / 64 == v2 && b2 % 64 == v3
  {
  }

  lemma GroupDecodes(b0: byte, b1: byte, b2: byte, count: nat)
    requires 1 <= count <= 3
    ensures var g := Group(b0, b1, b2, count);
            && SextetOf(g[0]) == Some(b0 / 4)
            && SextetOf(g[1]) == Some(b0 % 4 * 16 + b1 / 16)
            && (if count > 1 then SextetOf(g[2]) == Some(b1 % 16 * 4 + b2 / 64) else g[2] == '=')
            && (if count > 2 then SextetOf(g[3]) == Some(b2 % 64) else g[3] == '=')
  {
    hide SextetOf;
    var n := b0 * 0x1_0000 + b1 * 0x100 + b2;
    GroupSextets(b0, b1, b2);
    AlphabetInverse(n / 0x4_0000 % 64);
    AlphabetInverse(n / 0x1000 % 64);
    AlphabetInverse(n / 64 % 64);
    AlphabetInverse(n % 64);
  }

  lemma PadIsNoSextet()
    ensures SextetOf('=').None?
  {
  }

  lemma DecodeNothing()
    ensures Base64Decode("") == Some([])
  {
  }

  lemma DecodeFullGroup(g: string, rest: string, v0: nat, v1: nat, v2: nat, v3: nat)
    requires |g| == 4 && v0 < 64 && v1 < 64 && v2 < 64 && v3 < 64
    requires SextetOf(g[0]) == Some(v0) && SextetOf(g[1]) == Some(v1) && SextetOf(g[2]) == Some(v2)
             && SextetOf(g[3]) == Some(v3)
    requires Base64Decode(rest).Some?
    ensures Base64Decode(g + rest)
            == Some(ThreeBytes(v0, v1, v2, v3) + Base64Decode(rest).value)
  {
    hide SextetOf, ThreeBytes;
    PadIsNoSextet();
    var s := g + rest;
    assert s[0] == g[0] && s[1] == g[1] && s[2] == g[2] && s[3] == g[3] && s[4..] == rest;
  }

  lemma DecodePaddedGroup(g: string, v0: nat, v1: nat)
    requires |g| == 4 && v0 < 64 && v1 < 64 && v1 % 16 == 0
    requires SextetOf(g[0]) == Some(v0) && SextetOf(g[1]) == Some(v1) && g[2] == '=' && g[3] == '='
    ensures Base64Decode(g) == Some([v0 * 4 + v1 / 16])
  {
    hide SextetOf;
    assert g[2..] == "==";
  }

  lemma DecodeHalfPaddedGroup(g: string, v0: nat, v1: nat, v2: nat)
    requires |g| == 4 && v0 < 64 && v1 < 64 && v2 < 64 && v2 % 4 == 0
    requires SextetOf(g[0]) == Some(v0) && SextetOf(g[1]) == Some(v1) && SextetOf(g[2]) == Some(v2) && g[3] == '='
    ensures Base64Decode(g) == Some([v0 * 4 + v1 / 16, v1 % 16 * 16 + v2 / 4])
  {
    hide SextetOf;
    PadIsNoSextet();
    assert g[2..][0] == g[2] && g[3..] == "=";
  }

  lemma {:induction false} Base64RoundTrip(b: Bytes)
    ensures Base64Decode(Base64(b)) == Some(b)
  {
    hide SextetOf, Group, Base64Decode;
    if b == [] {
      DecodeNothing();
    } else {
      var b1, b2 := if |b| > 1 then b[1] else 0, if |b| > 2 then b[2] else 0;
      var g := Group(b[0], b1, b2, if |b| > 3 then 3 else |b|);
      GroupDecodes(b[0], b1, b2, if |b| > 3 then 3 else |b|);
      BytesOfSextets(b[0], b1, b2);
      if |b| == 1 {
        DecodePaddedGroup(g, b[0] / 4, b[0] % 4 * 16);
        assert b == [b[0]];
      } else if |b| == 2 {
        DecodeHalfPaddedGroup(g, b[0] / 4, b[0] % 4 * 16 + b1 / 16, b1 % 16 * 4);
        assert b == [b[0], b[1]];
      } else {
        Base64RoundTrip(b[3..]);
        DecodeFullGroup(g, Base64(b[3..]), b[0] / 4, b[0] % 4 * 16 + b1 / 16, b1 % 16 * 4 + b2 / 64, b2 % 64);
        assert b == [b[0], b[1], b[2]] + b[3..];
      }
    }
  }

  lemma BytesOfSextets(b0: byte, b1: byte, b2: byte)
    ensures var v0, v1, v2, v3 := b0 / 4, b0 % 4 * 16 + b1 / 16, b1 % 16 * 4 + b2 / 64, b2 % 64;
            v0 * 4 + v1 / 16 == b0 && v1 % 16 * 16 + v2 / 4 == b1 && v2 % 4 * 64 + v3 == b2
  {
  }

  lemma AlphabetOf(c: char)
    requires SextetOf(c).Some?
    ensures Letter(SextetOf(c).value) == c
  {
  }

  /** The decoder accepts nothing but what the encoder writes. */
  lemma {:induction false} Base64Exact(s: string)
    requires Base64Decode(s).Some?
    ensures Base64(Base64Decode(s).value) == s
  {
    hide SextetOf, Group;
    if s != "" {
      var b := Base64Decode(s).value;
      if s[2..] == "==" {
        OneByteGroup(s);
        assert s == [s[0], s[1]] + s[2..];
      } else if s[3..] == "=" {
        TwoByteGroup(s);
        assert s == [s[0], s[1], s[2]] + s[3..];
      } else {
        ThreeByteGroup(s[0], s[1], s[2], s[3], b[0], b[1], b[2]);
        Base64Exact(s[4..]);
        assert b[3..] == Base64Decode(s[4..]).value;
        assert s == [s[0], s[1], s[2], s[3]] + s[4..];
      }
    }
  }

  lemma OneByteGroup(s: string)
    requires |s| == 4 && s[2..] == "==" && Base64Decode(s).Some?
    ensures |Base64Decode(s).value| == 1
    ensures Group(Base64Decode(s).value[0], 0, 0, 1) == [s[0], s[1], '=', '=']
  {
    hide SextetOf;
    var v0, v1 := SextetOf(s[0]).value, SextetOf(s[1]).value;
    SextetsGroup(v0, v1, 0, 0);
    GroupSextets(v0 * 4 + v1 / 16, 0, 0);
    AlphabetOf(s[0]);
    AlphabetOf(s[1]);
  }

  lemma TwoByteGroup(s: string)
    requires |s| == 4 && s[2..] != "==" && s[3..] == "=" && Base64Decode(s).Some?
    ensures |Base64Decode(s).value| == 2
    ensures Group(Base64Decode(s).value[0], Base64Decode(s).value[1], 0, 2) == [s[0], s[1], s[2], '=']
  {
    hide SextetOf;
    var v0, v1, v2 := SextetOf(s[0]).value, SextetOf(s[1]).value, SextetOf(s[2]).value;
    SextetsGroup(v0, v1, v2, 0);
    GroupSextets(v0 * 4 + v1 / 16, v1 % 16 * 16 + v2 / 4, 0);
    AlphabetOf(s[0]);
    AlphabetOf(s[1]);
    AlphabetOf(s[2]);
  }

  lemma ThreeByteGroup(c0: char, c1: char, c2: char, c3: char, b0: byte, b1: byte, b2: byte)
    requires SextetOf(c0).Some? && SextetOf(c1).Some? && SextetOf(c2).Some? && SextetOf(c3).Some?
    requires b0 == SextetOf(c0).value * 4 + SextetOf(c1).value / 16
    requires b1 == SextetOf(c1).value % 16 * 16 + SextetOf(c2).value / 4
    requires b2 == SextetOf(c2).value % 4 * 64 + SextetOf(c3).value
    ensures Group(b0, b1, b2, 3) == [c0, c1, c2, c3]
  {
    hide SextetOf;
    SextetsGroup(SextetOf(c0).value, SextetOf(c1).value, SextetOf(c2).value, SextetOf(c3).value);
    GroupSextets(b0, b1, b2);
    AlphabetOf(c0);
    AlphabetOf(c1);
    AlphabetOf(c2);
    AlphabetOf(c3);
  }

  /** Four characters for every three bytes begun; as many `=` as bytes are missing from the last three. */
  lemma {:induction false} Base64Shape(b: Bytes)
    ensures |Base64(b)| == (|b| + 2) / 3 * 4
    ensures b != [] ==>
              var s, pads := Base64(b), (3 - |b| % 3) % 3;
              forall i :: 0 <= i < |s| ==> (s[i] == '=' <==> i >= |s| - pads)
  {
    hide SextetOf, Group;
    PadIsNoSextet();
    if b != [] {
      var b1, b2 := if |b| > 1 then b[1] else 0, if |b| > 2 then b[2] else 0;
      GroupDecodes(b[0], b1, b2, if |b| > 3 then 3 else |b|);
      if |b| >= 3 {
        Base64Shape(b[3..]);
        var s, t := Base64(b), Base64(b[3..]);
        assert forall i :: 4 <= i < |s| ==> s[i] == t[i - 4];
      }
    }
  }

  // ---------------------------------------------------------------- SPKI (section 4 of RFC 8410)

  datatype KeyError = InvalidPublicKey(length: nat)

  const SPKI_PREFIX: Bytes := [0x30, 0x2a, 0x30, 0x05, 0x06, 0x03, 0x2b, 0x65, 0x70, 0x03, 0x21, 0x00]

  const PEM_HEADER := "-----BEGIN PUBLIC KEY-----\n"
  const PEM_FOOTER := "\n-----END PUBLIC KEY-----\n"

  method Ed25519SpkiDer(publicKey: Bytes) returns (r: Result<Bytes, KeyError>)
    ensures r == if |publicKey| == 32 then Ok(SPKI_PREFIX + publicKey) else Err(InvalidPublicKey(|publicKey|))
  {
    if |publicKey| != 32 {
      return Err(InvalidPublicKey(|publicKey|));
    }
    var der := new byte[44](_ => 0);
    forall i | 0 <= i < 12 {
      der[i] := SPKI_PREFIX[i];
    }
    forall i | 12 <= i < 44 {
      der[i] := publicKey[i - 12];
    }
    assert der[..] == SPKI_PREFIX + publicKey;
    return Ok(der[..]);
  }

  /**
   The DER structure around a key (section 4 of RFC 8410): a sequence of everything, holding the
   algorithm as a sequence of one object identifier, 1.3.101.112, and the key as a bit string without
   unused bits. Every length octet counts what follows it.
   */
  lemma DerStructure(publicKey: Bytes)
    requires |publicKey| == 32
    ensures var der := SPKI_PREFIX + publicKey;
            && der[0] == 0x30 && der[1] == |der[2..]|
            && der[2] == 0x30 && der[3] == |der[4..9]|
            && der[4] == 0x06 && der[5] == |der[6..9]| && der[6] == 1 * 40 + 3 && der[7] == 101 && der[8] == 112
            && der[9] == 0x03 && der[10] == |der[11..]| && der[11] == 0 && der[12..] == publicKey
  {
  }

  function Pem(publicKey: Bytes): string
    requires |publicKey| == 32
  {
    PEM_HEADER + Base64(SPKI_PREFIX + publicKey) + PEM_FOOTER
  }

  method Ed25519SpkiPem(publicKey: Bytes) returns (r: Result<string, KeyError>)
    ensures r == if |publicKey| == 32 then Ok(Pem(publicKey)) else Err(InvalidPublicKey(|publicKey|))
  {
    var der := Ed25519SpkiDer(publicKey);
    if der.Err? {
      return Err(der.error);
    }
    var body := Base64Encode(der.value);
    return Ok(PEM_HEADER + body + PEM_FOOTER);
  }

  /** Reads the key back out of a PEM block, as an outside verifier would. */
  function KeyFromPem(pem: string): Option<Bytes> {
    var h, f := |PEM_HEADER|, |PEM_FOOTER|;
    if |pem| < h + f || pem[..h] != PEM_HEADER || pem[|pem| - f..] != PEM_FOOTER then None
    else
      var der :- Base64Decode(pem[h..|pem| - f]);
      if |der| == 44 && der[..12] == SPKI_PREFIX then Some(der[12..]) else None
  }

  /** The body of the block is one line of 60 characters, and the key comes back. */
  lemma PemRoundTrip(publicKey: Bytes)
    requires |publicKey| == 32
    ensures |Base64(SPKI_PREFIX + publicKey)| == 60
    ensures KeyFromPem(Pem(publicKey)) == Some(publicKey)
  {
    hide Base64, Base64Decode;
    var der := SPKI_PREFIX + publicKey;
    var body, pem := Base64(der), Pem(publicKey);
    Base64Shape(der);
    Base64RoundTrip(der);
    assert pem[..|PEM_HEADER|] == PEM_HEADER;
    assert pem[|PEM_HEADER|..|pem| - |PEM_FOOTER|] == body;
    assert pem[|pem| - |PEM_FOOTER|..] == PEM_FOOTER;
    assert der[..12] == SPKI_PREFIX && der[12..] == publicKey;
  }
}
