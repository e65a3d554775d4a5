/** Strings as the program sees them: UTF-8 bytes, hexadecimal text and line-structured statements. */
module Text {
  import opened Foundation

  // ---------------------------------------------------------------- UTF-8

  /** The UTF-8 bytes of one character (section 3 of RFC 3629). */
  function Utf8Char(c: char): (b: Bytes)
    ensures 1 <= |b| <= 4
  {
    var n := c as int;
    if n < 0x80 then [n]
    else if n < 0x800 then [0xC0 + n / 64, 0x80 + n % 64]
    else if n < 0x1_0000 then [0xE0 + n / 64 / 64, 0x80 + n / 64 % 64, 0x80 + n % 64]
    else [0xF0 + n / 64 / 64 / 64, 0x80 + n / 64 / 64 % 64, 0x80 + n / 64 % 64, 0x80 + n % 64]
  }

  function Utf8(s: string): Bytes {
    if s == "" then [] else Utf8Char(s[0]) + Utf8(s[1..])
  }

  /** The first byte of a character fixes how many bytes it takes. */
  lemma Utf8CharWidth(c: char, d: char)
    requires Utf8Char(c)[0] == Utf8Char(d)[0]
    ensures |Utf8Char(c)| == |Utf8Char(d)|
  {
  }

  lemma DigitsInjective(m: nat, n: nat)
    requires m / 64 == n / 64 && m % 64 == n % 64
    ensures m == n
  {
  }

  lemma Utf8CharInjective(c: char, d: char)
    requires Utf8Char(c) == Utf8Char(d)
    ensures c == d
  {
    var a, b := Utf8Char(c), Utf8Char(d);
    var m, n := c as int, d as int;
    assert forall i :: 0 <= i < |a| ==> a[i] == b[i];
    if |a| == 2 {
      DigitsInjective(m, n);
    } else if |a| == 3 {
      DigitsInjective(m / 64, n / 64);
      DigitsInjective(m, n);
    } else if |a| == 4 {
      DigitsInjective(m / 64 / 64, n / 64 / 64);
      DigitsInjective(m / 64, n / 64);
      DigitsInjective(m, n);
    }
  }

  lemma {:induction false} Utf8Injective(s: string, t: string)
    requires Utf8(s) == Utf8(t)
    ensures s == t
  {
    if s != "" && t != "" {
      var a, b := Utf8Char(s[0]), Utf8Char(t[0]);
      assert Utf8(s)[0] == a[0] && Utf8(t)[0] == b[0];
      Utf8CharWidth(s[0], t[0]);
      SplitEqual(a, Utf8(s[1..]), b, Utf8(t[1..]));
      Utf8CharInjective(s[0], t[0]);
      Utf8Injective(s[1..], t[1..]);
      assert s == [s[0]] + s[1..] && t == [t[0]] + t[1..];
    }
  }

  // ---------------------------------------------------------------- hexadecimal

  predicate IsLowerHexDigit(c: char) {
    '0' <= c <= '9' || 'a' <= c <= 'f'
  }

  function HexDigit(n: nat): (c: char)
    requires n < 16
    ensures IsLowerHexDigit(c)
  {
    if n < 10 then '0' + n as char else 'a' + (n - 10) as char
  }

  /** Value of a hexadecimal digit of either case, as the `hex` crate decodes it. */
  function HexValue(c: char): (r: Option<nat>)
    ensures r.Some? ==> r.value < 16
  {
    if '0' <= c <= '9' then Some(c as int - '0' as int)
    else if 'a' <= c <= 'f' then Some(c as int - 'a' as int + 10)
    else if 'A' <= c <= 'F' then Some(c as int - 'A' as int + 10)
    else None
  }

  lemma HexDigitRoundTrip(n: nat)
    requires n < 16
    ensures HexValue(HexDigit(n)) == Some(n)
  {
  }

  lemma HexValueRoundTrip(c: char)
    requires IsLowerHexDigit(c)
    ensures HexValue(c).Some? && HexDigit(HexValue(c).value) == c
  {
  }

  predicate AllLowerHex(s: string) {
    forall i :: 0 <= i < |s| ==> IsLowerHexDigit(s[i])
  }

  function HexEncode(b: Bytes): (s: string)
    ensures |s| == 2 * |b| && AllLowerHex(s)
  {
    if b == [] then ""
    else [HexDigit(b[0] / 16), HexDigit(b[0] % 16)] + HexEncode(b[1..])
  }

  /** `hex::decode`: an even number of hexadecimal digits of either case. */
  function HexDecode(s: string): (r: Option<Bytes>)
    ensures r.Some? ==> |s| == 2 * |r.value|
  {
    if s == "" then Some([])
    else if |s| == 1 then None
    else
      var hi :- HexValue(s[0]);
      var lo :- HexValue(s[1]);
      var rest :- HexDecode(s[2..]);
      Some([hi * 16 + lo] + rest)
  }

  lemma {:induction false} HexRoundTrip(b: Bytes)
    ensures HexDecode(HexEncode(b)) == Some(b)
  {
    if b != [] {
      var s := HexEncode(b);
      HexDigitRoundTrip(b[0] / 16);
      HexDigitRoundTrip(b[0] % 16);
      HexRoundTrip(b[1..]);
      assert s[0] == HexDigit(b[0] / 16) && s[1] == HexDigit(b[0] % 16);
      assert s[2..] == HexEncode(b[1..]);
      assert b == [b[0]] + b[1..];
    }
  }

  lemma NibblesOfByte(hi: nat, lo: nat)
    requires hi < 16 && lo < 16
    ensures (hi * 16 + lo) / 16 == hi && (hi * 16 + lo) % 16 == lo
  {
  }

  /** Lowercase hexadecimal text of even length is exactly the image of the encoder. */
  lemma {:induction false} HexTextRoundTrip(s: string)
    requires AllLowerHex(s) && |s| % 2 == 0
    ensures HexDecode(s).Some? && HexEncode(HexDecode(s).value) == s
  {
    if s != "" {
      HexValueRoundTrip(s[0]);
      HexValueRoundTrip(s[1]);
      HexTextRoundTrip(s[2..]);
      var hi, lo, rest := HexValue(s[0]).value, HexValue(s[1]).value, HexDecode(s[2..]).value;
      NibblesOfByte(hi, lo);
      HexEncodeCons(hi * 16 + lo, rest);
      assert s == [s[0], s[1]] + s[2..];
    }
  }

  /** Each byte is written as two digits, the high one first. */
  lemma {:induction false} HexEncodeAt(b: Bytes, i: nat)
    requires i < |b|
    ensures HexEncode(b)[2 * i] == "0123456789abcdef"[b[i] / 16]
    ensures HexEncode(b)[2 * i + 1] == "0123456789abcdef"[b[i] % 16]
  {
    if i > 0 {
      HexEncodeAt(b[1..], i - 1);
      assert HexEncode(b)[2..] == HexEncode(b[1..]);
      assert HexEncode(b)[2 * i] == HexEncode(b)[2..][2 * (i - 1)];
      assert HexEncode(b)[2 * i + 1] == HexEncode(b)[2..][2 * (i - 1) + 1];
    } else {
      DigitOf(b[0] / 16);
      DigitOf(b[0] % 16);
    }
  }

  lemma DigitOf(n: nat)
    requires n < 16
    ensures HexDigit(n) == "0123456789abcdef"[n]
  {
  }

  lemma HexEncodeCons(head: byte, rest: Bytes)
    ensures HexEncode([head] + rest) == [HexDigit(head / 16), HexDigit(head % 16)] + HexEncode(rest)
  {
    assert ([head] + rest)[1..] == rest;
  }

  // ---------------------------------------------------------------- white space

  /** Characters with the Unicode `White_Space` property. */
  predicate IsWhitespace(c: char) {
    var n := c as int;
    || 9 <= n <= 13 || n == 0x20 || n == 0x85 || n == 0xA0 || n == 0x1680
    || 0x2000 <= n <= 0x200A || n == 0x2028 || n == 0x2029 || n == 0x202F || n == 0x205F || n == 0x3000
  }

  function TrimStart(s: string): string {
    if s != "" && IsWhitespace(s[0]) then TrimStart(s[1..]) else s
  }

  function TrimEnd(s: string): string {
    if s != "" && IsWhitespace(s[|s| - 1]) then TrimEnd(s[..|s| - 1]) else s
  }

  predicate AllWhitespace(s: string) {
    forall i :: 0 <= i < |s| ==> IsWhitespace(s[i])
  }

  lemma {:induction false} TrimStartMeans(s: string) returns (before: string)
    ensures s == before + TrimStart(s) && AllWhitespace(before)
    ensures TrimStart(s) != "" ==> !IsWhitespace(TrimStart(s)[0])
  {
    hide IsWhitespace;
    before := "";
    if s != "" && IsWhitespace(s[0]) {
      var rest := TrimStartMeans(s[1..]);
      before := [s[0]] + rest;
    }
  }

  lemma {:induction false} TrimEndMeans(s: string) returns (after: string)
    ensures s == TrimEnd(s) + after && AllWhitespace(after)
    ensures TrimEnd(s) != "" ==> !IsWhitespace(TrimEnd(s)[|TrimEnd(s)| - 1])
    decreases |s|
  {
    hide IsWhitespace;
    after := "";
    if s != "" && IsWhitespace(s[|s| - 1]) {
      var rest := TrimEndMeans(s[..|s| - 1]);
      after := rest + [s[|s| - 1]];
    }
  }

  /** Trimming takes white space off both ends, and nothing else. */
  lemma TrimMeans(s: string) returns (before: string, after: string)
    ensures var t := TrimEnd(TrimStart(s));
            && s == before + t + after && AllWhitespace(before) && AllWhitespace(after)
            && (t != "" ==> !IsWhitespace(t[0]) && !IsWhitespace(t[|t| - 1]))
  {
    hide IsWhitespace, TrimStart, TrimEnd, AllWhitespace;
    before := TrimStartMeans(s);
    after := TrimEndMeans(TrimStart(s));
    var t := TrimEnd(TrimStart(s));
    assert t != "" ==> t[0] == TrimStart(s)[0];
  }

  lemma NothingToTrim(s: string)
    requires AllLowerHex(s)
    ensures TrimEnd(TrimStart(s)) == s
  {
    if s != "" {
      assert IsLowerHexDigit(s[0]) && IsLowerHexDigit(s[|s| - 1]);
    }
  }

  lemma {:induction false} TrimStartOf(before: string, rest: string)
    requires AllWhitespace(before) && (rest == "" || !IsWhitespace(rest[0]))
    ensures TrimStart(before + rest) == rest
  {
    hide IsWhitespace;
    if before == "" {
      assert before + rest == rest;
    } else {
      TrimStartOf(before[1..], rest);
      assert (before + rest)[1..] == before[1..] + rest;
    }
  }

  lemma {:induction false} TrimEndOf(rest: string, after: string)
    requires AllWhitespace(after) && (rest == "" || !IsWhitespace(rest[|rest| - 1]))
    ensures TrimEnd(rest + after) == rest
    decreases |after|
  {
    hide IsWhitespace;
    if after == "" {
      assert rest + after == rest;
    } else {
      TrimEndOf(rest, after[..|after| - 1]);
      assert (rest + after)[..|rest + after| - 1] == rest + after[..|after| - 1];
    }
  }

  lemma {:induction false} DecodedDigits(s: string)
    requires HexDecode(s).Some? && s != ""
    ensures !IsWhitespace(s[0]) && !IsWhitespace(s[|s| - 1])
  {
    assert HexValue(s[0]).Some? && HexValue(s[1]).Some?;
    if |s| > 2 {
      DecodedDigits(s[2..]);
    }
  }

  /** Text that decodes to `bytes` once the white space around it is taken off. */
  ghost predicate IsPaddedHex(text: string, bytes: Bytes) {
    exists before, t, after ::
      text == before + t + after && AllWhitespace(before) && AllWhitespace(after) && HexDecode(t) == Some(bytes)
  }

  /** Trimming finds the hexadecimal text, whatever white space surrounds it. */
  lemma TrimmedHex(text: string, bytes: Bytes)
    requires bytes != []
    ensures HexDecode(TrimEnd(TrimStart(text))) == Some(bytes) <==> IsPaddedHex(text, bytes)
  {
    hide IsWhitespace, TrimStart, TrimEnd, AllWhitespace, HexDecode;
    if HexDecode(TrimEnd(TrimStart(text))) == Some(bytes) {
      var before, after := TrimMeans(text);
    }
    if IsPaddedHex(text, bytes) {
      var before, t, after :|
        text == before + t + after && AllWhitespace(before) && AllWhitespace(after) && HexDecode(t) == Some(bytes);
      DecodedDigits(t);
      assert text == before + (t + after) && (t + after)[0] == t[0];
      TrimStartOf(before, t + after);
      TrimEndOf(t, after);
    }
  }

  // ---------------------------------------------------------------- lines

  predicate NoNewline(s: string) {
    '\n' !in s
  }

  /** A newline-terminated line is the same wherever the first newline ends it. */
  lemma FirstLineUnique(a: string, x: string, b: string, y: string)
    requires NoNewline(a) && NoNewline(b)
    requires a + "\n" + x == b + "\n" + y
    ensures a == b && x == y
  {
    var s, t := a + "\n" + x, b + "\n" + y;
    assert s[|a|] == '\n' && t[|b|] == '\n';
    assert forall i :: 0 <= i < |a| ==> s[i] == a[i] != '\n';
    assert forall i :: 0 <= i < |b| ==> t[i] == b[i] != '\n';
    assert |a| == |b|;
    SplitEqual(a + "\n", x, b + "\n", y);
    SplitEqual(a, "\n", b, "\n");
  }
}
