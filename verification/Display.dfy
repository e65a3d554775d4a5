/** Escaping untrusted text for a terminal and for inline Markdown. */
module Display {
  import opened Foundation
  import opened Text

  /** Unicode format and bidirectional control characters. */
  predicate IsFormatOrBidi(c: char) {
    var n := c as int;
    || n == 0xAD || 0x600 <= n <= 0x605 || n == 0x61C || n == 0x6DD || n == 0x70F || 0x890 <= n <= 0x891
    || n == 0x8E2 || n == 0x180E || 0x200B <= n <= 0x200F || 0x2028 <= n <= 0x202E || 0x2060 <= n <= 0x206F
    || n == 0xFEFF || 0xFFF9 <= n <= 0xFFFB || n == 0x110BD || n == 0x110CD || 0x13430 <= n <= 0x1343F
    || 0x1BCA0 <= n <= 0x1BCA3 || 0x1D173 <= n <= 0x1D17A || n == 0xE0001 || 0xE0020 <= n <= 0xE007F
  }

  predicate IsControl(c: char) {
    c as int < 0x20 || 0x7F <= c as int <= 0x9F
  }

  /** Characters that can change how the text around them is shown. */
  predicate IsHostile(c: char) {
    IsControl(c) || IsFormatOrBidi(c)
  }

  /** The characters that the documentation of the escaper lists, group by group. */
  lemma HostileAsDocumented(c: char)
    ensures var n := c as int;
            var controls := n <= 0x1F || n == 0x7F || 0x80 <= n <= 0x9F;
            var bidi := n in {0xAD, 0x61C, 0x180E, 0xFEFF} || 0x200B <= n <= 0x200F || 0x2028 <= n <= 0x202E
                        || 0x2060 <= n <= 0x206F || 0xFFF9 <= n <= 0xFFFB;
            var invisible := n in {0x6DD, 0x70F, 0x8E2, 0x110BD, 0x110CD} || 0x600 <= n <= 0x605
                             || 0x890 <= n <= 0x891 || 0x13430 <= n <= 0x1343F || 0x1BCA0 <= n <= 0x1BCA3
                             || 0x1D173 <= n <= 0x1D17A;
            var tags := n == 0xE0001 || 0xE0020 <= n <= 0xE007F;
            IsHostile(c) <==> controls || bidi || invisible || tags
  {
  }

  // ---------------------------------------------------------------- terminal escaping

  /** Lowercase hexadecimal digits of `n`, at least `width` of them. */
  function PaddedHex(n: nat, width: nat): (s: string)
    ensures |s| >= width && AllLowerHex(s) && s != ""
    decreases n, width
  {
    if n < 16 && width <= 1 then [HexDigit(n)]
    else PaddedHex(n / 16, if width > 0 then width - 1 else 0) + [HexDigit(n % 16)]
  }

  function EscapeChar(c: char): string {
    if c == '\\' then "\\\\"
    else if c as int < 0x20 || c as int == 0x7F then "\\x" + PaddedHex(c as int, 2)
    else if 0x80 <= c as int <= 0x9F || IsFormatOrBidi(c) then "\\u{" + PaddedHex(c as int, 4) + "}"
    else [c]
  }

  function Sanitized(value: string): string {
    if value == "" then "" else EscapeChar(value[0]) + Sanitized(value[1..])
  }

  method SanitizeDisplay(value: string) returns (out: string)
    ensures out == Sanitized(value)
  {
    hide EscapeChar;
    out := "";
    for i := 0 to |value|
      invariant Sanitized(value) == out + Sanitized(value[i..])
    {
      var ch := value[i];
      assert value[i..][1..] == value[i + 1..];
      assert out + Sanitized(value[i..]) == (out + EscapeChar(ch)) + Sanitized(value[i + 1..]);
      if ch == '\\' {
        EscapeBackslash(ch);
        out := out + "\\\\";
      } else if ch as int < 0x20 || ch as int == 0x7F {
        EscapeControl(ch);
        out := out + ("\\x" + PaddedHex(ch as int, 2));
      } else if 0x80 <= ch as int <= 0x9F || IsFormatOrBidi(ch) {
        EscapeFormat(ch);
        out := out + ("\\u{" + PaddedHex(ch as int, 4) + "}");
      } else {
        EscapePlain(ch);
        out := out + [ch];
      }
    }
  }

  lemma EscapeBackslash(c: char)
    requires c == '\\'
    ensures EscapeChar(c) == "\\\\"
  {
  }

  lemma EscapeControl(c: char)
    requires c as int < 0x20 || c as int == 0x7F
    ensures EscapeChar(c) == "\\x" + PaddedHex(c as int, 2)
  {
  }

  lemma EscapeFormat(c: char)
    requires 0x80 <= c as int <= 0x9F || IsFormatOrBidi(c)
    ensures EscapeChar(c) == "\\u{" + PaddedHex(c as int, 4) + "}"
  {
  }

  lemma EscapePlain(c: char)
    requires c != '\\' && !IsHostile(c)
    ensures EscapeChar(c) == [c]
  {
  }

  /** Value of a run of hexadecimal digits. */
  function HexNumber(s: string): Option<nat> {
    if s == "" then Some(0)
    else
      var front :- HexNumber(s[..|s| - 1]);
      var last :- HexValue(s[|s| - 1]);
      Some(front * 16 + last)
  }

  lemma {:induction false} HexNumberRoundTrip(n: nat, width: nat)
    ensures HexNumber(PaddedHex(n, width)) == Some(n)
    decreases n, width
  {
    var s := PaddedHex(n, width);
    HexDigitRoundTrip(n % 16);
    if n < 16 && width <= 1 {
      assert s[..0] == "";
    } else {
      HexNumberRoundTrip(n / 16, if width > 0 then width - 1 else 0);
      assert s[..|s| - 1] == PaddedHex(n / 16, if width > 0 then width - 1 else 0);
    }
  }

  lemma PaddedHexOfByte(n: nat)
    requires n < 256
    ensures |PaddedHex(n, 2)| == 2
  {
  }

  function AsChar(n: nat): Option<char> {
    if n < 0xD800 || 0xE000 <= n < 0x11_0000 then Some(n as char) else None
  }

  /** The position of the first `c`, or the length. */
  function IndexOf(s: string, c: char): (i: nat)
    ensures i <= |s| && (i < |s| ==> s[i] == c) && forall j :: 0 <= j < i ==> s[j] != c
  {
    if s == "" || s[0] == c then 0 else 1 + IndexOf(s[1..], c)
  }

  /** The character an escape sequence stands for, and what follows it; `s` starts after the backslash. */
  function ReadEscape(s: string): Option<(char, string)> {
    if s == "" then None
    else if s[0] == '\\' then Some(('\\', s[1..]))
    else if s[0] == 'x' then
      if |s| < 3 then None
      else
        var n :- HexNumber(s[1..3]);
        var c :- AsChar(n);
        Some((c, s[3..]))
    else if |s| > 1 && s[0] == 'u' && s[1] == '{' then
      var end := IndexOf(s[2..], '}');
      if end == |s| - 2 then None
      else
        var n :- HexNumber(s[2..2 + end]);
        var c :- AsChar(n);
        Some((c, s[3 + end..]))
    else None
  }

  lemma ReadEscapeShorter(s: string)
    requires ReadEscape(s).Some?
    ensures |ReadEscape(s).value.1| < |s|
  {
    hide HexNumber, AsChar;
  }

  function Unsanitized(s: string): Option<string>
    decreases |s|
  {
    if s == "" then Some("")
    else if s[0] == '\\' then
      match ReadEscape(s[1..])
      case None => None
      case Some((c, rest)) =>
        ReadEscapeShorter(s[1..]);
        var tail :- Unsanitized(rest);
        Some([c] + tail)
    else
      var tail :- Unsanitized(s[1..]);
      Some([s[0]] + tail)
  }

  lemma EscapeReads(c: char, rest: string)
    requires c == '\\' || IsHostile(c)
    ensures |EscapeChar(c)| > 0 && EscapeChar(c)[0] == '\\'
            && ReadEscape((EscapeChar(c) + rest)[1..]) == Some((c, rest))
  {
    hide PaddedHex, HexNumber, IsFormatOrBidi;
    var e, n := EscapeChar(c), c as int;
    var s := (e + rest)[1..];
    if c == '\\' {
      EscapeBackslash(c);
      assert s == "\\" + rest;
    } else if n < 0x20 || n == 0x7F {
      EscapeControl(c);
      PaddedHexOfByte(n);
      HexNumberRoundTrip(n, 2);
      assert s == "x" + PaddedHex(n, 2) + rest;
      assert s[1..3] == PaddedHex(n, 2) && s[3..] == rest;
    } else {
      EscapeFormat(c);
      HexNumberRoundTrip(n, 4);
      var h := PaddedHex(n, 4);
      assert s == "u{" + h + "}" + rest;
      FirstBrace(h, rest);
      assert s[2..] == h + "}" + rest;
      assert s[2..2 + |h|] == h && s[3 + |h|..] == rest;
    }
  }

  lemma FirstBrace(h: string, rest: string)
    requires AllLowerHex(h)
    ensures IndexOf(h + "}" + rest, '}') == |h|
  {
    var s := h + "}" + rest;
    var i := IndexOf(s, '}');
    assert s[|h|] == '}';
    assert forall j :: 0 <= j < |h| ==> s[j] == h[j] && IsLowerHexDigit(h[j]);
  }

  /** Escaping loses nothing: an unescaper recovers every input. */
  lemma {:induction false} SanitizeReversible(value: string)
    ensures Unsanitized(Sanitized(value)) == Some(value)
  {
    hide EscapeChar, ReadEscape, IsFormatOrBidi;
    if value != "" {
      var c, rest := value[0], Sanitized(value[1..]);
      var s := EscapeChar(c) + rest;
      SanitizeReversible(value[1..]);
      assert value == [c] + value[1..];
      if c == '\\' || IsHostile(c) {
        EscapeReads(c, rest);
        assert s[0] == '\\' && Sanitized(value) == s;
      } else {
        EscapePlain(c);
        assert s[1..] == rest;
      }
    }
  }

  predicate Harmless(s: string) {
    forall i :: 0 <= i < |s| ==> !IsHostile(s[i])
  }

  lemma AsciiHarmless(s: string)
    requires forall i :: 0 <= i < |s| ==> 0x20 <= s[i] as int < 0x7F
    ensures Harmless(s)
  {
  }

  lemma EscapeHarmless(c: char)
    ensures Harmless(EscapeChar(c))
  {
    hide PaddedHex, IsFormatOrBidi;
    var e, n := EscapeChar(c), c as int;
    if c == '\\' {
      EscapeBackslash(c);
      AsciiHarmless(e);
    } else if n < 0x20 || n == 0x7F {
      EscapeControl(c);
      HexIsAscii(PaddedHex(n, 2));
      AsciiHarmless(e);
    } else if IsHostile(c) {
      EscapeFormat(c);
      HexIsAscii(PaddedHex(n, 4));
      AsciiHarmless(e);
    } else {
      EscapePlain(c);
    }
  }

  lemma HexIsAscii(s: string)
    requires AllLowerHex(s)
    ensures forall i :: 0 <= i < |s| ==> 0x20 <= s[i] as int < 0x7F
  {
    assert forall i :: 0 <= i < |s| ==> IsLowerHexDigit(s[i]);
  }

  /** Nothing hostile is left in the output. */
  lemma {:induction false} SanitizeHarmless(value: string)
    ensures Harmless(Sanitized(value))
  {
    hide EscapeChar, IsHostile;
    if value != "" {
      EscapeHarmless(value[0]);
      SanitizeHarmless(value[1..]);
    }
  }

  // ---------------------------------------------------------------- Markdown escaping

  predicate IsMeta(c: char) {
    || c == '\\' || c == '`' || c == '*' || c == '_' || c == '[' || c == ']' || c == '<' || c == '>' || c == '|'
    || c == '~' || c == '&'
  }

  lemma MetaMeans(c: char)
    ensures IsMeta(c) <==> c in "\\`*_[]<>|~&"
  {
    var all := "\\`*_[]<>|~&";
    assert all[0] == '\\' && all[1] == '`' && all[2] == '*' && all[3] == '_' && all[4] == '[' && all[5] == ']';
    assert all[6] == '<' && all[7] == '>' && all[8] == '|' && all[9] == '~' && all[10] == '&';
  }

  /** A backslash before every metacharacter. */
  function Marked(s: string): string {
    if s == "" then "" else (if IsMeta(s[0]) then ['\\', s[0]] else [s[0]]) + Marked(s[1..])
  }

  /** What one character of the value shows as once the Markdown is rendered. */
  function Shown(c: char): string {
    if c == '\\' then "\\" else EscapeChar(c)
  }

  function AllShown(value: string): string {
    if value == "" then "" else Shown(value[0]) + AllShown(value[1..])
  }

  function MarkdownEscaped(value: string): string {
    if value == "" then ""
    else (if value[0] == '\\' then "\\\\" else Marked(Sanitized([value[0]]))) + MarkdownEscaped(value[1..])
  }

  /** Appends characters, each metacharacter behind a backslash. */
  method PushMarked(before: string, shown: string) returns (out: string)
    ensures out == before + Marked(shown)
  {
    hide IsMeta;
    out := before;
    for j := 0 to |shown|
      invariant before + Marked(shown) == out + Marked(shown[j..])
    {
      var c := shown[j];
      assert shown[j..][1..] == shown[j + 1..];
      assert out + Marked(shown[j..]) == (out + (if IsMeta(c) then ['\\', c] else [c])) + Marked(shown[j + 1..]);
      if IsMeta(c) {
        out := out + ['\\', c];
      } else {
        out := out + [c];
      }
    }
  }

  method MarkdownEscape(value: string) returns (out: string)
    ensures out == MarkdownEscaped(value)
  {
    hide Sanitized, Marked;
    out := "";
    for i := 0 to |value|
      invariant MarkdownEscaped(value) == out + MarkdownEscaped(value[i..])
    {
      var ch := value[i];
      ghost var piece := if ch == '\\' then "\\\\" else Marked(Sanitized([ch]));
      assert value[i..][1..] == value[i + 1..];
      assert out + MarkdownEscaped(value[i..]) == (out + piece) + MarkdownEscaped(value[i + 1..]);
      if ch == '\\' {
        out := out + "\\\\";
        continue;
      }
      var shown := SanitizeDisplay([ch]);
      out := PushMarked(out, shown);
    }
  }

  /** Reads Markdown text made of plain characters and escaped metacharacters only. */
  function Rendered(s: string): Option<string>
    decreases |s|
  {
    if s == "" then Some("")
    else if s[0] == '\\' then
      if |s| == 1 || !IsMeta(s[1]) then None
      else
        var tail :- Rendered(s[2..]);
        Some([s[1]] + tail)
    else if IsMeta(s[0]) then None
    else
      var tail :- Rendered(s[1..]);
      Some([s[0]] + tail)
  }

  lemma RenderedUnit(c: char, rest: string)
    requires Rendered(rest).Some?
    ensures Rendered((if IsMeta(c) then ['\\', c] else [c]) + rest) == Some([c] + Rendered(rest).value)
  {
    var s := (if IsMeta(c) then ['\\', c] else [c]) + rest;
    if IsMeta(c) {
      assert s[2..] == rest;
    } else {
      assert s[1..] == rest;
    }
  }

  lemma {:induction false} RenderedMarked(s: string, rest: string)
    requires Rendered(rest).Some?
    ensures Rendered(Marked(s) + rest) == Some(s + Rendered(rest).value)
  {
    hide IsMeta, Rendered;
    if s == "" {
      assert Marked(s) + rest == rest && s + Rendered(rest).value == Rendered(rest).value;
    } else {
      RenderedMarked(s[1..], rest);
      var unit := if IsMeta(s[0]) then ['\\', s[0]] else [s[0]];
      assert Marked(s) + rest == unit + (Marked(s[1..]) + rest);
      RenderedUnit(s[0], Marked(s[1..]) + rest);
      assert s + Rendered(rest).value == [s[0]] + (s[1..] + Rendered(rest).value);
    }
  }

  lemma SanitizedOne(c: char)
    ensures Sanitized([c]) == EscapeChar(c)
  {
    hide EscapeChar;
    assert [c][1..] == "";
    assert EscapeChar(c) + "" == EscapeChar(c);
  }

  /** Escaped text is well formed for every value and renders as the visible form of each character. */
  lemma {:induction false} MarkdownRenders(value: string)
    ensures Rendered(MarkdownEscaped(value)) == Some(AllShown(value))
  {
    hide EscapeChar, Marked, IsMeta, Rendered, Sanitized;
    if value == "" {
      RenderedNothing();
    } else {
      MarkdownRenders(value[1..]);
      var c, rest := value[0], MarkdownEscaped(value[1..]);
      MarkedBackslash();
      SanitizedOne(c);
      RenderedMarked(Shown(c), rest);
    }
  }

  lemma RenderedNothing()
    ensures Rendered("") == Some("")
  {
  }

  lemma MarkedBackslash()
    ensures Marked("\\") == "\\\\"
  {
    assert "\\"[1..] == "";
  }

  /** Rendered Markdown holds nothing hostile either. */
  lemma {:induction false} ShownHarmless(value: string)
    ensures Harmless(AllShown(value))
  {
    hide EscapeChar, IsHostile;
    if value != "" {
      ShownHarmless(value[1..]);
      if value[0] == '\\' {
        AsciiHarmless("\\");
      } else {
        EscapeHarmless(value[0]);
      }
    }
  }

  /** A text of ordinary characters renders as itself, so among such texts the rendering is reversible. */
  lemma {:induction false} HarmlessShown(value: string)
    requires Harmless(value)
    ensures AllShown(value) == value
  {
    hide EscapeChar, IsHostile;
    if value != "" {
      HarmlessShown(value[1..]);
      if value[0] == '\\' {
        assert Shown(value[0]) == [value[0]];
      } else {
        EscapePlain(value[0]);
      }
      assert value == [value[0]] + value[1..];
    }
  }

  /** The rendering shows the value itself exactly when nothing in it had to be escaped. */
  lemma ShownExactly(value: string)
    ensures AllShown(value) == value <==> Harmless(value)
  {
    ShownHarmless(value);
    if Harmless(value) {
      HarmlessShown(value);
    }
  }

  /** The rendering is not reversible: an escape character and the text of its escape look the same. */
  lemma MarkdownNotReversible()
    ensures AllShown([27 as char]) == AllShown("\\x1b") && [27 as char] != "\\x1b"
  {
    hide PaddedHex, EscapeChar, IsFormatOrBidi;
    var esc := 27 as char;
    HexOfEscape();
    EscapeControl(esc);
    assert "\\x" + "1b" == "\\x1b" && EscapeChar(esc) + "" == "\\x1b";
    assert AllShown([esc]) == "\\x1b" by {
      assert [esc][1..] == "";
    }
    PlainShown("x1b");
    assert "\\x1b"[1..] == "x1b";
    assert "\\" + "x1b" == "\\x1b";
  }

  lemma HexOfEscape()
    ensures PaddedHex(27, 2) == "1b"
  {
    assert HexDigit(27 / 16) == '1' && HexDigit(27 % 16) == 'b';
    assert PaddedHex(1, 1) == "1";
  }

  lemma {:induction false} PlainShown(s: string)
    requires forall i :: 0 <= i < |s| ==> s[i] != '\\' && 0x20 <= s[i] as int < 0x7F
    ensures AllShown(s) == s
  {
    if s != "" {
      EscapePlain(s[0]);
      PlainShown(s[1..]);
      assert s == [s[0]] + s[1..];
    }
  }
}
