/** The bundle manifest and the rules an accepted manifest meets. */
module Manifests {
  import opened Foundation
  import opened Text
  import opened Events
  import opened Errors
  import Json

  const AGEF_SPEC_VERSION := "0.1.3"

  datatype Producer = Producer(name: string, version: string)

  datatype Session = Session(id: string, head: string, createdAt: string, endedAt: string)

  datatype HeadSignature = HeadSignature(
    scheme: string, keyId: string, statementVersion: string, signature: string, createdAt: string)

  datatype OperatorAttestation = OperatorAttestation(
    scheme: string, keyId: string, statementVersion: string,
    operatorId: string, displayName: string, role: string, org: string,
    signature: string, createdAt: string)

  datatype Manifest = Manifest(
    agefVersion: string,
    producer: Producer,
    session: Session,
    hashAlgorithm: string,
    objectCount: u64,
    eventCount: u64,
    signatures: Option<seq<HeadSignature>>,
    operatorAttestations: Option<seq<OperatorAttestation>>,
    extra: map<string, Json.Json>)

  // ---------------------------------------------------------------- validation

  /** Whether a string is an RFC 3339 timestamp, as the date library decides it. */
  type TimestampCheck = string -> bool

  /** The hyphenated lowercase form of a UUID (section 4 of RFC 9562). */
  predicate IsHyphenatedUuid(s: string) {
    && |s| == 36
    && forall i :: 0 <= i < 36 ==>
         if i == 8 || i == 13 || i == 18 || i == 23 then s[i] == '-' else IsLowerHexDigit(s[i])
  }

  function ValidateSessionId(m: Manifest): Result<(), BundleError> {
    if IsHyphenatedUuid(m.session.id) then Ok(()) else Err(InvalidManifest)
  }

  function ValidateHashAlgorithm(m: Manifest): Result<(), BundleError> {
    if m.hashAlgorithm == "sha256" || m.hashAlgorithm == "blake3" then Ok(())
    else Err(UnsupportedHashAlgorithm(m.hashAlgorithm))
  }

  function ValidateHead(m: Manifest): Result<(), BundleError> {
    if m.hashAlgorithm != "sha256" && m.hashAlgorithm != "blake3" then Err(UnsupportedHashAlgorithm(m.hashAlgorithm))
    else if |m.session.head| != 64 then Err(InvalidManifest)
    else if !AllLowerHex(m.session.head) then Err(InvalidManifest)
    else Ok(())
  }

  function ValidateTimestamps(m: Manifest, isTimestamp: TimestampCheck): Result<(), BundleError> {
    if !isTimestamp(m.session.createdAt) then Err(InvalidManifest)
    else if !isTimestamp(m.session.endedAt) then Err(InvalidManifest)
    else Ok(())
  }

  function ValidateAll(m: Manifest, isTimestamp: TimestampCheck): Result<(), BundleError> {
    var _ :- ValidateSessionId(m);
    var _ :- ValidateHashAlgorithm(m);
    var _ :- ValidateHead(m);
    ValidateTimestamps(m, isTimestamp)
  }

  // ---------------------------------------------------------------- versions

  function SplitOn(s: string, separator: char): (parts: seq<string>)
    ensures |parts| >= 1
  {
    if s == "" then [""]
    else
      var rest := SplitOn(s[1..], separator);
      if s[0] == separator then [""] + rest
      else [[s[0]] + rest[0]] + rest[1..]
  }

  predicate IsDigit(c: char) {
    '0' <= c <= '9'
  }

  predicate AllDigits(s: string) {
    forall i :: 0 <= i < |s| ==> IsDigit(s[i])
  }

  function DecimalValue(digits: string): nat
    requires AllDigits(digits)
  {
    if digits == "" then 0
    else
      assert IsDigit(digits[|digits| - 1]);
      DecimalValue(digits[..|digits| - 1]) * 10 + (digits[|digits| - 1] as int - '0' as int)
  }

  /** Parses as the standard library does: an optional plus sign, digits, no overflow. */
  function ParseU64(s: string): Option<u64> {
    var digits := if s != "" && s[0] == '+' then s[1..] else s;
    if digits == "" || !AllDigits(digits) then None
    else
      var n := DecimalValue(digits);
      if n < TWO_64 then Some(n) else None
  }

  function ParseSemver(s: string): Option<(u64, u64, u64)> {
    var parts := SplitOn(s, '.');
    if |parts| < 3 then None
    else
      var major :- ParseU64(parts[0]);
      var minor :- ParseU64(parts[1]);
      var patch :- ParseU64(parts[2]);
      if |parts| > 3 then None else Some((major, minor, patch))
  }

  function ValidateAgefVersion(m: Manifest, expected: string): Result<(), BundleError> {
    match (ParseSemver(expected), ParseSemver(m.agefVersion))
    case (None, _) => Err(UnsupportedAgefVersion(expected))
    case (Some(_), None) => Err(UnsupportedAgefVersion(m.agefVersion))
    case (Some(exp), Some(got)) =>
      if exp.0 == got.0 && exp.1 == got.1 then Ok(()) else Err(UnsupportedAgefVersion(m.agefVersion))
  }

  lemma SpecVersionParses()
    ensures ParseSemver(AGEF_SPEC_VERSION) == Some((0, 1, 3))
    ensures forall m: Manifest :: m.agefVersion == AGEF_SPEC_VERSION ==> ValidateAgefVersion(m, AGEF_SPEC_VERSION).Ok?
  {
    SplitCons('3', "", '.');
    SplitCons('.', "3", '.');
    SplitCons('1', ".3", '.');
    SplitCons('.', "1.3", '.');
    SplitCons('0', ".1.3", '.');
    assert ['3'] + "" == "3" && ['.'] + "3" == ".3" && ['1'] + ".3" == "1.3" && ['.'] + "1.3" == ".1.3";
    assert ['0'] + ".1.3" == AGEF_SPEC_VERSION;
    DigitValue("0");
    DigitValue("1");
    DigitValue("3");
  }

  lemma SplitCons(c: char, rest: string, separator: char)
    ensures var tail := SplitOn(rest, separator);
            SplitOn([c] + rest, separator) == if c == separator then [""] + tail else [[c] + tail[0]] + tail[1..]
  {
    assert ([c] + rest)[1..] == rest;
  }

  lemma DigitValue(s: string)
    requires |s| == 1 && IsDigit(s[0])
    ensures ParseU64(s) == Some(s[0] as int - '0' as int)
  {
    assert s[..0] == "";
    assert DecimalValue(s) == DecimalValue(s[..0]) * 10 + (s[0] as int - '0' as int);
  }

  /** A manifest the reader lets through. */
  predicate Accepted(m: Manifest, isTimestamp: TimestampCheck) {
    && ValidateAll(m, isTimestamp).Ok?
    && ValidateAgefVersion(m, AGEF_SPEC_VERSION).Ok?
    && ParseAlgorithm(m.hashAlgorithm).Some?
  }

  // ---------------------------------------------------------------- accepted manifests have one-line fields

  /** The fields that go into signed statements. */
  predicate OneLine(m: Manifest) {
    NoNewline(m.agefVersion) && NoNewline(m.hashAlgorithm) && NoNewline(m.session.id) && NoNewline(m.session.head)
  }

  lemma {:induction false} SplitKeepsCharacters(s: string, separator: char, c: char)
    requires c in s && c != separator
    ensures exists i :: 0 <= i < |SplitOn(s, separator)| && c in SplitOn(s, separator)[i]
  {
    var parts, rest := SplitOn(s, separator), SplitOn(s[1..], separator);
    if s[0] == c {
      assert c in parts[0];
    } else {
      assert s == [s[0]] + s[1..];
      SplitKeepsCharacters(s[1..], separator, c);
      var i :| 0 <= i < |rest| && c in rest[i];
      if s[0] == separator {
        assert parts[i + 1] == rest[i];
      } else if i == 0 {
        assert c in parts[0];
      } else {
        assert parts[i] == rest[i];
      }
    }
  }

  lemma ParsedNumberOneLine(s: string)
    requires ParseU64(s).Some?
    ensures NoNewline(s)
  {
    var digits := if s[0] == '+' then s[1..] else s;
    assert forall i :: 0 <= i < |digits| ==> IsDigit(digits[i]);
    assert s[0] == '+' ==> s == ['+'] + digits;
  }

  lemma SemverOneLine(s: string)
    requires ParseSemver(s).Some?
    ensures NoNewline(s)
  {
    var parts := SplitOn(s, '.');
    forall i | 0 <= i < |parts|
      ensures NoNewline(parts[i])
    {
      ParsedNumberOneLine(parts[i]);
    }
    if '\n' in s {
      SplitKeepsCharacters(s, '.', '\n');
      assert false;
    }
  }

  lemma AcceptedOneLine(m: Manifest, isTimestamp: TimestampCheck)
    requires Accepted(m, isTimestamp)
    ensures OneLine(m)
  {
    SemverOneLine(m.agefVersion);
  }

  // ---------------------------------------------------------------- what acceptance means

  function Pow10(n: nat): nat {
    if n == 0 then 1 else 10 * Pow10(n - 1)
  }

  /** The number that decimal digits stand for, the first one counting most. */
  function ValueOf(digits: string): int {
    if digits == "" then 0
    else (digits[0] as int - '0' as int) * Pow10(|digits| - 1) + ValueOf(digits[1..])
  }

  /** A numeral for `value`: digits, perhaps behind a plus sign. */
  ghost predicate IsNumeral(text: string, value: int) {
    exists digits ::
      && (text == digits || text == "+" + digits) && digits != ""
      && (forall i :: 0 <= i < |digits| ==> '0' <= digits[i] <= '9') && ValueOf(digits) == value
  }

  /** The text is three numerals with dots between them. */
  ghost predicate IsVersion(text: string, major: int, minor: int, patch: int) {
    exists x, y, z :: text == x + "." + y + "." + z && IsNumeral(x, major) && IsNumeral(y, minor) && IsNumeral(z, patch)
  }

  /** Groups of 8, 4, 4, 4 and 12 lowercase hexadecimal digits with hyphens between them. */
  ghost predicate IsUuidText(text: string) {
    exists a, b, c, d, e ::
      && text == a + "-" + b + "-" + c + "-" + d + "-" + e
      && |a| == 8 && |b| == |c| == |d| == 4 && |e| == 12
      && IsHexText(a) && IsHexText(b) && IsHexText(c) && IsHexText(d) && IsHexText(e)
  }

  predicate IsHexText(s: string) {
    forall i :: 0 <= i < |s| ==> '0' <= s[i] <= '9' || 'a' <= s[i] <= 'f'
  }

  lemma {:induction false} ValueOfAppend(digits: string, c: char)
    ensures ValueOf(digits + [c]) == ValueOf(digits) * 10 + (c as int - '0' as int)
  {
    var more := digits + [c];
    if digits == "" {
      assert more[1..] == "";
    } else {
      ValueOfAppend(digits[1..], c);
      assert more[1..] == digits[1..] + [c];
      var d := digits[0] as int - '0' as int;
      assert d * Pow10(|digits|) == d * Pow10(|digits| - 1) * 10;
    }
  }

  lemma {:induction false} DecimalValueMeans(digits: string)
    requires AllDigits(digits)
    ensures DecimalValue(digits) == ValueOf(digits)
  {
    if digits != "" {
      var n := |digits| - 1;
      DecimalValueMeans(digits[..n]);
      ValueOfAppend(digits[..n], digits[n]);
      assert digits == digits[..n] + [digits[n]];
    }
  }

  function Unsigned(s: string): string {
    if s != "" && s[0] == '+' then s[1..] else s
  }

  lemma NumeralMeans(s: string, n: int)
    ensures IsNumeral(s, n) <==> Unsigned(s) != "" && AllDigits(Unsigned(s)) && ValueOf(Unsigned(s)) == n
  {
    hide ValueOf;
    var digits := Unsigned(s);
    if IsNumeral(s, n) {
      var d :| (s == d || s == "+" + d) && d != "" && (forall i :: 0 <= i < |d| ==> '0' <= d[i] <= '9')
               && ValueOf(d) == n;
      assert s == "+" + d ==> s[1..] == d;
    }
    if digits != "" && AllDigits(digits) && ValueOf(digits) == n {
      assert s == digits || s == "+" + digits;
      assert forall i :: 0 <= i < |digits| ==> IsDigit(digits[i]);
    }
  }

  lemma ParseU64Means(s: string, n: int)
    ensures (ParseU64(s).Some? && ParseU64(s).value == n) <==> 0 <= n < TWO_64 && IsNumeral(s, n)
  {
    hide IsNumeral, ValueOf, DecimalValue;
    NumeralMeans(s, n);
    if AllDigits(Unsigned(s)) {
      DecimalValueMeans(Unsigned(s));
    }
  }

  lemma {:induction false} SplitFront(x: string, rest: string)
    requires '.' !in x
    ensures SplitOn(x + "." + rest, '.') == [x] + SplitOn(rest, '.')
  {
    if x == "" {
      assert x + "." + rest == ['.'] + rest;
      SplitCons('.', rest, '.');
    } else {
      assert x + "." + rest == [x[0]] + (x[1..] + "." + rest);
      SplitFront(x[1..], rest);
      SplitCons(x[0], x[1..] + "." + rest, '.');
      assert x == [x[0]] + x[1..];
    }
  }

  lemma {:induction false} SplitNothing(x: string)
    requires '.' !in x
    ensures SplitOn(x, '.') == [x]
  {
    if x != "" {
      SplitNothing(x[1..]);
      assert x == [x[0]] + x[1..];
    }
  }

  /** The first part of a split, and what is left after the first dot. */
  lemma {:induction false} SplitBack(s: string) returns (rest: string)
    ensures '.' !in SplitOn(s, '.')[0]
    ensures |SplitOn(s, '.')| > 1 ==>
              s == SplitOn(s, '.')[0] + "." + rest && SplitOn(s, '.') == [SplitOn(s, '.')[0]] + SplitOn(rest, '.')
    ensures |SplitOn(s, '.')| == 1 ==> s == SplitOn(s, '.')[0]
  {
    rest := "";
    if s != "" {
      var tail := SplitBack(s[1..]);
      assert s == [s[0]] + s[1..];
      rest := if s[0] == '.' then s[1..] else tail;
    }
  }

  lemma NumeralHasNoDot(x: string, n: int)
    requires IsNumeral(x, n)
    ensures '.' !in x
  {
  }

  lemma ParseSemverMeans(s: string, a: u64, b: u64, c: u64)
    ensures ParseSemver(s) == Some((a, b, c)) <==> IsVersion(s, a, b, c)
  {
    hide SplitOn, ParseU64, IsNumeral;
    if IsVersion(s, a, b, c) {
      var x, y, z :| s == x + "." + y + "." + z && IsNumeral(x, a) && IsNumeral(y, b) && IsNumeral(z, c);
      NumeralHasNoDot(x, a);
      NumeralHasNoDot(y, b);
      NumeralHasNoDot(z, c);
      assert s == x + "." + (y + "." + z);
      SplitFront(x, y + "." + z);
      SplitFront(y, z);
      SplitNothing(z);
      ParseU64Means(x, a);
      ParseU64Means(y, b);
      ParseU64Means(z, c);
    }
    if ParseSemver(s) == Some((a, b, c)) {
      var parts := SplitOn(s, '.');
      var s1 := SplitBack(s);
      var s2 := SplitBack(s1);
      var s3 := SplitBack(s2);
      assert parts == [parts[0]] + SplitOn(s1, '.') && SplitOn(s1, '.') == [parts[1]] + SplitOn(s2, '.');
      assert s == parts[0] + "." + parts[1] + "." + parts[2];
      ParseU64Means(parts[0], a);
      ParseU64Means(parts[1], b);
      ParseU64Means(parts[2], c);
    }
  }

  lemma HexGroup(s: string, i: nat, j: nat)
    requires IsHyphenatedUuid(s) && i <= j <= 36
    requires !(i <= 8 < j) && !(i <= 13 < j) && !(i <= 18 < j) && !(i <= 23 < j)
    ensures IsHexText(s[i..j])
  {
    forall k | 0 <= k < j - i
      ensures IsLowerHexDigit(s[i..j][k])
    {
      assert IsLowerHexDigit(s[i + k]);
    }
  }

  lemma CutAt(s: string, i: nat, j: nat)
    requires i <= j < |s| && s[j] == '-'
    ensures s[i..] == s[i..j] + "-" + s[j + 1..]
  {
  }

  lemma Hyphens(s: string)
    requires IsHyphenatedUuid(s)
    ensures |s| == 36 && s[8] == s[13] == s[18] == s[23] == '-'
  {
  }

  lemma UuidSplits(s: string)
    requires IsHyphenatedUuid(s)
    ensures IsUuidText(s)
  {
    hide IsHexText, IsHyphenatedUuid;
    Hyphens(s);
    var a, b, c, d, e := s[0..8], s[9..13], s[14..18], s[19..23], s[24..36];
    HexGroup(s, 0, 8);
    HexGroup(s, 9, 13);
    HexGroup(s, 14, 18);
    HexGroup(s, 19, 23);
    HexGroup(s, 24, 36);
    CutAt(s, 0, 8);
    CutAt(s, 9, 13);
    CutAt(s, 14, 18);
    CutAt(s, 19, 23);
    FiveGroups(s, a, b, c, d, e);
  }

  lemma FiveGroups(s: string, a: string, b: string, c: string, d: string, e: string)
    requires |s| == 36 && e == s[24..36]
    requires s[0..] == a + "-" + s[9..] && s[9..] == b + "-" + s[14..]
    requires s[14..] == c + "-" + s[19..] && s[19..] == d + "-" + s[24..]
    ensures s == a + "-" + b + "-" + c + "-" + d + "-" + e
  {
    assert s == s[0..] && s[24..] == e;
    JoinFive(a, b, c, d, e);
  }

  lemma JoinFive(a: string, b: string, c: string, d: string, e: string)
    ensures a + "-" + (b + "-" + (c + "-" + (d + "-" + e))) == a + "-" + b + "-" + c + "-" + d + "-" + e
  {
  }

  lemma UuidMeans(s: string)
    ensures IsHyphenatedUuid(s) <==> IsUuidText(s)
  {
    hide IsHyphenatedUuid, IsHexText;
    if IsHyphenatedUuid(s) {
      UuidSplits(s);
    }
    if IsUuidText(s) {
      var a, b, c, d, e :|
        && s == a + "-" + b + "-" + c + "-" + d + "-" + e
        && |a| == 8 && |b| == |c| == |d| == 4 && |e| == 12
        && IsHexText(a) && IsHexText(b) && IsHexText(c) && IsHexText(d) && IsHexText(e);
      UuidIndexed(s, a, b, c, d, e);
    }
  }

  lemma UuidIndexed(s: string, a: string, b: string, c: string, d: string, e: string)
    requires s == a + "-" + b + "-" + c + "-" + d + "-" + e
    requires |a| == 8 && |b| == |c| == |d| == 4 && |e| == 12
    requires IsHexText(a) && IsHexText(b) && IsHexText(c) && IsHexText(d) && IsHexText(e)
    ensures IsHyphenatedUuid(s)
  {
    forall i | 0 <= i < 36
      ensures if i == 8 || i == 13 || i == 18 || i == 23 then s[i] == '-' else IsLowerHexDigit(s[i])
    {
      if 8 < i < 13 {
        assert s[i] == b[i - 9];
      } else if 13 < i < 18 {
        assert s[i] == c[i - 14];
      } else if 18 < i < 23 {
        assert s[i] == d[i - 19];
      } else if 23 < i {
        assert s[i] == e[i - 24];
      }
    }
  }

  /** Exactly these manifests are let through. */
  lemma AcceptedExact(m: Manifest, isTimestamp: TimestampCheck)
    ensures Accepted(m, isTimestamp) <==>
            && IsUuidText(m.session.id)
            && (m.hashAlgorithm == "sha256" || m.hashAlgorithm == "blake3")
            && |m.session.head| == 64 && IsHexText(m.session.head)
            && isTimestamp(m.session.createdAt) && isTimestamp(m.session.endedAt)
            && exists patch :: 0 <= patch < TWO_64 && IsVersion(m.agefVersion, 0, 1, patch)
  {
    hide IsHyphenatedUuid, IsUuidText, ParseSemver, IsVersion;
    UuidMeans(m.session.id);
    SpecVersionParses();
    assert AllLowerHex(m.session.head) <==> IsHexText(m.session.head);
    var parsed := ParseSemver(m.agefVersion);
    if parsed.Some? {
      ParseSemverMeans(m.agefVersion, parsed.value.0, parsed.value.1, parsed.value.2);
    }
    forall patch | 0 <= patch < TWO_64
      ensures IsVersion(m.agefVersion, 0, 1, patch) <==> parsed == Some((0, 1, patch))
    {
      ParseSemverMeans(m.agefVersion, 0, 1, patch);
    }
  }

  // ---------------------------------------------------------------- serialization

  /** The manifest's own field names: reading back puts a member so named into its field. */
  const RESERVED: set<string> :=
    {"agef_version", "producer", "session", "hash_algorithm", "object_count", "event_count",
     "signatures", "operator_attestations"}

  /** How deep the JSON reader lets a member of the manifest nest. */
  const MAX_EXTRA_DEPTH: nat := 126

  /**
   Extra metadata that survives a write: no reserved names, values already in canonical order, no
   floats (which the reader may round) and no deeper than the reader goes.
   */
  ghost predicate PlainExtra(m: Manifest) {
    && m.extra.Keys !! RESERVED
    && forall k :: k in m.extra ==>
         Json.UniqueKeys(m.extra[k]) && Json.SortJson(m.extra[k]) == m.extra[k]
           && Json.Plain(m.extra[k], MAX_EXTRA_DEPTH)
  }

  /** The JSON library's writer and reader for manifests. */
  datatype ManifestCodec = ManifestCodec(write: Manifest -> Bytes, read: Bytes -> Option<Manifest>)

  ghost predicate LawfulManifestCodec(codec: ManifestCodec) {
    forall m: Manifest :: PlainExtra(m) ==> codec.read(codec.write(m)) == Some(m)
  }

  function ManifestFromJson(codec: ManifestCodec, isTimestamp: TimestampCheck, bytes: Bytes)
    : Result<Manifest, BundleError>
  {
    match codec.read(bytes)
    case None => Err(InvalidManifest)
    case Some(m) =>
      var _ :- ValidateAll(m, isTimestamp);
      Ok(m)
  }

  /** What a manifest that is not let through is refused for, in the reader's order. */
  lemma ManifestRefused(codec: ManifestCodec, isTimestamp: TimestampCheck, bytes: Bytes)
    ensures codec.read(bytes).None? ==> ManifestFromJson(codec, isTimestamp, bytes) == Err(InvalidManifest)
    ensures codec.read(bytes).Some? ==>
              var r, m := ManifestFromJson(codec, isTimestamp, bytes), codec.read(bytes).value;
              if !IsUuidText(m.session.id) then r == Err(InvalidManifest)
              else if m.hashAlgorithm != "sha256" && m.hashAlgorithm != "blake3" then
                r == Err(UnsupportedHashAlgorithm(m.hashAlgorithm))
              else if !(|m.session.head| == 64 && IsHexText(m.session.head)) then r == Err(InvalidManifest)
              else if !(isTimestamp(m.session.createdAt) && isTimestamp(m.session.endedAt)) then r
                == Err(InvalidManifest)
              else r == Ok(m)
  {
    hide IsHyphenatedUuid, IsUuidText;
    if codec.read(bytes).Some? {
      var m := codec.read(bytes).value;
      UuidMeans(m.session.id);
      assert AllLowerHex(m.session.head) <==> IsHexText(m.session.head);
    }
  }

  /** A version is refused exactly when it is not 0.1 with some patch number, and is named in the error. */
  lemma VersionRefused(m: Manifest)
    ensures ValidateAgefVersion(m, AGEF_SPEC_VERSION) ==
            if exists patch :: 0 <= patch < TWO_64 && IsVersion(m.agefVersion, 0, 1, patch) then Ok(())
            else Err(UnsupportedAgefVersion(m.agefVersion))
  {
    hide ParseSemver, IsVersion;
    SpecVersionParses();
    var parsed := ParseSemver(m.agefVersion);
    if parsed.Some? {
      ParseSemverMeans(m.agefVersion, parsed.value.0, parsed.value.1, parsed.value.2);
    }
    forall patch | 0 <= patch < TWO_64
      ensures IsVersion(m.agefVersion, 0, 1, patch) <==> parsed == Some((0, 1, patch))
    {
      ParseSemverMeans(m.agefVersion, 0, 1, patch);
    }
  }
}
