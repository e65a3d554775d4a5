/** Redaction sentinels: the marker object that stands in for a removed one. */
module Sentinels {
  import opened Foundation
  import opened Text
  import opened Cbor
  import opened CborReader
  import opened Events
  import opened Manifests

  datatype SentinelMarker = SentinelMarker(
    akmonRedacted: bool,
    originalHash: string,
    originalSize: u64,
    reason: string,
    redactedAt: string)

  datatype SentinelError = InvalidCbor | InvalidShape | InvalidOriginalHash | InvalidTimestamp

  /** Who asked for a redaction, when and why; the time is already RFC 3339 text. */
  datatype Redaction = Redaction(reason: string, redactedAt: string)

  function SentinelFromOriginal(original: Hash, size: u64, why: Redaction): SentinelMarker {
    SentinelMarker(true, original.ToHex(), size, why.reason, why.redactedAt)
  }

  function SentinelCbor(m: SentinelMarker): Cbor {
    Map([Tstr("akmon_redacted"), Bool(m.akmonRedacted),
         Tstr("original_hash"), Tstr(m.originalHash),
         Tstr("original_size"), Uint(m.originalSize),
         Tstr("reason"), Tstr(m.reason),
         Tstr("redacted_at"), Tstr(m.redactedAt)])
  }

  function SentinelBytes(m: SentinelMarker): Bytes {
    Encode(SentinelCbor(m))
  }

  /** Different markers have different bytes; in particular sentinels for different objects do. */
  lemma SentinelBytesInjective(m: SentinelMarker, n: SentinelMarker)
    requires Fits(SentinelCbor(m)) && Fits(SentinelCbor(n))
    requires SentinelBytes(m) == SentinelBytes(n)
    ensures m == n
  {
    EncodeInjective(SentinelCbor(m), SentinelCbor(n));
    var x, y := SentinelCbor(m).entries, SentinelCbor(n).entries;
    assert x[1] == y[1] && x[3] == y[3] && x[5] == y[5] && x[7] == y[7] && x[9] == y[9];
  }

  lemma SentinelNamesOriginal(g: Hash, h: Hash, m: u64, n: u64, why: Redaction)
    requires g.algorithm == h.algorithm
    requires Fits(SentinelCbor(SentinelFromOriginal(g, m, why))) && Fits(SentinelCbor(SentinelFromOriginal(h, n, why)))
    requires SentinelBytes(SentinelFromOriginal(g, m, why)) == SentinelBytes(SentinelFromOriginal(h, n, why))
    ensures g == h
  {
    SentinelBytesInjective(SentinelFromOriginal(g, m, why), SentinelFromOriginal(h, n, why));
    ParseHexOfToHex(g);
    ParseHexOfToHex(h);
  }

  // ---------------------------------------------------------------- detection

  /** The CBOR library's two readers, and the date library's check. */
  datatype SentinelReader = SentinelReader(
    decodeValue: Bytes -> Option<Cbor>,
    decodeMarker: Bytes -> Option<SentinelMarker>,
    isTimestamp: TimestampCheck)

  ghost predicate LawfulReader(reader: SentinelReader) {
    && (forall v: Cbor :: Fits(v) ==> reader.decodeValue(Encode(v)) == Some(v))
    && (forall m: SentinelMarker :: Fits(SentinelCbor(m)) ==> reader.decodeMarker(SentinelBytes(m)) == Some(m))
  }

  /** The value under the first text key `key` of a flat entry list. */
  function FirstValue(entries: seq<Cbor>, key: string): Option<Cbor> {
    if |entries| < 2 then None
    else if entries[0] == Tstr(key) then Some(entries[1])
    else FirstValue(entries[2..], key)
  }

  function ValidateMarker(reader: SentinelReader, m: SentinelMarker): Result<(), SentinelError> {
    if !m.akmonRedacted then Err(InvalidShape)
    else
      match HexDecode(TrimEnd(TrimStart(m.originalHash)))
      case None => Err(InvalidOriginalHash)
      case Some(digest) =>
        if |digest| != 32 then Err(InvalidOriginalHash)
        else if !reader.isTimestamp(m.redactedAt) then Err(InvalidTimestamp)
        else Ok(())
  }

  function TryParseSentinel(p: Primitives, reader: SentinelReader, bytes: Bytes)
    : Result<Option<SentinelMarker>, SentinelError>
  {
    match reader.decodeValue(bytes)
    case Some(Map(entries)) =>
      (match FirstValue(entries, "akmon_redacted")
       case None => Ok(None)
       case Some(Bool(true)) =>
         if Serialize(p, Map(entries)) != Some(bytes) then Err(InvalidCbor)
         else
           (match reader.decodeMarker(bytes)
            case None => Err(InvalidShape)
            case Some(m) =>
              var _ :- ValidateMarker(reader, m);
              Ok(Some(m)))
       case Some(_) => Err(InvalidShape))
    case _ => Ok(None)
  }

  /** Every sentinel the program writes is recognised, with its marker intact. */
  lemma SentinelRoundTrip(p: Primitives, reader: SentinelReader, original: Hash, size: u64, why: Redaction)
    requires LawfulReader(reader) && reader.isTimestamp(why.redactedAt)
    requires Serialize(p, SentinelCbor(SentinelFromOriginal(original, size, why))).Some?
    ensures var m := SentinelFromOriginal(original, size, why);
            TryParseSentinel(p, reader, SentinelBytes(m)) == Ok(Some(m))
  {
    hide HexEncode, HexDecode, TrimStart, TrimEnd;
    var m := SentinelFromOriginal(original, size, why);
    HexRoundTrip(original.bytes);
    NothingToTrim(original.ToHex());
  }

  /** Recognised bytes are the one canonical encoding of a flagged map that names a 32-byte hash. */
  lemma RecognisedIsCanonical(p: Primitives, reader: SentinelReader, bytes: Bytes, m: SentinelMarker)
    requires TryParseSentinel(p, reader, bytes) == Ok(Some(m))
    ensures m.akmonRedacted && reader.isTimestamp(m.redactedAt)
    ensures exists digest: Digest :: HexDecode(TrimEnd(TrimStart(m.originalHash))) == Some(digest)
    ensures exists entries ::
              && Fits(Map(entries)) && bytes == Encode(Map(entries))
              && FirstValue(entries, "akmon_redacted") == Some(Bool(true))
  {
    hide HexDecode, TrimStart, TrimEnd, FirstValue;
    var entries := reader.decodeValue(bytes).value.entries;
    assert Fits(Map(entries)) && bytes == Encode(Map(entries));
    var digest: Digest := HexDecode(TrimEnd(TrimStart(m.originalHash))).value;
    assert HexDecode(TrimEnd(TrimStart(m.originalHash))) == Some(digest);
  }

  // ---------------------------------------------------------------- what a sentinel records

  /** The map that the bytes read as has these five entries, in this order, and nothing else. */
  ghost predicate Records(bytes: Bytes, hash: string, size: nat, reason: string, redactedAt: string) {
    && ReadItem(bytes).Some? && ReadItem(bytes).value.1 == []
    && var v := ReadItem(bytes).value.0;
    && v.Map? && |v.entries| == 10
    && v.entries[0] == Tstr("akmon_redacted") && v.entries[1] == Bool(true)
    && v.entries[2] == Tstr("original_hash") && v.entries[3] == Tstr(hash)
    && v.entries[4] == Tstr("original_size") && v.entries[5].Uint? && v.entries[5].n == size
    && v.entries[6] == Tstr("reason") && v.entries[7] == Tstr(reason)
    && v.entries[8] == Tstr("redacted_at") && v.entries[9] == Tstr(redactedAt)
  }

  /** A sentinel says which object it stands for, how long that was, why it went and when. */
  lemma SentinelRecords(original: Hash, size: u64, why: Redaction)
    requires Fits(SentinelCbor(SentinelFromOriginal(original, size, why)))
    ensures Records(SentinelBytes(SentinelFromOriginal(original, size, why)),
                    original.ToHex(), size, why.reason, why.redactedAt)
  {
    hide ReadItem, Encode, Fits;
    var v := SentinelCbor(SentinelFromOriginal(original, size, why));
    ReadItemOf(v, []);
    assert Encode(v) + [] == Encode(v);
  }

  // ---------------------------------------------------------------- what a reader makes of any bytes

  /** The `i`-th key of a flat entry list. */
  function KeyAt(entries: seq<Cbor>, i: nat): Option<Cbor> {
    if 2 * i + 1 < |entries| then Some(entries[2 * i]) else None
  }

  ghost predicate EntryAt(entries: seq<Cbor>, key: string, v: Cbor, i: nat) {
    && KeyAt(entries, i) == Some(Tstr(key)) && entries[2 * i + 1] == v
    && forall j :: 0 <= j < i ==> KeyAt(entries, j) != Some(Tstr(key))
  }

  /** The first value under a text key of a flat entry list. */
  ghost predicate HasEntry(entries: seq<Cbor>, key: string, v: Cbor) {
    exists i :: 0 <= i && EntryAt(entries, key, v, i)
  }

  lemma EntryShift(entries: seq<Cbor>, key: string, v: Cbor, i: nat)
    requires |entries| >= 2 && entries[0] != Tstr(key)
    ensures EntryAt(entries[2..], key, v, i) <==> EntryAt(entries, key, v, i + 1)
  {
    var rest := entries[2..];
    forall j: nat
      ensures KeyAt(rest, j) == KeyAt(entries, j + 1)
    {
    }
    if EntryAt(rest, key, v, i) {
      forall j | 0 <= j < i + 1
        ensures KeyAt(entries, j) != Some(Tstr(key))
      {
        assert j > 0 ==> KeyAt(rest, j - 1) == KeyAt(entries, j);
      }
    }
    if EntryAt(entries, key, v, i + 1) {
      assert forall j :: 0 <= j < i ==> KeyAt(rest, j) == KeyAt(entries, j + 1);
    }
  }

  lemma {:induction false} FirstValueMeans(entries: seq<Cbor>, key: string, v: Cbor)
    ensures FirstValue(entries, key) == Some(v) <==> HasEntry(entries, key, v)
  {
    if |entries| >= 2 && entries[0] != Tstr(key) {
      var rest := entries[2..];
      FirstValueMeans(rest, key, v);
      NotFirst(entries, key, v);
    } else if |entries| >= 2 {
      assert KeyAt(entries, 0) == Some(Tstr(key));
      assert entries[1] == v ==> EntryAt(entries, key, v, 0);
    }
  }

  lemma NotFirst(entries: seq<Cbor>, key: string, v: Cbor)
    requires |entries| >= 2 && entries[0] != Tstr(key)
    ensures HasEntry(entries[2..], key, v) <==> HasEntry(entries, key, v)
  {
    hide EntryAt;
    if HasEntry(entries[2..], key, v) {
      var i :| 0 <= i && EntryAt(entries[2..], key, v, i);
      EntryShift(entries, key, v, i);
    }
    if HasEntry(entries, key, v) {
      var i :| 0 <= i && EntryAt(entries, key, v, i);
      NotAtFront(entries, key, v, i);
      EntryShift(entries, key, v, i - 1);
    }
  }

  lemma NotAtFront(entries: seq<Cbor>, key: string, v: Cbor, i: nat)
    requires |entries| >= 2 && entries[0] != Tstr(key) && EntryAt(entries, key, v, i)
    ensures i > 0
  {
  }

  /** The text names a digest, perhaps with white space around it. */
  ghost predicate NamesDigest(text: string) {
    exists digest: Digest :: IsPaddedHex(text, digest)
  }

  lemma NamesDigestMeans(text: string)
    ensures NamesDigest(text) <==>
              var t := TrimEnd(TrimStart(text));
              HexDecode(t).Some? && |HexDecode(t).value| == 32
  {
    hide IsPaddedHex, HexDecode, TrimStart, TrimEnd;
    var decoded := HexDecode(TrimEnd(TrimStart(text)));
    if decoded.Some? && |decoded.value| == 32 {
      TrimmedHex(text, decoded.value);
      var digest: Digest := decoded.value;
      assert IsPaddedHex(text, digest);
    }
    if NamesDigest(text) {
      var digest: Digest :| IsPaddedHex(text, digest);
      TrimmedHex(text, digest);
    }
  }

  /**
   What a reader makes of bytes that read as `value`. Without a map that has the marker key they are no
   sentinel; with one they are a sentinel or a broken one, and the error says what is wrong first.
   */
  lemma TryParseExact(p: Primitives, reader: SentinelReader, bytes: Bytes)
    ensures var r, value := TryParseSentinel(p, reader, bytes), reader.decodeValue(bytes);
            if !(value.Some? && value.value.Map? && exists v :: HasEntry(value.value.entries, "akmon_redacted", v)) then
              r == Ok(None)
            else if !HasEntry(value.value.entries, "akmon_redacted", Bool(true)) then r == Err(InvalidShape)
            else if Serialize(p, value.value) != Some(bytes) then r == Err(InvalidCbor)
            else if reader.decodeMarker(bytes).None? then r == Err(InvalidShape)
            else
              var m := reader.decodeMarker(bytes).value;
              if !m.akmonRedacted then r == Err(InvalidShape)
              else if !NamesDigest(m.originalHash) then r == Err(InvalidOriginalHash)
              else if !reader.isTimestamp(m.redactedAt) then r == Err(InvalidTimestamp)
              else r == Ok(Some(m))
  {
    hide HexDecode, TrimStart, TrimEnd, FirstValue, HasEntry, Serialize, NamesDigest;
    if reader.decodeMarker(bytes).Some? {
      NamesDigestMeans(reader.decodeMarker(bytes).value.originalHash);
    }
    var value := reader.decodeValue(bytes);
    if value.Some? && value.value.Map? {
      var found := FirstValue(value.value.entries, "akmon_redacted");
      forall v
        ensures found == Some(v) <==> HasEntry(value.value.entries, "akmon_redacted", v)
      {
        FirstValueMeans(value.value.entries, "akmon_redacted", v);
      }
    }
  }
}
