/**
 A reader of the two CBOR layouts of an event, by field name: what a content hash covers and what a
 frame of `events.bin` carries.
 */
module EventReader {
  import opened Foundation
  import opened Cbor
  import opened CborReader
  import opened Events
  import opened Framing

  /** The value of the field at position `i`, which must have this name. */
  function Field(entries: seq<Cbor>, i: nat, name: string): Option<Cbor> {
    if 2 * i + 1 < |entries| && entries[2 * i] == Tstr(name) then Some(entries[2 * i + 1]) else None
  }

  function ReadText(v: Cbor): Option<string> {
    if v.Tstr? then Some(v.text) else None
  }

  function ReadUint(v: Cbor): Option<u64> {
    if v.Uint? then Some(v.n) else None
  }

  /** Seconds since the epoch under tag 1; a negative number n is written as -1 - n. */
  function ReadTime(v: Cbor): Option<i64> {
    match v
    case Tag(1, Uint(n)) => if n < TWO_63 then Some(n) else None
    case Tag(1, Nint(n)) => if n < TWO_63 then Some(-1 - n) else None
    case _ => None
  }

  function ReadBytes(items: seq<Cbor>): Option<Bytes> {
    if items == [] then Some([])
    else if items[0].Uint? && items[0].n < 0x100 then
      var rest :- ReadBytes(items[1..]);
      Some([items[0].n] + rest)
    else None
  }

  /** A digest is a byte string where it is hashed, and a list of 32 numbers in a frame. */
  function ReadDigest(layout: Layout, v: Cbor): Option<Digest> {
    var bytes :- if layout.HashLayout? then (if v.Bstr? then Some(v.bytes) else None)
                 else if v.Arr? then ReadBytes(v.items) else None;
    if |bytes| == 32 then Some(bytes) else None
  }

  function ReadOptionDigest(layout: Layout, v: Cbor): Option<Option<Digest>> {
    if v.Null? then Some(None)
    else
      var d :- ReadDigest(layout, v);
      Some(Some(d))
  }

  function ReadOptionText(v: Cbor): Option<Option<string>> {
    if v.Null? then Some(None) else if v.Tstr? then Some(Some(v.text)) else None
  }

  function ReadDigests(layout: Layout, items: seq<Cbor>): Option<seq<Digest>> {
    if items == [] then Some([])
    else
      var first :- ReadDigest(layout, items[0]);
      var rest :- ReadDigests(layout, items[1..]);
      Some([first] + rest)
  }

  function ReadStatus(v: Cbor): Option<AttemptStatus> {
    match v
    case Tstr(name) =>
      if name == "Success" then Some(Success)
      else if name == "RateLimited" then Some(RateLimited)
      else if name == "NetworkError" then Some(NetworkError)
      else if name == "ServerError" then Some(ServerError)
      else if name == "ClientError" then Some(ClientError)
      else if name == "Cancelled" then Some(Cancelled)
      else None
    case Map(entries) =>
      var detail :- Field(entries, 0, "Other");
      var text :- ReadText(detail);
      Some(Other(text))
    case _ => None
  }

  function ReadAttempt(layout: Layout, v: Cbor): Option<AttemptOf<Digest, i64>> {
    if !v.Map? || |v.entries| != 16 then None
    else
      var number :- Field(v.entries, 0, "attempt_number");
      var number :- ReadUint(number);
      var started :- Field(v.entries, 1, "started_at");
      var started :- ReadTime(started);
      var ended :- Field(v.entries, 2, "ended_at");
      var ended :- ReadTime(ended);
      var status :- Field(v.entries, 3, "status");
      var status :- ReadStatus(status);
      var request :- Field(v.entries, 4, "request_hash");
      var request :- ReadDigest(layout, request);
      var response :- Field(v.entries, 5, "response_hash");
      var response :- ReadOptionDigest(layout, response);
      var stream :- Field(v.entries, 6, "stream_hash");
      var stream :- ReadOptionDigest(layout, stream);
      var message :- Field(v.entries, 7, "error_message");
      var message :- ReadOptionText(message);
      if number < TWO_32 then Some(Attempt(number, started, ended, status, request, response, stream, message))
        else None
  }

  function ReadAttempts(layout: Layout, items: seq<Cbor>): Option<seq<AttemptOf<Digest, i64>>> {
    if items == [] then Some([])
    else
      var first :- ReadAttempt(layout, items[0]);
      var rest :- ReadAttempts(layout, items[1..]);
      Some([first] + rest)
  }

  function DigestField(layout: Layout, entries: seq<Cbor>, i: nat, name: string): Option<Digest> {
    var v :- Field(entries, i, name);
    ReadDigest(layout, v)
  }

  function OptionDigestField(layout: Layout, entries: seq<Cbor>, i: nat, name: string): Option<Option<Digest>> {
    var v :- Field(entries, i, name);
    ReadOptionDigest(layout, v)
  }

  function TextField(entries: seq<Cbor>, i: nat, name: string): Option<string> {
    var v :- Field(entries, i, name);
    ReadText(v)
  }

  function ReadVariant(layout: Layout, name: string, f: seq<Cbor>): Option<KindOf<Digest, i64>> {
    if name == "SessionStart" && |f| == 4 then
      var cwd :- DigestField(layout, f, 0, "cwd_hash");
      var config :- DigestField(layout, f, 1, "config_hash");
      Some(SessionStart(cwd, config))
    else if name == "UserTurn" && |f| == 2 then
      var prompt :- DigestField(layout, f, 0, "prompt_hash");
      Some(UserTurn(prompt))
    else if name == "ProviderCall" && |f| == 6 then
      var id :- TextField(f, 0, "provider_id");
      var list :- Field(f, 1, "attempts");
      var attempts :- if list.Arr? then ReadAttempts(layout, list.items) else None;
      var stream :- OptionDigestField(layout, f, 2, "stream_hash");
      Some(ProviderCall(id, attempts, stream))
    else if name == "ToolCall" && |f| == 8 then
      var id :- TextField(f, 0, "tool_id");
      var input :- DigestField(layout, f, 1, "input_hash");
      var output :- DigestField(layout, f, 2, "output_hash");
      var sideEffects :- OptionDigestField(layout, f, 3, "side_effects_hash");
      Some(ToolCall(id, input, output, sideEffects))
    else if name == "RetrievalCall" && |f| == 6 then
      var id :- TextField(f, 0, "index_id");
      var query :- DigestField(layout, f, 1, "query_hash");
      var results :- DigestField(layout, f, 2, "results_hash");
      Some(RetrievalCall(id, query, results))
    else if name == "PermissionGate" && |f| == 6 then
      var id :- TextField(f, 0, "policy_id");
      var decision :- TextField(f, 1, "decision");
      var context :- DigestField(layout, f, 2, "context_hash");
      Some(PermissionGate(id, decision, context))
    else if name == "AssistantTurn" && |f| == 4 then
      var message :- DigestField(layout, f, 0, "message_hash");
      var toolCalls :- OptionDigestField(layout, f, 1, "tool_calls_hash");
      Some(AssistantTurn(message, toolCalls))
    else if name == "SessionEnd" && |f| == 2 then
      var summary :- OptionDigestField(layout, f, 0, "summary_hash");
      Some(SessionEnd(summary))
    else None
  }

  function ReadKind(layout: Layout, v: Cbor): Option<KindOf<Digest, i64>> {
    if v.Map? && |v.entries| == 2 && v.entries[0].Tstr? && v.entries[1].Map? then
      ReadVariant(layout, v.entries[0].text, v.entries[1].entries)
    else None
  }

  function ReadWireEvent(layout: Layout, v: Cbor): Option<WireEvent> {
    if !v.Map? || |v.entries| != 8 then None
    else
      var parents :- Field(v.entries, 0, "parents");
      var parents :- if parents.Arr? then ReadDigests(layout, parents.items) else None;
      var kind :- Field(v.entries, 1, "kind");
      var kind :- ReadKind(layout, kind);
      var emitted :- Field(v.entries, 2, "emitted_at");
      var emitted :- ReadTime(emitted);
      var sequence :- Field(v.entries, 3, "sequence");
      var sequence :- ReadUint(sequence);
      Some(Event(parents, kind, emitted, sequence))
  }

  // ---------------------------------------------------------------- reading undoes writing

  lemma {:induction false} ReadBytesOf(bytes: Bytes)
    ensures ReadBytes(MapSeq(bytes, (b: byte) => Uint(b))) == Some(bytes)
  {
    var items := MapSeq(bytes, (b: byte) => Uint(b));
    if bytes != [] {
      ReadBytesOf(bytes[1..]);
      assert items[1..] == MapSeq(bytes[1..], (b: byte) => Uint(b));
      assert bytes == [bytes[0]] + bytes[1..];
    }
  }

  lemma ReadDigestOf(layout: Layout, d: Digest)
    ensures ReadDigest(layout, DigestCbor(layout, d)) == Some(d)
  {
    if layout.FrameLayout? {
      ReadBytesOf(d);
    }
  }

  lemma ReadOptionDigestOf(layout: Layout, o: Option<Digest>)
    ensures ReadOptionDigest(layout, OptionDigestCbor(layout, o)) == Some(o)
  {
    if o.Some? {
      ReadDigestOf(layout, o.value);
    }
  }

  lemma ReadTimeOf(s: i64)
    ensures ReadTime(TimeCbor(s)) == Some(s)
  {
  }

  lemma {:induction false} ReadDigestsOf(layout: Layout, ds: seq<Digest>)
    ensures ReadDigests(layout, MapSeq(ds, (d: Digest) => DigestCbor(layout, d))) == Some(ds)
  {
    hide ReadDigest, DigestCbor;
    var items := MapSeq(ds, (d: Digest) => DigestCbor(layout, d));
    if ds != [] {
      ReadDigestOf(layout, ds[0]);
      ReadDigestsOf(layout, ds[1..]);
      assert items[1..] == MapSeq(ds[1..], (d: Digest) => DigestCbor(layout, d));
      assert ds == [ds[0]] + ds[1..];
    }
  }

  lemma ReadStatusOf(s: AttemptStatus)
    ensures ReadStatus(StatusCbor(s)) == Some(s)
  {
    assert "RateLimited"[0] != "ServerError"[0] && "RateLimited"[0] != "ClientError"[0];
    assert "ServerError"[0] != "ClientError"[0];
  }

  lemma ReadAttemptOf(layout: Layout, a: AttemptOf<Digest, i64>)
    ensures ReadAttempt(layout, AttemptCbor(layout, a)) == Some(a)
  {
    hide ReadStatus, StatusCbor, ReadDigest, DigestCbor, ReadOptionDigest, OptionDigestCbor, ReadTime, TimeCbor;
    ReadTimeOf(a.startedAt);
    ReadTimeOf(a.endedAt);
    ReadStatusOf(a.status);
    ReadDigestOf(layout, a.requestHash);
    ReadOptionDigestOf(layout, a.responseHash);
    ReadOptionDigestOf(layout, a.streamHash);
  }

  lemma {:induction false} ReadAttemptsOf(layout: Layout, attempts: seq<AttemptOf<Digest, i64>>)
    ensures ReadAttempts(layout, MapSeq(attempts, (a: AttemptOf<Digest, i64>) => AttemptCbor(layout, a)))
            == Some(attempts)
  {
    hide ReadAttempt, AttemptCbor;
    var items := MapSeq(attempts, (a: AttemptOf<Digest, i64>) => AttemptCbor(layout, a));
    if attempts != [] {
      ReadAttemptOf(layout, attempts[0]);
      ReadAttemptsOf(layout, attempts[1..]);
      assert items[1..] == MapSeq(attempts[1..], (a: AttemptOf<Digest, i64>) => AttemptCbor(layout, a));
      assert attempts == [attempts[0]] + attempts[1..];
    }
  }

  lemma ReadVariantOf(layout: Layout, k: KindOf<Digest, i64>)
    ensures ReadVariant(layout, VariantName(k), VariantFields(layout, k)) == Some(k)
  {
    hide ReadVariant, VariantName, VariantFields;
    if k.SessionStart? || k.UserTurn? || k.AssistantTurn? || k.SessionEnd? {
      ReadTurnOf(layout, k);
    } else if k.ProviderCall? || k.ToolCall? {
      ReadCallOf(layout, k);
    } else {
      ReadAccessOf(layout, k);
    }
  }

  lemma ReadTurnOf(layout: Layout, k: KindOf<Digest, i64>)
    requires k.SessionStart? || k.UserTurn? || k.AssistantTurn? || k.SessionEnd?
    ensures ReadVariant(layout, VariantName(k), VariantFields(layout, k)) == Some(k)
  {
    hide ReadDigest, DigestCbor, ReadOptionDigest, OptionDigestCbor;
    match k
    case SessionStart(cwd, config) =>
      ReadDigestOf(layout, cwd);
      ReadDigestOf(layout, config);
    case UserTurn(prompt) => ReadDigestOf(layout, prompt);
    case AssistantTurn(message, toolCalls) =>
      ReadDigestOf(layout, message);
      ReadOptionDigestOf(layout, toolCalls);
    case SessionEnd(summary) => ReadOptionDigestOf(layout, summary);
  }

  lemma ReadCallOf(layout: Layout, k: KindOf<Digest, i64>)
    requires k.ProviderCall? || k.ToolCall?
    ensures ReadVariant(layout, VariantName(k), VariantFields(layout, k)) == Some(k)
  {
    hide ReadDigest, DigestCbor, ReadOptionDigest, OptionDigestCbor, ReadAttempts;
    assert "ProviderCall"[0] != "SessionStart"[0] && "ToolCall"[0] != "UserTurn"[0];
    match k
    case ProviderCall(_, attempts, stream) =>
      ReadAttemptsOf(layout, attempts);
      ReadOptionDigestOf(layout, stream);
    case ToolCall(_, input, output, sideEffects) =>
      ReadDigestOf(layout, input);
      ReadDigestOf(layout, output);
      ReadOptionDigestOf(layout, sideEffects);
  }

  lemma ReadAccessOf(layout: Layout, k: KindOf<Digest, i64>)
    requires k.RetrievalCall? || k.PermissionGate?
    ensures ReadVariant(layout, VariantName(k), VariantFields(layout, k)) == Some(k)
  {
    hide ReadDigest, DigestCbor, ReadOptionDigest, OptionDigestCbor;
    match k
    case RetrievalCall(_, query, results) =>
      ReadDigestOf(layout, query);
      ReadDigestOf(layout, results);
    case PermissionGate(_, _, context) => ReadDigestOf(layout, context);
  }

  /** Either layout carries every field under its name, in the order of the event's declaration. */
  lemma ReadWireEventOf(layout: Layout, w: WireEvent)
    ensures ReadWireEvent(layout, EventCbor(layout, w)) == Some(w)
  {
    hide ReadVariant, VariantName, VariantFields, ReadDigests, DigestCbor, ReadTime, TimeCbor;
    ReadDigestsOf(layout, w.parents);
    ReadVariantOf(layout, w.kind);
    ReadTimeOf(w.emittedAt);
  }

  /** Reads bytes to their end as one event. */
  function ReadEventBytes(layout: Layout, bytes: Bytes): Option<WireEvent> {
    var (v, rest) :- ReadItem(bytes);
    if rest == [] then ReadWireEvent(layout, v) else None
  }

  lemma ReadEventBytesOf(layout: Layout, w: WireEvent)
    requires Fits(EventCbor(layout, w))
    ensures ReadEventBytes(layout, Encode(EventCbor(layout, w))) == Some(w)
  {
    hide ReadWireEvent, EventCbor, Encode, ReadItem;
    var v := EventCbor(layout, w);
    ReadItemOf(v, []);
    assert Encode(v) + [] == Encode(v);
    ReadWireEventOf(layout, w);
  }

  /** A content hash is the digest of bytes that read, with digests as byte strings, as the event's wire form. */
  lemma ContentHashRead(p: Primitives, a: HashAlgorithm, e: Event)
    requires ContentHash(p, a, e).Some?
    ensures exists bytes ::
              && ReadEventBytes(HashLayout, bytes) == Some(ToWire(e))
              && ContentHash(p, a, e).value == Hash(a, p.digest(a, bytes))
  {
    hide ReadEventBytes, EventCbor;
    ReadEventBytesOf(HashLayout, ToWire(e));
    assert ReadEventBytes(HashLayout, HashedBytes(e)) == Some(ToWire(e));
  }

  /** A frame's payload reads, with digests as lists of numbers, as the event's wire form. */
  lemma PayloadRead(p: Primitives, e: Event)
    requires Payload(p, e).Some?
    ensures ReadEventBytes(FrameLayout, Payload(p, e).value) == Some(ToWire(e))
  {
    hide ReadEventBytes, EventCbor;
    ReadEventBytesOf(FrameLayout, ToWire(e));
  }

  /** The reader is a decoder that the framing laws can rest on. */
  lemma LawfulDecoderBuilt()
    ensures LawfulDecoder(Decode)
  {
    hide ReadEventBytes, EventCbor;
    forall w: WireEvent | Fits(FrameCbor(w))
      ensures Decode(Encode(FrameCbor(w))) == Ok(w)
    {
      ReadEventBytesOf(FrameLayout, w);
    }
  }

  function Decode(bytes: Bytes): Result<WireEvent, string> {
    match ReadEventBytes(FrameLayout, bytes)
    case Some(w) => Ok(w)
    case None => Err("malformed")
  }
}
