/**
 Session events: hashes, event kinds, the wire form with raw digests and whole seconds, its two CBOR
 layouts, and content hashing. The digest function and the success of the serializer are
 parameters; nothing is assumed about either.
 */
module Events {
  import opened Foundation
  import opened Text
  import opened Cbor

  // ---------------------------------------------------------------- hashes

  datatype HashAlgorithm = Sha256 | Blake3

  type Digest = d: Bytes | |d| == 32 witness seq(32, _ => 0)

  datatype Hash = Hash(algorithm: HashAlgorithm, bytes: Digest) {
    function ToHex(): (s: string)
      ensures |s| == 64 && AllLowerHex(s)
    {
      HexEncode(bytes)
    }
  }

  function AlgorithmName(a: HashAlgorithm): string {
    match a
    case Sha256 => "sha256"
    case Blake3 => "blake3"
  }

  function ParseAlgorithm(name: string): Option<HashAlgorithm> {
    if name == "sha256" then Some(Sha256)
    else if name == "blake3" then Some(Blake3)
    else None
  }

  function ParseHex(a: HashAlgorithm, text: string): Option<Hash> {
    var decoded :- HexDecode(text);
    if |decoded| == 32 then Some(Hash(a, decoded)) else None
  }

  lemma ParseAlgorithmName(a: HashAlgorithm)
    ensures ParseAlgorithm(AlgorithmName(a)) == Some(a)
  {
    assert AlgorithmName(Blake3)[0] != "sha256"[0];
  }

  lemma ParseHexOfToHex(h: Hash)
    ensures ParseHex(h.algorithm, h.ToHex()) == Some(h)
  {
    HexRoundTrip(h.bytes);
  }

  // ---------------------------------------------------------------- timestamps

  const NANOS_PER_SECOND := 1_000_000_000
  const MIN_UNIX_SECONDS := -377705116800
  const MAX_UNIX_SECONDS := 253402300799

  /** A UTC timestamp: nanoseconds since the Unix epoch, within the years -9999 to 9999. */
  type Instant = n: int | MIN_UNIX_SECONDS * NANOS_PER_SECOND <= n < (MAX_UNIX_SECONDS + 1) * NANOS_PER_SECOND

  /** Seconds since the epoch, rounded towards the past. */
  function UnixTimestamp(t: Instant): (s: i64)
    ensures MIN_UNIX_SECONDS <= s <= MAX_UNIX_SECONDS
    ensures s * NANOS_PER_SECOND <= t < (s + 1) * NANOS_PER_SECOND
  {
    t / NANOS_PER_SECOND
  }

  predicate Representable(seconds: i64) {
    MIN_UNIX_SECONDS <= seconds <= MAX_UNIX_SECONDS
  }

  function FromUnixTimestamp(seconds: i64): Instant {
    if Representable(seconds) then seconds * NANOS_PER_SECOND else 0
  }

  function WholeSecond(t: Instant): Instant {
    FromUnixTimestamp(UnixTimestamp(t))
  }

  lemma UnixRoundTrip(s: i64)
    requires Representable(s)
    ensures UnixTimestamp(FromUnixTimestamp(s)) == s
  {
  }

  lemma WholeSecondMonotone(t: Instant, u: Instant)
    requires t <= u
    ensures WholeSecond(t) <= WholeSecond(u)
  {
  }

  // ---------------------------------------------------------------- events

  datatype AttemptStatus =
    | Success
    | RateLimited
    | NetworkError
    | ServerError
    | ClientError
    | Cancelled
    | Other(detail: string)

  /** One provider attempt, over a type of hashes and a type of times. */
  datatype AttemptOf<H, T> = Attempt(
    attemptNumber: u32,
    startedAt: T,
    endedAt: T,
    status: AttemptStatus,
    requestHash: H,
    responseHash: Option<H>,
    streamHash: Option<H>,
    errorMessage: Option<string>)

  datatype KindOf<H, T> =
    | SessionStart(cwdHash: H, configHash: H)
    | UserTurn(promptHash: H)
    | ProviderCall(providerId: string, attempts: seq<AttemptOf<H, T>>, callStreamHash: Option<H>)
    | ToolCall(toolId: string, inputHash: H, outputHash: H, sideEffectsHash: Option<H>)
    | RetrievalCall(indexId: string, queryHash: H, resultsHash: H)
    | PermissionGate(policyId: string, decision: string, contextHash: H)
    | AssistantTurn(messageHash: H, toolCallsHash: Option<H>)
    | SessionEnd(summaryHash: Option<H>)

  datatype EventOf<H, T> = Event(parents: seq<H>, kind: KindOf<H, T>, emittedAt: T, sequence: u64)

  type Attempt = AttemptOf<Hash, Instant>
  type EventKind = KindOf<Hash, Instant>
  type Event = EventOf<Hash, Instant>
  /** The serialized shape: raw digests without their algorithm, Unix seconds. */
  type WireEvent = EventOf<Digest, i64>

  function AttemptRefs<H, T>(a: AttemptOf<H, T>): seq<H> {
    [a.requestHash] + OptionSeq(a.responseHash) + OptionSeq(a.streamHash)
  }

  function AttemptsRefs<H, T>(attempts: seq<AttemptOf<H, T>>): seq<H> {
    if attempts == [] then [] else AttemptRefs(attempts[0]) + AttemptsRefs(attempts[1..])
  }

  /** The object hashes an event kind refers to, in field order. */
  function Refs<H, T>(kind: KindOf<H, T>): seq<H> {
    match kind
    case SessionStart(cwd, config) => [cwd, config]
    case UserTurn(prompt) => [prompt]
    case ProviderCall(_, attempts, stream) => AttemptsRefs(attempts) + OptionSeq(stream)
    case ToolCall(_, input, output, sideEffects) => [input, output] + OptionSeq(sideEffects)
    case RetrievalCall(_, query, results) => [query, results]
    case PermissionGate(_, _, context) => [context]
    case AssistantTurn(message, toolCalls) => [message] + OptionSeq(toolCalls)
    case SessionEnd(summary) => OptionSeq(summary)
  }

  // ---------------------------------------------------------------- mapping hashes and times

  function MapAttempt<H, T, G, U>(a: AttemptOf<H, T>, f: H -> G, g: T -> U): AttemptOf<G, U> {
    Attempt(a.attemptNumber, g(a.startedAt), g(a.endedAt), a.status, f(a.requestHash),
            MapOption(a.responseHash, f), MapOption(a.streamHash, f), a.errorMessage)
  }

  function MapKind<H, T, G, U>(k: KindOf<H, T>, f: H -> G, g: T -> U): KindOf<G, U> {
    match k
    case SessionStart(cwd, config) => SessionStart(f(cwd), f(config))
    case UserTurn(prompt) => UserTurn(f(prompt))
    case ProviderCall(id, attempts, stream) =>
      ProviderCall(id, MapSeq(attempts, a => MapAttempt(a, f, g)), MapOption(stream, f))
    case ToolCall(id, input, output, sideEffects) =>
      ToolCall(id, f(input), f(output), MapOption(sideEffects, f))
    case RetrievalCall(id, query, results) => RetrievalCall(id, f(query), f(results))
    case PermissionGate(id, decision, context) => PermissionGate(id, decision, f(context))
    case AssistantTurn(message, toolCalls) => AssistantTurn(f(message), MapOption(toolCalls, f))
    case SessionEnd(summary) => SessionEnd(MapOption(summary, f))
  }

  function MapEvent<H, T, G, U>(e: EventOf<H, T>, f: H -> G, g: T -> U): EventOf<G, U> {
    Event(MapSeq(e.parents, f), MapKind(e.kind, f, g), g(e.emittedAt), e.sequence)
  }

  lemma {:induction false} MapAttemptsRefs<H, T, G, U>(attempts: seq<AttemptOf<H, T>>, f: H -> G, g: T -> U)
    ensures AttemptsRefs(MapSeq(attempts, a => MapAttempt(a, f, g))) == MapSeq(AttemptsRefs(attempts), f)
  {
    var mapped := MapSeq(attempts, a => MapAttempt(a, f, g));
    if attempts != [] {
      MapAttemptsRefs(attempts[1..], f, g);
      assert mapped[1..] == MapSeq(attempts[1..], a => MapAttempt(a, f, g));
      assert AttemptRefs(mapped[0]) == MapSeq(AttemptRefs(attempts[0]), f);
    }
  }

  /** Mapping an event kind maps its references position by position. */
  lemma MapKindRefs<H, T, G, U>(k: KindOf<H, T>, f: H -> G, g: T -> U)
    ensures Refs(MapKind(k, f, g)) == MapSeq(Refs(k), f)
  {
    if k.ProviderCall? {
      MapAttemptsRefs(k.attempts, f, g);
    }
  }

  // ---------------------------------------------------------------- wire form

  function ToWire(e: Event): WireEvent {
    MapEvent(e, (h: Hash) => h.bytes, (t: Instant) => UnixTimestamp(t))
  }

  predicate TimesRepresentable(w: WireEvent) {
    && Representable(w.emittedAt)
    && (w.kind.ProviderCall? ==>
          forall i :: 0 <= i < |w.kind.attempts| ==>
            Representable(w.kind.attempts[i].startedAt) && Representable(w.kind.attempts[i].endedAt))
  }

  /** Decoding fails closed on a timestamp outside the representable range. */
  function FromWire(a: HashAlgorithm, w: WireEvent): Option<Event> {
    if TimesRepresentable(w) then
      Some(MapEvent(w, (d: Digest) => Hash(a, d), (s: i64) => FromUnixTimestamp(s)))
    else None
  }

  /** The event with whole-second times and every hash tagged with algorithm `a`. */
  function Normalise(a: HashAlgorithm, e: Event): Event {
    MapEvent(e, (h: Hash) => Hash(a, h.bytes), (t: Instant) => WholeSecond(t))
  }

  lemma FromWireToWire(a: HashAlgorithm, e: Event)
    ensures FromWire(a, ToWire(e)) == Some(Normalise(a, e))
  {
    var w := ToWire(e);
    assert TimesRepresentable(w);
    var back := FromWire(a, w).value;
    assert back.parents == Normalise(a, e).parents;
    if e.kind.ProviderCall? {
      assert back.kind.attempts == Normalise(a, e).kind.attempts;
    }
  }

  lemma ToWireFromWire(a: HashAlgorithm, w: WireEvent)
    requires TimesRepresentable(w)
    ensures ToWire(FromWire(a, w).value) == w
  {
    var back := ToWire(FromWire(a, w).value);
    assert back.parents == w.parents;
    if w.kind.ProviderCall? {
      forall i | 0 <= i < |w.kind.attempts|
        ensures back.kind.attempts[i] == w.kind.attempts[i]
      {
        UnixRoundTrip(w.kind.attempts[i].startedAt);
        UnixRoundTrip(w.kind.attempts[i].endedAt);
      }
      assert back.kind.attempts == w.kind.attempts;
    }
  }

  lemma NormaliseKeepsWire(a: HashAlgorithm, e: Event)
    ensures ToWire(Normalise(a, e)) == ToWire(e)
  {
    FromWireToWire(a, e);
    ToWireFromWire(a, ToWire(e));
  }

  // ---------------------------------------------------------------- CBOR layouts

  /** `events.bin` writes a digest as an array of 32 integers; content hashing as a byte string. */
  datatype Layout = FrameLayout | HashLayout

  function DigestCbor(layout: Layout, d: Digest): Cbor {
    match layout
    case FrameLayout => Arr(MapSeq(d, (b: byte) => Uint(b)))
    case HashLayout => Bstr(d)
  }

  function OptionCbor(o: Option<Cbor>): Cbor {
    match o
    case None => Null
    case Some(v) => v
  }

  function OptionDigestCbor(layout: Layout, o: Option<Digest>): Cbor {
    OptionCbor(MapOption(o, (d: Digest) => DigestCbor(layout, d)))
  }

  function IntegerCbor(n: i64): Cbor {
    if n >= 0 then Uint(n) else Nint(-1 - n)
  }

  /** An epoch-based date/time (tag 1, section 3.4.2 of RFC 8949). */
  function TimeCbor(seconds: i64): Cbor {
    Tag(1, IntegerCbor(seconds))
  }

  function StatusCbor(s: AttemptStatus): Cbor {
    match s
    case Success => Tstr("Success")
    case RateLimited => Tstr("RateLimited")
    case NetworkError => Tstr("NetworkError")
    case ServerError => Tstr("ServerError")
    case ClientError => Tstr("ClientError")
    case Cancelled => Tstr("Cancelled")
    case Other(detail) => Map([Tstr("Other"), Tstr(detail)])
  }

  function AttemptCbor(layout: Layout, a: AttemptOf<Digest, i64>): Cbor {
    Map([Tstr("attempt_number"), Uint(a.attemptNumber),
         Tstr("started_at"), TimeCbor(a.startedAt),
         Tstr("ended_at"), TimeCbor(a.endedAt),
         Tstr("status"), StatusCbor(a.status),
         Tstr("request_hash"), DigestCbor(layout, a.requestHash),
         Tstr("response_hash"), OptionDigestCbor(layout, a.responseHash),
         Tstr("stream_hash"), OptionDigestCbor(layout, a.streamHash),
         Tstr("error_message"), OptionCbor(MapOption(a.errorMessage, (s: string) => Tstr(s)))])
  }

  function AttemptsCbor(layout: Layout, attempts: seq<AttemptOf<Digest, i64>>): Cbor {
    Arr(MapSeq(attempts, (a: AttemptOf<Digest, i64>) => AttemptCbor(layout, a)))
  }

  function VariantName(k: KindOf<Digest, i64>): string {
    match k
    case SessionStart(_, _) => "SessionStart"
    case UserTurn(_) => "UserTurn"
    case ProviderCall(_, _, _) => "ProviderCall"
    case ToolCall(_, _, _, _) => "ToolCall"
    case RetrievalCall(_, _, _) => "RetrievalCall"
    case PermissionGate(_, _, _) => "PermissionGate"
    case AssistantTurn(_, _) => "AssistantTurn"
    case SessionEnd(_) => "SessionEnd"
  }

  function VariantFields(layout: Layout, k: KindOf<Digest, i64>): seq<Cbor> {
    match k
    case SessionStart(cwd, config) =>
      [Tstr("cwd_hash"), DigestCbor(layout, cwd), Tstr("config_hash"), DigestCbor(layout, config)]
    case UserTurn(prompt) =>
      [Tstr("prompt_hash"), DigestCbor(layout, prompt)]
    case ProviderCall(id, attempts, stream) =>
      [Tstr("provider_id"), Tstr(id), Tstr("attempts"), AttemptsCbor(layout, attempts),
       Tstr("stream_hash"), OptionDigestCbor(layout, stream)]
    case ToolCall(id, input, output, sideEffects) =>
      [Tstr("tool_id"), Tstr(id), Tstr("input_hash"), DigestCbor(layout, input),
       Tstr("output_hash"), DigestCbor(layout, output),
       Tstr("side_effects_hash"), OptionDigestCbor(layout, sideEffects)]
    case RetrievalCall(id, query, results) =>
      [Tstr("index_id"), Tstr(id), Tstr("query_hash"), DigestCbor(layout, query),
       Tstr("results_hash"), DigestCbor(layout, results)]
    case PermissionGate(id, decision, context) =>
      [Tstr("policy_id"), Tstr(id), Tstr("decision"), Tstr(decision),
       Tstr("context_hash"), DigestCbor(layout, context)]
    case AssistantTurn(message, toolCalls) =>
      [Tstr("message_hash"), DigestCbor(layout, message),
       Tstr("tool_calls_hash"), OptionDigestCbor(layout, toolCalls)]
    case SessionEnd(summary) =>
      [Tstr("summary_hash"), OptionDigestCbor(layout, summary)]
  }

  function KindCbor(layout: Layout, k: KindOf<Digest, i64>): Cbor {
    Map([Tstr(VariantName(k)), Map(VariantFields(layout, k))])
  }

  function EventCbor(layout: Layout, w: WireEvent): Cbor {
    Map([Tstr("parents"), Arr(MapSeq(w.parents, (d: Digest) => DigestCbor(layout, d))),
         Tstr("kind"), KindCbor(layout, w.kind),
         Tstr("emitted_at"), TimeCbor(w.emittedAt),
         Tstr("sequence"), Uint(w.sequence)])
  }

  lemma MapSeqInjective<S(!new), T>(s: seq<S>, t: seq<S>, f: S -> T)
    requires MapSeq(s, f) == MapSeq(t, f)
    requires forall x, y :: f(x) == f(y) ==> x == y
    ensures s == t
  {
    assert |s| == |MapSeq(s, f)| == |MapSeq(t, f)| == |t|;
    forall i | 0 <= i < |s|
      ensures s[i] == t[i]
    {
      assert MapSeq(s, f)[i] == MapSeq(t, f)[i];
    }
  }

  lemma DigestCborInjective(layout: Layout, d: Digest, e: Digest)
    requires DigestCbor(layout, d) == DigestCbor(layout, e)
    ensures d == e
  {
    if layout.FrameLayout? {
      MapSeqInjective(d, e, (b: byte) => Uint(b));
    }
  }

  lemma OptionDigestCborInjective(layout: Layout, o: Option<Digest>, q: Option<Digest>)
    requires OptionDigestCbor(layout, o) == OptionDigestCbor(layout, q)
    ensures o == q
  {
    if o.Some? && q.Some? {
      DigestCborInjective(layout, o.value, q.value);
    }
  }

  lemma StatusCborInjective(s: AttemptStatus, t: AttemptStatus)
    requires StatusCbor(s) == StatusCbor(t)
    ensures s == t
  {
    if s.Other? && t.Other? {
      assert StatusCbor(s).entries[1] == StatusCbor(t).entries[1];
    } else if !s.Other? && !t.Other? {
      var a, b := StatusCbor(s).text, StatusCbor(t).text;
      assert |a| == |b| && a[0] == b[0];
    }
  }

  lemma AttemptCborInjective(layout: Layout, a: AttemptOf<Digest, i64>, b: AttemptOf<Digest, i64>)
    requires AttemptCbor(layout, a) == AttemptCbor(layout, b)
    ensures a == b
  {
    var x, y := AttemptCbor(layout, a).entries, AttemptCbor(layout, b).entries;
    assert forall i :: 0 <= i < 16 ==> x[i] == y[i];
    assert x[1] == y[1] && x[3] == y[3] && x[5] == y[5] && x[15] == y[15];
    assert x[7] == y[7];
    StatusCborInjective(a.status, b.status);
    assert x[9] == y[9] && x[11] == y[11] && x[13] == y[13];
    DigestCborInjective(layout, a.requestHash, b.requestHash);
    OptionDigestCborInjective(layout, a.responseHash, b.responseHash);
    OptionDigestCborInjective(layout, a.streamHash, b.streamHash);
  }

  lemma AttemptsCborInjective(layout: Layout, s: seq<AttemptOf<Digest, i64>>, t: seq<AttemptOf<Digest, i64>>)
    requires AttemptsCbor(layout, s) == AttemptsCbor(layout, t)
    ensures s == t
  {
    forall a, b | AttemptCbor(layout, a) == AttemptCbor(layout, b)
      ensures a == b
    {
      AttemptCborInjective(layout, a, b);
    }
    MapSeqInjective(s, t, (a: AttemptOf<Digest, i64>) => AttemptCbor(layout, a));
  }

  lemma VariantNameFixesVariant(k: KindOf<Digest, i64>, l: KindOf<Digest, i64>)
    requires VariantName(k) == VariantName(l)
    ensures k.SessionStart? == l.SessionStart? && k.UserTurn? == l.UserTurn?
    ensures k.ProviderCall? == l.ProviderCall? && k.ToolCall? == l.ToolCall?
    ensures k.RetrievalCall? == l.RetrievalCall? && k.PermissionGate? == l.PermissionGate?
    ensures k.AssistantTurn? == l.AssistantTurn? && k.SessionEnd? == l.SessionEnd?
  {
    var a, b := VariantName(k), VariantName(l);
    assert |a| == |b| && a[0] == b[0];
  }

  lemma VariantFieldsInjective(layout: Layout, k: KindOf<Digest, i64>, l: KindOf<Digest, i64>)
    requires VariantName(k) == VariantName(l)
    requires VariantFields(layout, k) == VariantFields(layout, l)
    ensures k == l
  {
    VariantNameFixesVariant(k, l);
    var x, y := VariantFields(layout, k), VariantFields(layout, l);
    assert x[1] == y[1];
    assert |x| > 3 ==> x[3] == y[3];
    assert |x| > 5 ==> x[5] == y[5];
    assert |x| > 7 ==> x[7] == y[7];
    match k
    case SessionStart(cwd, config) =>
      DigestCborInjective(layout, cwd, l.cwdHash);
      DigestCborInjective(layout, config, l.configHash);
    case UserTurn(prompt) =>
      DigestCborInjective(layout, prompt, l.promptHash);
    case ProviderCall(_, attempts, stream) =>
      AttemptsCborInjective(layout, attempts, l.attempts);
      OptionDigestCborInjective(layout, stream, l.callStreamHash);
    case ToolCall(_, input, output, sideEffects) =>
      DigestCborInjective(layout, input, l.inputHash);
      DigestCborInjective(layout, output, l.outputHash);
      OptionDigestCborInjective(layout, sideEffects, l.sideEffectsHash);
    case RetrievalCall(_, query, results) =>
      DigestCborInjective(layout, query, l.queryHash);
      DigestCborInjective(layout, results, l.resultsHash);
    case PermissionGate(_, _, context) =>
      DigestCborInjective(layout, context, l.contextHash);
    case AssistantTurn(message, toolCalls) =>
      DigestCborInjective(layout, message, l.messageHash);
      OptionDigestCborInjective(layout, toolCalls, l.toolCallsHash);
    case SessionEnd(summary) =>
      OptionDigestCborInjective(layout, summary, l.summaryHash);
  }

  lemma EventCborInjective(layout: Layout, v: WireEvent, w: WireEvent)
    requires EventCbor(layout, v) == EventCbor(layout, w)
    ensures v == w
  {
    var x, y := EventCbor(layout, v).entries, EventCbor(layout, w).entries;
    assert x[1] == y[1] && x[3] == y[3] && x[5] == y[5] && x[7] == y[7];
    forall d: Digest, e: Digest | DigestCbor(layout, d) == DigestCbor(layout, e)
      ensures d == e
    {
      DigestCborInjective(layout, d, e);
    }
    MapSeqInjective(v.parents, w.parents, (d: Digest) => DigestCbor(layout, d));
    assert x[3].entries[0] == y[3].entries[0] && x[3].entries[1] == y[3].entries[1];
    VariantFieldsInjective(layout, v.kind, w.kind);
  }

  // ---------------------------------------------------------------- content hashing

  /** What the model takes as given: the digest functions, and whether a serializer call succeeds. */
  datatype Primitives = Primitives(
    digest: (HashAlgorithm, Bytes) -> Digest,
    serializes: Cbor -> bool)

  function DigestBytes(p: Primitives, a: HashAlgorithm, bytes: Bytes): Hash {
    Hash(a, p.digest(a, bytes))
  }

  function Serialize(p: Primitives, v: Cbor): Option<Bytes> {
    if Fits(v) && p.serializes(v) then Some(Encode(v)) else None
  }

  /** The bytes whose digest is the content hash of `e`. */
  function HashedBytes(e: Event): Bytes {
    Encode(EventCbor(HashLayout, ToWire(e)))
  }

  function ContentHash(p: Primitives, a: HashAlgorithm, e: Event): Option<Hash> {
    var encoded :- Serialize(p, EventCbor(HashLayout, ToWire(e)));
    Some(DigestBytes(p, a, encoded))
  }

  /** Two different inputs with one digest. */
  predicate Collision(p: Primitives, a: HashAlgorithm, x: Bytes, y: Bytes) {
    x != y && p.digest(a, x) == p.digest(a, y)
  }

  /** A content hash fixes the wire form of its event, unless the two inputs collide. */
  lemma ContentHashBinds(p: Primitives, a: HashAlgorithm, e: Event, f: Event)
    requires ContentHash(p, a, e).Some? && ContentHash(p, a, e) == ContentHash(p, a, f)
    ensures ToWire(e) == ToWire(f) || Collision(p, a, HashedBytes(e), HashedBytes(f))
  {
    var v, w := EventCbor(HashLayout, ToWire(e)), EventCbor(HashLayout, ToWire(f));
    if Encode(v) == Encode(w) {
      EncodeInjective(v, w);
      EventCborInjective(HashLayout, ToWire(e), ToWire(f));
    }
  }

  /** Hashing does not see sub-second times or algorithm tags. */
  lemma ContentHashNormalised(p: Primitives, a: HashAlgorithm, b: HashAlgorithm, e: Event)
    ensures ContentHash(p, a, Normalise(b, e)) == ContentHash(p, a, e)
    ensures HashedBytes(Normalise(b, e)) == HashedBytes(e)
  {
    NormaliseKeepsWire(b, e);
  }
}
