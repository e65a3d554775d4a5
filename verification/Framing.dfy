/** Errors of reading and writing a bundle. */
module Errors {
  import opened Foundation

  datatype BundleError =
    | Io
    | InvalidArchive
    | InvalidManifest
    | UnsupportedAgefVersion(version: string)
    | UnsupportedHashAlgorithm(name: string)
    | MalformedFraming
    | FrameTooLarge(len: nat)
    | NonCanonicalCbor
    | UnknownEventKind
    | UnknownAttemptStatus
    | MissingObject(hash: string)
    | ObjectHashMismatch(hash: string)
    | HeadMismatch(expected: string, found: string)
    | UnknownBundleFile(path: string)
    | BundleTooLarge(limit: nat)
}

/** `events.bin`: length-prefixed frames, each one canonically encoded event. */
module Framing {
  import opened Foundation
  import opened Cbor
  import opened Events
  import opened Errors
  import opened Streams

  const DEFAULT_MAX_EVENT_FRAME_LEN: u32 := 1_048_576

  /** The typed CBOR decoder of the serialization library; a failure carries its message. */
  type Decoder = Bytes -> Result<WireEvent, string>

  function FrameCbor(w: WireEvent): Cbor {
    EventCbor(FrameLayout, w)
  }

  /** The one law asked of the decoder: it undoes the encoder. */
  ghost predicate LawfulDecoder(decode: Decoder) {
    forall w: WireEvent :: Fits(FrameCbor(w)) ==> decode(Encode(FrameCbor(w))) == Ok(w)
  }

  predicate Contains(s: string, part: string) {
    part <= s || (s != "" && Contains(s[1..], part))
  }

  function MapWireDecodeError(msg: string): BundleError {
    if Contains(msg, "unknown variant") && Contains(msg, "AttemptStatus") then UnknownAttemptStatus
    else if Contains(msg, "unknown variant") then UnknownEventKind
    else MalformedFraming
  }

  ghost predicate Mentions(s: string, part: string) {
    exists before, after :: s == before + part + after
  }

  lemma {:induction false} ContainsMeans(s: string, part: string)
    ensures Contains(s, part) <==> Mentions(s, part)
  {
    if part <= s {
      assert s == "" + part + s[|part|..];
    } else if s != "" {
      ContainsMeans(s[1..], part);
      if Mentions(s[1..], part) {
        var before, after :| s[1..] == before + part + after;
        assert s == ([s[0]] + before) + part + after;
      }
      if Mentions(s, part) {
        var before, after :| s == before + part + after;
        assert before == "" ==> s == part + after;
        assert s[1..] == before[1..] + part + after;
      }
    }
  }

  /** The decoder's message decides whether a payload is unknown or malformed. */
  lemma MapWireDecodeErrorMeans(msg: string)
    ensures MapWireDecodeError(msg) == UnknownAttemptStatus <==>
              Mentions(msg, "unknown variant") && Mentions(msg, "AttemptStatus")
    ensures MapWireDecodeError(msg) == UnknownEventKind <==>
              Mentions(msg, "unknown variant") && !Mentions(msg, "AttemptStatus")
    ensures MapWireDecodeError(msg) == MalformedFraming <==> !Mentions(msg, "unknown variant")
  {
    ContainsMeans(msg, "unknown variant");
    ContainsMeans(msg, "AttemptStatus");
  }

  // ---------------------------------------------------------------- specification

  function Payload(p: Primitives, e: Event): Option<Bytes> {
    Serialize(p, FrameCbor(ToWire(e)))
  }

  function FrameBytes(p: Primitives, e: Event): Option<Bytes> {
    var payload :- Payload(p, e);
    if |payload| < TWO_32 then Some(BigEndian(|payload|, 4) + payload) else None
  }

  function StreamBytes(p: Primitives, events: seq<Event>): Option<Bytes> {
    if events == [] then Some([])
    else
      var frame :- FrameBytes(p, events[0]);
      var rest :- StreamBytes(p, events[1..]);
      Some(frame + rest)
  }

  /** What one payload decodes to: rejected unless it is exactly the canonical encoding. */
  function DecodePayload(p: Primitives, decode: Decoder, a: HashAlgorithm, payload: Bytes): Result<Event, BundleError> {
    match decode(payload)
    case Err(msg) => Err(MapWireDecodeError(msg))
    case Ok(wire) =>
      match Serialize(p, FrameCbor(wire))
      case None => Err(MalformedFraming)
      case Some(canonical) =>
        if canonical != payload then Err(NonCanonicalCbor)
        else
          match FromWire(a, wire)
          case None => Err(MalformedFraming)
          case Some(event) => Ok(event)
  }

  datatype Outcome = End | Frame(event: Event, len: nat) | Bad(error: BundleError)

  /** What the front of a byte string reads as; a frame also says how many bytes it took. */
  function FirstFrame(p: Primitives, decode: Decoder, a: HashAlgorithm, max: u32, data: Bytes): (r: Outcome)
    ensures r.End? <==> data == []
    ensures r.Frame? ==> 4 <= r.len <= |data|
  {
    if data == [] then End
    else if |data| < 4 then Bad(MalformedFraming)
    else
      var len := FromBigEndian(data[..4]);
      if len > max then Bad(FrameTooLarge(len))
      else if |data| < 4 + len then Bad(MalformedFraming)
      else
        match DecodePayload(p, decode, a, data[4..4 + len])
        case Err(e) => Bad(e)
        case Ok(event) => Frame(event, 4 + len)
  }

  /** A front that is split into length prefix, payload and the bytes after it. */
  lemma SplitFrame(p: Primitives, decode: Decoder, a: HashAlgorithm, max: u32, got: Bytes, payload: Bytes, rest: Bytes)
    requires |got| == 4 && |payload| == FromBigEndian(got) <= max
    ensures var first := FirstFrame(p, decode, a, max, got + (payload + rest));
            match DecodePayload(p, decode, a, payload)
            case Err(e) => first == Bad(e)
            case Ok(event) => first == Frame(event, 4 + |payload|)
    ensures (got + (payload + rest))[4 + |payload|..] == rest
  {
    hide DecodePayload, FromBigEndian;
    var data := got + (payload + rest);
    assert data[..4] == got && data[4..4 + |payload|] == payload;
  }

  lemma NoFrame(p: Primitives, decode: Decoder, a: HashAlgorithm, max: u32, got: Bytes, rest: Bytes)
    requires |got| == 4
    ensures var len, first := FromBigEndian(got), FirstFrame(p, decode, a, max, got + rest);
            && (len > max ==> first == Bad(FrameTooLarge(len)))
            && (len <= max && |rest| < len ==> first == Bad(MalformedFraming))
  {
    hide DecodePayload, FromBigEndian;
    assert (got + rest)[..4] == got;
  }

  function ParseStream(p: Primitives, decode: Decoder, a: HashAlgorithm, max: u32, data: Bytes)
    : Result<seq<Event>, BundleError>
    decreases |data|
  {
    match FirstFrame(p, decode, a, max, data)
    case End => Ok([])
    case Bad(e) => Err(e)
    case Frame(event, len) =>
      var rest :- ParseStream(p, decode, a, max, data[len..]);
      Ok([event] + rest)
  }

  // ---------------------------------------------------------------- writer and reader

  /** Writes to an output that, when unreliable, may stop anywhere inside a write. */
  class EventsWriter {
    const p: Primitives
    const reliable: bool
    var inner: Bytes

    constructor (p: Primitives, reliable: bool)
      ensures this.p == p && this.reliable == reliable && inner == []
    {
      this.p, this.reliable, inner := p, reliable, [];
    }

    /** Answers whether all of `bytes` was written. */
    method WriteAll(bytes: Bytes) returns (ok: bool)
      modifies this
      ensures ok ==> inner == old(inner) + bytes
      ensures !ok ==> !reliable && old(inner) <= inner <= old(inner) + bytes
    {
      if !reliable {
        if * {
          var n: nat :| n <= |bytes|;
          inner := inner + bytes[..n];
          return false;
        }
      }
      inner := inner + bytes;
      return true;
    }

    /**
     Appends one frame. An event that cannot be framed leaves the output as it was; a failing output
     is left with part of the frame.
     */
    method WriteEvent(e: Event) returns (r: Result<(), BundleError>)
      modifies this
      ensures FrameBytes(p, e).None? ==> r == Err(MalformedFraming) && inner == old(inner)
      ensures FrameBytes(p, e).Some? ==>
                if r.Ok? then inner == old(inner) + FrameBytes(p, e).value
                else r == Err(Io) && !reliable && old(inner) <= inner <= old(inner) + FrameBytes(p, e).value
    {
      var payload := Serialize(p, EventCbor(FrameLayout, ToWire(e)));
      if payload.None? {
        return Err(MalformedFraming);
      }
      if |payload.value| >= TWO_32 {
        return Err(MalformedFraming);
      }
      ghost var before, prefix := inner, BigEndian(|payload.value|, 4);
      assert before + (prefix + payload.value) == (before + prefix) + payload.value;
      var ok := WriteAll(BigEndian(|payload.value|, 4));
      if !ok {
        assert inner <= before + prefix <= before + (prefix + payload.value);
        return Err(Io);
      }
      ok := WriteAll(payload.value);
      if !ok {
        return Err(Io);
      }
      return Ok(());
    }
  }

  class EventsReader {
    const p: Primitives
    const decode: Decoder
    const inner: ByteSource
    const maxFrameLen: u32
    const algorithm: HashAlgorithm

    constructor (p: Primitives, decode: Decoder, inner: ByteSource, algorithm: HashAlgorithm, maxFrameLen: u32)
      ensures this.p == p && this.decode == decode && this.inner == inner
      ensures this.algorithm == algorithm && this.maxFrameLen == maxFrameLen
    {
      this.p, this.decode, this.inner := p, decode, inner;
      this.algorithm, this.maxFrameLen := algorithm, maxFrameLen;
    }

    /** Fills a buffer of `len` bytes from as many short reads as it takes. */
    method ReadExact(len: nat) returns (r: Option<Bytes>)
      requires inner.Valid()
      modifies inner
      ensures inner.Valid() && inner.pos >= old(inner.pos)
      ensures r.Some? ==> |r.value| == len && old(inner.Rest()) == r.value + inner.Rest()
      ensures r.None? ==> !inner.reliable || |old(inner.Rest())| < len
    {
      var got: Bytes := [];
      while |got| < len
        invariant inner.Valid() && inner.pos >= old(inner.pos) && |got| <= len
        invariant old(inner.Rest()) == got + inner.Rest()
        decreases len - |got|
      {
        var read := inner.Read(len - |got|);
        if read.Err? || read.value == [] {
          return None;
        }
        assert got + (read.value + inner.Rest()) == (got + read.value) + inner.Rest();
        got := got + read.value;
      }
      return Some(got);
    }

    /**
     Reads one event. However the stream splits its bytes, the result is that of the pure parser on
     what was left; only an unreliable stream can answer otherwise, with an error.
     */
    method ReadEvent() returns (r: Result<Option<Event>, BundleError>)
      requires inner.Valid()
      modifies inner
      ensures inner.Valid() && inner.pos >= old(inner.pos)
      ensures var first := FirstFrame(p, decode, algorithm, maxFrameLen, old(inner.Rest()));
              match r
              case Ok(None) => first == End && inner.Rest() == []
              case Ok(Some(e)) => first.Frame? && first.event == e && inner.Rest() == old(inner.Rest())[first.len..]
              case Err(e) => first == Bad(e) || (!inner.reliable && (e == Io || e == MalformedFraming))
    {
      hide DecodePayload, FromBigEndian;
      ghost var rest := inner.Rest();
      var got: Bytes := [];
      while |got| < 4
        invariant inner.Valid() && inner.pos >= old(inner.pos) && |got| <= 4
        invariant rest == got + inner.Rest()
        decreases 4 - |got|
      {
        var read := inner.Read(4 - |got|);
        if read.Err? {
          return Err(Io);
        }
        if read.value == [] {
          if |got| == 0 {
            return Ok(None);
          }
          return Err(MalformedFraming);
        }
        got := got + read.value;
      }
      var frameLen := FromBigEndian(got);
      NoFrame(p, decode, algorithm, maxFrameLen, got, inner.Rest());
      if frameLen > maxFrameLen {
        return Err(FrameTooLarge(frameLen));
      }
      var payload := ReadExact(frameLen);
      if payload.None? {
        return Err(MalformedFraming);
      }
      SplitFrame(p, decode, algorithm, maxFrameLen, got, payload.value, inner.Rest());
      var decoded := DecodePayload(p, decode, algorithm, payload.value);
      match decoded {
        case Err(e) => return Err(e);
        case Ok(e) => return Ok(Some(e));
      }
    }
  }

  // ---------------------------------------------------------------- bijection

  ghost predicate AllNormalised(a: HashAlgorithm, events: seq<Event>) {
    forall i :: 0 <= i < |events| ==> Normalise(a, events[i]) == events[i]
  }

  /** Every frame is within the reader's limit. */
  ghost predicate FramesFit(p: Primitives, max: u32, events: seq<Event>) {
    forall i :: 0 <= i < |events| ==> Payload(p, events[i]).Some? && |Payload(p, events[i]).value| <= max
  }

  /** The frame of a tool call is longer than the tool's name, whose length nothing bounds. */
  lemma LongToolName(p: Primitives, e: Event)
    requires e.kind.ToolCall? && Payload(p, e).Some?
    ensures |Payload(p, e).value| > |e.kind.toolId|
  {
    hide OptionDigestCbor, DigestCbor, TimeCbor, Encode, Fits;
    var w := ToWire(e);
    var fields := VariantFields(FrameLayout, w.kind);
    var variant := [Tstr(VariantName(w.kind)), Map(fields)];
    TextLength(e.kind.toolId);
    EntryLength(fields, 1);
    EntryLength(variant, 1);
    EntryLength(EventCbor(FrameLayout, w).entries, 3);
  }

  function NormaliseAll(a: HashAlgorithm, events: seq<Event>): (r: seq<Event>)
    ensures |r| == |events|
    ensures forall i :: 0 <= i < |events| ==> r[i] == Normalise(a, events[i])
  {
    MapSeq(events, e => Normalise(a, e))
  }

  lemma NormaliseIdempotent(a: HashAlgorithm, e: Event)
    ensures Normalise(a, Normalise(a, e)) == Normalise(a, e)
  {
    NormaliseKeepsWire(a, e);
    FromWireToWire(a, e);
    FromWireToWire(a, Normalise(a, e));
  }

  /** What a refused payload is refused for. */
  lemma PayloadRefused(p: Primitives, decode: Decoder, a: HashAlgorithm, payload: Bytes)
    ensures decode(payload).Err? ==>
              DecodePayload(p, decode, a, payload) == Err(
                var msg := decode(payload).error;
                if !Mentions(msg, "unknown variant") then MalformedFraming
                else if Mentions(msg, "AttemptStatus") then UnknownAttemptStatus
                else UnknownEventKind)
    ensures decode(payload).Ok? ==>
              var r, w := DecodePayload(p, decode, a, payload), decode(payload).value;
              if Serialize(p, FrameCbor(w)).None? then r == Err(MalformedFraming)
              else if Serialize(p, FrameCbor(w)) != Some(payload) then r == Err(NonCanonicalCbor)
              else (r == Err(MalformedFraming) <==> !TimesRepresentable(w)) && (r.Err? ==> r.error == MalformedFraming)
  {
    hide Mentions, MapWireDecodeError, Serialize, FrameCbor;
    if decode(payload).Err? {
      MapWireDecodeErrorMeans(decode(payload).error);
    }
  }

  /** A payload is accepted exactly when it is the encoding of the normalised event it yields. */
  lemma PayloadExact(p: Primitives, decode: Decoder, a: HashAlgorithm, payload: Bytes, e: Event)
    requires LawfulDecoder(decode)
    ensures DecodePayload(p, decode, a, payload) == Ok(e) <==> Payload(p, e) == Some(payload) && Normalise(a, e) == e
  {
    if DecodePayload(p, decode, a, payload) == Ok(e) {
      var w := decode(payload).value;
      ToWireFromWire(a, w);
      FromWireToWire(a, e);
    }
    if Payload(p, e) == Some(payload) && Normalise(a, e) == e {
      assert decode(Encode(FrameCbor(ToWire(e)))) == Ok(ToWire(e));
      FromWireToWire(a, e);
    }
  }

  /** The front of a byte string is frame `e` exactly when writing `e` produces that front. */
  lemma FirstFrameExact(p: Primitives, decode: Decoder, a: HashAlgorithm, max: u32, e: Event, data: Bytes, n: nat)
    requires LawfulDecoder(decode)
    requires n <= |data|
    ensures FirstFrame(p, decode, a, max, data) == Frame(e, n) <==>
            && FrameBytes(p, e) == Some(data[..n])
            && FramesFit(p, max, [e]) && Normalise(a, e) == e
  {
    hide DecodePayload, Payload, Normalise, BigEndian, FromBigEndian;
    Pow256Values();
    if FirstFrame(p, decode, a, max, data) == Frame(e, n) {
      var payload := data[4..n];
      PayloadExact(p, decode, a, payload, e);
      BigEndianOfFrom(data[..4]);
      assert data[..n] == data[..4] + payload;
    }
    if FrameBytes(p, e) == Some(data[..n]) && FramesFit(p, max, [e]) && Normalise(a, e) == e {
      assert Payload(p, [e][0]).Some?;
      var payload := Payload(p, e).value;
      var frame := BigEndian(|payload|, 4) + payload;
      assert data[..4] == data[..n][..4] == frame[..4] == BigEndian(|payload|, 4);
      assert data[4..4 + |payload|] == data[..n][4..] == frame[4..] == payload;
      BigEndianRoundTrip(|payload|, 4);
      PayloadExact(p, decode, a, payload, e);
    }
  }

  /** Whatever a byte string reads as, writing it gives the byte string back. */
  lemma {:induction false} ReadImpliesWritten(p: Primitives, decode: Decoder, a: HashAlgorithm, max: u32, data: Bytes)
    requires LawfulDecoder(decode)
    requires ParseStream(p, decode, a, max, data).Ok?
    ensures var events := ParseStream(p, decode, a, max, data).value;
            StreamBytes(p, events) == Some(data) && FramesFit(p, max, events) && AllNormalised(a, events)
    decreases |data|
  {
    hide FirstFrame, FrameBytes, Payload, Normalise;
    var first := FirstFrame(p, decode, a, max, data);
    if first.Frame? {
      var rest := data[first.len..];
      ReadImpliesWritten(p, decode, a, max, rest);
      FirstFrameExact(p, decode, a, max, first.event, data, first.len);
      var events := ParseStream(p, decode, a, max, data).value;
      assert events[0] == first.event && events[1..] == ParseStream(p, decode, a, max, rest).value;
      assert data == data[..first.len] + rest;
      FramesFitCons(p, max, events);
      AllNormalisedCons(a, events);
    }
  }

  lemma {:induction false} WrittenReads(p: Primitives, decode: Decoder, a: HashAlgorithm, max: u32, events: seq<Event>)
    requires LawfulDecoder(decode)
    requires StreamBytes(p, events).Some? && FramesFit(p, max, events) && AllNormalised(a, events)
    ensures ParseStream(p, decode, a, max, StreamBytes(p, events).value) == Ok(events)
  {
    hide FirstFrame, FrameBytes, Payload, Normalise;
    if events != [] {
      var frame, rest := FrameBytes(p, events[0]).value, StreamBytes(p, events[1..]).value;
      var data := frame + rest;
      FramesFitCons(p, max, events);
      AllNormalisedCons(a, events);
      WrittenReads(p, decode, a, max, events[1..]);
      assert data[..|frame|] == frame && data[|frame|..] == rest;
      FirstFrameExact(p, decode, a, max, events[0], data, |frame|);
      assert events == [events[0]] + events[1..];
    }
  }

  /**
   The stream is a bijection: a byte string reads to clean end of file as `events` exactly when
   writing `events` produces it, every frame is within the limit and the events are in normal form.
   */
  lemma StreamExact(p: Primitives, decode: Decoder, a: HashAlgorithm, max: u32, events: seq<Event>, data: Bytes)
    requires LawfulDecoder(decode)
    ensures ParseStream(p, decode, a, max, data) == Ok(events) <==>
            && StreamBytes(p, events) == Some(data)
            && FramesFit(p, max, events) && AllNormalised(a, events)
  {
    hide *;
    if ParseStream(p, decode, a, max, data).Ok? {
      ReadImpliesWritten(p, decode, a, max, data);
    }
    if StreamBytes(p, events).Some? && FramesFit(p, max, events) && AllNormalised(a, events) {
      WrittenReads(p, decode, a, max, events);
    }
  }

  lemma WrittenFrameFits(p: Primitives, decode: Decoder, a: HashAlgorithm, max: u32, e: Event, rest: Bytes)
    requires FrameBytes(p, e).Some? && FirstFrame(p, decode, a, max, FrameBytes(p, e).value + rest).Frame?
    ensures FramesFit(p, max, [e])
    ensures FirstFrame(p, decode, a, max, FrameBytes(p, e).value + rest).len == |FrameBytes(p, e).value|
  {
    hide DecodePayload, Payload, BigEndian, FromBigEndian;
    Pow256Values();
    var payload := Payload(p, e).value;
    var data := FrameBytes(p, e).value + rest;
    assert data[..4] == BigEndian(|payload|, 4);
    BigEndianRoundTrip(|payload|, 4);
  }

  /** The reader gets through a written stream only if every frame is within its limit. */
  lemma {:induction false} WrittenFramesFit(p: Primitives, decode: Decoder, a: HashAlgorithm, max: u32,
                                            events: seq<Event>)
    requires StreamBytes(p, events).Some? && ParseStream(p, decode, a, max, StreamBytes(p, events).value).Ok?
    ensures FramesFit(p, max, events)
  {
    hide FirstFrame, FrameBytes, Payload, FramesFit;
    if events == [] {
      NoFramesFit(p, max);
    } else {
      var frame, rest := FrameBytes(p, events[0]).value, StreamBytes(p, events[1..]).value;
      var data := StreamBytes(p, events).value;
      assert data == frame + rest;
      assert FirstFrame(p, decode, a, max, data).Frame? || FirstFrame(p, decode, a, max, data).End?;
      assert |frame| > 0 by {
        FrameNotEmpty(p, events[0]);
      }
      WrittenFrameFits(p, decode, a, max, events[0], rest);
      assert (frame + rest)[|frame|..] == rest;
      WrittenFramesFit(p, decode, a, max, events[1..]);
      FramesFitCons(p, max, events);
    }
  }

  lemma FrameNotEmpty(p: Primitives, e: Event)
    requires FrameBytes(p, e).Some?
    ensures |FrameBytes(p, e).value| >= 4
  {
    hide Payload;
  }

  lemma NoFramesFit(p: Primitives, max: u32)
    ensures FramesFit(p, max, [])
  {
  }

  lemma FramesFitCons(p: Primitives, max: u32, events: seq<Event>)
    requires events != []
    ensures FramesFit(p, max, events) <==> FramesFit(p, max, [events[0]]) && FramesFit(p, max, events[1..])
  {
    if FramesFit(p, max, [events[0]]) && FramesFit(p, max, events[1..]) {
      assert Payload(p, [events[0]][0]).Some?;
      forall i | 0 <= i < |events|
        ensures Payload(p, events[i]).Some? && |Payload(p, events[i]).value| <= max
      {
        assert i == 0 || events[i] == events[1..][i - 1];
      }
    }
  }

  lemma AllNormalisedCons(a: HashAlgorithm, events: seq<Event>)
    requires events != []
    ensures AllNormalised(a, events) <==> Normalise(a, events[0]) == events[0] && AllNormalised(a, events[1..])
  {
    if Normalise(a, events[0]) == events[0] && AllNormalised(a, events[1..]) {
      forall i | 0 <= i < |events|
        ensures Normalise(a, events[i]) == events[i]
      {
        assert i == 0 || events[i] == events[1..][i - 1];
      }
    }
  }

  /** Writing does not see sub-second times or algorithm tags. */
  lemma {:induction false} StreamBytesNormalised(p: Primitives, a: HashAlgorithm, events: seq<Event>)
    ensures StreamBytes(p, NormaliseAll(a, events)) == StreamBytes(p, events)
  {
    if events != [] {
      NormaliseKeepsWire(a, events[0]);
      StreamBytesNormalised(p, a, events[1..]);
      assert NormaliseAll(a, events)[1..] == NormaliseAll(a, events[1..]);
    }
  }

  /** Reading back what was written yields the same events, normalised. */
  lemma WriteThenRead(p: Primitives, decode: Decoder, a: HashAlgorithm, max: u32, events: seq<Event>)
    requires LawfulDecoder(decode)
    requires StreamBytes(p, events).Some? && FramesFit(p, max, events)
    ensures ParseStream(p, decode, a, max, StreamBytes(p, events).value) == Ok(NormaliseAll(a, events))
  {
    hide ParseStream, StreamBytes, Normalise;
    var normal := NormaliseAll(a, events);
    StreamBytesNormalised(p, a, events);
    forall i | 0 <= i < |events|
      ensures Payload(p, normal[i]) == Payload(p, events[i]) && Normalise(a, normal[i]) == normal[i]
    {
      NormaliseKeepsWire(a, events[i]);
      NormaliseIdempotent(a, events[i]);
    }
    StreamExact(p, decode, a, max, normal, StreamBytes(p, events).value);
  }

  /** What a stream reads as does not depend on which lawful decoder the library provides. */
  lemma DecoderIrrelevant(p: Primitives, d1: Decoder, d2: Decoder, a: HashAlgorithm, max: u32, data: Bytes)
    requires LawfulDecoder(d1) && LawfulDecoder(d2)
    requires ParseStream(p, d1, a, max, data).Ok?
    ensures ParseStream(p, d2, a, max, data) == ParseStream(p, d1, a, max, data)
  {
    hide *;
    var events := ParseStream(p, d1, a, max, data).value;
    StreamExact(p, d1, a, max, events, data);
    StreamExact(p, d2, a, max, events, data);
  }

  /** Lawful decoders exist, because the encoding is injective. */
  lemma LawfulDecoderExists()
    ensures exists decode: Decoder :: LawfulDecoder(decode)
  {
    ghost var decode: Decoder := (b: Bytes) =>
      if exists w: WireEvent :: Fits(FrameCbor(w)) && Encode(FrameCbor(w)) == b then
        var w: WireEvent :| Fits(FrameCbor(w)) && Encode(FrameCbor(w)) == b;
        Ok(w)
      else Err("");
    forall w: WireEvent | Fits(FrameCbor(w))
      ensures decode(Encode(FrameCbor(w))) == Ok(w)
    {
      var v := decode(Encode(FrameCbor(w))).value;
      EncodeInjective(FrameCbor(v), FrameCbor(w));
      EventCborInjective(FrameLayout, v, w);
    }
    assert LawfulDecoder(decode);
  }
}
