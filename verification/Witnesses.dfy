/**
 Runs and bundles that show the rules can be met, and where operations fail: a smallest intact
 bundle, two sessions that export to something unreadable, a session that only the journal finds
 clean, and a redaction that leaves a requested object in place.
 */
module Witnesses {
  import opened Foundation
  import opened Text
  import opened Cbor
  import opened Events
  import opened Framing
  import opened Manifests
  import opened Archive
  import opened Verifier
  import opened Integrity
  import opened Journal
  import opened Calendar
  import opened Transfer
  import opened Delivery
  import opened Sentinels
  import opened Redactions
  import opened RedactionLaws

  // ---------------------------------------------------------------- small events can be hashed

  lemma {:induction false} Utf8Length(s: string)
    ensures |Utf8(s)| <= 4 * |s|
  {
    if s != "" {
      Utf8Length(s[1..]);
    }
  }

  const LONG: nat := 0x10_0000

  lemma TextFits(s: string)
    requires |s| <= LONG
    ensures Fits(Tstr(s))
  {
    Utf8Length(s);
  }

  lemma {:induction false} AllFitOf(vs: seq<Cbor>)
    requires forall i :: 0 <= i < |vs| ==> Fits(vs[i])
    ensures AllFit(vs)
  {
    if vs != [] {
      AllFitOf(vs[1..]);
    }
  }

  lemma MapFits(entries: seq<Cbor>)
    requires |entries| < 100 && |entries| % 2 == 0 && forall i :: 0 <= i < |entries| ==> Fits(entries[i])
    ensures Fits(Map(entries))
  {
    AllFitOf(entries);
  }

  predicate IsSmallKind<H(==), T(==)>(k: KindOf<H, T>) {
    || k.SessionStart? || k == SessionEnd(None) || k == ProviderCall("", [], None)
    || (k.ToolCall? && |k.toolId| <= LONG && k.sideEffectsHash.None?)
  }

  lemma EventFits(e: Event)
    requires |e.parents| <= 1 && IsSmallKind(e.kind)
    ensures Fits(EventCbor(HashLayout, ToWire(e)))
  {
    hide Fits, Utf8;
    var w := ToWire(e);
    var fields := VariantFields(HashLayout, w.kind);
    NamesFit();
    HashedParentsFit(w.parents);
    TimeFits(w.emittedAt);
    assert e.kind.ProviderCall? ==> w.kind.attempts == [];
    FieldsFit(w.kind);
    MapFits(fields);
    MapFits([Tstr(VariantName(w.kind)), Map(fields)]);
    NumberFits(w.sequence);
    var entries := EventCbor(HashLayout, w).entries;
    MapFits(entries);
  }

  lemma NamesFit()
    ensures Fits(Tstr("parents")) && Fits(Tstr("kind")) && Fits(Tstr("emitted_at")) && Fits(Tstr("sequence"))
    ensures Fits(Tstr("SessionStart")) && Fits(Tstr("SessionEnd")) && Fits(Tstr("ProviderCall"))
    ensures Fits(Tstr("cwd_hash")) && Fits(Tstr("config_hash")) && Fits(Tstr("summary_hash"))
    ensures Fits(Tstr("provider_id")) && Fits(Tstr("attempts")) && Fits(Tstr("stream_hash")) && Fits(Tstr(""))
    ensures Fits(Tstr("ToolCall")) && Fits(Tstr("tool_id")) && Fits(Tstr("input_hash")) && Fits(Tstr("output_hash"))
    ensures Fits(Tstr("side_effects_hash"))
  {
    hide Fits;
    TextFits("parents");
    TextFits("kind");
    TextFits("emitted_at");
    TextFits("sequence");
    TextFits("SessionStart");
    TextFits("SessionEnd");
    TextFits("ProviderCall");
    TextFits("cwd_hash");
    TextFits("config_hash");
    TextFits("summary_hash");
    TextFits("provider_id");
    TextFits("attempts");
    TextFits("stream_hash");
    TextFits("");
    TextFits("ToolCall");
    TextFits("tool_id");
    TextFits("input_hash");
    TextFits("output_hash");
    TextFits("side_effects_hash");
  }

  lemma NumberFits(n: u64)
    ensures Fits(Uint(n)) && Fits(Null) && Fits(Arr([])) && Fits(Bool(true))
  {
  }

  lemma TimeFits(s: i64)
    ensures Fits(TimeCbor(s))
  {
  }

  lemma DigestFits(d: Digest)
    ensures Fits(DigestCbor(HashLayout, d))
  {
  }

  lemma HashedParentsFit(parents: seq<Digest>)
    requires |parents| <= 1
    ensures Fits(Arr(MapSeq(parents, (d: Digest) => DigestCbor(HashLayout, d))))
  {
    var items := MapSeq(parents, (d: Digest) => DigestCbor(HashLayout, d));
    forall i | 0 <= i < |items|
      ensures Fits(items[i])
    {
      DigestFits(parents[i]);
    }
    AllFitOf(items);
  }

  lemma FieldsFit(k: KindOf<Digest, i64>)
    requires IsSmallKind(k)
    ensures var fields := VariantFields(HashLayout, k);
            |fields| < 100 && |fields| % 2 == 0 && forall i :: 0 <= i < |fields| ==> Fits(fields[i])
  {
    hide Fits;
    NamesFit();
    NumberFits(0);
    if k.SessionStart? {
      DigestFits(k.cwdHash);
      DigestFits(k.configHash);
    } else if k.ProviderCall? {
      assert AttemptsCbor(HashLayout, k.attempts) == Arr([]);
    } else if k.ToolCall? {
      TextFits(k.toolId);
      DigestFits(k.inputHash);
      DigestFits(k.outputHash);
    }
  }

  lemma Hashable(p: Primitives, a: HashAlgorithm, e: Event)
    requires |e.parents| <= 1 && IsSmallKind(e.kind) && forall v :: p.serializes(v)
    ensures ContentHash(p, a, e).Some? && ContentHash(p, a, e).value.algorithm == a
  {
    hide Fits, EventCbor, ToWire;
    EventFits(e);
  }

  // ---------------------------------------------------------------- a smallest bundle

  /** A start and an end at one instant, over one object. */
  function TwoEvents(p: Primitives, a: HashAlgorithm, at: Instant): seq<StoredEvent>
    requires forall v :: p.serializes(v)
  {
    var key := DigestBytes(p, a, []);
    var start := Event([], SessionStart(key, key), at, 0);
    Hashable(p, a, start);
    var startHash := ContentHash(p, a, start).value;
    var end := Event([startHash], SessionEnd(None), at, 1);
    Hashable(p, a, end);
    [StoredEvent(startHash, start), StoredEvent(ContentHash(p, a, end).value, end)]
  }

  lemma TwoEventsClosed(p: Primitives, a: HashAlgorithm, at: Instant)
    requires forall v :: p.serializes(v)
    ensures var history, key := TwoEvents(p, a, at), DigestBytes(p, a, []);
            && |history| == 2 && Recorded(p, a, history) && EndsOnce(EventsOf(history))
            && history[1].hash.algorithm == a
            && (forall i :: 0 <= i < 2 ==> history[i].event.emittedAt == at)
            && Closed(EventsOf(history), map[key := []]) && KeyedByDigest(p, a, map[key := []])
  {
    hide ContentHash;
    var history, key := TwoEvents(p, a, at), DigestBytes(p, a, []);
    Hashable(p, a, history[0].event);
    Hashable(p, a, history[1].event);
    assert RecordedAt(p, a, history, 0) && RecordedAt(p, a, history, 1);
    var events := EventsOf(history);
    assert Refs(events[0].kind) == [key, key] && Refs(events[1].kind) == [];
    assert Refs(events[0].kind)[0] == key;
    assert Referenced(events, key);
  }

  /** A bundle of the two events, whose manifest gives the epoch as its times. */
  function SmallBundle(p: Primitives, a: HashAlgorithm, at: Instant, sessionId: string): BundleContents
    requires forall v :: p.serializes(v)
  {
    var history := TwoEvents(p, a, at);
    var epoch := history[0].event.(emittedAt := 0);
    BundleContents(
      BundleManifest(sessionId, "", a, history[|history| - 1].hash, epoch, epoch, 1, 2),
      EventsOf(history),
      map[DigestBytes(p, a, []) := []])
  }

  lemma SmallBundleIntact(p: Primitives, a: HashAlgorithm, at: Instant, sessionId: string)
    requires forall v :: p.serializes(v)
    ensures Intact(p, SmallBundle(p, a, at, sessionId))
    ensures ParseAlgorithm(SmallBundle(p, a, at, sessionId).manifest.hashAlgorithm) == Some(a)
  {
    hide ContentHash, TwoEvents, Recorded, EndsOnce, Closed, KeyedByDigest, AllAttemptsInOrder, FormatIso, Linked;
    TwoEventsClosed(p, a, at);
    var history := TwoEvents(p, a, at);
    RecordedIsLinked(p, a, history);
    ParseAlgorithmName(a);
    ParseHexOfToHex(history[1].hash);
  }

  /** The rules of an intact bundle do not contradict each other, for any digest function. */
  lemma IntactExists(p: Primitives, a: HashAlgorithm)
    requires forall v :: p.serializes(v)
    ensures exists c ::
              Intact(p, c) && ParseAlgorithm(c.manifest.hashAlgorithm) == Some(a) && |c.events| == 2
              && |c.objects| == 1
  {
    hide Intact, TwoEvents;
    SmallBundleIntact(p, a, 0, "");
    TwoEventsClosed(p, a, 0);
    var c := SmallBundle(p, a, 0, "");
    assert |c.events| == 2 && |c.objects| == 1;
  }

  // ---------------------------------------------------------------- imported, but exported unreadably

  /** The readable bundle of a session in the year -1. */
  lemma AncientBundleAccepted(p: Primitives, a: HashAlgorithm, sessionId: string, isTimestamp: TimestampCheck)
    requires forall v :: p.serializes(v)
    requires LawfulTimestampCheck(isTimestamp) && IsHyphenatedUuid(sessionId)
    ensures Accepted(SmallBundle(p, a, FIRST_READABLE - 1, sessionId).manifest, isTimestamp)
  {
    hide ContentHash, TwoEvents, FormatIso, SplitOn, ParseSemver, LawfulTimestampCheck;
    SpecVersionParses();
    ReadableExact(isTimestamp, 0);
    ParseAlgorithmName(a);
  }

  /**
   A session from before the year 0 passes the reader and the import. Its export is intact, but the
   reader refuses the export's manifest, since the times in it have no RFC 3339 form.
   */
  method ImportedButUnreadable(p: Primitives, a: HashAlgorithm, sessionId: string)
    returns (imported: BundleContents, exported: BundleContents)
    requires forall v :: p.serializes(v)
    requires IsHyphenatedUuid(sessionId)
    ensures imported == SmallBundle(p, a, FIRST_READABLE - 1, sessionId) && Stamped(sessionId, "", exported)
    ensures exported.events == imported.events && exported.objects == imported.objects
    ensures Intact(p, imported) && Intact(p, exported)
    ensures forall isTimestamp :: LawfulTimestampCheck(isTimestamp) ==>
              Accepted(imported.manifest, isTimestamp) && !Accepted(exported.manifest, isTimestamp)
  {
    hide Intact, TwoEvents, ContentHash, FormatIso, LawfulTimestampCheck, Accepted, FirstStart, LastEnd, ParseHex,
         ParseAlgorithm;
    imported := SmallBundle(p, a, FIRST_READABLE - 1, sessionId);
    SmallBundleIntact(p, a, FIRST_READABLE - 1, sessionId);
    TwoEventsClosed(p, a, FIRST_READABLE - 1);
    var store := new ObjectStore(p, a, true);
    var journal := new JournalDb(store);
    var r := ImportAndExport(journal, imported, None, "");
    exported := r.value;
    AncientStart(p, a, exported.events);
    forall isTimestamp | LawfulTimestampCheck(isTimestamp)
      ensures Accepted(imported.manifest, isTimestamp) && !Accepted(exported.manifest, isTimestamp)
    {
      AncientBundleAccepted(p, a, sessionId, isTimestamp);
      ReadableExact(isTimestamp, FIRST_READABLE - 1);
      if Accepted(exported.manifest, isTimestamp) {
        NeedsReadableStart(exported.manifest, isTimestamp);
      }
    }
  }

  lemma AncientStart(p: Primitives, a: HashAlgorithm, events: seq<Event>)
    requires forall v :: p.serializes(v)
    requires events == EventsOf(TwoEvents(p, a, FIRST_READABLE - 1))
    ensures FirstStart(events).Some? && FirstStart(events).value.emittedAt == FIRST_READABLE - 1
  {
    hide ContentHash;
  }

  lemma NeedsReadableStart(m: Manifest, isTimestamp: TimestampCheck)
    requires Accepted(m, isTimestamp)
    ensures isTimestamp(m.session.createdAt)
  {
  }

  // ---------------------------------------------------------------- recorded, but exported unreadably

  ghost predicate OnlyRefers(events: seq<Event>, key: Hash) {
    forall i, h :: 0 <= i < |events| && h in Refs(events[i].kind) ==> h == key
  }

  lemma OneObject(stored: map<Digest, Bytes>, a: HashAlgorithm, events: seq<Event>, objects: map<Hash, Bytes>,
                  key: Hash)
    requires Collected(stored, a, map[], events, objects) && OnlyRefers(events, key)
    ensures |objects| <= 1
  {
    hide Refs;
    forall h | h in objects
      ensures h == key
    {
      assert Referenced(events, h);
    }
    assert {key} == objects.Keys + ({key} - objects.Keys);
    assert |objects| == |objects.Keys|;
  }

  /** A start, a call of a tool whose name is a mebibyte long, and an end, all over one object. */
  method RecordLongName(store: ObjectStore, sessionId: string) returns (graph: SessionGraph)
    requires store.Valid() && store.reliable && forall v :: store.p.serializes(v)
    modifies store
    ensures store.Valid() && fresh(graph) && graph.Valid() && graph.store == store && graph.sessionId == sessionId
    ensures |graph.events| == 3 && EndsOnce(EventsOf(graph.events)) && FromYearZero(EventsOf(graph.events))
    ensures graph.events[1].event.kind.ToolCall? && |graph.events[1].event.kind.toolId| == LONG
    ensures AllObtainable(store.objects, store.algorithm, map[], EventsOf(graph.events))
    ensures OnlyRefers(EventsOf(graph.events), DigestBytes(store.p, store.algorithm, []))
  {
    hide ContentHash, Refs, EndsOnce, AllObtainable, OnlyRefers, Recorded, FromYearZero, Addressed;
    var p, a := store.p, store.algorithm;
    var put := store.Put([]);
    var key := put.value;
    graph := new SessionGraph.OpenNew(store, sessionId);
    var call := ToolCall(seq(LONG, _ => 'a'), key, key, None);
    Hashable(p, a, NextEvent([], None, SessionStart(key, key), 0));
    var appended := graph.Append(SessionStart(key, key), 0);
    Hashable(p, a, NextEvent(graph.events, graph.head, call, 0));
    appended := graph.Append(call, 0);
    Hashable(p, a, NextEvent(graph.events, graph.head, SessionEnd(None), 0));
    appended := graph.Append(SessionEnd(None), 0);
    OverOneObject(store.objects, a, EventsOf(graph.events), key, call.toolId);
  }

  lemma OverOneObject(stored: map<Digest, Bytes>, a: HashAlgorithm, events: seq<Event>, key: Hash, toolId: string)
    requires |events| == 3 && key.algorithm == a && key.bytes in stored
    requires events[0].kind == SessionStart(key, key) && events[1].kind == ToolCall(toolId, key, key, None)
    requires events[2].kind == SessionEnd(None) && events[0].emittedAt == events[2].emittedAt == 0
    ensures EndsOnce(events) && FromYearZero(events) && OnlyRefers(events, key)
    ensures AllObtainable(stored, a, map[], events)
  {
    assert Refs(events[0].kind) == Refs(events[1].kind) == [key, key] && Refs(events[2].kind) == [];
  }

  /**
   A session of the epoch, grown by appends, whose export is intact but has a frame beyond the
   reader's default limit: no archive it is written to can be read back.
   */
  method ExportedButTooLong(p: Primitives, a: HashAlgorithm, sessionId: string, producerVersion: string)
    returns (graph: SessionGraph, exported: BundleContents)
    requires forall v :: p.serializes(v)
    ensures graph.Valid() && graph.store.p == p && graph.store.algorithm == a && graph.sessionId == sessionId
    ensures Exported(p, a, sessionId, producerVersion, graph.events, graph.store.objects, exported)
    ensures Intact(p, exported) && exported.events != [] && FromYearZero(exported.events)
    ensures !FramesFit(p, DEFAULT_MAX_EVENT_FRAME_LEN, exported.events)
  {
    hide EndsOnce, AllObtainable, Stamped, Intact, Collected;
    var store := new ObjectStore(p, a, true);
    graph := RecordLongName(store, sessionId);
    exported := ExportClosedSession(graph, producerVersion);
    OneObject(store.objects, a, exported.events, exported.objects, DigestBytes(p, a, []));
    if FramesFit(p, DEFAULT_MAX_EVENT_FRAME_LEN, exported.events) {
      LongToolName(p, exported.events[1]);
    }
  }

  // ---------------------------------------------------------------- clean for the journal alone

  /** A session whose only provider call has no attempts; appends refuse it, and so does an
   import of a bundle; a history imported as it is may hold it. */
  function WithoutAttempts(p: Primitives, a: HashAlgorithm): (history: seq<StoredEvent>)
    requires forall v :: p.serializes(v)
    ensures |history| == 3
  {
    var key := DigestBytes(p, a, []);
    var start := Event([], SessionStart(key, key), 0, 0);
    Hashable(p, a, start);
    var first := ContentHash(p, a, start).value;
    var call := Event([first], ProviderCall("", [], None), 0, 1);
    Hashable(p, a, call);
    var second := ContentHash(p, a, call).value;
    var end := Event([second], SessionEnd(None), 0, 2);
    Hashable(p, a, end);
    [StoredEvent(first, start), StoredEvent(second, call), StoredEvent(ContentHash(p, a, end).value, end)]
  }

  /** The journal's verifier finds this session clean; no export of it is intact. */
  lemma CleanForJournalOnly(p: Primitives, a: HashAlgorithm, c: BundleContents)
    requires forall v :: p.serializes(v)
    requires var history, key := WithoutAttempts(p, a), DigestBytes(p, a, []);
             ExportOf(map[key.bytes := []], a, history, history[2].hash, c) && |c.objects| < TWO_64
    ensures var history, key := WithoutAttempts(p, a), DigestBytes(p, a, []);
            JournalIntact(p, a, history, Some(history[2].hash), map[key.bytes := []])
    ensures !Intact(p, c)
  {
    hide ContentHash, ExportOf, Intact;
    var history, key := WithoutAttempts(p, a), DigestBytes(p, a, []);
    var stored := map[key.bytes := []];
    forall i | 0 <= i < 3
      ensures ContentHash(p, a, history[i].event) == Some(history[i].hash) && history[i].hash.algorithm == a
    {
      Hashable(p, a, history[i].event);
    }
    var events := EventsOf(history);
    assert Refs(events[0].kind) == [key, key] && Refs(events[1].kind) == [] && Refs(events[2].kind) == [];
    assert EntryIntact(p, a, history, 0, stored) && EntryIntact(p, a, history, 1, stored)
           && EntryIntact(p, a, history, 2, stored);
    assert !AttemptsInOrder(events[1].kind);
    ExportExact(p, a, history, history[2].hash, stored, c);
  }

  // ---------------------------------------------------------------- a requested object that stays

  lemma SentinelFits(original: Hash, size: u64, why: Redaction)
    requires |why.reason| < 1000 && |why.redactedAt| < 1000
    ensures Fits(SentinelCbor(SentinelFromOriginal(original, size, why)))
  {
    hide Fits, HexEncode;
    TextFits("akmon_redacted");
    TextFits("original_hash");
    TextFits("original_size");
    TextFits("reason");
    TextFits("redacted_at");
    TextFits(original.ToHex());
    TextFits(why.reason);
    TextFits(why.redactedAt);
    NumberFits(size);
    MapFits(SentinelCbor(SentinelFromOriginal(original, size, why)).entries);
  }

  lemma TwoRequested(a: HashAlgorithm, g: Hash, h: Hash)
    requires g.algorithm == a && h.algorithm == a
    ensures AllParse(a, [g.ToHex(), h.ToHex()])
    ensures forall r :: r in RequestedHashes(a, [g.ToHex(), h.ToHex()]) <==> r == g || r == h
  {
    hide ParseHex, RequestedHashes;
    var values := [g.ToHex(), h.ToHex()];
    ParseHexOfToHex(g);
    ParseHexOfToHex(h);
    RequestedHashesExact(a, values);
    assert ParseHex(a, values[0]) == Some(g) && ParseHex(a, values[1]) == Some(h);
  }

  /** A start that refers to two stored objects, and an end: any redaction of the two can be carried out. */
  lemma TwoObjectsRedactable(p: Primitives, a: HashAlgorithm, stored: map<Digest, Bytes>, events: seq<Event>,
                             requested: seq<Hash>, why: Redaction, g: Hash, h: Hash)
    requires forall v :: p.serializes(v)
    requires |why.reason| < 1000 && |why.redactedAt| < 1000
    requires g.algorithm == a && h.algorithm == a && g.bytes in stored && h.bytes in stored
    requires forall r :: r in requested <==> r == g || r == h
    requires |events| == 2 && events[0].kind == SessionStart(g, h) && events[1].kind == SessionEnd(None)
    requires events[0].parents == [] && |events[1].parents| <= 1
    ensures Redactable(p, a, stored, events, requested, why) && AllReferenced(events, requested)
  {
    hide ContentHash, Fits, SentinelFor, SentinelCbor, SentinelBytes, DigestBytes, FirstStart, LastEnd;
    FirstStartExists(events);
    LastEndExists(events);
    assert Refs(events[0].kind) == [g, h] && Refs(events[1].kind) == [];
    assert Refs(events[0].kind)[0] == g && Refs(events[0].kind)[1] == h;
    forall r | r in requested
      ensures !CannotSerialize(p, stored, why, r)
    {
      SentinelForFits(stored, r, why);
    }
    TwoRelinkable(p, a, events, ReplacementMap(p, a, stored, AsSet(requested), why));
  }

  lemma SentinelForFits(stored: map<Digest, Bytes>, h: Hash, why: Redaction)
    requires h.bytes in stored && |why.reason| < 1000 && |why.redactedAt| < 1000
    ensures Fits(SentinelCbor(SentinelFor(stored, h, why)))
  {
    SentinelFits(h, |stored[h.bytes]| % TWO_64, why);
  }

  lemma TwoRelinkable(p: Primitives, a: HashAlgorithm, events: seq<Event>, m: Replacements)
    requires forall v :: p.serializes(v)
    requires |events| == 2 && events[0].kind.SessionStart? && events[1].kind == SessionEnd(None)
    requires events[0].parents == [] && |events[1].parents| <= 1
    ensures Relink(p, a, events, m).Some?
  {
    hide ContentHash;
    var first := RewriteEvent(events[0], m, None);
    Hashable(p, a, first);
    var hash := ContentHash(p, a, first);
    RelinkNothing(p, a, events, m, []);
    RelinkStep(p, a, events, m, 0, [], first, hash);
    var second := RewriteEvent(events[1], m, hash);
    Hashable(p, a, second);
    var out := [] + [StoredEvent(hash.value, first)];
    RelinkStep(p, a, events, m, 1, out, second, ContentHash(p, a, second));
    assert events[..2] == events;
  }

  lemma TwoRecorded(p: Primitives, a: HashAlgorithm, history: seq<StoredEvent>)
    requires Recorded(p, a, history) && |history| == 2
    ensures history[0].event.parents == [] && |history[1].event.parents| == 1
  {
    hide ContentHash, AttemptsInOrder;
    assert RecordedAt(p, a, history, 0) && RecordedAt(p, a, history, 1);
  }

  /**
   Redacts an object together with the sentinel that this very redaction makes for it. The request
   is carried out, and the second object, though requested, is in the derivative.
   */
  method SentinelSurvives(p: Primitives, a: HashAlgorithm, content: Bytes, why: Redaction)
    returns (graph: SessionGraph, r: Result<Derivative, RedactError>, survivor: Hash)
    requires forall v :: p.serializes(v)
    requires |why.reason| < 1000 && |why.redactedAt| < 1000
    ensures graph.Valid() && r.Ok?
    ensures exists requested :: survivor in requested && AllReferenced(EventsOf(graph.events), requested)
                                && RedactionOf(p, a, graph.store.objects, graph.events, requested, why, r.value)
    ensures survivor in r.value.replacements && survivor in r.value.bundle.objects
  {
    hide ContentHash, SentinelCbor, Redactable, RedactionOf, AllReferenced, Stamped, AllParse, Requested,
         Recorded, Explained, ParseHex, SentinelClash, Fits;
    var store := new ObjectStore(p, a, true);
    var put := store.Put(content);
    var original := put.value;
    var sentinel := SentinelBytes(SentinelFromOriginal(original, |store.objects[original.bytes]| % TWO_64, why));
    put := store.Put(sentinel);
    survivor := put.value;
    graph := new SessionGraph.OpenNew(store, "");
    var start := SessionStart(original, survivor);
    Hashable(p, a, NextEvent([], None, start, 0));
    var appended := graph.Append(start, 0);
    Hashable(p, a, NextEvent(graph.events, graph.head, SessionEnd(None), 0));
    appended := graph.Append(SessionEnd(None), 0);
    ghost var values := [original.ToHex(), survivor.ToHex()];
    ghost var requested, stored := RequestedHashes(a, values), store.objects;
    TwoRequested(a, original, survivor);
    TwoRecorded(p, a, graph.events);
    TwoObjectsRedactable(p, a, stored, EventsOf(graph.events), requested, why, original, survivor);
    r := Redact(graph, [original.ToHex(), survivor.ToHex()], why, "");
    SurvivorClashes(p, a, stored, requested, why, original, survivor);
    SurvivesExactly(p, a, stored, graph.events, requested, why, r.value, survivor);
    RequestedReplaced(p, a, stored, graph.events, requested, why, r.value, survivor);
  }

  lemma SurvivorClashes(p: Primitives, a: HashAlgorithm, stored: map<Digest, Bytes>, requested: seq<Hash>,
                        why: Redaction, g: Hash, h: Hash)
    requires g in requested && g.bytes in stored && h.bytes in stored && Addressed(p, a, stored)
    requires h == DigestBytes(p, a, SentinelBytes(SentinelFor(stored, g, why)))
    ensures SentinelClash(p, a, stored, requested, why, h)
  {
    hide SentinelFor, SentinelBytes;
  }

  lemma RequestedReplaced(p: Primitives, a: HashAlgorithm, stored: map<Digest, Bytes>, history: seq<StoredEvent>,
                          requested: seq<Hash>, why: Redaction, d: Derivative, h: Hash)
    requires RedactionOf(p, a, stored, history, requested, why, d) && h in requested
    ensures h in d.replacements
  {
    hide SentinelOf, SentinelUnder, Relink, Changed, Collected;
  }
}
