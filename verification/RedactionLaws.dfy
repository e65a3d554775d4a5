/**
 What redaction keeps, what it changes and what it removes: the derivative verifies clean, the
 change of hashes spreads from the first touched event to the head and nowhere else, and nothing
 of a redacted object is left.
 */
module RedactionLaws {
  import opened Foundation
  import opened Text
  import opened Cbor
  import opened Events
  import opened Manifests
  import opened Archive
  import opened ArchiveLaws
  import opened Framing
  import opened Verifier
  import opened Integrity
  import opened Evidence
  import opened Journal
  import opened Transfer
  import opened Sentinels
  import opened Redactions

  // ---------------------------------------------------------------- the derivative is intact

  /** Numbered by position from one parentless start, at most one parent each, one terminal end. */
  ghost predicate WellShaped(events: seq<Event>) {
    && (forall i :: 0 <= i < |events| ==> ShapedAt(events, i))
    && EndsOnce(events) && AllAttemptsInOrder(events)
  }

  ghost predicate ShapedAt(events: seq<Event>, i: nat)
    requires i < |events|
  {
    && events[i].sequence == i
    && if i == 0 then events[i].kind.SessionStart? && events[i].parents == [] else |events[i].parents| <= 1
  }

  lemma SentinelsKeyed(p: Primitives, a: HashAlgorithm, stored: map<Digest, Bytes>, requested: seq<Hash>,
                       why: Redaction, m: Replacements, sentinels: map<Hash, Bytes>)
    requires Replacing(p, a, stored, requested, why, m, sentinels)
    ensures KeyedByDigest(p, a, sentinels)
  {
    hide SentinelFor, SentinelBytes, DigestBytes;
    forall g | g in sentinels
      ensures DigestBytes(p, a, sentinels[g]) == g
    {
      assert SentinelUnder(stored, requested, why, m, sentinels, g);
      var h :| h in requested && h in m && m[h] == g && h.bytes in stored
          && sentinels[g] == SentinelBytes(SentinelFor(stored, h, why));
      assert SentinelOf(p, a, stored, why, m, sentinels, h);
    }
  }

  /** The sentinels made for two requested objects are different bytes with one digest. */
  ghost predicate SentinelsCollide(p: Primitives, a: HashAlgorithm, stored: map<Digest, Bytes>, requested: seq<Hash>,
                                   why: Redaction, h: Hash)
    requires h.bytes in stored
  {
    exists k :: k in requested && k.bytes in stored
                && Collision(p, a, SentinelBytes(SentinelFor(stored, h, why)),
                             SentinelBytes(SentinelFor(stored, k, why)))
  }

  /** Re-linking mends an event exactly when it has at most one parent. */
  lemma RelinkedLink(p: Primitives, a: HashAlgorithm, events: seq<Event>, m: Replacements, out: seq<StoredEvent>,
                     i: nat)
    requires Relinked(p, a, events, m, out) && i < |events|
    ensures LinkedAt(p, a, EventsOf(out), i) <==> ShapedAt(events, i)
    ensures HashAt(p, a, EventsOf(out), i) == Some(out[i].hash)
  {
    hide ContentHash, Rewritten;
    assert RelinkedAt(p, a, events, m, out, i);
    RewrittenVariant(events[i].kind, m);
    if i > 0 {
      assert RelinkedAt(p, a, events, m, out, i - 1);
      var prev, parents := out[i - 1].hash, out[i].event.parents;
      assert events[i].parents != [] ==> |parents| == |events[i].parents| && parents[0] == prev;
    }
  }

  lemma RelinkedShape(p: Primitives, a: HashAlgorithm, events: seq<Event>, m: Replacements, out: seq<StoredEvent>)
    requires Relinked(p, a, events, m, out) && events != []
    ensures Linked(p, a, EventsOf(out)) && EndsOnce(EventsOf(out)) && AllAttemptsInOrder(EventsOf(out)) <==>
              WellShaped(events)
    ensures HashAt(p, a, EventsOf(out), |out| - 1) == Some(out[|out| - 1].hash)
  {
    hide LinkedAt, ShapedAt, HashAt, AttemptsInOrder, Rewritten;
    var rewritten := EventsOf(out);
    forall i | 0 <= i < |events|
      ensures LinkedAt(p, a, rewritten, i) <==> ShapedAt(events, i)
      ensures rewritten[i].kind.SessionEnd? == events[i].kind.SessionEnd?
      ensures AttemptsInOrder(rewritten[i].kind) <==> AttemptsInOrder(events[i].kind)
    {
      RelinkedLink(p, a, events, m, out, i);
      assert RelinkedAt(p, a, events, m, out, i);
      RewrittenVariant(events[i].kind, m);
    }
    RelinkedLink(p, a, events, m, out, |out| - 1);
  }

  /**
   The derivative verifies clean exactly when the source has the shape of a session. The recorded
   hashes of the source play no part, and neither does the choice of redacted objects.
   */
  lemma RedactionExact(p: Primitives, a: HashAlgorithm, stored: map<Digest, Bytes>, history: seq<StoredEvent>,
                       requested: seq<Hash>, why: Redaction, d: Derivative)
    requires RedactionOf(p, a, stored, history, requested, why, d)
    requires Addressed(p, a, stored) && |d.bundle.objects| < TWO_64
    ensures Intact(p, d.bundle) <==> WellShaped(EventsOf(history))
  {
    hide WellShaped, Linked, EndsOnce, AllAttemptsInOrder, HashAt, Replacing, Relink, Changed, Collected, Closed,
         KeyedByDigest, Addressed, ParseHex, ParseAlgorithm, Relinked;
    var c := d.bundle;
    RelinkEntries(p, a, EventsOf(history), d.replacements);
    RelinkedShape(p, a, EventsOf(history), d.replacements, d.history);
    SentinelsKeyed(p, a, stored, requested, why, d.replacements, d.sentinels);
    CollectedKeyed(p, a, stored, d.sentinels, c.events, c.objects);
    CollectedClosed(stored, a, d.sentinels, c.events, c.objects);
    var head := d.history[|d.history| - 1].hash;
    ParseAlgorithmName(a);
    RelinkedAlgorithm(p, a, EventsOf(history), d.replacements, d.history);
    ParseHexOfToHex(head);
  }

  lemma RelinkedAlgorithm(p: Primitives, a: HashAlgorithm, events: seq<Event>, m: Replacements, out: seq<StoredEvent>)
    requires Relinked(p, a, events, m, out)
    ensures forall i :: 0 <= i < |out| ==> out[i].hash.algorithm == a
  {
    forall i | 0 <= i < |out|
      ensures out[i].hash.algorithm == a
    {
      assert RelinkedAt(p, a, events, m, out, i);
    }
  }

  /** A session grown by appends and closed by its one session end has an intact derivative. */
  lemma RedactionOfAppendsIsIntact(p: Primitives, a: HashAlgorithm, stored: map<Digest, Bytes>,
                                   history: seq<StoredEvent>, requested: seq<Hash>, why: Redaction, d: Derivative)
    requires RedactionOf(p, a, stored, history, requested, why, d)
    requires Addressed(p, a, stored) && |d.bundle.objects| < TWO_64
    requires Recorded(p, a, history) && EndsOnce(EventsOf(history))
    ensures Intact(p, d.bundle)
  {
    hide ContentHash, Replacing, Relink, Changed, Collected, Addressed, EndsOnce, AttemptsInOrder, Intact;
    RedactionExact(p, a, stored, history, requested, why, d);
    forall i | 0 <= i < |history|
      ensures ShapedAt(EventsOf(history), i) && AttemptsInOrder(EventsOf(history)[i].kind)
    {
      assert RecordedAt(p, a, history, i);
    }
  }

  /**
   A session grown by appends and closed by its one session end, over a working store, is redacted
   whenever the request names stored objects of the session and nothing fails to serialize; the
   derivative is intact.
   */
  method RedactClosedSession(graph: SessionGraph, values: seq<string>, why: Redaction, producerVersion: string)
    returns (d: Derivative)
    requires graph.Valid() && graph.store.Valid() && graph.store.reliable && |graph.events| < TWO_64
    requires EndsOnce(EventsOf(graph.events)) && AllParse(graph.store.algorithm, values)
    requires Redactable(graph.store.p, graph.store.algorithm, graph.store.objects, EventsOf(graph.events),
                        RequestedHashes(graph.store.algorithm, values), why)
    ensures RedactionOf(graph.store.p, graph.store.algorithm, graph.store.objects, graph.events,
                        RequestedHashes(graph.store.algorithm, values), why, d)
    ensures Stamped(graph.sessionId, producerVersion, d.bundle)
    ensures |d.bundle.objects| < TWO_64 ==> Intact(graph.store.p, d.bundle)
  {
    hide Redactable, RedactionOf, Stamped, Recorded, AllParse, RequestedHashes, Intact, Addressed, FirstStart, LastEnd,
         Explained;
    RecordedEnds(graph.store.p, graph.store.algorithm, graph.events);
    var r := Redact(graph, values, why, producerVersion);
    d := r.value;
    if |d.bundle.objects| < TWO_64 {
      RedactionOfAppendsIsIntact(graph.store.p, graph.store.algorithm, graph.store.objects, graph.events,
                                 RequestedHashes(graph.store.algorithm, values), why, d);
    }
  }

  // ---------------------------------------------------------------- complete and minimal

  /** The event kind with every hash blanked out. */
  function Outline(kind: EventKind): KindOf<(), Instant> {
    MapKind(kind, (h: Hash) => (), Keep)
  }

  lemma RewrittenOutline(kind: EventKind, m: Replacements)
    ensures Outline(Rewritten(kind, m)) == Outline(kind)
  {
    if kind.ProviderCall? {
      assert Outline(Rewritten(kind, m)).attempts == Outline(kind).attempts;
    }
  }

  /** Only hash positions of requested objects change; parents are re-linked, the rest is copied. */
  lemma RedactionIsMinimal(p: Primitives, a: HashAlgorithm, events: seq<Event>, m: Replacements, i: nat)
    requires Relink(p, a, events, m).Some? && i < |events|
    ensures |Relink(p, a, events, m).value| == |events|
    ensures var e, f := events[i], Relink(p, a, events, m).value[i].event;
            && f.sequence == e.sequence && f.emittedAt == e.emittedAt && Outline(f.kind) == Outline(e.kind)
            && |Refs(f.kind)| == |Refs(e.kind)|
            && forall q :: 0 <= q < |Refs(e.kind)| ==>
                 Refs(f.kind)[q] == if Refs(e.kind)[q] in m then m[Refs(e.kind)[q]] else Refs(e.kind)[q]
  {
    hide ContentHash, Refs, Outline, Relink, Rewritten;
    RelinkEntries(p, a, events, m);
    var out := Relink(p, a, events, m).value;
    assert RelinkedAt(p, a, events, m, out, i);
    RewrittenRefs(events[i].kind, m);
    RewrittenOutline(events[i].kind, m);
  }

  /** The stored object `h` is itself the sentinel made for a requested object, or collides with it. */
  ghost predicate SentinelClash(p: Primitives, a: HashAlgorithm, stored: map<Digest, Bytes>, requested: seq<Hash>,
                                why: Redaction, h: Hash)
  {
    && h.bytes in stored
    && exists r :: r in requested && r.bytes in stored
         && var bytes := SentinelBytes(SentinelFor(stored, r, why));
            stored[h.bytes] == bytes || Collision(p, a, stored[h.bytes], bytes)
  }

  lemma SentinelDigestClashes(p: Primitives, a: HashAlgorithm, stored: map<Digest, Bytes>, requested: seq<Hash>,
                              why: Redaction, m: Replacements, sentinels: map<Hash, Bytes>, r: Hash)
    requires Replacing(p, a, stored, requested, why, m, sentinels) && Addressed(p, a, stored)
    requires r in requested && m[r] in requested
    ensures SentinelClash(p, a, stored, requested, why, m[r])
  {
    hide SentinelFor, SentinelBytes, SentinelUnder, SentinelCbor, Fits;
    assert SentinelOf(p, a, stored, why, m, sentinels, r) && SentinelOf(p, a, stored, why, m, sentinels, m[r]);
  }

  /**
   The derivative's object keys: references that were not requested, and the sentinels' digests.
   So a requested hash is gone from the derivative unless it is itself a sentinel's digest.
   */
  lemma RedactionIsComplete(p: Primitives, a: HashAlgorithm, stored: map<Digest, Bytes>, history: seq<StoredEvent>,
                            requested: seq<Hash>, why: Redaction, d: Derivative, h: Hash)
    requires RedactionOf(p, a, stored, history, requested, why, d)
    ensures h in d.bundle.objects <==> Referenced(d.bundle.events, h)
    ensures h in d.bundle.objects <==>
            || (Referenced(EventsOf(history), h) && h !in requested)
            || IsSentinelDigest(EventsOf(history), d.replacements, h)
    ensures h in requested ==>
              (Referenced(d.bundle.events, h) <==> IsSentinelDigest(EventsOf(history), d.replacements, h))
  {
    hide Relink, Changed, Relinked, IsSentinelDigest, SentinelOf, SentinelUnder;
    RelinkEntries(p, a, EventsOf(history), d.replacements);
    ReferencedAfter(p, a, EventsOf(history), d.replacements, d.history, h);
    CollectedClosed(stored, a, d.sentinels, d.bundle.events, d.bundle.objects);
    if Referenced(d.bundle.events, h) {
      var i :| 0 <= i < |d.bundle.events| && h in Refs(d.bundle.events[i].kind);
    }
  }

  /**
   What a redaction leaves in place of a requested object: bytes that record its hash, its size (as a
   64-bit number), the reason and the time, and that every lawful reader recognises as such. The only
   way out is a digest collision between two sentinels.
   */
  lemma RedactionLeavesRecord(p: Primitives, a: HashAlgorithm, stored: map<Digest, Bytes>, history: seq<StoredEvent>,
                              requested: seq<Hash>, why: Redaction, d: Derivative, h: Hash, reader: SentinelReader)
    requires RedactionOf(p, a, stored, history, requested, why, d)
    requires h in requested && AllReferenced(EventsOf(history), requested)
    requires LawfulReader(reader) && reader.isTimestamp(why.redactedAt)
    ensures h.bytes in stored && h in d.replacements && d.replacements[h] in d.bundle.objects
    ensures var left, size := d.bundle.objects[d.replacements[h]], |stored[h.bytes]| % TWO_64;
            || (&& Records(left, h.ToHex(), size, why.reason, why.redactedAt)
                && TryParseSentinel(p, reader, left)
                   == Ok(Some(SentinelMarker(true, h.ToHex(), size, why.reason, why.redactedAt))))
            || SentinelsCollide(p, a, stored, requested, why, h)
  {
    hide Relink, Changed, Relinked, SentinelBytes, SentinelCbor, SentinelFor, TryParseSentinel, Records, LawfulReader,
         Fits;
    var g := d.replacements[h];
    assert SentinelOf(p, a, stored, why, d.replacements, d.sentinels, h);
    assert IsSentinelDigest(EventsOf(history), d.replacements, g);
    RedactionIsComplete(p, a, stored, history, requested, why, d, g);
    assert SentinelUnder(stored, requested, why, d.replacements, d.sentinels, g);
    var k :| k in requested && k in d.replacements && d.replacements[k] == g && k.bytes in stored
             && d.sentinels[g] == SentinelBytes(SentinelFor(stored, k, why));
    assert SentinelOf(p, a, stored, why, d.replacements, d.sentinels, k);
    if SentinelBytes(SentinelFor(stored, h, why)) == SentinelBytes(SentinelFor(stored, k, why)) {
      SentinelForRecorded(p, stored, h, why, reader);
    }
  }

  lemma SentinelForRecorded(p: Primitives, stored: map<Digest, Bytes>, h: Hash, why: Redaction, reader: SentinelReader)
    requires h.bytes in stored && Serialize(p, SentinelCbor(SentinelFor(stored, h, why))).Some?
    requires LawfulReader(reader) && reader.isTimestamp(why.redactedAt)
    ensures var left, size := SentinelBytes(SentinelFor(stored, h, why)), |stored[h.bytes]| % TWO_64;
            && Records(left, h.ToHex(), size, why.reason, why.redactedAt)
            && TryParseSentinel(p, reader, left)
               == Ok(Some(SentinelMarker(true, h.ToHex(), size, why.reason, why.redactedAt)))
  {
    hide SentinelBytes, SentinelCbor, TryParseSentinel, Records, LawfulReader, Fits;
    var size := |stored[h.bytes]| % TWO_64;
    SentinelRecords(h, size, why);
    SentinelRoundTrip(p, reader, h, size, why);
    MarkerOf(h, size, why);
  }

  lemma MarkerOf(h: Hash, size: u64, why: Redaction)
    ensures SentinelFromOriginal(h, size, why) == SentinelMarker(true, h.ToHex(), size, why.reason, why.redactedAt)
  {
  }

  /**
   When a requested hash survives, told from the inputs: exactly when the object it names already is
   the sentinel of a requested object, or collides with one.
   */
  lemma SurvivesExactly(p: Primitives, a: HashAlgorithm, stored: map<Digest, Bytes>, history: seq<StoredEvent>,
                        requested: seq<Hash>, why: Redaction, d: Derivative, h: Hash)
    requires RedactionOf(p, a, stored, history, requested, why, d) && Addressed(p, a, stored)
    requires AllReferenced(EventsOf(history), requested) && h in requested
    ensures h in d.bundle.objects <==> SentinelClash(p, a, stored, requested, why, h)
    ensures Referenced(d.bundle.events, h) <==> SentinelClash(p, a, stored, requested, why, h)
  {
    hide Relink, Changed, Referenced, SentinelFor, SentinelBytes, SentinelUnder, SentinelCbor, Fits, Collected,
         EventsOf;
    var m := d.replacements;
    assert SentinelOf(p, a, stored, why, m, d.sentinels, h);
    RedactionIsComplete(p, a, stored, history, requested, why, d, h);
    if IsSentinelDigest(EventsOf(history), m, h) {
      var r :| r in m && m[r] == h;
      SentinelDigestClashes(p, a, stored, requested, why, m, d.sentinels, r);
    }
    if SentinelClash(p, a, stored, requested, why, h) {
      var r :| r in requested && r.bytes in stored
               && var bytes := SentinelBytes(SentinelFor(stored, r, why));
                  stored[h.bytes] == bytes || Collision(p, a, stored[h.bytes], bytes);
      assert SentinelOf(p, a, stored, why, m, d.sentinels, r);
      assert DigestBytes(p, a, stored[h.bytes]) == h;
      assert m[r] == h && Referenced(EventsOf(history), r);
    }
  }

  /**
   Nothing is left of a redacted object: its hash is gone, and its bytes are not stored under any
   key. The exception is an object that already was the sentinel of a requested one.
   */
  lemma RedactedBytesGone(p: Primitives, a: HashAlgorithm, stored: map<Digest, Bytes>, history: seq<StoredEvent>,
                          requested: seq<Hash>, why: Redaction, d: Derivative, h: Hash)
    requires RedactionOf(p, a, stored, history, requested, why, d) && Addressed(p, a, stored)
    requires h in requested && !SentinelClash(p, a, stored, requested, why, h)
    ensures !Referenced(d.bundle.events, h) && h !in d.bundle.objects
    ensures h.bytes in stored && forall k :: k in d.bundle.objects ==> d.bundle.objects[k] != stored[h.bytes]
  {
    hide Relink, Changed, Referenced, SentinelFor, SentinelBytes, SentinelUnder, SentinelCbor, Fits, SentinelClash,
         Collected, EventsOf;
    var m := d.replacements;
    assert SentinelOf(p, a, stored, why, m, d.sentinels, h);
    RedactionIsComplete(p, a, stored, history, requested, why, d, h);
    if IsSentinelDigest(EventsOf(history), m, h) {
      var r :| r in m && m[r] == h;
      SentinelDigestClashes(p, a, stored, requested, why, m, d.sentinels, r);
    }
    SentinelsKeyed(p, a, stored, requested, why, m, d.sentinels);
    CollectedKeyed(p, a, stored, d.sentinels, d.bundle.events, d.bundle.objects);
    assert DigestBytes(p, a, stored[h.bytes]) == h;
  }

  // ---------------------------------------------------------------- the cascade

  /** Recorded hashes are content hashes, and each event names the one before it. */
  ghost predicate Chained(p: Primitives, a: HashAlgorithm, history: seq<StoredEvent>) {
    forall i :: 0 <= i < |history| ==> ChainedAt(p, a, history, i)
  }

  ghost predicate ChainedAt(p: Primitives, a: HashAlgorithm, history: seq<StoredEvent>, i: nat)
    requires i < |history|
  {
    && ContentHash(p, a, history[i].event) == Some(history[i].hash)
    && (i > 0 ==> history[i].event.parents == [history[i - 1].hash])
  }

  /** Some reference is replaced by a different hash. */
  ghost predicate Altered(kind: EventKind, m: Replacements) {
    exists h :: h in Refs(kind) && Replace(m, h) != h
  }

  lemma {:induction false} AttemptRefsIncluded<H, T>(attempts: seq<AttemptOf<H, T>>, i: nat)
    requires i < |attempts|
    ensures forall h :: h in AttemptRefs(attempts[i]) ==> h in AttemptsRefs(attempts)
  {
    hide AttemptRefs;
    if i > 0 {
      AttemptRefsIncluded(attempts[1..], i - 1);
    }
  }

  lemma UnalteredAttempt(attempt: Attempt, m: Replacements)
    requires forall h :: h in AttemptRefs(attempt) ==> Replace(m, h) == h
    ensures MapAttempt(attempt, Replacer(m), Keep) == attempt
  {
    var refs := AttemptRefs(attempt);
    assert refs[0] == attempt.requestHash;
    assert attempt.responseHash.Some? ==> refs[1] == attempt.responseHash.value;
    assert attempt.streamHash.Some? ==> refs[|refs| - 1] == attempt.streamHash.value;
  }

  lemma UnalteredKind(kind: EventKind, m: Replacements)
    requires !Altered(kind, m)
    ensures Rewritten(kind, m) == kind
  {
    hide AttemptRefs, MapAttempt;
    var refs := Refs(kind);
    assert forall q :: 0 <= q < |refs| ==> refs[q] in refs;
    if kind.ProviderCall? {
      var attempts, t := kind.attempts, Rewritten(kind, m).attempts;
      forall i | 0 <= i < |attempts|
        ensures t[i] == attempts[i]
      {
        AttemptRefsIncluded(attempts, i);
        UnalteredAttempt(attempts[i], m);
      }
      assert kind.callStreamHash.Some? ==> refs[|refs| - 1] == kind.callStreamHash.value;
    } else {
      assert |refs| <= 3;
      assert |refs| > 0 ==> Replace(m, refs[0]) == refs[0];
      assert |refs| > 1 ==> Replace(m, refs[1]) == refs[1];
      assert |refs| > 2 ==> Replace(m, refs[2]) == refs[2];
    }
  }

  /** Before the first altered event, the derivative is the source. */
  lemma {:induction false} UnalteredPrefix(p: Primitives, a: HashAlgorithm, history: seq<StoredEvent>, m: Replacements,
                                           out: seq<StoredEvent>, i: nat)
    requires Chained(p, a, history) && Relinked(p, a, EventsOf(history), m, out)
    requires i < |history| && forall j :: 0 <= j <= i ==> !Altered(history[j].event.kind, m)
    ensures out[i] == history[i]
  {
    hide ContentHash, Altered, Rewritten;
    if i > 0 {
      UnalteredPrefix(p, a, history, m, out, i - 1);
    }
    assert ChainedAt(p, a, history, i) && RelinkedAt(p, a, EventsOf(history), m, out, i);
    UnalteredKind(history[i].event.kind, m);
    assert i > 0 ==> [history[i - 1].hash][0 := out[i - 1].hash] == history[i].event.parents;
  }

  lemma WireRefs(e: Event, f: Event)
    requires ToWire(e) == ToWire(f)
    ensures MapSeq(Refs(e.kind), (h: Hash) => h.bytes) == MapSeq(Refs(f.kind), (h: Hash) => h.bytes)
  {
    MapKindRefs(e.kind, (h: Hash) => h.bytes, (t: Instant) => UnixTimestamp(t));
    MapKindRefs(f.kind, (h: Hash) => h.bytes, (t: Instant) => UnixTimestamp(t));
  }

  /** Replacements stay within one algorithm. */
  ghost predicate OneAlgorithm(a: HashAlgorithm, m: Replacements) {
    forall h :: h in m ==> h.algorithm == a && m[h].algorithm == a
  }

  lemma AlteredOnWire(a: HashAlgorithm, e: Event, f: Event, m: Replacements)
    requires OneAlgorithm(a, m) && Altered(e.kind, m) && f.kind == Rewritten(e.kind, m)
    ensures ToWire(e) != ToWire(f)
  {
    hide Refs, Rewritten, ToWire;
    RewrittenRefs(e.kind, m);
    var h :| h in Refs(e.kind) && Replace(m, h) != h;
    var q :| 0 <= q < |Refs(e.kind)| && Refs(e.kind)[q] == h;
    assert Refs(f.kind)[q] == m[h];
    var x, y := MapSeq(Refs(e.kind), (h: Hash) => h.bytes), MapSeq(Refs(f.kind), (h: Hash) => h.bytes);
    assert x[q] == h.bytes && y[q] == m[h].bytes;
    if ToWire(e) == ToWire(f) {
      WireRefs(e, f);
    }
  }

  /** An event of the source and its rewritten form are different inputs with one content hash. */
  ghost predicate ChainCollision(p: Primitives, a: HashAlgorithm, history: seq<StoredEvent>, out: seq<StoredEvent>) {
    exists j :: 0 <= j < |history| && j < |out|
                && Collision(p, a, HashedBytes(history[j].event), HashedBytes(out[j].event))
  }

  lemma SameHashSameWire(p: Primitives, a: HashAlgorithm, history: seq<StoredEvent>, out: seq<StoredEvent>, i: nat)
    requires i < |history| && i < |out| && !ChainCollision(p, a, history, out)
    requires ContentHash(p, a, history[i].event) == Some(history[i].hash)
    requires ContentHash(p, a, out[i].event) == Some(out[i].hash)
    requires out[i].hash == history[i].hash
    ensures ToWire(history[i].event) == ToWire(out[i].event)
  {
    hide ContentHash, HashedBytes, ToWire, Collision;
    ContentHashBinds(p, a, history[i].event, out[i].event);
  }

  /** From the first altered event on, every hash is new: each event carries the change to the next. */
  lemma {:induction false} AlterationSpreads(p: Primitives, a: HashAlgorithm, history: seq<StoredEvent>,
                                             m: Replacements, out: seq<StoredEvent>, k: nat, i: nat)
    requires Chained(p, a, history) && Relinked(p, a, EventsOf(history), m, out) && OneAlgorithm(a, m)
    requires k <= i < |history| && Altered(history[k].event.kind, m)
    requires !ChainCollision(p, a, history, out)
    ensures out[i].hash != history[i].hash
    decreases i
  {
    hide ContentHash, Altered, Rewritten, ToWire, ChainCollision, OneAlgorithm;
    assert ChainedAt(p, a, history, i) && RelinkedAt(p, a, EventsOf(history), m, out, i);
    if out[i].hash == history[i].hash {
      SameHashSameWire(p, a, history, out, i);
      if i == k {
        AlteredOnWire(a, history[i].event, out[i].event, m);
      } else {
        assert ChainedAt(p, a, history, i - 1);
        ParentsAgree(history[i].event, out[i].event);
        RelinkedAlgorithm(p, a, EventsOf(history), m, out);
        ChainedAlgorithm(p, a, history, i - 1);
        AlterationSpreads(p, a, history, m, out, k, i - 1);
      }
    }
  }

  lemma ChainedAlgorithm(p: Primitives, a: HashAlgorithm, history: seq<StoredEvent>, i: nat)
    requires i < |history| && ChainedAt(p, a, history, i)
    ensures history[i].hash.algorithm == a
  {
  }

  lemma {:induction false} ChangedFrom(before: seq<StoredEvent>, after: seq<StoredEvent>, k: nat)
    requires |before| == |after| && k <= |before|
    requires forall i :: 0 <= i < |before| ==> (after[i].hash != before[i].hash <==> i >= k)
    ensures Changed(before, after) == |before| - k
  {
    if before != [] {
      var n := |before| - 1;
      if k <= n {
        ChangedFrom(before[..n], after[..n], k);
      } else {
        ChangedFrom(before[..n], after[..n], n);
      }
    }
  }

  /**
   The cascade. With `k` the first event that refers to a requested object, earlier events keep
   their content and hash; all later ones change hash and are counted, unless two inputs of the
   digest collide or a requested object is its own sentinel.
   */
  lemma CascadeExact(p: Primitives, a: HashAlgorithm, stored: map<Digest, Bytes>, history: seq<StoredEvent>,
                     requested: seq<Hash>, why: Redaction, d: Derivative, k: nat)
    requires RedactionOf(p, a, stored, history, requested, why, d)
    requires Chained(p, a, history)
    requires k < |history| && Touched(history[k].event.kind, d.replacements)
    requires forall j :: 0 <= j < k ==> !Touched(history[j].event.kind, d.replacements)
    ensures d.history[..k] == history[..k]
    ensures || ChainCollision(p, a, history, d.history)
            || (exists h :: h in requested && OwnSentinel(p, a, stored, why, h))
            || (&& (forall i :: k <= i < |history| ==> d.history[i].hash != history[i].hash)
                && d.rewrittenCount == |history| - k)
  {
    hide Relink, Relinked, Changed, Collected, Chained, ChainCollision, SentinelUnder, SentinelFor, SentinelBytes,
         SentinelCbor, Fits, Refs, Altered, OneAlgorithm;
    var m, out := d.replacements, d.history;
    RelinkEntries(p, a, EventsOf(history), m);
    forall i | 0 <= i < k
      ensures out[i] == history[i]
    {
      forall j | 0 <= j <= i
        ensures !Altered(history[j].event.kind, m)
      {
        UntouchedUnaltered(history[j].event.kind, m);
      }
      UnalteredPrefix(p, a, history, m, out, i);
    }
    if !ChainCollision(p, a, history, out) && !exists h :: h in requested && OwnSentinel(p, a, stored, why, h) {
      forall h | h in m
        ensures h.algorithm == a && m[h].algorithm == a && m[h] != h
      {
        assert SentinelOf(p, a, stored, why, m, d.sentinels, h);
      }
      TouchedIsAltered(a, history[k].event.kind, m);
      forall i | k <= i < |history|
        ensures out[i].hash != history[i].hash
      {
        AlterationSpreads(p, a, history, m, out, k, i);
      }
      ChangedFrom(history, out, k);
    }
  }

  /** An object whose sentinel has the object's own hash. */
  ghost predicate OwnSentinel(p: Primitives, a: HashAlgorithm, stored: map<Digest, Bytes>, why: Redaction, h: Hash) {
    h.bytes in stored && DigestBytes(p, a, SentinelBytes(SentinelFor(stored, h, why))) == h
  }

  /** The cascade of a session grown by appends, from the first event that refers to a requested object. */
  lemma CascadeOfAppends(p: Primitives, a: HashAlgorithm, stored: map<Digest, Bytes>, history: seq<StoredEvent>,
                         requested: seq<Hash>, why: Redaction, d: Derivative) returns (k: nat)
    requires RedactionOf(p, a, stored, history, requested, why, d)
    requires Recorded(p, a, history) && requested != [] && AllReferenced(EventsOf(history), requested)
    ensures k < |history| && Touched(history[k].event.kind, d.replacements)
    ensures d.history[..k] == history[..k]
    ensures || ChainCollision(p, a, history, d.history)
            || (exists h :: h in requested && OwnSentinel(p, a, stored, why, h))
            || (&& (forall i :: 0 <= i < |history| ==> (d.history[i].hash != history[i].hash <==> i >= k))
                && d.rewrittenCount == |history| - k)
  {
    hide Relink, Changed, Collected, Recorded, Chained, ChainCollision, OwnSentinel, Referenced, Touched, SentinelOf,
         SentinelUnder;
    RecordedIsChained(p, a, history);
    assert requested[0] in requested;
    k := FirstTouched(history, d.replacements, requested[0]);
    CascadeExact(p, a, stored, history, requested, why, d, k);
    forall i | 0 <= i < k
      ensures d.history[i] == history[i]
    {
      assert d.history[..k][i] == history[..k][i];
    }
  }

  /** A redaction of at least one referenced object has a first touched event. */
  lemma {:induction false} FirstTouched(history: seq<StoredEvent>, m: Replacements, h: Hash) returns (k: nat)
    requires h in m && Referenced(EventsOf(history), h)
    ensures k < |history| && Touched(history[k].event.kind, m)
    ensures forall j :: 0 <= j < k ==> !Touched(history[j].event.kind, m)
  {
    hide Refs;
    var i :| 0 <= i < |history| && h in Refs(EventsOf(history)[i].kind);
    k := 0;
    while !Touched(history[k].event.kind, m)
      invariant k <= i && forall j :: 0 <= j < k ==> !Touched(history[j].event.kind, m)
      decreases i - k
    {
      k := k + 1;
    }
  }

  lemma UntouchedUnaltered(kind: EventKind, m: Replacements)
    requires !Touched(kind, m)
    ensures !Altered(kind, m)
  {
  }

  lemma TouchedIsAltered(a: HashAlgorithm, kind: EventKind, m: Replacements)
    requires Touched(kind, m)
    requires forall h :: h in m ==> h.algorithm == a && m[h].algorithm == a && m[h] != h
    ensures Altered(kind, m) && OneAlgorithm(a, m)
  {
    var h :| h in Refs(kind) && h in m;
    assert Replace(m, h) != h;
  }

  lemma RecordedIsChained(p: Primitives, a: HashAlgorithm, history: seq<StoredEvent>)
    requires Recorded(p, a, history)
    ensures Chained(p, a, history)
  {
    hide ContentHash, AttemptsInOrder;
    forall i | 0 <= i < |history|
      ensures ChainedAt(p, a, history, i)
    {
      assert RecordedAt(p, a, history, i);
    }
  }
}
