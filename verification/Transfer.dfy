/** Moving sessions between a journal and bundles: export, object staging and import. */
module Transfer {
  import opened Foundation
  import opened Text
  import opened Events
  import opened Manifests
  import opened Archive
  import opened ArchiveLaws
  import opened Verifier
  import opened Integrity
  import opened Journal
  import opened Calendar

  datatype StepError =
    | MalformedJournal
    | MissingFromStore(missing: Hash)
    | StoreFailed(error: JournalError)
    | LocalStoreCorrupt(corrupt: Hash)
    | VerificationError
    | SessionIdCollision(id: string)
    | IntegrityFailed
    | HashAlgorithmMismatch
    | SessionOpenFailed(error: JournalError)
    | ImportFailed(error: JournalError)

  // ---------------------------------------------------------------- collecting referenced objects

  ghost predicate Obtainable(store: map<Digest, Bytes>, a: HashAlgorithm, sentinels: map<Hash, Bytes>, h: Hash) {
    h in sentinels || (h.algorithm == a && h.bytes in store)
  }

  ghost predicate AllObtainable(store: map<Digest, Bytes>, a: HashAlgorithm, sentinels: map<Hash, Bytes>,
                                events: seq<Event>)
  {
    forall i, h :: 0 <= i < |events| && h in Refs(events[i].kind) ==> Obtainable(store, a, sentinels, h)
  }

  /** A reference that the store cannot answer for, because it is of another algorithm. */
  ghost predicate Foreign(a: HashAlgorithm, sentinels: map<Hash, Bytes>, h: Hash) {
    h !in sentinels && h.algorithm != a
  }

  ghost predicate Lost(store: map<Digest, Bytes>, a: HashAlgorithm, sentinels: map<Hash, Bytes>, h: Hash) {
    h !in sentinels && h.algorithm == a && h.bytes !in store
  }

  ghost predicate SomeForeign(a: HashAlgorithm, sentinels: map<Hash, Bytes>, events: seq<Event>) {
    exists h {:trigger Referenced(events, h)} :: Referenced(events, h) && Foreign(a, sentinels, h)
  }

  /** Exactly the referenced objects, each from the sentinels or else from the store. */
  ghost predicate Collected(store: map<Digest, Bytes>, a: HashAlgorithm, sentinels: map<Hash, Bytes>,
                            events: seq<Event>, objects: map<Hash, Bytes>)
  {
    && Closed(events, objects)
    && forall h :: h in objects ==>
         && Obtainable(store, a, sentinels, h)
         && objects[h] == if h in sentinels then sentinels[h] else store[h.bytes]
  }

  /** Adds the objects one event refers to. */
  method CollectEvent(store: ObjectStore, sentinels: map<Hash, Bytes>, refs: seq<Hash>, before: map<Hash, Bytes>)
    returns (r: Result<map<Hash, Bytes>, StepError>)
    requires forall h :: h in before ==>
               && Obtainable(store.objects, store.algorithm, sentinels, h)
               && before[h] == if h in sentinels then sentinels[h] else store.objects[h.bytes]
    ensures r.Ok? ==>
              && (forall h :: h in r.value <==> h in before || h in refs)
              && forall h :: h in r.value ==>
                   && Obtainable(store.objects, store.algorithm, sentinels, h)
                   && r.value[h] == if h in sentinels then sentinels[h] else store.objects[h.bytes]
    ensures r.Ok? <== store.reliable && forall h :: h in refs ==>
              Obtainable(store.objects, store.algorithm, sentinels, h)
    ensures r.Err? ==> r.error.StoreFailed? || r.error.MissingFromStore?
    ensures r.Err? && r.error.MissingFromStore? ==>
              r.error.missing in refs && Lost(store.objects, store.algorithm, sentinels, r.error.missing)
    ensures r.Err? && r.error.StoreFailed? ==>
              || (r.error.error == Storage && !store.reliable)
              || (r.error.error == AlgorithmMismatch && exists h :: h in refs && Foreign(store.algorithm, sentinels, h))
  {
    ghost var stored := store.objects;
    var objects := before;
    for i := 0 to |refs|
      invariant forall h :: h in objects <==> h in before || h in refs[..i]
      invariant forall h :: h in objects ==>
                  && Obtainable(stored, store.algorithm, sentinels, h)
                  && objects[h] == if h in sentinels then sentinels[h] else stored[h.bytes]
    {
      var h := refs[i];
      assert h in refs;
      assert refs[..i + 1] == refs[..i] + [h];
      if h in objects {
        continue;
      }
      if h in sentinels {
        objects := objects[h := sentinels[h]];
        continue;
      }
      var bytes := store.Get(h);
      match bytes {
        case Err(e) => return Err(StoreFailed(e));
        case Ok(None) => return Err(MissingFromStore(h));
        case Ok(Some(b)) => objects := objects[h := b];
      }
    }
    assert refs[..|refs|] == refs;
    return Ok(objects);
  }

  method CollectObjects(store: ObjectStore, sentinels: map<Hash, Bytes>, events: seq<Event>)
    returns (r: Result<map<Hash, Bytes>, StepError>)
    ensures r.Ok? ==> Collected(store.objects, store.algorithm, sentinels, events, r.value)
    ensures r.Ok? <== store.reliable && AllObtainable(store.objects, store.algorithm, sentinels, events)
    ensures r.Err? ==> r.error.StoreFailed? || r.error.MissingFromStore?
    ensures r.Err? && r.error.MissingFromStore? ==>
              Referenced(events, r.error.missing) && Lost(store.objects, store.algorithm, sentinels, r.error.missing)
    ensures r.Err? && r.error.StoreFailed? ==>
              || (r.error.error == Storage && !store.reliable)
              || (r.error.error == AlgorithmMismatch && SomeForeign(store.algorithm, sentinels, events))
  {
    hide Refs;
    ghost var stored := store.objects;
    var objects: map<Hash, Bytes> := map[];
    for i := 0 to |events|
      invariant forall h :: h in objects <==> ReferencedIn(events, i, h)
      invariant forall h :: h in objects ==>
                  && Obtainable(stored, store.algorithm, sentinels, h)
                  && objects[h] == if h in sentinels then sentinels[h] else stored[h.bytes]
    {
      var next := CollectEvent(store, sentinels, Refs(events[i].kind), objects);
      if next.Err? {
        if next.error.StoreFailed? && next.error.error == AlgorithmMismatch {
          ghost var h :| h in Refs(events[i].kind) && Foreign(store.algorithm, sentinels, h);
          assert Referenced(events, h);
        }
        return Err(next.error);
      }
      forall h
        ensures ReferencedIn(events, i + 1, h) <==> ReferencedIn(events, i, h) || h in Refs(events[i].kind)
      {
      }
      objects := next.value;
    }
    forall h | h in objects
      ensures Referenced(events, h)
    {
      assert ReferencedIn(events, |events|, h);
    }
    forall i, h | 0 <= i < |events| && h in Refs(events[i].kind)
      ensures h in objects
    {
      assert ReferencedIn(events, |events|, h);
    }
    return Ok(objects);
  }

  ghost predicate ReferencedIn(events: seq<Event>, n: nat, h: Hash) {
    exists i :: 0 <= i < n && i < |events| && h in Refs(events[i].kind)
  }

  // ---------------------------------------------------------------- export

  function FirstStart(events: seq<Event>): Option<Event> {
    if events == [] then None
    else if events[0].kind.SessionStart? then Some(events[0])
    else FirstStart(events[1..])
  }

  function LastEnd(events: seq<Event>): Option<Event> {
    if events == [] then None
    else
      var n := |events| - 1;
      if events[n].kind.SessionEnd? then Some(events[n]) else LastEnd(events[..n])
  }

  /** The unsigned manifest of a bundle over the given events and objects. */
  function BundleManifest(sessionId: string, producerVersion: string, a: HashAlgorithm, head: Hash, start: Event,
                          end: Event, objectCount: u64, eventCount: u64): Manifest
  {
    Manifest(
      AGEF_SPEC_VERSION,
      Producer("akmon", producerVersion),
      Session(sessionId, head.ToHex(), FormatIso(start.emittedAt), FormatIso(end.emittedAt)),
      AlgorithmName(a),
      objectCount,
      eventCount,
      None,
      None,
      map[])
  }

  /** What an export of a history with head `head` holds. */
  ghost predicate ExportOf(stored: map<Digest, Bytes>, a: HashAlgorithm, history: seq<StoredEvent>, head: Hash,
                           c: BundleContents)
  {
    && c.events == EventsOf(history)
    && Collected(stored, a, map[], c.events, c.objects)
    && c.manifest.session.head == head.ToHex()
    && c.manifest.hashAlgorithm == AlgorithmName(a)
    && c.manifest.objectCount == |c.objects| % TWO_64
    && c.manifest.eventCount == |c.events|
    && c.manifest.signatures.None? && c.manifest.operatorAttestations.None? && c.manifest.extra == map[]
  }

  /** Version, producer, session and the times of the first start and the last end. */
  ghost predicate Stamped(sessionId: string, producerVersion: string, c: BundleContents) {
    && FirstStart(c.events).Some? && LastEnd(c.events).Some?
    && c.manifest.agefVersion == AGEF_SPEC_VERSION
    && c.manifest.producer == Producer("akmon", producerVersion)
    && c.manifest.session.id == sessionId
    && c.manifest.session.createdAt == FormatIso(FirstStart(c.events).value.emittedAt)
    && c.manifest.session.endedAt == FormatIso(LastEnd(c.events).value.emittedAt)
  }

  lemma {:induction false} FirstStartExists(events: seq<Event>)
    ensures FirstStart(events).Some? <==> exists i :: 0 <= i < |events| && events[i].kind.SessionStart?
  {
    if events != [] {
      FirstStartExists(events[1..]);
      if events[1..] != [] && !events[0].kind.SessionStart? {
        assert forall i :: 0 < i < |events| ==> events[i] == events[1..][i - 1];
      }
    }
  }

  lemma {:induction false} LastEndExists(events: seq<Event>)
    ensures LastEnd(events).Some? <==> exists i :: 0 <= i < |events| && events[i].kind.SessionEnd?
  {
    if events != [] {
      LastEndExists(events[..|events| - 1]);
    }
  }

  /** The event at `i` is the first start, or the last end. */
  ghost predicate IsFirstStart(events: seq<Event>, i: nat) {
    i < |events| && events[i].kind.SessionStart? && forall j :: 0 <= j < i ==> !events[j].kind.SessionStart?
  }

  ghost predicate IsLastEnd(events: seq<Event>, i: nat) {
    i < |events| && events[i].kind.SessionEnd? && forall j :: i < j < |events| ==> !events[j].kind.SessionEnd?
  }

  lemma {:induction false} FirstStartAt(events: seq<Event>, i: nat)
    requires IsFirstStart(events, i)
    ensures FirstStart(events) == Some(events[i])
  {
    if i > 0 {
      FirstStartAt(events[1..], i - 1);
    }
  }

  lemma {:induction false} LastEndAt(events: seq<Event>, i: nat)
    requires IsLastEnd(events, i)
    ensures LastEnd(events) == Some(events[i])
    decreases |events|
  {
    if i < |events| - 1 {
      LastEndAt(events[..|events| - 1], i);
    }
  }

  lemma StampedId(sessionId: string, producerVersion: string, c: BundleContents)
    requires Stamped(sessionId, producerVersion, c)
    ensures c.manifest.session.id == sessionId
  {
  }

  /** The stamped times read back as those of the first start and the last end, to the millisecond. */
  lemma StampedTimes(sessionId: string, producerVersion: string, c: BundleContents, i: nat, j: nat)
    requires Stamped(sessionId, producerVersion, c) && IsFirstStart(c.events, i) && IsLastEnd(c.events, j)
    ensures Denotes(c.manifest.session.createdAt, c.events[i].emittedAt)
    ensures Denotes(c.manifest.session.endedAt, c.events[j].emittedAt)
  {
    hide Denotes, FormatIso;
    FirstStartAt(c.events, i);
    LastEndAt(c.events, j);
    FormatIsoReads(c.events[i].emittedAt);
    FormatIsoReads(c.events[j].emittedAt);
  }

  /** Succeeds on a working store exactly when there is a head, a start, an end, and every object. */
  method AssembleSessionBundle(graph: SessionGraph, producerVersion: string)
    returns (r: Result<BundleContents, StepError>)
    requires |graph.events| < TWO_64
    ensures r.Ok? ==> graph.head.Some?
                      && ExportOf(graph.store.objects, graph.store.algorithm, graph.events, graph.head.value, r.value)
                      && Stamped(graph.sessionId, producerVersion, r.value)
    ensures r.Ok? <== graph.store.reliable && graph.head.Some?
                      && FirstStart(EventsOf(graph.events)).Some? && LastEnd(EventsOf(graph.events)).Some?
                      && AllObtainable(graph.store.objects, graph.store.algorithm, map[], EventsOf(graph.events))
    ensures r.Err? ==> r.error.MalformedJournal? || r.error.MissingFromStore? || r.error.StoreFailed?
    ensures r.Err? && r.error == MalformedJournal ==>
              graph.head.None? || FirstStart(EventsOf(graph.events)).None? || LastEnd(EventsOf(graph.events)).None?
    ensures r.Err? && r.error.MissingFromStore? ==>
              && Referenced(EventsOf(graph.events), r.error.missing)
              && Lost(graph.store.objects, graph.store.algorithm, map[], r.error.missing)
    ensures r.Err? && r.error.StoreFailed? ==>
              || (r.error.error == Storage && !graph.store.reliable)
              || (r.error.error == AlgorithmMismatch
                  && SomeForeign(graph.store.algorithm, map[], EventsOf(graph.events)))
  {
    hide Collected, Referenced, AllObtainable, Lost, Foreign, SomeForeign, FormatIso;
    var history := graph.events;
    if graph.head.None? {
      return Err(MalformedJournal);
    }
    var events := EventsOf(history);
    var start := FirstStart(events);
    if start.None? {
      return Err(MalformedJournal);
    }
    var end := LastEnd(events);
    if end.None? {
      return Err(MalformedJournal);
    }
    var objects := CollectObjects(graph.store, map[], events);
    if objects.Err? {
      return Err(objects.error);
    }
    var manifest := BundleManifest(graph.sessionId, producerVersion, graph.store.algorithm, graph.head.value,
                                   start.value, end.value,
                                   |objects.value| % TWO_64, |events|);
    return Ok(BundleContents(manifest, events, objects.value));
  }

  /**
   A session grown by appends and closed by its one session end, over a working store that holds its
   objects, does export, and what is exported is intact.
   */
  method ExportClosedSession(graph: SessionGraph, producerVersion: string) returns (c: BundleContents)
    requires graph.Valid() && graph.store.Valid() && graph.store.reliable && |graph.events| < TWO_64
    requires EndsOnce(EventsOf(graph.events))
    requires AllObtainable(graph.store.objects, graph.store.algorithm, map[], EventsOf(graph.events))
    ensures ExportOf(graph.store.objects, graph.store.algorithm, graph.events, graph.events[|graph.events| - 1].hash, c)
    ensures Stamped(graph.sessionId, producerVersion, c)
    ensures |c.objects| < TWO_64 ==> Intact(graph.store.p, c)
  {
    hide AllObtainable, ExportOf, Stamped, ContentHash, AttemptsInOrder, FirstStart, LastEnd, Addressed;
    ghost var events := EventsOf(graph.events);
    RecordedEnds(graph.store.p, graph.store.algorithm, graph.events);
    var r := AssembleSessionBundle(graph, producerVersion);
    c := r.value;
    if |c.objects| < TWO_64 {
      ExportOfAppendsIsIntact(graph.store.p, graph.store.algorithm, graph.events, graph.store.objects, c);
    }
  }

  lemma RecordedEnds(p: Primitives, a: HashAlgorithm, history: seq<StoredEvent>)
    requires Recorded(p, a, history) && EndsOnce(EventsOf(history))
    ensures history != [] && FirstStart(EventsOf(history)).Some? && LastEnd(EventsOf(history)).Some?
  {
    hide ContentHash, AttemptsInOrder;
    var events := EventsOf(history);
    FirstStartExists(events);
    LastEndExists(events);
    assert RecordedAt(p, a, history, 0);
    assert events[0].kind.SessionStart? && events[|events| - 1].kind.SessionEnd?;
  }

  lemma CollectedKeyed(p: Primitives, a: HashAlgorithm, stored: map<Digest, Bytes>, sentinels: map<Hash, Bytes>,
                       events: seq<Event>, objects: map<Hash, Bytes>)
    requires Collected(stored, a, sentinels, events, objects)
    requires Addressed(p, a, stored) && KeyedByDigest(p, a, sentinels)
    ensures KeyedByDigest(p, a, objects)
  {
    hide Closed;
  }

  /**
   The two verifiers agree. When the recorded hashes are the content hashes, an exported bundle
   verifies clean exactly when the journal verifies clean and its provider attempts are in order.
   */
  lemma ExportExact(p: Primitives, a: HashAlgorithm, history: seq<StoredEvent>, head: Hash, stored: map<Digest, Bytes>,
                    c: BundleContents)
    requires history != [] && head.algorithm == a
    requires forall i :: 0 <= i < |history| ==> ContentHash(p, a, history[i].event) == Some(history[i].hash)
    requires ExportOf(stored, a, history, head, c) && |c.objects| < TWO_64
    ensures Intact(p, c) <==> JournalIntact(p, a, history, Some(head), stored) && AllAttemptsInOrder(EventsOf(history))
  {
    hide ContentHash, Refs, AttemptsInOrder, EndsOnce, Closed, DigestBytes, ParentOk;
    ParseAlgorithmName(a);
    ParseHexOfToHex(head);
    var events, n := c.events, |history|;
    assert forall i :: 0 <= i < n ==> HashAt(p, a, events, i) == Some(history[i].hash);
    if Intact(p, c) {
      forall i | 0 <= i < n
        ensures EntryIntact(p, a, history, i, stored)
      {
        IntactEntry(p, a, history, i, stored, c);
      }
    }
    if JournalIntact(p, a, history, Some(head), stored) && AllAttemptsInOrder(events) {
      forall i | 0 <= i < n
        ensures LinkedAt(p, a, events, i)
      {
        assert EntryIntact(p, a, history, i, stored);
        LinkOfEntry(p, a, history, i, stored);
      }
      JournalKeyed(p, a, history, stored, c);
      EndsOnceNonEmpty(events);
    }
  }

  lemma EndsOnceNonEmpty(events: seq<Event>)
    requires EndsOnce(events)
    ensures events != []
  {
  }

  lemma LinkOfEntry(p: Primitives, a: HashAlgorithm, history: seq<StoredEvent>, i: nat, stored: map<Digest, Bytes>)
    requires i < |history| && EntryIntact(p, a, history, i, stored)
    requires forall j :: 0 <= j < |history| ==> HashAt(p, a, EventsOf(history), j) == Some(history[j].hash)
    ensures LinkedAt(p, a, EventsOf(history), i)
  {
    hide ContentHash, Refs, HashAt;
  }

  lemma IntactEntry(p: Primitives, a: HashAlgorithm, history: seq<StoredEvent>, i: nat, stored: map<Digest, Bytes>,
                    c: BundleContents)
    requires i < |history|
    requires forall j :: 0 <= j < |history| ==> ContentHash(p, a, history[j].event) == Some(history[j].hash)
    requires c.events == EventsOf(history) && LinkedAt(p, a, c.events, i)
    requires Collected(stored, a, map[], c.events, c.objects) && KeyedByDigest(p, a, c.objects)
    ensures EntryIntact(p, a, history, i, stored)
  {
    hide ContentHash, Refs;
    forall h | h in Refs(history[i].event.kind)
      ensures h.bytes in stored && DigestBytes(p, a, stored[h.bytes]) == h
    {
      assert h in Refs(c.events[i].kind) && h in c.objects;
    }
  }

  lemma JournalKeyed(p: Primitives, a: HashAlgorithm, history: seq<StoredEvent>, stored: map<Digest, Bytes>,
                     c: BundleContents)
    requires forall i :: 0 <= i < |history| ==> EntryIntact(p, a, history, i, stored)
    requires c.events == EventsOf(history) && Collected(stored, a, map[], c.events, c.objects)
    ensures KeyedByDigest(p, a, c.objects)
  {
    hide ContentHash, Refs, ParentOk;
    forall h | h in c.objects
      ensures DigestBytes(p, a, c.objects[h]) == h
    {
      assert Referenced(c.events, h);
      var i :| 0 <= i < |c.events| && h in Refs(c.events[i].kind);
      assert EntryIntact(p, a, history, i, stored);
      assert RefsRehash(p, a, stored, Refs(history[i].event.kind));
    }
  }

  /** A session grown by appends and closed by its one session end exports to a clean bundle. */
  lemma ExportOfAppendsIsIntact(p: Primitives, a: HashAlgorithm, history: seq<StoredEvent>, stored: map<Digest, Bytes>,
                                c: BundleContents)
    requires history != [] && Recorded(p, a, history) && EndsOnce(EventsOf(history))
    requires Addressed(p, a, stored)
    requires ExportOf(stored, a, history, history[|history| - 1].hash, c) && |c.objects| < TWO_64
    ensures Intact(p, c)
  {
    hide ContentHash, Refs, Collected, KeyedByDigest, AttemptsInOrder, EndsOnce, LinkedAt;
    RecordedIsLinked(p, a, history);
    EmptyKeyed(p, a);
    CollectedKeyed(p, a, stored, map[], c.events, c.objects);
    CollectedClosed(stored, a, map[], c.events, c.objects);
    var head := history[|history| - 1].hash;
    ParseAlgorithmName(a);
    HashAlgorithmAt(p, a, c.events, |history| - 1);
    ParseHexOfToHex(head);
  }

  lemma EmptyKeyed(p: Primitives, a: HashAlgorithm)
    ensures KeyedByDigest(p, a, map[])
  {
  }

  lemma CollectedClosed(stored: map<Digest, Bytes>, a: HashAlgorithm, sentinels: map<Hash, Bytes>, events: seq<Event>,
                        objects: map<Hash, Bytes>)
    requires Collected(stored, a, sentinels, events, objects)
    ensures Closed(events, objects)
  {
  }

  // ---------------------------------------------------------------- staging objects

  /** The keys of `objects` the store does not hold yet. */
  ghost function Missing(stored: map<Digest, Bytes>, objects: map<Hash, Bytes>): set<Hash> {
    set h | h in objects && h.bytes !in stored
  }

  /** The store with every object of a bundle added under its digest. */
  ghost predicate StagedInto(before: map<Digest, Bytes>, objects: map<Hash, Bytes>, after: map<Digest, Bytes>) {
    && Extends(before, after)
    && (forall h :: h in objects ==> h.bytes in after && after[h.bytes] == objects[h])
    && (forall d {:trigger HoldsDigest(objects, d)} :: d in after ==> d in before || HoldsDigest(objects, d))
  }

  ghost predicate HoldsDigest(objects: map<Hash, Bytes>, d: Digest) {
    exists h :: h in objects && h.bytes == d
  }

  ghost predicate Extends(before: map<Digest, Bytes>, after: map<Digest, Bytes>) {
    forall d :: d in before ==> d in after && after[d] == before[d]
  }

  /**
   Stages the objects of a verified bundle in whatever order they come. Entries already in the store
   are never touched, even when staging stops early; a completed run counts every object once, as
   new or existing, and leaves the old store plus the bundle's objects.
   */
  method StageObjects(store: ObjectStore, objects: map<Hash, Bytes>) returns (r: Result<(nat, nat), StepError>)
    requires store.Valid() && KeyedByDigest(store.p, store.algorithm, objects)
    modifies store
    ensures store.Valid() && Extends(old(store.objects), store.objects)
    ensures r.Ok? ==>
              && r.value.0 + r.value.1 == |objects|
              && r.value.0 == |Missing(old(store.objects), objects)|
              && StagedInto(old(store.objects), objects, store.objects)
    ensures r.Err? ==> StagingError(store.p, store.algorithm, store.reliable, old(store.objects), objects, r.error)
  {
    hide DigestBytes, Missing, Staging, StagedInto, HoldsDigest, Extends, Addressed, Collision;
    ghost var before := store.objects;
    var objectsNew, objectsExisting: nat := 0, 0;
    var todo := objects.Keys;
    StagingStart(before, objects);
    while todo != {}
      invariant todo <= objects.Keys
      invariant store.Valid() && Staging(before, objects, todo, store.objects)
      invariant objectsNew + objectsExisting + |todo| == |objects|
      invariant objectsNew == |Missing(before, objects) - todo|
      decreases todo
    {
      var h :| h in todo;
      CountStep(before, objects, todo, h);
      var staged := StageOne(store, objects, h, before, todo);
      match staged {
        case Err(e) => return Err(e);
        case Ok(isNew) =>
          if isNew {
            objectsNew := objectsNew + 1;
          } else {
            objectsExisting := objectsExisting + 1;
          }
      }
      todo := todo - {h};
    }
    StagingEnd(before, objects, todo, store.objects);
    assert Missing(before, objects) - {} == Missing(before, objects);
    return Ok((objectsNew, objectsExisting));
  }

  /** Stages one object; answers whether it was new to the store. */
  method StageOne(store: ObjectStore, objects: map<Hash, Bytes>, h: Hash, ghost before: map<Digest, Bytes>,
                  ghost todo: set<Hash>)
    returns (r: Result<bool, StepError>)
    requires store.Valid() && KeyedByDigest(store.p, store.algorithm, objects)
    requires h in todo && todo <= objects.Keys && Staging(before, objects, todo, store.objects)
    modifies store
    ensures store.Valid() && Extends(before, store.objects)
    ensures r.Ok? ==> Staging(before, objects, todo - {h}, store.objects) && r.value == (h.bytes !in before)
    ensures r.Err? ==> StagingError(store.p, store.algorithm, store.reliable, before, objects, r.error)
  {
    hide DigestBytes, Staging, StagedInto, HoldsDigest, Extends, Addressed, Collision, KeyedByDigest;
    ghost var now := store.objects;
    StagingPresence(before, objects, todo, now, h);
    StagingEnd(before, objects, todo, now);
    KeysDiffer(store.p, store.algorithm, objects, h);
    var present := store.Contains(h);
    if present.Err? {
      return Err(StoreFailed(present.error));
    }
    if present.value {
      var existing := store.Get(h);
      if existing.Err? {
        return Err(StoreFailed(existing.error));
      }
      if existing.value != Some(objects[h]) {
        StagingCorrupt(store.p, store.algorithm, before, objects, todo, now, h);
        return Err(LocalStoreCorrupt(h));
      }
      StagingKeep(before, objects, todo, now, h);
      return Ok(false);
    }
    var put := store.Put(objects[h]);
    if put.Err? {
      return Err(StoreFailed(put.error));
    }
    StagingPut(store.p, store.algorithm, before, objects, todo, now, h);
    StagingEnd(before, objects, todo - {h}, store.objects);
    return Ok(true);
  }

  /** Why staging may stop: the store failed, or holds other bytes under one of the digests. */
  ghost predicate StagingError(p: Primitives, a: HashAlgorithm, reliable: bool, before: map<Digest, Bytes>,
                               objects: map<Hash, Bytes>, error: StepError) {
    match error
    case StoreFailed(e) => e == Storage && !reliable
    case LocalStoreCorrupt(h) => h in objects && h.bytes in before && Collision(p, a, before[h.bytes], objects[h])
    case _ => false
  }

  /** Where staging stands: everything outside `todo` is in the store, nothing old has changed. */
  ghost predicate Staging(before: map<Digest, Bytes>, objects: map<Hash, Bytes>, todo: set<Hash>,
                          now: map<Digest, Bytes>)
  {
    && Extends(before, now)
    && (forall h :: h in objects && h !in todo ==> h.bytes in now && now[h.bytes] == objects[h])
    && (forall d {:trigger HoldsDigest(objects, d)} :: d in now ==> d in before || HoldsDigest(objects, d))
    && (forall h :: h in todo ==> (h.bytes in now <==> h.bytes in before))
  }

  lemma StagingStart(before: map<Digest, Bytes>, objects: map<Hash, Bytes>)
    ensures Staging(before, objects, objects.Keys, before)
    ensures |Missing(before, objects) - objects.Keys| == 0
  {
    assert Missing(before, objects) - objects.Keys == {};
  }

  lemma StagingPresence(before: map<Digest, Bytes>, objects: map<Hash, Bytes>, todo: set<Hash>, now: map<Digest, Bytes>,
                        h: Hash)
    requires Staging(before, objects, todo, now) && h in todo
    ensures h.bytes in now <==> h.bytes in before
    ensures h.bytes in before ==> now[h.bytes] == before[h.bytes]
  {
  }

  lemma CountStep(before: map<Digest, Bytes>, objects: map<Hash, Bytes>, todo: set<Hash>, h: Hash)
    requires h in todo && todo <= objects.Keys
    ensures |Missing(before, objects) - (todo - {h})| == |Missing(before, objects) - todo|
            + (if h.bytes in before then 0 else 1)
  {
    var missing := Missing(before, objects);
    if h.bytes in before {
      assert missing - (todo - {h}) == missing - todo;
    } else {
      assert missing - (todo - {h}) == (missing - todo) + {h};
    }
  }

  lemma KeysDiffer(p: Primitives, a: HashAlgorithm, objects: map<Hash, Bytes>, h: Hash)
    requires KeyedByDigest(p, a, objects) && h in objects
    ensures h.algorithm == a && p.digest(a, objects[h]) == h.bytes
    ensures forall g :: g in objects && g != h ==> g.bytes != h.bytes
  {
    assert DigestBytes(p, a, objects[h]) == h;
    forall g | g in objects && g != h
      ensures g.bytes != h.bytes
    {
      assert DigestBytes(p, a, objects[g]) == g;
    }
  }

  lemma StagingPut(p: Primitives, a: HashAlgorithm, before: map<Digest, Bytes>, objects: map<Hash, Bytes>,
                   todo: set<Hash>, now: map<Digest, Bytes>, h: Hash)
    requires KeyedByDigest(p, a, objects) && todo <= objects.Keys && h in todo && h.bytes !in now
    requires Staging(before, objects, todo, now)
    ensures DigestBytes(p, a, objects[h]) == h
    ensures Staging(before, objects, todo - {h}, now[h.bytes := objects[h]])
  {
    KeysDiffer(p, a, objects, h);
    assert HoldsDigest(objects, h.bytes);
    var after := now[h.bytes := objects[h]];
    forall d | d in after
      ensures d in before || HoldsDigest(objects, d)
    {
      assert d in now ==> (HoldsDigest(objects, d) || d in before);
    }
  }

  lemma StagingKeep(before: map<Digest, Bytes>, objects: map<Hash, Bytes>, todo: set<Hash>, now: map<Digest, Bytes>,
                    h: Hash)
    requires todo <= objects.Keys && h in todo && Staging(before, objects, todo, now)
    requires h.bytes in now && now[h.bytes] == objects[h]
    ensures Staging(before, objects, todo - {h}, now)
  {
    hide HoldsDigest;
  }

  lemma StagingCorrupt(p: Primitives, a: HashAlgorithm, before: map<Digest, Bytes>, objects: map<Hash, Bytes>,
                       todo: set<Hash>, now: map<Digest, Bytes>, h: Hash)
    requires KeyedByDigest(p, a, objects) && todo <= objects.Keys && h in todo
    requires Staging(before, objects, todo, now) && Addressed(p, a, now)
    requires h.bytes in now && now[h.bytes] != objects[h]
    ensures h.bytes in before && Collision(p, a, before[h.bytes], objects[h])
  {
    hide HoldsDigest;
    KeysDiffer(p, a, objects, h);
  }

  lemma StagingEnd(before: map<Digest, Bytes>, objects: map<Hash, Bytes>, todo: set<Hash>, now: map<Digest, Bytes>)
    requires Staging(before, objects, todo, now)
    ensures Extends(before, now)
    ensures todo == {} ==> StagedInto(before, objects, now)
  {
    hide HoldsDigest;
  }

  /** Staging the same bundle again adds nothing and changes nothing. */
  method StageAgain(store: ObjectStore, objects: map<Hash, Bytes>)
    returns (first: Result<(nat, nat), StepError>, second: Result<(nat, nat), StepError>)
    requires store.Valid() && KeyedByDigest(store.p, store.algorithm, objects)
    modifies store
    ensures first.Ok? && second.Ok? ==> second.value == (0, |objects|)
    ensures first.Ok? && store.reliable ==> second.Ok?
    ensures first.Ok? && second.Ok? ==> StagedInto(old(store.objects), objects, store.objects)
    ensures first.Err? ==> second == first
  {
    hide StagedInto, Missing, KeyedByDigest, Extends, StagingError, Addressed;
    first := StageObjects(store, objects);
    second := first;
    if first.Ok? {
      ghost var staged := store.objects;
      NothingMissing(old(store.objects), objects, staged);
      second := StageObjects(store, objects);
      if second.Err? {
        NoCorruption(store.p, store.algorithm, old(store.objects), objects, staged, store.reliable, second.error);
      } else {
        StagedTwice(old(store.objects), objects, staged, store.objects);
      }
    }
  }

  lemma NothingMissing(before: map<Digest, Bytes>, objects: map<Hash, Bytes>, staged: map<Digest, Bytes>)
    requires StagedInto(before, objects, staged)
    ensures |Missing(staged, objects)| == 0
  {
    hide HoldsDigest;
    assert Missing(staged, objects) == {};
  }

  lemma NoCorruption(p: Primitives, a: HashAlgorithm, before: map<Digest, Bytes>, objects: map<Hash, Bytes>,
                     staged: map<Digest, Bytes>, reliable: bool, error: StepError)
    requires StagedInto(before, objects, staged)
    requires StagingError(p, a, reliable, staged, objects, error)
    ensures !reliable
  {
    hide HoldsDigest;
  }

  lemma StagedTwice(before: map<Digest, Bytes>, objects: map<Hash, Bytes>, staged: map<Digest, Bytes>,
                    after: map<Digest, Bytes>)
    requires StagedInto(before, objects, staged) && StagedInto(staged, objects, after)
    ensures after == staged
  {
    forall d | d in after
      ensures d in staged
    {
      assert HoldsDigest(objects, d) ==> d in staged;
    }
  }

  // ---------------------------------------------------------------- import

  /** The history a bundle imports as; the session it is filed under plays no part. */
  function ImportHistory(p: Primitives, a: HashAlgorithm, events: seq<Event>): Option<seq<StoredEvent>> {
    if events == [] then Some([])
    else
      var n := |events| - 1;
      var earlier :- ImportHistory(p, a, events[..n]);
      var hash :- ContentHash(p, a, events[n]);
      Some(earlier + [StoredEvent(hash, events[n])])
  }

  method BundleImportHistory(p: Primitives, a: HashAlgorithm, c: BundleContents)
    returns (r: Result<seq<StoredEvent>, StepError>)
    ensures r == match ImportHistory(p, a, c.events) case Some(h) => Ok(h) case None => Err(VerificationError)
  {
    hide ContentHash;
    var history: seq<StoredEvent> := [];
    for i := 0 to |c.events|
      invariant ImportHistory(p, a, c.events[..i]) == Some(history)
    {
      assert c.events[..i + 1][..i] == c.events[..i];
      var hash := ContentHash(p, a, c.events[i]);
      if hash.None? {
        ImportHistoryStops(p, a, c.events, i);
        return Err(VerificationError);
      }
      history := history + [StoredEvent(hash.value, c.events[i])];
    }
    assert c.events[..|c.events|] == c.events;
    return Ok(history);
  }

  lemma {:induction false} ImportHistoryStops(p: Primitives, a: HashAlgorithm, events: seq<Event>, i: nat)
    requires i < |events| && ContentHash(p, a, events[i]).None?
    ensures ImportHistory(p, a, events).None?
    decreases |events|
  {
    hide ContentHash;
    if i < |events| - 1 {
      ImportHistoryStops(p, a, events[..|events| - 1], i);
    }
  }

  lemma {:induction false} ImportHistoryEntries(p: Primitives, a: HashAlgorithm, events: seq<Event>)
    requires forall i :: 0 <= i < |events| ==> HashAt(p, a, events, i).Some?
    ensures ImportHistory(p, a, events).Some?
    ensures var history := ImportHistory(p, a, events).value;
            && |history| == |events|
            && forall i :: 0 <= i < |events| ==> history[i] == StoredEvent(HashAt(p, a, events, i).value, events[i])
  {
    hide ContentHash;
    if events != [] {
      var n := |events| - 1;
      assert HashAt(p, a, events, n).Some?;
      forall i | 0 <= i < n
        ensures HashAt(p, a, events[..n], i) == HashAt(p, a, events, i)
      {
      }
      ImportHistoryEntries(p, a, events[..n]);
    }
  }

  /** An intact bundle whose objects are staged passes the journal's own verification. */
  lemma IntactImports(p: Primitives, c: BundleContents, a: HashAlgorithm, before: map<Digest, Bytes>,
                      stored: map<Digest, Bytes>)
    requires Intact(p, c) && ParseAlgorithm(c.manifest.hashAlgorithm) == Some(a)
    requires StagedInto(before, c.objects, stored)
    ensures ImportHistory(p, a, c.events).Some?
    ensures var history := ImportHistory(p, a, c.events).value;
            && history != [] && EventsOf(history) == c.events
            && ParseHex(a, c.manifest.session.head) == Some(history[|history| - 1].hash)
            && Checkable(p, a, history)
            && JournalIntact(p, a, history, None, stored)
  {
    hide ContentHash, Refs, ParseHex, ParseAlgorithm, EndsOnce, AttemptsInOrder, DigestBytes, EntryIntact, RefsOf,
         StagedInto, Closed, KeyedByDigest, LinkedAt;
    LinkedHashable(p, a, c.events);
    ImportHistoryEntries(p, a, c.events);
    var history := ImportHistory(p, a, c.events).value;
    assert EventsOf(history) == c.events;
    forall i | 0 <= i < |history|
      ensures EntryIntact(p, a, history, i, stored)
      ensures ContentHash(p, a, history[i].event).Some? && RefsOf(a, history[i].event)
    {
      IntactImportsEntry(p, c, a, before, stored, history, i);
    }
  }

  lemma IntactImportsEntry(p: Primitives, c: BundleContents, a: HashAlgorithm, before: map<Digest, Bytes>,
                           stored: map<Digest, Bytes>, history: seq<StoredEvent>, i: nat)
    requires Linked(p, a, c.events) && KeyedByDigest(p, a, c.objects) && Closed(c.events, c.objects)
    requires StagedInto(before, c.objects, stored)
    requires |history| == |c.events| && i < |history|
    requires forall j :: 0 <= j < |history| ==>
               HashAt(p, a, c.events, j).Some?
                 && history[j] == StoredEvent(HashAt(p, a, c.events, j).value, c.events[j])
    ensures EntryIntact(p, a, history, i, stored)
    ensures ContentHash(p, a, history[i].event).Some? && RefsOf(a, history[i].event)
  {
    hide ContentHash, Refs;
    assert LinkedAt(p, a, c.events, i);
    forall h | h in Refs(c.events[i].kind)
      ensures h.algorithm == a && h.bytes in stored && DigestBytes(p, a, stored[h.bytes]) == h
    {
      assert h in c.objects;
      assert DigestBytes(p, a, c.objects[h]) == h;
    }
  }

  /** The id a bundle is imported under: the one asked for, or else its own. */
  function TargetId(c: BundleContents, renameTo: Option<string>): string {
    if renameTo.Some? then renameTo.value else c.manifest.session.id
  }

  /** The store holds other bytes under one of the bundle's digests, which is a collision. */
  ghost predicate Corrupts(p: Primitives, a: HashAlgorithm, stored: map<Digest, Bytes>, objects: map<Hash, Bytes>,
                           h: Hash)
  {
    h in objects && h.bytes in stored && Collision(p, a, stored[h.bytes], objects[h])
  }

  /** Why a working journal refuses an import. */
  ghost predicate ImportRefusal(p: Primitives, a: HashAlgorithm, stored: map<Digest, Bytes>, sessions: set<string>,
                                c: BundleContents, target: string, error: StepError)
  {
    match error
    case SessionIdCollision(id) => id == target && target in sessions
    case IntegrityFailed => target !in sessions && !Intact(p, c)
    case HashAlgorithmMismatch => target !in sessions && ParseAlgorithm(c.manifest.hashAlgorithm) != Some(a)
    case LocalStoreCorrupt(h) =>
      target !in sessions && Intact(p, c) && ParseAlgorithm(c.manifest.hashAlgorithm) == Some(a)
      && Corrupts(p, a, stored, c.objects, h)
    case _ => false
  }

  /** What an import leaves in the journal. */
  ghost predicate ImportedAs(p: Primitives, a: HashAlgorithm, before: map<Digest, Bytes>, stored: map<Digest, Bytes>,
                             c: BundleContents, graph: SessionGraph)
    reads graph
  {
    && StagedInto(before, c.objects, stored)
    && EventsOf(graph.events) == c.events
    && ImportHistory(p, a, c.events) == Some(graph.events)
    && graph.head == ParseHex(a, c.manifest.session.head)
    && JournalIntact(p, a, graph.events, graph.head, stored)
  }

  /**
   Imports a bundle as a new session. A working journal takes it unless it already has a session
   under the id, the bundle is not intact or of another algorithm, or the store already holds other
   bytes under one of the bundle's digests. A refusal leaves the sessions as they are, and all but the
   last kind leave the store as it is, too.
   */
  method ImportBundle(journal: JournalDb, c: BundleContents, renameTo: Option<string>)
    returns (r: Result<(nat, nat), StepError>)
    requires journal.Valid() && journal.store.Valid()
    modifies journal, journal.store
    ensures journal.Valid() && journal.store.Valid() && Extends(old(journal.store.objects), journal.store.objects)
    ensures r.Ok? ==>
              && TargetId(c, renameTo) !in old(journal.sessions) && TargetId(c, renameTo) in journal.sessions
              && (forall id :: id in journal.sessions <==> id in old(journal.sessions) || id == TargetId(c, renameTo))
              && (forall id :: id in old(journal.sessions) ==> journal.sessions[id] == old(journal.sessions)[id])
              && Intact(journal.store.p, c) && ParseAlgorithm(c.manifest.hashAlgorithm) == Some(journal.store.algorithm)
              && r.value.0 == |Missing(old(journal.store.objects), c.objects)|
              && r.value.0 + r.value.1 == |c.objects|
              && ImportedAs(journal.store.p, journal.store.algorithm, old(journal.store.objects), journal.store.objects,
                            c,
                            journal.sessions[TargetId(c, renameTo)])
    ensures r.Err? && journal.store.reliable ==>
              && journal.sessions == old(journal.sessions)
              && ImportRefusal(journal.store.p, journal.store.algorithm, old(journal.store.objects),
                               old(journal.sessions.Keys), c,
                               TargetId(c, renameTo), r.error)
    ensures r.Err? && (r.error.SessionIdCollision? || r.error.IntegrityFailed? || r.error.HashAlgorithmMismatch?) ==>
              journal.sessions == old(journal.sessions) && journal.store.objects == old(journal.store.objects)
  {
    hide ContentHash, Refs, ParseHex, ParseAlgorithm, Linked, EndsOnce, AllAttemptsInOrder, Closed, DigestBytes,
         EntryIntact, Checkable, StagedInto, Collision, IsViolation, Missing, KeyedByDigest, Addressed, ReportExact,
           RefsOf, ParentOk;
    var target := TargetId(c, renameTo);
    var store := journal.store;
    var present := journal.ContainsSession(target);
    if present.Err? {
      return Err(StoreFailed(present.error));
    }
    if present.value {
      return Err(SessionIdCollision(target));
    }
    var verification := Verify(store.p, c);
    if !verification.IsClean() {
      return Err(IntegrityFailed);
    }
    var algorithm := ParseAlgorithm(c.manifest.hashAlgorithm).value;
    IntactHashes(store.p, c, algorithm);
    var history := BundleImportHistory(store.p, algorithm, c);
    if store.algorithm != algorithm {
      return Err(HashAlgorithmMismatch);
    }
    var staged := StageObjects(store, c.objects);
    if staged.Err? {
      return Err(staged.error);
    }
    IntactImports(store.p, c, algorithm, old(store.objects), store.objects);
    var created := journal.OpenNew(target);
    if created.Err? {
      return Err(SessionOpenFailed(created.error));
    }
    var graph := created.value;
    var imported := graph.ImportVerifiedLinearHistory(history.value);
    if imported.Err? {
      return Err(ImportFailed(imported.error));
    }
    var post := graph.Verify();
    if post.Err? {
      return Err(ImportFailed(post.error));
    }
    if !post.value.IsClean() {
      return Err(VerificationError);
    }
    return Ok(staged.value);
  }

  lemma IntactHashes(p: Primitives, c: BundleContents, a: HashAlgorithm)
    requires Intact(p, c) && ParseAlgorithm(c.manifest.hashAlgorithm) == Some(a)
    ensures ImportHistory(p, a, c.events).Some?
  {
    hide ContentHash, ParseHex, ParseAlgorithm, KeyedByDigest, Closed, EndsOnce, AllAttemptsInOrder;
    LinkedHashable(p, a, c.events);
    ImportHistoryEntries(p, a, c.events);
  }

  /** Exporting an imported session gives back the bundle's events, objects and head. */
  lemma ImportThenExport(p: Primitives, a: HashAlgorithm, c: BundleContents, before: map<Digest, Bytes>,
                         stored: map<Digest, Bytes>, history: seq<StoredEvent>, d: BundleContents)
    requires Intact(p, c) && ParseAlgorithm(c.manifest.hashAlgorithm) == Some(a)
    requires StagedInto(before, c.objects, stored)
    requires ImportHistory(p, a, c.events) == Some(history) && history != []
    requires ExportOf(stored, a, history, history[|history| - 1].hash, d)
    ensures d.events == c.events && d.objects == c.objects
    ensures ParseHex(a, d.manifest.session.head) == ParseHex(a, c.manifest.session.head)
    ensures d.manifest.objectCount == c.manifest.objectCount && d.manifest.eventCount == c.manifest.eventCount
    ensures d.manifest.hashAlgorithm == c.manifest.hashAlgorithm
  {
    hide ContentHash, Refs, ParseHex, ParseAlgorithm, Linked, EndsOnce, AllAttemptsInOrder, JournalIntact, StagedInto,
         Closed, Collected;
    IntactImports(p, c, a, before, stored);
    var head := history[|history| - 1].hash;
    SupportedName(c.manifest.hashAlgorithm, a);
    HeadAlgorithm(a, c.manifest.session.head, head);
    ParseHexOfToHex(head);
    ImportedObjects(a, c, before, stored, d.objects);
  }

  /** Collecting from a store that a bundle was staged into gives the bundle's objects. */
  lemma ImportedObjects(a: HashAlgorithm, c: BundleContents, before: map<Digest, Bytes>, stored: map<Digest, Bytes>,
                        objects: map<Hash, Bytes>)
    requires StagedInto(before, c.objects, stored) && Closed(c.events, c.objects)
    requires Collected(stored, a, map[], c.events, objects)
    ensures objects == c.objects
  {
    hide Refs;
    forall h
      ensures h in objects <==> h in c.objects
      ensures h in objects && h in c.objects ==> objects[h] == c.objects[h]
    {
      if h in objects || h in c.objects {
        assert Referenced(c.events, h);
      }
    }
  }

  lemma ImportedObtainable(p: Primitives, a: HashAlgorithm, c: BundleContents, before: map<Digest, Bytes>,
                           stored: map<Digest, Bytes>)
    requires Intact(p, c) && ParseAlgorithm(c.manifest.hashAlgorithm) == Some(a)
             && StagedInto(before, c.objects, stored)
    ensures AllObtainable(stored, a, map[], c.events)
    ensures FirstStart(c.events).Some? && LastEnd(c.events).Some? && |c.events| < TWO_64
  {
    hide ContentHash, Refs, ParseHex, ParseAlgorithm, AllAttemptsInOrder, FirstStart, LastEnd;
    FirstStartExists(c.events);
    LastEndExists(c.events);
    assert LinkedAt(p, a, c.events, 0);
    assert c.events[0].kind.SessionStart? && c.events[|c.events| - 1].kind.SessionEnd?;
    forall i, h | 0 <= i < |c.events| && h in Refs(c.events[i].kind)
      ensures Obtainable(stored, a, map[], h)
    {
      assert h in c.objects;
      assert DigestBytes(p, a, c.objects[h]) == h;
    }
  }

  lemma SameContentsIntact(p: Primitives, a: HashAlgorithm, c: BundleContents, d: BundleContents)
    requires Intact(p, c) && ParseAlgorithm(c.manifest.hashAlgorithm) == Some(a)
    requires d.events == c.events && d.objects == c.objects && d.manifest.hashAlgorithm == c.manifest.hashAlgorithm
    requires ParseHex(a, d.manifest.session.head) == ParseHex(a, c.manifest.session.head)
    requires d.manifest.objectCount == c.manifest.objectCount && d.manifest.eventCount == c.manifest.eventCount
    ensures Intact(p, d)
  {
    hide Sound, HashAt, ParseHex, ParseAlgorithm;
  }

  /**
   Imports a bundle into a working journal and exports the session it became. Both succeed exactly
   when the import is not refused; the export is intact and differs from the bundle only in what the
   exporter stamps, the session id included.
   */
  method ImportAndExport(journal: JournalDb, c: BundleContents, renameTo: Option<string>, producerVersion: string)
    returns (r: Result<BundleContents, StepError>)
    requires journal.Valid() && journal.store.Valid() && journal.store.reliable
    modifies journal, journal.store
    ensures r.Ok? ==>
              && TargetId(c, renameTo) !in old(journal.sessions) && TargetId(c, renameTo) in journal.sessions
              && r.value.events == c.events && r.value.objects == c.objects
              && ParseHex(journal.store.algorithm, r.value.manifest.session.head)
                 == ParseHex(journal.store.algorithm, c.manifest.session.head)
              && Intact(journal.store.p, c) && Intact(journal.store.p, r.value)
              && Stamped(TargetId(c, renameTo), producerVersion, r.value)
              && r.value.manifest.session.id == if renameTo.Some? then renameTo.value else c.manifest.session.id
    ensures r.Err? ==>
              && journal.sessions == old(journal.sessions)
              && ImportRefusal(journal.store.p, journal.store.algorithm, old(journal.store.objects),
                               old(journal.sessions.Keys), c,
                               TargetId(c, renameTo), r.error)
  {
    hide Intact, ParseHex, ParseAlgorithm, StagedInto, ImportHistory, ExportOf, Stamped, AllObtainable, JournalIntact,
         ImportRefusal, FirstStart, LastEnd, Extends, Corrupts;
    var store := journal.store;
    ghost var before := store.objects;
    var imported := ImportBundle(journal, c, renameTo);
    if imported.Err? {
      return Err(imported.error);
    }
    IntactImports(store.p, c, store.algorithm, before, store.objects);
    ImportedObtainable(store.p, store.algorithm, c, before, store.objects);
    var reopened := journal.Reopen(TargetId(c, renameTo));
    var graph := reopened.value;
    r := AssembleSessionBundle(graph, producerVersion);
    ImportThenExport(store.p, store.algorithm, c, before, store.objects, graph.events, r.value);
    SameContentsIntact(store.p, store.algorithm, c, r.value);
    StampedId(TargetId(c, renameTo), producerVersion, r.value);
  }

  /** A second import of the same bundle under the same id is refused and changes nothing. */
  method ImportTwice(journal: JournalDb, c: BundleContents, renameTo: Option<string>)
    returns (first: Result<(nat, nat), StepError>, second: Result<(nat, nat), StepError>)
    requires journal.Valid() && journal.store.Valid() && journal.store.reliable
    modifies journal, journal.store
    ensures first.Ok? ==> second == Err(SessionIdCollision(TargetId(c, renameTo)))
    ensures first.Ok? ==> StagedInto(old(journal.store.objects), c.objects, journal.store.objects)
  {
    hide Intact, ParseHex, ParseAlgorithm, StagedInto, JournalIntact, Corrupts, Extends;
    first := ImportBundle(journal, c, renameTo);
    second := first;
    if first.Ok? {
      second := ImportBundle(journal, c, renameTo);
    }
  }

  lemma SupportedName(name: string, a: HashAlgorithm)
    requires ParseAlgorithm(name) == Some(a)
    ensures name == AlgorithmName(a)
  {
  }

  lemma HeadAlgorithm(a: HashAlgorithm, text: string, h: Hash)
    requires ParseHex(a, text) == Some(h)
    ensures h.algorithm == a
  {
  }
}
