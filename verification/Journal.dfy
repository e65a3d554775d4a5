/** The journal: a content-addressed object store, session graphs and their verifier. */
module Journal {
  import opened Foundation
  import opened Events
  import opened Verifier
  import opened Integrity

  /** `AlgorithmMismatch` and `Storage` come from the store, the others from the session graph. */
  datatype JournalError = AlgorithmMismatch | Storage | Unhashable | Refused | SessionNotFound

  /** An event together with the hash recorded for it. */
  datatype StoredEvent = StoredEvent(hash: Hash, event: Event)

  function EventsOf(history: seq<StoredEvent>): (events: seq<Event>)
    ensures |events| == |history|
    ensures forall i :: 0 <= i < |history| ==> events[i] == history[i].event
  {
    MapSeq(history, (s: StoredEvent) => s.event)
  }

  // ---------------------------------------------------------------- object store

  /** Objects under the digest of their bytes. An unreliable store may fail any call. */
  class ObjectStore {
    const p: Primitives
    const algorithm: HashAlgorithm
    const reliable: bool
    var objects: map<Digest, Bytes>

    constructor (p: Primitives, algorithm: HashAlgorithm, reliable: bool)
      ensures Valid() && objects == map[]
      ensures this.p == p && this.algorithm == algorithm && this.reliable == reliable
    {
      this.p, this.algorithm, this.reliable, objects := p, algorithm, reliable, map[];
    }

    /** Every key is the digest of its bytes. */
    ghost predicate Valid()
      reads this
    {
      Addressed(p, algorithm, objects)
    }

    method Get(hash: Hash) returns (r: Result<Option<Bytes>, JournalError>)
      ensures hash.algorithm != algorithm ==> r == Err(AlgorithmMismatch)
      ensures hash.algorithm == algorithm && r.Err? ==> r.error == Storage && !reliable
      ensures r.Ok? ==> r.value == if hash.bytes in objects then Some(objects[hash.bytes]) else None
    {
      if hash.algorithm != algorithm {
        return Err(AlgorithmMismatch);
      }
      if !reliable {
        if * {
          return Err(Storage);
        }
      }
      return Ok(if hash.bytes in objects then Some(objects[hash.bytes]) else None);
    }

    method Contains(hash: Hash) returns (r: Result<bool, JournalError>)
      ensures hash.algorithm != algorithm ==> r == Err(AlgorithmMismatch)
      ensures hash.algorithm == algorithm && r.Err? ==> r.error == Storage && !reliable
      ensures r.Ok? ==> r.value == (hash.bytes in objects)
    {
      var found := Get(hash);
      match found {
        case Err(e) => return Err(e);
        case Ok(o) => return Ok(o.Some?);
      }
    }

    /** Stores bytes under their digest; bytes already there stay as they are. */
    method Put(bytes: Bytes) returns (r: Result<Hash, JournalError>)
      modifies this
      ensures r.Err? ==> r.error == Storage && !reliable && objects == old(objects)
      ensures r.Ok? ==> r.value == DigestBytes(p, algorithm, bytes)
      ensures r.Ok? ==> objects == if r.value.bytes in old(objects) then old(objects)
                                   else old(objects)[r.value.bytes := bytes]
      ensures old(Valid()) ==> Valid()
    {
      if !reliable {
        if * {
          return Err(Storage);
        }
      }
      var hash := DigestBytes(p, algorithm, bytes);
      if hash.bytes !in objects {
        objects := objects[hash.bytes := bytes];
      }
      return Ok(hash);
    }
  }

  ghost predicate Addressed(p: Primitives, a: HashAlgorithm, objects: map<Digest, Bytes>) {
    forall d :: d in objects ==> p.digest(a, objects[d]) == d
  }

  // ---------------------------------------------------------------- the journal's verifier

  datatype JournalReport = JournalReport(
    eventsChecked: nat,
    objectsChecked: nat,
    missingObjects: seq<(Hash, Hash)>,
    objectHashMismatches: seq<Hash>,
    hashMismatches: seq<Hash>,
    brokenParentLinks: seq<(Hash, Hash)>,
    sequenceViolations: seq<u64>,
    headMismatch: Option<(Hash, Hash)>,
    sessionEndCount: nat,
    sessionEndIsTerminal: bool)
  {
    predicate IsClean() {
      && missingObjects == [] && objectHashMismatches == [] && hashMismatches == []
      && brokenParentLinks == [] && sequenceViolations == [] && headMismatch.None?
      && sessionEndCount == 1 && sessionEndIsTerminal
    }
  }

  predicate ParentOk(history: seq<StoredEvent>, i: nat)
    requires i < |history|
  {
    var e := history[i].event;
    if i == 0 then e.kind.SessionStart? && e.parents == [] else e.parents == [history[i - 1].hash]
  }

  ghost predicate RefsPresent(objects: map<Digest, Bytes>, refs: seq<Hash>) {
    forall h :: h in refs ==> h.bytes in objects
  }

  ghost predicate RefsRehash(p: Primitives, a: HashAlgorithm, objects: map<Digest, Bytes>, refs: seq<Hash>) {
    forall h :: h in refs && h.bytes in objects ==> DigestBytes(p, a, objects[h.bytes]) == h
  }

  /** What a clean journal report certifies. */
  ghost predicate JournalIntact(p: Primitives, a: HashAlgorithm, history: seq<StoredEvent>, head: Option<Hash>,
                                objects: map<Digest, Bytes>)
  {
    && (forall i :: 0 <= i < |history| ==> EntryIntact(p, a, history, i, objects))
    && EndsOnce(EventsOf(history))
    && (head.Some? ==> head.value == history[|history| - 1].hash)
  }

  ghost predicate EntryIntact(p: Primitives, a: HashAlgorithm, history: seq<StoredEvent>, i: nat,
                              objects: map<Digest, Bytes>)
    requires i < |history|
  {
    var e := history[i].event;
    && e.sequence == i && ParentOk(history, i)
    && ContentHash(p, a, e) == Some(history[i].hash)
    && RefsPresent(objects, Refs(e.kind)) && RefsRehash(p, a, objects, Refs(e.kind))
  }

  /** The store answers only for hashes of its own algorithm. */
  ghost predicate RefsOf(a: HashAlgorithm, e: Event) {
    forall h :: h in Refs(e.kind) ==> h.algorithm == a
  }

  /** An object that an entry refers to and the store does not hold, with the entry's hash. */
  ghost predicate IsMissing(objects: map<Digest, Bytes>, s: StoredEvent, x: (Hash, Hash)) {
    x.1 == s.hash && x.0 in Refs(s.event.kind) && x.0.bytes !in objects
  }

  /** An object that an entry refers to and whose bytes do not have its digest. */
  ghost predicate IsMismatched(p: Primitives, a: HashAlgorithm, objects: map<Digest, Bytes>, s: StoredEvent, h: Hash) {
    h in Refs(s.event.kind) && h.bytes in objects && DigestBytes(p, a, objects[h.bytes]) != h
  }

  method CheckStoredObjects(store: ObjectStore, stored: StoredEvent)
    returns (r: Result<(seq<(Hash, Hash)>, seq<Hash>), JournalError>)
    ensures r.Ok? ==> (r.value.0 == [] <==> RefsPresent(store.objects, Refs(stored.event.kind)))
    ensures r.Ok? ==> (r.value.1 == [] <==>
                         RefsRehash(store.p, store.algorithm, store.objects, Refs(stored.event.kind)))
    ensures r.Ok? ==> forall x :: x in r.value.0 <==> IsMissing(store.objects, stored, x)
    ensures r.Ok? ==> forall h :: h in r.value.1 <==> IsMismatched(store.p, store.algorithm, store.objects, stored, h)
    ensures r.Ok? <== store.reliable && RefsOf(store.algorithm, stored.event)
    ensures r.Ok? ==> RefsOf(store.algorithm, stored.event)
  {
    hide Refs;
    var refs := Refs(stored.event.kind);
    var missing: seq<(Hash, Hash)> := [];
    var mismatched: seq<Hash> := [];
    for i := 0 to |refs|
      invariant missing == [] <==> RefsPresent(store.objects, refs[..i])
      invariant mismatched == [] <==> RefsRehash(store.p, store.algorithm, store.objects, refs[..i])
      invariant forall h :: h in refs[..i] ==> h.algorithm == store.algorithm
      invariant forall x :: x in missing <==> x.1 == stored.hash && x.0 in refs[..i] && x.0.bytes !in store.objects
      invariant forall h :: h in mismatched <==>
                  h in refs[..i] && h.bytes in store.objects
                  && DigestBytes(store.p, store.algorithm, store.objects[h.bytes]) != h
    {
      var h := refs[i];
      assert refs[..i + 1] == refs[..i] + [h];
      var present := store.Contains(h);
      if present.Err? {
        return Err(present.error);
      }
      if !present.value {
        missing := missing + [(h, stored.hash)];
      } else {
        var bytes := store.Get(h);
        match bytes {
          case Err(e) => return Err(e);
          case Ok(None) => missing := missing + [(h, stored.hash)];
          case Ok(Some(b)) =>
            if DigestBytes(store.p, store.algorithm, b) != h {
              mismatched := mismatched + [h];
            }
        }
      }
    }
    assert refs[..|refs|] == refs;
    return Ok((missing, mismatched));
  }

  /** What one entry of a history adds to the report. */
  datatype Findings = Findings(
    missing: seq<(Hash, Hash)>,
    mismatched: seq<Hash>,
    wrongHash: seq<Hash>,
    broken: seq<(Hash, Hash)>,
    outOfSequence: seq<u64>)
  {
    predicate IsEmpty() {
      missing == [] && mismatched == [] && wrongHash == [] && broken == [] && outOfSequence == []
    }

    function Add(f: Findings): Findings {
      Findings(missing + f.missing, mismatched + f.mismatched, wrongHash + f.wrongHash, broken + f.broken,
               outOfSequence + f.outOfSequence)
    }
  }

  /** The hash an entry should name as its parent's; the first one has none, which is reported as zeros. */
  function ExpectedParent(a: HashAlgorithm, history: seq<StoredEvent>, i: nat): Hash
    requires i < |history|
  {
    if i == 0 then Hash(a, seq(32, _ => 0)) else history[i - 1].hash
  }

  /** Exactly what is wrong with one entry. */
  ghost predicate FoundAt(p: Primitives, a: HashAlgorithm, objects: map<Digest, Bytes>, history: seq<StoredEvent>,
                          i: nat, f: Findings)
    requires i < |history|
  {
    var s := history[i];
    && (forall x :: x in f.missing <==> IsMissing(objects, s, x))
    && (forall h :: h in f.mismatched <==> IsMismatched(p, a, objects, s, h))
    && f.wrongHash == (if ContentHash(p, a, s.event) == Some(s.hash) then [] else [s.hash])
    && f.broken == (if ParentOk(history, i) then [] else [(s.hash, ExpectedParent(a, history, i))])
    && f.outOfSequence == (if s.event.sequence == i then [] else [s.event.sequence])
  }

  /** Exactly what is wrong with the first `n` entries. */
  ghost predicate FoundUpTo(p: Primitives, a: HashAlgorithm, objects: map<Digest, Bytes>, history: seq<StoredEvent>,
                            n: nat, f: Findings)
    requires n <= |history|
  {
    && (forall x :: x in f.missing <==> exists i :: 0 <= i < n && IsMissing(objects, history[i], x))
    && (forall h :: h in f.mismatched <==> exists i :: 0 <= i < n && IsMismatched(p, a, objects, history[i], h))
    && (forall h :: h in f.wrongHash <==>
          exists i :: 0 <= i < n && history[i].hash == h && ContentHash(p, a, history[i].event) != Some(h))
    && (forall x :: x in f.broken <==>
          exists i :: 0 <= i < n && x == (history[i].hash, ExpectedParent(a, history, i)) && !ParentOk(history, i))
    && (forall k :: k in f.outOfSequence <==>
          exists i :: 0 <= i < n && history[i].event.sequence == k && k != i)
  }

  lemma FoundOneMore(p: Primitives, a: HashAlgorithm, objects: map<Digest, Bytes>, history: seq<StoredEvent>, n: nat,
                     f: Findings, g: Findings)
    requires n < |history| && FoundUpTo(p, a, objects, history, n, f) && FoundAt(p, a, objects, history, n, g)
    ensures FoundUpTo(p, a, objects, history, n + 1, f.Add(g))
  {
    hide ContentHash, IsMissing, IsMismatched, ParentOk, ExpectedParent;
  }

  /** The number of references that the events make. */
  function ReferenceCount(history: seq<StoredEvent>): nat {
    if history == [] then 0
    else
      var n := |history| - 1;
      ReferenceCount(history[..n]) + |Refs(history[n].event.kind)|
  }

  method CheckEntry(store: ObjectStore, history: seq<StoredEvent>, i: nat, expectedPrev: Option<Hash>)
    returns (r: Result<Findings, JournalError>)
    requires i < |history| && expectedPrev == if i == 0 then None else Some(history[i - 1].hash)
    ensures r.Ok? ==> (r.value.IsEmpty() <==> EntryIntact(store.p, store.algorithm, history, i, store.objects))
    ensures r.Ok? ==> FoundAt(store.p, store.algorithm, store.objects, history, i, r.value)
    ensures r.Ok? ==> RefsOf(store.algorithm, history[i].event)
    ensures r.Ok? <== store.reliable && RefsOf(store.algorithm, history[i].event)
                      && ContentHash(store.p, store.algorithm, history[i].event).Some?
  {
    hide Refs, ContentHash, RefsPresent, RefsRehash, RefsOf, IsMissing, IsMismatched;
    var event, hash := history[i].event, history[i].hash;
    var broken: seq<(Hash, Hash)> := [];
    if i == 0 {
      if !event.kind.SessionStart? || event.parents != [] {
        broken := [(hash, Hash(store.algorithm, seq(32, _ => 0)))];
      }
    } else if |event.parents| != 1 || event.parents[0] != expectedPrev.value {
      broken := [(hash, expectedPrev.value)];
    }
    assert i > 0 ==> (event.parents == [history[i - 1].hash] <==>
                        |event.parents| == 1 && event.parents[0] == history[i - 1].hash);
    var recomputed := ContentHash(store.p, store.algorithm, event);
    if recomputed.None? {
      return Err(Unhashable);
    }
    var objects := CheckStoredObjects(store, history[i]);
    match objects {
      case Err(e) => return Err(e);
      case Ok(found) =>
        return Ok(Findings(
          found.0,
          found.1,
          if recomputed.value != hash then [hash] else [],
          broken,
          if event.sequence != i then [event.sequence] else []));
    }
  }

  ghost predicate Checkable(p: Primitives, a: HashAlgorithm, history: seq<StoredEvent>) {
    forall i :: 0 <= i < |history| ==> ContentHash(p, a, history[i].event).Some? && RefsOf(a, history[i].event)
  }

  /** The number of session ends among the first `i` events, and where the last one is. */
  ghost predicate EndsSeen(events: seq<Event>, i: nat, count: nat, last: Option<nat>)
    requires i <= |events|
  {
    && count == SessionEnds(events[..i])
    && match last
       case None => count == 0
       case Some(k) => k < i && events[k].kind.SessionEnd? && forall j :: k < j < i ==> !events[j].kind.SessionEnd?
  }

  lemma NothingFound(p: Primitives, a: HashAlgorithm, objects: map<Digest, Bytes>, history: seq<StoredEvent>)
    ensures FoundUpTo(p, a, objects, history, 0, Findings([], [], [], [], []))
  {
  }

  lemma NoEndsSeen(events: seq<Event>)
    ensures EndsSeen(events, 0, 0, None)
  {
  }

  lemma EndsSeenStep(events: seq<Event>, i: nat, count: nat, last: Option<nat>)
    requires i < |events| && EndsSeen(events, i, count, last)
    ensures if events[i].kind.SessionEnd? then EndsSeen(events, i + 1, count + 1, Some(i))
            else EndsSeen(events, i + 1, count, last)
  {
    assert events[..i + 1][..i] == events[..i];
  }

  lemma EndsSeenAll(events: seq<Event>, count: nat, last: Option<nat>)
    requires EndsSeen(events, |events|, count, last)
    ensures count == SessionEnds(events)
    ensures count == 1 && last == Some(if |events| > 0 then |events| - 1 else 0) <==> EndsOnce(events)
    ensures EndsOnce(events) ==> events != []
  {
    assert events[..|events|] == events;
    if events != [] {
      OneTerminalEnd(events);
    }
  }

  /** The report holds exactly what is wrong, and how much was looked at. */
  ghost predicate ReportExact(p: Primitives, a: HashAlgorithm, history: seq<StoredEvent>, storedHead: Option<Hash>,
                              objects: map<Digest, Bytes>, report: JournalReport)
  {
    && report.eventsChecked == |history| && report.objectsChecked == ReferenceCount(history)
    && FoundUpTo(p, a, objects, history, |history|,
                 Findings(report.missingObjects, report.objectHashMismatches, report.hashMismatches,
                          report.brokenParentLinks, report.sequenceViolations))
    && report.headMismatch == (
         if storedHead.Some? && history != [] && storedHead.value != history[|history| - 1].hash
         then Some((storedHead.value, history[|history| - 1].hash)) else None)
    && report.sessionEndCount == SessionEnds(EventsOf(history))
    && (report.sessionEndIsTerminal <==> EndsOnce(EventsOf(history)))
  }

  /** Verifies a linear history against a store; it cannot judge references of another algorithm. */
  method VerifyHistory(history: seq<StoredEvent>, storedHead: Option<Hash>, store: ObjectStore)
    returns (r: Result<JournalReport, JournalError>)
    ensures r.Ok? ==> (r.value.IsClean() <==>
                         JournalIntact(store.p, store.algorithm, history, storedHead, store.objects))
    ensures r.Ok? ==>
              ReportExact(store.p, store.algorithm, history, storedHead, store.objects, r.value)
    ensures r.Ok? <== store.reliable && Checkable(store.p, store.algorithm, history)
    ensures r.Ok? ==> forall i :: 0 <= i < |history| ==> RefsOf(store.algorithm, history[i].event)
  {
    hide Refs, ContentHash, EntryIntact, RefsOf, EndsSeen, SessionEnds, EndsOnce, FoundUpTo, FoundAt;
    var events := EventsOf(history);
    NothingFound(store.p, store.algorithm, store.objects, history);
    NoEndsSeen(events);
    ghost var objects := store.objects;
    var findings := Findings([], [], [], [], []);
    var sessionEnds: nat := 0;
    var lastSessionEnd: Option<nat> := None;
    var expectedPrev: Option<Hash> := None;
    var checked: nat := 0;
    for i := 0 to |history|
      invariant expectedPrev == if i == 0 then None else Some(history[i - 1].hash)
      invariant EndsSeen(events, i, sessionEnds, lastSessionEnd)
      invariant checked == ReferenceCount(history[..i])
      invariant FoundUpTo(store.p, store.algorithm, objects, history, i, findings)
      invariant findings.IsEmpty() <==>
                forall j :: 0 <= j < i ==> EntryIntact(store.p, store.algorithm, history, j, objects)
      invariant forall j :: 0 <= j < i ==> RefsOf(store.algorithm, history[j].event)
    {
      EndsSeenStep(events, i, sessionEnds, lastSessionEnd);
      if history[i].event.kind.SessionEnd? {
        sessionEnds := sessionEnds + 1;
        lastSessionEnd := Some(i);
      }
      var entry := CheckEntry(store, history, i, expectedPrev);
      if entry.Err? {
        return Err(entry.error);
      }
      assert history[..i + 1][..i] == history[..i];
      FoundOneMore(store.p, store.algorithm, objects, history, i, findings, entry.value);
      checked := checked + |Refs(history[i].event.kind)|;
      findings := findings.Add(entry.value);
      expectedPrev := Some(history[i].hash);
    }
    EndsSeenAll(events, sessionEnds, lastSessionEnd);
    assert history[..|history|] == history;
    var terminal := sessionEnds == 1 && lastSessionEnd == Some(if |history| > 0 then |history| - 1 else 0);
    var headMismatch := if storedHead.Some? && |history| > 0 && storedHead.value != history[|history| - 1].hash
                        then Some((storedHead.value, history[|history| - 1].hash)) else None;
    r := Ok(JournalReport(|history|, checked, findings.missing, findings.mismatched, findings.wrongHash,
                          findings.broken,
                          findings.outOfSequence, headMismatch, sessionEnds, terminal));
  }

  // ---------------------------------------------------------------- session graph

  /** One session in the journal's database; a write either commits as a whole or changes nothing. */
  class SessionGraph {
    const store: ObjectStore
    const sessionId: string
    var events: seq<StoredEvent>
    var head: Option<Hash>

    constructor OpenNew(store: ObjectStore, sessionId: string)
      ensures this.store == store && this.sessionId == sessionId && events == [] && head.None? && Valid()
    {
      this.store, this.sessionId, events, head := store, sessionId, [], None;
    }

    /** What every run of appends keeps, whether or not an append was refused. */
    ghost predicate Valid()
      reads this
    {
      && head == (if events == [] then None else Some(events[|events| - 1].hash))
      && Recorded(store.p, store.algorithm, events)
    }

    method Append(kind: EventKind, now: Instant) returns (r: Result<Hash, JournalError>)
      requires Valid() && |events| < TWO_64 - 1
      modifies this
      ensures Valid()
      ensures r.Err? ==> events == old(events) && head == old(head)
      ensures r.Ok? ==>
                && |events| == |old(events)| + 1 && events[..|old(events)|] == old(events)
                && events[|old(events)|] == StoredEvent(r.value, NextEvent(old(events), old(head), kind, now))
                && var e := events[|old(events)|].event;
                && e.kind == kind && e.emittedAt == now && e.sequence == |old(events)|
                && e.parents == (if old(events) == [] then [] else [old(events)[|old(events)| - 1].hash])
                && ContentHash(store.p, store.algorithm, e) == Some(r.value)
                && head == Some(r.value)
      ensures r.Ok? ==> Appendable(store.p, store.algorithm, old(events), old(head), kind, now)
      ensures r.Err? ==> !store.reliable || !Appendable(store.p, store.algorithm, old(events), old(head), kind, now)
      ensures r.Err? && r.error == Storage ==> !store.reliable
    {
      hide ContentHash, AttemptsInOrder, FaultOf;
      var fault := EventInvariantViolation(kind);
      FaultOfNone(kind);
      if fault.Some? {
        return Err(Refused);
      }
      if !store.reliable {
        if * {
          return Err(Storage);
        }
      }
      match head {
        case None =>
          if !kind.SessionStart? {
            return Err(Refused);
          }
        case Some(_) =>
          if kind.SessionStart? {
            return Err(Refused);
          }
      }
      var event := NextEvent(events, head, kind, now);
      var hash := ContentHash(store.p, store.algorithm, event);
      if hash.None? {
        return Err(Unhashable);
      }
      RecordedAppend(store.p, store.algorithm, events, event, hash.value);
      if !store.reliable {
        if * {
          return Err(Storage);
        }
      }
      events := events + [StoredEvent(hash.value, event)];
      head := hash;
      return Ok(hash.value);
    }

    method Verify() returns (r: Result<JournalReport, JournalError>)
      ensures r.Ok? ==> (r.value.IsClean() <==> JournalIntact(store.p, store.algorithm, events, head, store.objects))
      ensures r.Ok? ==> ReportExact(store.p, store.algorithm, events, head, store.objects, r.value)
      ensures r.Ok? <== store.reliable && Checkable(store.p, store.algorithm, events)
    {
      r := VerifyHistory(events, head, store);
    }

    /** Imports a history that verifies against this graph's store, into an empty graph only. */
    method ImportVerifiedLinearHistory(history: seq<StoredEvent>) returns (r: Result<(), JournalError>)
      modifies this
      ensures r.Err? ==> events == old(events) && head == old(head)
      ensures r.Ok? ==>
                && old(events) == [] && old(head).None? && history != []
                && events == history && head == Some(history[|history| - 1].hash)
                && JournalIntact(store.p, store.algorithm, history, None, store.objects)
      ensures r.Ok? <== store.reliable && old(events) == [] && old(head).None?
                        && Checkable(store.p, store.algorithm, history)
                        && JournalIntact(store.p, store.algorithm, history, None, store.objects)
    {
      hide Checkable, EntryIntact;
      if head.Some? || events != [] {
        return Err(Refused);
      }
      if history == [] {
        return Err(Refused);
      }
      var report := VerifyHistory(history, None, store);
      if report.Err? {
        return Err(report.error);
      }
      if !report.value.IsClean() {
        return Err(Refused);
      }
      if !store.reliable {
        if * {
          return Err(Storage);
        }
      }
      events := history;
      head := Some(history[|history| - 1].hash);
      return Ok(());
    }
  }

  // ---------------------------------------------------------------- the journal's sessions

  /** One object store and the sessions over it, each under its own id. */
  class JournalDb {
    const store: ObjectStore
    var sessions: map<string, SessionGraph>

    constructor (store: ObjectStore)
      ensures this.store == store && sessions == map[] && Valid()
    {
      this.store, sessions := store, map[];
    }

    ghost predicate Valid()
      reads this
    {
      forall id :: id in sessions ==> sessions[id].sessionId == id && sessions[id].store == store
    }

    /** Whether there is a session, empty or not, under this id. */
    method ContainsSession(id: string) returns (r: Result<bool, JournalError>)
      ensures r.Ok? ==> r.value == (id in sessions)
      ensures r.Err? ==> r.error == Storage && !store.reliable
    {
      if !store.reliable {
        if * {
          return Err(Storage);
        }
      }
      return Ok(id in sessions);
    }

    /** Opens an empty session under an id that is not in use yet. */
    method OpenNew(id: string) returns (r: Result<SessionGraph, JournalError>)
      modifies this
      ensures old(Valid()) ==> Valid()
      ensures r.Ok? ==>
                && id !in old(sessions) && sessions == old(sessions)[id := r.value]
                && fresh(r.value) && r.value.store == store && r.value.sessionId == id
                && r.value.events == [] && r.value.head.None? && r.value.Valid()
      ensures r.Err? ==> sessions == old(sessions)
      ensures r.Err? ==> (r.error == Refused && id in sessions) || (r.error == Storage && !store.reliable)
    {
      if !store.reliable {
        if * {
          return Err(Storage);
        }
      }
      if id in sessions {
        return Err(Refused);
      }
      var graph := new SessionGraph.OpenNew(store, id);
      sessions := sessions[id := graph];
      return Ok(graph);
    }

    method Reopen(id: string) returns (r: Result<SessionGraph, JournalError>)
      ensures r.Ok? ==> id in sessions && r.value == sessions[id]
      ensures r.Err? ==> (r.error == SessionNotFound && id !in sessions) || (r.error == Storage && !store.reliable)
    {
      if !store.reliable {
        if * {
          return Err(Storage);
        }
      }
      return if id in sessions then Ok(sessions[id]) else Err(SessionNotFound);
    }
  }

  /** The event an append would record. */
  function NextEvent(events: seq<StoredEvent>, head: Option<Hash>, kind: EventKind, now: Instant): Event
    requires |events| < TWO_64 - 1
  {
    Event(OptionSeq(head), kind, now, |events|)
  }

  /** When an append to a session is accepted by a working database. */
  predicate Appendable(p: Primitives, a: HashAlgorithm, events: seq<StoredEvent>, head: Option<Hash>, kind: EventKind,
                       now: Instant)
    requires |events| < TWO_64 - 1
  {
    && AttemptsInOrder(kind) && (kind.SessionStart? <==> events == [])
    && ContentHash(p, a, NextEvent(events, head, kind, now)).Some?
  }

  /** A history grown by appends: linked, with recorded hashes, attempts in order, one start. */
  ghost predicate Recorded(p: Primitives, a: HashAlgorithm, history: seq<StoredEvent>) {
    forall i :: 0 <= i < |history| ==> RecordedAt(p, a, history, i)
  }

  ghost predicate RecordedAt(p: Primitives, a: HashAlgorithm, history: seq<StoredEvent>, i: nat)
    requires i < |history|
  {
    var e := history[i].event;
    && e.sequence == i && ParentOk(history, i)
    && (e.kind.SessionStart? <==> i == 0)
    && AttemptsInOrder(e.kind)
    && ContentHash(p, a, e) == Some(history[i].hash)
  }

  lemma RecordedAppend(p: Primitives, a: HashAlgorithm, history: seq<StoredEvent>, event: Event, hash: Hash)
    requires Recorded(p, a, history)
    requires |history| < TWO_64 - 1
    requires event.sequence == |history|
    requires event.parents == if history == [] then [] else [history[|history| - 1].hash]
    requires event.kind.SessionStart? <==> history == []
    requires AttemptsInOrder(event.kind) && ContentHash(p, a, event) == Some(hash)
    ensures Recorded(p, a, history + [StoredEvent(hash, event)])
  {
    hide ContentHash, AttemptsInOrder;
    var longer := history + [StoredEvent(hash, event)];
    forall i | 0 <= i < |longer|
      ensures RecordedAt(p, a, longer, i)
    {
      if i < |history| {
        assert RecordedAt(p, a, history, i);
      }
    }
  }

  /** A history grown by appends and closed by its only session end is linked and well numbered. */
  lemma RecordedIsLinked(p: Primitives, a: HashAlgorithm, history: seq<StoredEvent>)
    requires Recorded(p, a, history) && history != []
    ensures Linked(p, a, EventsOf(history)) && AllAttemptsInOrder(EventsOf(history))
    ensures forall i :: 0 <= i < |history| ==> HashAt(p, a, EventsOf(history), i) == Some(history[i].hash)
  {
    hide ContentHash, AttemptsInOrder;
    var events := EventsOf(history);
    forall i | 0 <= i < |history|
      ensures LinkedAt(p, a, events, i) && AttemptsInOrder(events[i].kind)
      ensures HashAt(p, a, events, i) == Some(history[i].hash)
    {
      assert RecordedAt(p, a, history, i);
      if i > 0 {
        assert RecordedAt(p, a, history, i - 1);
      }
    }
  }
}
