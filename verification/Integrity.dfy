/**
 The rules of an intact bundle, stated without reference to the verifier; the verifier is clean
 exactly on intact bundles. An intact bundle's head then fixes its events and objects.
 */
module Integrity {
  import opened Foundation
  import opened Text
  import opened Events
  import opened Framing
  import opened Manifests
  import opened Archive
  import opened Verifier

  // ---------------------------------------------------------------- the rules

  /** A chain from one session start, each event numbered by its position and naming the one before. */
  ghost predicate Linked(p: Primitives, a: HashAlgorithm, events: seq<Event>) {
    && events != []
    && forall i :: 0 <= i < |events| ==> LinkedAt(p, a, events, i)
  }

  ghost predicate LinkedAt(p: Primitives, a: HashAlgorithm, events: seq<Event>, i: nat)
    requires i < |events|
  {
    && events[i].sequence == i
    && HashAt(p, a, events, i).Some?
    && if i == 0 then events[i].kind.SessionStart? && events[i].parents == []
       else HashAt(p, a, events, i - 1).Some? && events[i].parents == [HashAt(p, a, events, i - 1).value]
  }

  ghost predicate EndsOnce(events: seq<Event>) {
    && events != []
    && forall i :: 0 <= i < |events| ==> (events[i].kind.SessionEnd? <==> i == |events| - 1)
  }

  ghost predicate AllAttemptsInOrder(events: seq<Event>) {
    forall i :: 0 <= i < |events| ==> AttemptsInOrder(events[i].kind)
  }

  ghost predicate Referenced(events: seq<Event>, h: Hash) {
    exists i :: 0 <= i < |events| && h in Refs(events[i].kind)
  }

  /** The objects are those the events refer to, no fewer and no more. */
  ghost predicate Closed(events: seq<Event>, objects: map<Hash, Bytes>) {
    && (forall i, h :: 0 <= i < |events| && h in Refs(events[i].kind) ==> h in objects)
    && (forall h {:trigger Referenced(events, h)} :: h in objects ==> Referenced(events, h))
  }

  ghost predicate KeyedByDigest(p: Primitives, a: HashAlgorithm, objects: map<Hash, Bytes>) {
    forall h :: h in objects ==> DigestBytes(p, a, objects[h]) == h
  }

  ghost predicate Sound(p: Primitives, a: HashAlgorithm, events: seq<Event>, objects: map<Hash, Bytes>) {
    && Linked(p, a, events) && EndsOnce(events) && AllAttemptsInOrder(events)
    && KeyedByDigest(p, a, objects) && Closed(events, objects)
  }

  ghost predicate Intact(p: Primitives, c: BundleContents) {
    && ParseAlgorithm(c.manifest.hashAlgorithm).Some?
    && var a := ParseAlgorithm(c.manifest.hashAlgorithm).value;
    && c.manifest.objectCount == |c.objects|
    && c.manifest.eventCount == |c.events|
    && Sound(p, a, c.events, c.objects)
    && ParseHex(a, c.manifest.session.head) == HashAt(p, a, c.events, |c.events| - 1)
  }

  ghost predicate Clean(p: Primitives, c: BundleContents) {
    forall v :: !IsViolation(p, c, v)
  }

  // ---------------------------------------------------------------- the verifier decides the rules

  lemma {:induction false} NoSessionEnds(events: seq<Event>)
    ensures SessionEnds(events) == 0 <==> forall i :: 0 <= i < |events| ==> !events[i].kind.SessionEnd?
  {
    if events != [] {
      var n := |events| - 1;
      NoSessionEnds(events[..n]);
      assert forall i :: 0 <= i < n ==> events[..n][i] == events[i];
    }
  }

  lemma OneTerminalEnd(events: seq<Event>)
    requires events != []
    ensures SessionEnds(events) == 1 && events[|events| - 1].kind.SessionEnd? <==> EndsOnce(events)
  {
    var n := |events| - 1;
    NoSessionEnds(events[..n]);
    assert forall i :: 0 <= i < n ==> events[..n][i] == events[i];
  }

  lemma CleanEvent(p: Primitives, a: HashAlgorithm, c: BundleContents, i: nat)
    requires i < |c.events|
    requires i > 0 ==> HashAt(p, a, c.events, i - 1).Some?
    ensures (forall v :: !AtEvent(p, a, c, i, v)) <==>
            && LinkedAt(p, a, c.events, i) && AttemptsInOrder(c.events[i].kind)
            && forall h :: h in Refs(c.events[i].kind) ==> h in c.objects
  {
    hide ContentHash, Refs, FaultOf, AttemptsInOrder;
    var e, hash := c.events[i], HashAt(p, a, c.events, i);
    FaultOfNone(e.kind);
    if forall v :: !AtEvent(p, a, c, i, v) {
      assert !AtEvent(p, a, c, i, SequenceMismatch(i, e.sequence));
      assert !AtEvent(p, a, c, i, EventContentHash(i));
      assert !AtEvent(p, a, c, i, BrokenParentChain(i, HashAt(p, a, c.events, i - 1)));
      assert FaultOf(e.kind).Some? ==> !AtEvent(p, a, c, i, EventInvariant(i, FaultOf(e.kind).value));
      forall h | h in Refs(e.kind)
        ensures h in c.objects
      {
        assert !AtEvent(p, a, c, i, MissingObjectOf(h, hash.value));
      }
    }
  }

  lemma LinkedHashable(p: Primitives, a: HashAlgorithm, events: seq<Event>)
    requires forall i :: 0 <= i < |events| ==> LinkedAt(p, a, events, i)
    ensures forall i :: 0 <= i < |events| ==> HashAt(p, a, events, i).Some?
  {
    hide HashAt;
    forall i | 0 <= i < |events|
      ensures HashAt(p, a, events, i).Some?
    {
      assert LinkedAt(p, a, events, i);
    }
  }

  /** When every event is hashable, the verifier's walk follows every reference. */
  lemma ReferencedByHashable(p: Primitives, a: HashAlgorithm, events: seq<Event>, h: Hash)
    requires forall i :: 0 <= i < |events| ==> HashAt(p, a, events, i).Some?
    ensures ReferencedBefore(p, a, events, |events|, h) <==> Referenced(events, h)
  {
  }

  lemma IntactIsClean(p: Primitives, c: BundleContents)
    requires Intact(p, c)
    ensures Clean(p, c)
  {
    hide AtEvent, ContentHash, Refs, AttemptsInOrder, SessionEnds, ParseHex, DigestBytes, ReferencedBefore;
    var a := ParseAlgorithm(c.manifest.hashAlgorithm).value;
    OneTerminalEnd(c.events);
    forall v
      ensures !IsViolation(p, c, v)
    {
      assert !AtSomeEvent(p, a, c, |c.events|, v) by {
        forall i | 0 <= i < |c.events|
          ensures !AtEvent(p, a, c, i, v)
        {
          assert LinkedAt(p, a, c.events, i);
          CleanEvent(p, a, c, i);
        }
      }
      if v.UnreferencedObject? && v.objectHash in c.objects {
        assert forall i :: 0 <= i < |c.events| ==> LinkedAt(p, a, c.events, i);
        LinkedHashable(p, a, c.events);
        ReferencedByHashable(p, a, c.events, v.objectHash);
      }
    }
  }

  lemma CleanEvents(p: Primitives, a: HashAlgorithm, c: BundleContents)
    requires forall v :: !AtSomeEvent(p, a, c, |c.events|, v)
    ensures forall i :: 0 <= i < |c.events| ==> LinkedAt(p, a, c.events, i)
    ensures forall i :: 0 <= i < |c.events| ==> AttemptsInOrder(c.events[i].kind)
    ensures forall i, h :: 0 <= i < |c.events| && h in Refs(c.events[i].kind) ==> h in c.objects
  {
    hide ContentHash, Refs, AttemptsInOrder, LinkedAt;
    forall i | 0 <= i < |c.events|
      ensures HashAt(p, a, c.events, i).Some?
      ensures forall v :: !AtEvent(p, a, c, i, v)
    {
      assert !AtSomeEvent(p, a, c, |c.events|, EventContentHash(i));
      assert !AtEvent(p, a, c, i, EventContentHash(i));
      forall v
        ensures !AtEvent(p, a, c, i, v)
      {
        assert !AtSomeEvent(p, a, c, |c.events|, v);
      }
    }
    forall i | 0 <= i < |c.events|
      ensures LinkedAt(p, a, c.events, i) && AttemptsInOrder(c.events[i].kind)
      ensures forall h :: h in Refs(c.events[i].kind) ==> h in c.objects
    {
      assert i > 0 ==> HashAt(p, a, c.events, i - 1).Some?;
      CleanEvent(p, a, c, i);
    }
  }

  lemma CleanIsIntact(p: Primitives, c: BundleContents)
    requires Clean(p, c)
    ensures Intact(p, c)
  {
    hide AtEvent, AtSomeEvent, ContentHash, Refs, AttemptsInOrder, SessionEnds, ParseHex, DigestBytes,
         ReferencedBefore, ParseAlgorithm, EndsOnce;
    assert !IsViolation(p, c, UnsupportedAlgorithm(c.manifest.hashAlgorithm));
    var a := ParseAlgorithm(c.manifest.hashAlgorithm).value;
    assert forall v :: IsViolation(p, c, v) <==> OfBundle(p, a, c, v) || AtSomeEvent(p, a, c, |c.events|, v);
    assert forall v :: !OfBundle(p, a, c, v) && !AtSomeEvent(p, a, c, |c.events|, v);
    CleanEvents(p, a, c);
    CleanWhole(p, a, c);
  }

  lemma CleanWhole(p: Primitives, a: HashAlgorithm, c: BundleContents)
    requires forall v :: !OfBundle(p, a, c, v)
    requires forall i :: 0 <= i < |c.events| ==> LinkedAt(p, a, c.events, i)
    ensures c.events != [] && c.manifest.objectCount == |c.objects| && c.manifest.eventCount == |c.events|
    ensures KeyedByDigest(p, a, c.objects) && EndsOnce(c.events)
    ensures forall h {:trigger Referenced(c.events, h)} :: h in c.objects ==> Referenced(c.events, h)
    ensures ParseHex(a, c.manifest.session.head) == HashAt(p, a, c.events, |c.events| - 1)
  {
    hide ContentHash, Refs, SessionEnds, ParseHex, DigestBytes, ReferencedBefore, Referenced, EndsOnce;
    var n := |c.events|;
    assert !OfBundle(p, a, c, ObjectCountMismatch(c.manifest.objectCount, |c.objects|));
    assert !OfBundle(p, a, c, EventCountMismatch(c.manifest.eventCount, n));
    assert !OfBundle(p, a, c, NoEvents);
    forall h | h in c.objects
      ensures DigestBytes(p, a, c.objects[h]) == h && Referenced(c.events, h)
    {
      assert !OfBundle(p, a, c, ObjectKeyHashMismatch(h));
      assert !OfBundle(p, a, c, UnreferencedObject(h));
      LinkedHashable(p, a, c.events);
      ReferencedByHashable(p, a, c.events, h);
    }
    assert !OfBundle(p, a, c, SessionEndMissing);
    assert !OfBundle(p, a, c, SessionEndDuplicate(SessionEnds(c.events)));
    assert !OfBundle(p, a, c, SessionEndNotTerminal);
    OneTerminalEnd(c.events);
    assert LinkedAt(p, a, c.events, n - 1);
    assert !OfBundle(p, a, c, InvalidManifestHead);
    var terminal, declared := HashAt(p, a, c.events, n - 1).value, ParseHex(a, c.manifest.session.head);
    assert declared.Some? ==> !OfBundle(p, a, c, HeadDiffers(declared.value, terminal));
  }

  /** The report is empty exactly when the bundle is intact. */
  lemma CleanExact(p: Primitives, c: BundleContents)
    ensures Clean(p, c) <==> Intact(p, c)
  {
    if Clean(p, c) { CleanIsIntact(p, c); }
    if Intact(p, c) { IntactIsClean(p, c); }
  }

  /** The verifier as a decision procedure. */
  method Verify(p: Primitives, c: BundleContents) returns (report: Report)
    ensures forall v :: v in report.violations <==> IsViolation(p, c, v)
    ensures report.IsClean() <==> Intact(p, c)
    ensures ParseAlgorithm(c.manifest.hashAlgorithm).Some? ==> report.eventsChecked == |c.events|
  {
    hide Intact, IsViolation, ReferencesFollowed, ParseAlgorithm;
    report := VerifyBundle(p, c);
    CleanExact(p, c);
    if report.violations != [] {
      assert report.violations[0] in report.violations;
    }
  }

  // ---------------------------------------------------------------- tamper evidence

  /** The byte strings whose digests a verification of `c` computes. */
  ghost predicate HashedBy(c: BundleContents, x: Bytes) {
    || (exists i :: 0 <= i < |c.events| && HashedBytes(c.events[i]) == x)
    || (exists h :: h in c.objects && c.objects[h] == x)
  }

  /** Two different inputs, one hashed for each bundle, with one digest. */
  ghost predicate CollisionBetween(p: Primitives, a: HashAlgorithm, c: BundleContents, d: BundleContents) {
    exists x, y :: HashedBy(c, x) && HashedBy(d, y) && Collision(p, a, x, y)
  }

  ghost predicate SameWire(c: seq<Event>, d: seq<Event>, i: nat)
    requires i < |c| && i < |d|
  {
    ToWire(c[i]) == ToWire(d[i])
  }

  lemma EqualHashes(p: Primitives, a: HashAlgorithm, c: BundleContents, d: BundleContents, i: nat, j: nat)
    requires i < |c.events| && j < |d.events|
    requires HashAt(p, a, c.events, i).Some? && HashAt(p, a, c.events, i) == HashAt(p, a, d.events, j)
    requires !CollisionBetween(p, a, c, d)
    ensures ToWire(c.events[i]) == ToWire(d.events[j])
  {
    hide ContentHash, ToWire, HashedBytes, Collision;
    ContentHashBinds(p, a, c.events[i], d.events[j]);
    assert HashedBy(c, HashedBytes(c.events[i])) && HashedBy(d, HashedBytes(d.events[j]));
  }

  /** Equal events name equal parents, so agreement runs back from the head to the start. */
  lemma {:induction false} AgreeBackwards(p: Primitives, a: HashAlgorithm, c: BundleContents, d: BundleContents, i: nat)
    requires Linked(p, a, c.events) && Linked(p, a, d.events) && |c.events| == |d.events|
    requires !CollisionBetween(p, a, c, d)
    requires i < |c.events| && HashAt(p, a, c.events, i) == HashAt(p, a, d.events, i)
    ensures forall k :: 0 <= k <= i ==> SameWire(c.events, d.events, k)
  {
    hide ContentHash, CollisionBetween;
    assert LinkedAt(p, a, c.events, i) && LinkedAt(p, a, d.events, i);
    EqualHashes(p, a, c, d, i, i);
    if i > 0 {
      ParentsAgree(c.events[i], d.events[i]);
      HashAlgorithmAt(p, a, c.events, i - 1);
      HashAlgorithmAt(p, a, d.events, i - 1);
      AgreeBackwards(p, a, c, d, i - 1);
    }
  }

  lemma HashAlgorithmAt(p: Primitives, a: HashAlgorithm, events: seq<Event>, i: nat)
    requires HashAt(p, a, events, i).Some?
    ensures HashAt(p, a, events, i).value.algorithm == a
  {
  }

  lemma ParentsAgree(e: Event, f: Event)
    requires ToWire(e) == ToWire(f) && |e.parents| == 1 && |f.parents| == 1
    ensures e.parents[0].bytes == f.parents[0].bytes
  {
    assert ToWire(e).parents[0] == e.parents[0].bytes;
    assert ToWire(f).parents[0] == f.parents[0].bytes;
  }

  /** With one head, two intact bundles have the same events on the wire, or a collision is at hand. */
  lemma HeadFixesWire(p: Primitives, c: BundleContents, d: BundleContents)
    requires Intact(p, c) && Intact(p, d)
    requires c.manifest.hashAlgorithm == d.manifest.hashAlgorithm && c.manifest.session.head == d.manifest.session.head
    ensures var a := ParseAlgorithm(c.manifest.hashAlgorithm).value;
            || CollisionBetween(p, a, c, d)
            || (|c.events| == |d.events| && forall k :: 0 <= k < |c.events| ==> SameWire(c.events, d.events, k))
  {
    hide ContentHash, CollisionBetween, ParseHex, ParseAlgorithm, Refs, KeyedByDigest, AttemptsInOrder, ToWire;
    var a := ParseAlgorithm(c.manifest.hashAlgorithm).value;
    var m, n := |c.events| - 1, |d.events| - 1;
    if !CollisionBetween(p, a, c, d) {
      assert LinkedAt(p, a, c.events, m) && LinkedAt(p, a, d.events, n);
      EqualHashes(p, a, c, d, m, n);
      SequenceOnWire(c.events[m], d.events[n]);
      AgreeBackwards(p, a, c, d, m);
    }
  }

  lemma SequenceOnWire(e: Event, f: Event)
    requires ToWire(e) == ToWire(f)
    ensures e.sequence == f.sequence
  {
  }

  /** Objects under the same keys are the same bytes, or a collision is at hand. */
  lemma SameObjects(p: Primitives, a: HashAlgorithm, c: BundleContents, d: BundleContents)
    requires c.events == d.events
    requires KeyedByDigest(p, a, c.objects) && KeyedByDigest(p, a, d.objects)
    requires Closed(c.events, c.objects) && Closed(d.events, d.objects)
    requires !CollisionBetween(p, a, c, d)
    ensures c.objects == d.objects
  {
    hide Refs, HashedBytes;
    forall h
      ensures h in c.objects <==> h in d.objects
      ensures h in c.objects && h in d.objects ==> c.objects[h] == d.objects[h]
    {
      if h in c.objects || h in d.objects {
        assert Referenced(c.events, h);
      }
      if h in c.objects && h in d.objects {
        assert HashedBy(c, c.objects[h]) && HashedBy(d, d.objects[h]);
        assert !Collision(p, a, c.objects[h], d.objects[h]);
      }
    }
  }

  /** Events a reader returned are determined by their wire form. */
  lemma WireFixesEvents(a: HashAlgorithm, c: seq<Event>, d: seq<Event>)
    requires |c| == |d| && AllNormalised(a, c) && AllNormalised(a, d)
    requires forall k :: 0 <= k < |c| ==> SameWire(c, d, k)
    ensures c == d
  {
    hide Normalise, ToWire;
    forall k | 0 <= k < |c|
      ensures c[k] == d[k]
    {
      assert SameWire(c, d, k);
      FromWireToWire(a, c[k]);
      FromWireToWire(a, d[k]);
    }
  }

  /**
   Tamper evidence. Two archives that read and verify clean under one hash algorithm and one head
   hold the same events, the same `events.bin` bytes and the same objects; otherwise two different
   byte strings hashed by the two verifications collide.
   */
  lemma TamperEvident(p: Primitives, c: BundleContents, d: BundleContents)
    requires Intact(p, c) && Intact(p, d)
    requires c.manifest.hashAlgorithm == d.manifest.hashAlgorithm && c.manifest.session.head == d.manifest.session.head
    requires var a := ParseAlgorithm(c.manifest.hashAlgorithm).value;
             AllNormalised(a, c.events) && AllNormalised(a, d.events)
    ensures || CollisionBetween(p, ParseAlgorithm(c.manifest.hashAlgorithm).value, c, d)
            || (c.events == d.events && c.objects == d.objects)
  {
    hide ContentHash, CollisionBetween, ParseHex, ParseAlgorithm, Closed, KeyedByDigest, Linked, EndsOnce,
         AllAttemptsInOrder, AllNormalised, SameWire;
    var a := ParseAlgorithm(c.manifest.hashAlgorithm).value;
    if !CollisionBetween(p, a, c, d) {
      HeadFixesWire(p, c, d);
      WireFixesEvents(a, c.events, d.events);
      SameObjects(p, a, c, d);
    }
  }

  // ---------------------------------------------------------------- normal form keeps integrity

  lemma AttemptsNormalised(a: HashAlgorithm, e: Event)
    requires AttemptsInOrder(e.kind)
    ensures AttemptsInOrder(Normalise(a, e).kind)
  {
    if e.kind.ProviderCall? {
      var s, t := e.kind.attempts, Normalise(a, e).kind.attempts;
      assert forall i :: 0 <= i < |s| ==> t[i].startedAt == WholeSecond(s[i].startedAt);
      forall i | 0 < i < |t|
        ensures t[i - 1].startedAt <= t[i].startedAt
      {
        WholeSecondMonotone(s[i - 1].startedAt, s[i].startedAt);
      }
    }
  }

  lemma RefsNormalised(a: HashAlgorithm, e: Event)
    requires forall h :: h in Refs(e.kind) ==> h.algorithm == a
    ensures Refs(Normalise(a, e).kind) == Refs(e.kind)
  {
    hide Refs;
    var f := (h: Hash) => Hash(a, h.bytes);
    MapKindRefs(e.kind, f, (t: Instant) => WholeSecond(t));
    var r := Refs(e.kind);
    forall i | 0 <= i < |r|
      ensures f(r[i]) == r[i]
    {
      assert r[i] in r;
    }
    assert MapSeq(r, f) == r;
  }

  lemma LinkedNormalised(p: Primitives, a: HashAlgorithm, events: seq<Event>)
    requires Linked(p, a, events)
    ensures Linked(p, a, NormaliseAll(a, events))
    ensures forall i :: 0 <= i < |events| ==> HashAt(p, a, NormaliseAll(a, events), i) == HashAt(p, a, events, i)
  {
    hide ContentHash;
    var normal := NormaliseAll(a, events);
    forall i | 0 <= i < |events|
      ensures HashAt(p, a, normal, i) == HashAt(p, a, events, i)
    {
      ContentHashNormalised(p, a, a, events[i]);
    }
    forall i | 0 <= i < |events|
      ensures LinkedAt(p, a, normal, i)
    {
      assert LinkedAt(p, a, events, i);
      if i > 0 {
        HashAlgorithmAt(p, a, events, i - 1);
      }
      assert normal[i].parents == events[i].parents;
    }
  }

  /** Writing and reading back cannot turn an intact bundle into a broken one. */
  lemma SoundNormalised(p: Primitives, a: HashAlgorithm, events: seq<Event>, objects: map<Hash, Bytes>)
    requires Sound(p, a, events, objects)
    ensures Sound(p, a, NormaliseAll(a, events), objects)
    ensures HashAt(p, a, NormaliseAll(a, events), |events| - 1) == HashAt(p, a, events, |events| - 1)
  {
    hide ContentHash, Refs, Normalise, AttemptsInOrder, LinkedAt;
    var normal := NormaliseAll(a, events);
    LinkedNormalised(p, a, events);
    forall i | 0 <= i < |events|
      ensures AttemptsInOrder(normal[i].kind)
      ensures normal[i].kind.SessionEnd? == events[i].kind.SessionEnd?
      ensures Refs(normal[i].kind) == Refs(events[i].kind)
    {
      AttemptsNormalised(a, events[i]);
      forall h | h in Refs(events[i].kind)
        ensures h.algorithm == a
      {
        assert h in objects;
        assert DigestBytes(p, a, objects[h]) == h;
      }
      RefsNormalised(a, events[i]);
      KindNormalised(a, events[i]);
    }
    forall h | h in objects
      ensures Referenced(normal, h)
    {
      assert Referenced(events, h);
      var i :| 0 <= i < |events| && h in Refs(events[i].kind);
      assert h in Refs(normal[i].kind);
    }
  }

  lemma KindNormalised(a: HashAlgorithm, e: Event)
    ensures Normalise(a, e).kind.SessionEnd? == e.kind.SessionEnd?
  {
  }
}
