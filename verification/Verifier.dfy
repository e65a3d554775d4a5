/**
 Integrity verification of a parsed bundle. The verifier walks the bundle once and accumulates every
 violation; its report holds exactly the violations there are.
 */
module Verifier {
  import opened Foundation
  import opened Text
  import opened Events
  import opened Errors
  import opened Manifests
  import opened Archive
  import Ordered

  datatype AttemptFault =
    | NoAttempts
    | WrongNumber(expected: nat, found: u32)
    | StartedEarlier

  datatype Violation =
    | UnsupportedAlgorithm(name: string)
    | ObjectCountMismatch(declared: nat, actual: nat)
    | EventCountMismatch(declared: nat, actual: nat)
    | ObjectKeyHashMismatch(objectHash: Hash)
    | NoEvents
    | SequenceMismatch(position: nat, declaredSequence: nat)
    | EventContentHash(position: nat)
    | BrokenParentChain(position: nat, expected: Option<Hash>)
    | MissingObjectOf(objectHash: Hash, referencedBy: Hash)
    | SessionEndMissing
    | SessionEndDuplicate(count: nat)
    | SessionEndNotTerminal
    | InvalidManifestHead
    | HeadDiffers(declaredHead: Hash, terminal: Hash)
    | UnreferencedObject(objectHash: Hash)
    | EventInvariant(position: nat, fault: AttemptFault)

  datatype Report = Report(eventsChecked: nat, objectReferencesChecked: nat, violations: seq<Violation>) {
    predicate IsClean() {
      violations == []
    }
  }

  // ---------------------------------------------------------------- provider attempts

  /** Attempts are numbered from one without gaps and never start before the one they follow. */
  predicate AttemptsInOrder(kind: EventKind) {
    kind.ProviderCall? ==>
      && kind.attempts != []
      && (forall i :: 0 <= i < |kind.attempts| ==> kind.attempts[i].attemptNumber == i + 1)
      && (forall i :: 0 < i < |kind.attempts| ==> kind.attempts[i - 1].startedAt <= kind.attempts[i].startedAt)
  }

  /** The first fault from attempt `i` on. */
  function FaultFrom(attempts: seq<Attempt>, i: nat): Option<AttemptFault>
    requires i <= |attempts|
    decreases |attempts| - i
  {
    if i == |attempts| then None
    else if attempts[i].attemptNumber != i + 1 then Some(WrongNumber(i + 1, attempts[i].attemptNumber))
    else if i > 0 && attempts[i].startedAt < attempts[i - 1].startedAt then Some(StartedEarlier)
    else FaultFrom(attempts, i + 1)
  }

  function FaultOf(kind: EventKind): Option<AttemptFault> {
    if !kind.ProviderCall? then None
    else if kind.attempts == [] then Some(NoAttempts)
    else FaultFrom(kind.attempts, 0)
  }

  lemma {:induction false} FaultFromNone(attempts: seq<Attempt>, i: nat)
    requires i <= |attempts|
    ensures FaultFrom(attempts, i).None? <==>
            && (forall j :: i <= j < |attempts| ==> attempts[j].attemptNumber == j + 1)
            && (forall j :: i <= j < |attempts| && j > 0 ==> attempts[j - 1].startedAt <= attempts[j].startedAt)
    decreases |attempts| - i
  {
    if i < |attempts| {
      FaultFromNone(attempts, i + 1);
    }
  }

  lemma FaultOfNone(kind: EventKind)
    ensures FaultOf(kind).None? <==> AttemptsInOrder(kind)
  {
    if kind.ProviderCall? && kind.attempts != [] {
      FaultFromNone(kind.attempts, 0);
    }
  }

  predicate GoodAttempt(attempts: seq<Attempt>, i: nat)
    requires i < |attempts|
  {
    attempts[i].attemptNumber == i + 1 && (i > 0 ==> attempts[i - 1].startedAt <= attempts[i].startedAt)
  }

  /** The fault is that of the first attempt that is not good; a wrong number goes before a wrong time. */
  lemma FaultOfFirst(kind: EventKind, i: nat)
    requires kind.ProviderCall? && i < |kind.attempts| && !GoodAttempt(kind.attempts, i)
    requires forall j :: 0 <= j < i ==> GoodAttempt(kind.attempts, j)
    ensures var found := kind.attempts[i].attemptNumber;
            FaultOf(kind) == Some(if found != i + 1 then WrongNumber(i + 1, found) else StartedEarlier)
  {
    FaultFromFirst(kind.attempts, 0, i);
  }

  lemma {:induction false} FaultFromFirst(attempts: seq<Attempt>, k: nat, i: nat)
    requires k <= i < |attempts| && !GoodAttempt(attempts, i)
    requires forall j :: 0 <= j < i ==> GoodAttempt(attempts, j)
    ensures var found := attempts[i].attemptNumber;
            FaultFrom(attempts, k) == Some(if found != i + 1 then WrongNumber(i + 1, found) else StartedEarlier)
    decreases i - k
  {
    if k < i {
      assert GoodAttempt(attempts, k);
      FaultFromFirst(attempts, k + 1, i);
    }
  }

  method EventInvariantViolation(kind: EventKind) returns (r: Option<AttemptFault>)
    ensures r == FaultOf(kind)
  {
    if !kind.ProviderCall? {
      return None;
    }
    var attempts := kind.attempts;
    if attempts == [] {
      return Some(NoAttempts);
    }
    var prevStarted: Option<Instant> := None;
    for i := 0 to |attempts|
      invariant FaultFrom(attempts, 0) == FaultFrom(attempts, i)
      invariant prevStarted == if i == 0 then None else Some(attempts[i - 1].startedAt)
    {
      if attempts[i].attemptNumber != i + 1 {
        return Some(WrongNumber(i + 1, attempts[i].attemptNumber));
      }
      if prevStarted.Some? && attempts[i].startedAt < prevStarted.value {
        return Some(StartedEarlier);
      }
      prevStarted := Some(attempts[i].startedAt);
    }
    return None;
  }

  // ---------------------------------------------------------------- what counts as a violation

  function HashAt(p: Primitives, a: HashAlgorithm, events: seq<Event>, i: int): Option<Hash> {
    if 0 <= i < |events| then ContentHash(p, a, events[i]) else None
  }

  /** Objects referenced by the hashable ones among the first `n` events. */
  ghost predicate ReferencedBefore(p: Primitives, a: HashAlgorithm, events: seq<Event>, n: nat, h: Hash) {
    exists j :: 0 <= j < n && j < |events| && HashAt(p, a, events, j).Some? && h in Refs(events[j].kind)
  }

  function SessionEnds(events: seq<Event>): nat {
    if events == [] then 0
    else
      var n := |events| - 1;
      SessionEnds(events[..n]) + (if events[n].kind.SessionEnd? then 1 else 0)
  }

  /** The violations that event `j` gives rise to. */
  ghost predicate AtEvent(p: Primitives, a: HashAlgorithm, c: BundleContents, j: nat, v: Violation)
    requires j < |c.events|
  {
    var e := c.events[j];
    match v
    case SequenceMismatch(position, declared) => position == j && declared == e.sequence && declared != j
    case EventContentHash(position) => position == j && HashAt(p, a, c.events, j).None?
    case BrokenParentChain(position, expected) =>
      && position == j && HashAt(p, a, c.events, j).Some?
      && expected == HashAt(p, a, c.events, j - 1)
      && if j == 0 then !e.kind.SessionStart? || e.parents != [] else expected.Some? && e.parents != [expected.value]
    case EventInvariant(position, fault) =>
      position == j && HashAt(p, a, c.events, j).Some? && FaultOf(e.kind) == Some(fault)
    case MissingObjectOf(objectHash, referencedBy) =>
      HashAt(p, a, c.events, j) == Some(referencedBy) && objectHash in Refs(e.kind) && objectHash !in c.objects
    case _ => false
  }

  ghost predicate AtSomeEvent(p: Primitives, a: HashAlgorithm, c: BundleContents, n: nat, v: Violation)
    requires n <= |c.events|
  {
    exists j :: 0 <= j < n && AtEvent(p, a, c, j, v)
  }

  /** Violations of the whole: counts, object digests, closure, session end and head. */
  ghost predicate OfBundle(p: Primitives, a: HashAlgorithm, c: BundleContents, v: Violation) {
    var n := |c.events|;
    match v
    case ObjectCountMismatch(declared, actual) =>
      declared == c.manifest.objectCount && actual == |c.objects| && declared != actual
    case EventCountMismatch(declared, actual) =>
      declared == c.manifest.eventCount && actual == n && declared != actual
    case ObjectKeyHashMismatch(objectHash) => objectHash in c.objects
      && DigestBytes(p, a, c.objects[objectHash]) != objectHash
    case NoEvents => n == 0
    case UnreferencedObject(objectHash) => n > 0 && objectHash in c.objects
      && !ReferencedBefore(p, a, c.events, n, objectHash)
    case SessionEndMissing => n > 0 && SessionEnds(c.events) == 0
    case SessionEndDuplicate(count) => n > 0 && count == SessionEnds(c.events) && count > 1
    case SessionEndNotTerminal => n > 0 && SessionEnds(c.events) == 1 && !c.events[n - 1].kind.SessionEnd?
    case InvalidManifestHead => HashAt(p, a, c.events, n - 1).Some? && ParseHex(a, c.manifest.session.head).None?
    case HeadDiffers(declared, terminal) =>
      && HashAt(p, a, c.events, n - 1) == Some(terminal)
      && ParseHex(a, c.manifest.session.head) == Some(declared) && declared != terminal
    case _ => false
  }

  ghost predicate IsViolation(p: Primitives, c: BundleContents, v: Violation) {
    match ParseAlgorithm(c.manifest.hashAlgorithm)
    case None => v == UnsupportedAlgorithm(c.manifest.hashAlgorithm)
    case Some(a) => OfBundle(p, a, c, v) || AtSomeEvent(p, a, c, |c.events|, v)
  }

  /** References followed in the hashable ones among the first `n` events. */
  function ReferencesFollowed(p: Primitives, a: HashAlgorithm, events: seq<Event>): nat {
    if events == [] then 0
    else
      var n := |events| - 1;
      ReferencesFollowed(p, a, events[..n]) +
      (if ContentHash(p, a, events[n]).Some? then |Refs(events[n].kind)| else 0)
  }

  // ---------------------------------------------------------------- the verifier

  /** Where the walk over the events stands. */
  datatype Walk = Walk(
    violations: seq<Violation>,
    followed: nat,
    referenced: set<Hash>,
    sessionEnds: nat,
    lastSessionEnd: Option<nat>,
    prevHash: Option<Hash>)

  ghost predicate WalkedTo(p: Primitives, a: HashAlgorithm, c: BundleContents, n: nat, w: Walk)
    requires n <= |c.events|
  {
    && (forall v :: v in w.violations <==> AtSomeEvent(p, a, c, n, v))
    && w.followed == ReferencesFollowed(p, a, c.events[..n])
    && (forall h :: h in w.referenced <==> ReferencedBefore(p, a, c.events, n, h))
    && w.sessionEnds == SessionEnds(c.events[..n])
    && (match w.lastSessionEnd
        case None => w.sessionEnds == 0
        case Some(k) => k < n && c.events[k].kind.SessionEnd? && forall j :: k < j < n ==>
            !c.events[j].kind.SessionEnd?)
    && w.prevHash == HashAt(p, a, c.events, n - 1)
  }

  method CheckObjects(p: Primitives, a: HashAlgorithm, objects: map<Hash, Bytes>) returns (violations: seq<Violation>)
    ensures forall v :: v in violations <==>
              v.ObjectKeyHashMismatch? && v.objectHash in objects
                && DigestBytes(p, a, objects[v.objectHash]) != v.objectHash
  {
    violations := [];
    var todo := objects.Keys;
    while todo != {}
      invariant todo <= objects.Keys
      invariant forall v :: v in violations <==>
                  && v.ObjectKeyHashMismatch? && v.objectHash in objects && v.objectHash !in todo
                  && DigestBytes(p, a, objects[v.objectHash]) != v.objectHash
      decreases todo
    {
      var h :| h in todo;
      todo := todo - {h};
      if DigestBytes(p, a, objects[h]) != h {
        violations := violations + [ObjectKeyHashMismatch(h)];
      }
    }
  }

  /** Follows the references of one event. */
  method CheckReferences(c: BundleContents, refs: seq<Hash>, contentHash: Hash)
    returns (missing: seq<Violation>, referenced: set<Hash>)
    ensures forall v :: v in missing <==>
              v.MissingObjectOf? && v.referencedBy == contentHash && v.objectHash in refs && v.objectHash !in c.objects
    ensures forall h :: h in referenced <==> h in refs
  {
    missing, referenced := [], {};
    for i := 0 to |refs|
      invariant forall v :: v in missing <==>
                  v.MissingObjectOf? && v.referencedBy == contentHash && v.objectHash in refs[..i]
                    && v.objectHash !in c.objects
      invariant forall h :: h in referenced <==> h in refs[..i]
    {
      assert refs[..i + 1] == refs[..i] + [refs[i]];
      referenced := referenced + {refs[i]};
      if refs[i] !in c.objects {
        missing := missing + [MissingObjectOf(refs[i], contentHash)];
      }
    }
    assert refs[..|refs|] == refs;
  }

  /** The checks on one event, given the content hash of the event before it. */
  method CheckEvent(p: Primitives, a: HashAlgorithm, c: BundleContents, i: nat, prevHash: Option<Hash>)
    returns (violations: seq<Violation>, followed: nat, referenced: set<Hash>, contentHash: Option<Hash>)
    requires i < |c.events| && prevHash == HashAt(p, a, c.events, i - 1)
    ensures contentHash == ContentHash(p, a, c.events[i])
    ensures forall v :: v in violations <==> AtEvent(p, a, c, i, v)
    ensures followed == if contentHash.Some? then |Refs(c.events[i].kind)| else 0
    ensures forall h :: h in referenced <==> contentHash.Some? && h in Refs(c.events[i].kind)
  {
    hide ContentHash, FaultOf, Refs;
    var event := c.events[i];
    violations, followed, referenced := [], 0, {};
    if event.sequence != i {
      violations := violations + [SequenceMismatch(i, event.sequence)];
    }
    contentHash := ContentHash(p, a, event);
    if contentHash.None? {
      violations := violations + [EventContentHash(i)];
      return;
    }
    if i == 0 {
      if !event.kind.SessionStart? || event.parents != [] {
        violations := violations + [BrokenParentChain(i, None)];
      }
    } else if prevHash.Some? && (|event.parents| != 1 || event.parents[0] != prevHash.value) {
      violations := violations + [BrokenParentChain(i, prevHash)];
    }
    assert prevHash.Some? ==> (event.parents != [prevHash.value] <==>
                                 |event.parents| != 1 || event.parents[0] != prevHash.value);
    var fault := EventInvariantViolation(event.kind);
    if fault.Some? {
      violations := violations + [EventInvariant(i, fault.value)];
    }
    var missing, refs := CheckReferences(c, Refs(event.kind), contentHash.value);
    followed, referenced := |Refs(event.kind)|, refs;
    violations := violations + missing;
  }

  method WalkEvents(p: Primitives, a: HashAlgorithm, c: BundleContents) returns (w: Walk)
    ensures WalkedTo(p, a, c, |c.events|, w)
  {
    hide WalkedTo;
    w := Walk([], 0, {}, 0, None, None);
    WalkStart(p, a, c);
    for i := 0 to |c.events|
      invariant WalkedTo(p, a, c, i, w)
    {
      var prevHash := w.prevHash;
      WalkPrev(p, a, c, i, w);
      var sessionEnd := c.events[i].kind.SessionEnd?;
      var violations, followed, referenced, contentHash := CheckEvent(p, a, c, i, prevHash);
      ghost var before := w;
      w := Walk(
        w.violations + violations,
        w.followed + followed,
        w.referenced + referenced,
        w.sessionEnds + (if sessionEnd then 1 else 0),
        if sessionEnd then Some(i) else w.lastSessionEnd,
        contentHash);
      WalkStep(p, a, c, i, before, violations, followed, referenced, w);
    }
  }

  lemma WalkStart(p: Primitives, a: HashAlgorithm, c: BundleContents)
    ensures WalkedTo(p, a, c, 0, Walk([], 0, {}, 0, None, None))
  {
  }

  lemma WalkPrev(p: Primitives, a: HashAlgorithm, c: BundleContents, i: nat, w: Walk)
    requires i < |c.events| && WalkedTo(p, a, c, i, w)
    ensures w.prevHash == HashAt(p, a, c.events, i - 1)
  {
  }

  lemma WalkStep(p: Primitives, a: HashAlgorithm, c: BundleContents, i: nat, w: Walk,
                 violations: seq<Violation>, followed: nat, referenced: set<Hash>, next: Walk)
    requires i < |c.events| && WalkedTo(p, a, c, i, w)
    requires forall v :: v in violations <==> AtEvent(p, a, c, i, v)
    requires followed == if ContentHash(p, a, c.events[i]).Some? then |Refs(c.events[i].kind)| else 0
    requires forall h :: h in referenced <==> ContentHash(p, a, c.events[i]).Some? && h in Refs(c.events[i].kind)
    requires var sessionEnd := c.events[i].kind.SessionEnd?;
             next == Walk(w.violations + violations, w.followed + followed, w.referenced + referenced,
                          w.sessionEnds + (if sessionEnd then 1 else 0),
                          if sessionEnd then Some(i) else w.lastSessionEnd,
                          ContentHash(p, a, c.events[i]))
    ensures WalkedTo(p, a, c, i + 1, next)
  {
    hide ContentHash, AtEvent, Refs;
    assert c.events[..i + 1][..i] == c.events[..i];
    forall v
      ensures AtSomeEvent(p, a, c, i + 1, v) <==> AtSomeEvent(p, a, c, i, v) || AtEvent(p, a, c, i, v)
    {
    }
    forall h
      ensures ReferencedBefore(p, a, c.events, i + 1, h) <==>
              ReferencedBefore(p, a, c.events, i, h) || (HashAt(p, a, c.events, i).Some? && h in Refs(c.events[i].kind))
    {
    }
    assert forall v :: v in next.violations <==> v in w.violations || v in violations;
  }

  /** Inserts into a list ordered by hexadecimal form. */
  function InsertByHex(s: seq<Hash>, h: Hash): seq<Hash> {
    if s == [] || !Ordered.Less(s[0].ToHex(), h.ToHex()) then [h] + s
    else [s[0]] + InsertByHex(s[1..], h)
  }

  ghost predicate OrderedByHex(s: seq<Hash>) {
    forall i, j :: 0 <= i < j < |s| ==> !Ordered.Less(s[j].ToHex(), s[i].ToHex())
  }

  lemma {:induction false} InsertByHexElements(s: seq<Hash>, h: Hash)
    ensures multiset(InsertByHex(s, h)) == multiset(s) + multiset{h}
  {
    hide Ordered.Less;
    if s != [] {
      assert s == [s[0]] + s[1..];
      InsertByHexElements(s[1..], h);
    }
  }

  ghost predicate NoneBefore(s: seq<Hash>, h: Hash) {
    forall g :: g in s ==> !Ordered.Less(g.ToHex(), h.ToHex())
  }

  lemma OrderedCons(h: Hash, s: seq<Hash>)
    ensures OrderedByHex([h] + s) <==> OrderedByHex(s) && NoneBefore(s, h)
  {
    hide Ordered.Less;
    var t := [h] + s;
    if OrderedByHex(t) {
      forall g | g in s
        ensures !Ordered.Less(g.ToHex(), h.ToHex())
      {
        var j :| 0 <= j < |s| && s[j] == g;
        assert t[j + 1] == g && t[0] == h;
      }
      assert forall i :: 0 <= i < |s| ==> s[i] == t[i + 1];
    }
  }

  lemma {:induction false} InsertByHexOrdered(s: seq<Hash>, h: Hash)
    requires OrderedByHex(s)
    ensures OrderedByHex(InsertByHex(s, h))
  {
    hide Ordered.Less, OrderedByHex;
    if s == [] {
      OrderedCons(h, []);
      EmptyOrdered();
    } else {
      var head, tail := s[0], s[1..];
      assert s == [head] + tail;
      OrderedCons(head, tail);
      Ordered.LessTotal(head.ToHex(), h.ToHex());
      if Ordered.Less(head.ToHex(), h.ToHex()) {
        InsertByHexOrdered(tail, h);
        InsertByHexElements(tail, h);
        var rest := InsertByHex(tail, h);
        forall g | g in rest
          ensures !Ordered.Less(g.ToHex(), head.ToHex())
        {
          assert g in multiset(rest);
          assert g == h || g in tail;
        }
        OrderedCons(head, rest);
      } else {
        forall g | g in s
          ensures !Ordered.Less(g.ToHex(), h.ToHex())
        {
          if g != head && Ordered.Less(g.ToHex(), h.ToHex()) {
            NotLessTransitive(head.ToHex(), g.ToHex(), h.ToHex());
          }
        }
        OrderedCons(h, s);
      }
    }
  }

  lemma EmptyOrdered()
    ensures OrderedByHex([])
  {
  }

  lemma NotLessTransitive(x: string, y: string, z: string)
    requires !Ordered.Less(y, x) && Ordered.Less(y, z)
    ensures Ordered.Less(x, z)
  {
    Ordered.LessTotal(x, y);
    if Ordered.Less(x, y) {
      Ordered.LessTransitive(x, y, z);
    }
  }

  /** The keys nothing refers to, met in any order and sorted by hexadecimal form. */
  method SortedUnreferenced(objects: map<Hash, Bytes>, referenced: set<Hash>) returns (found: seq<Hash>)
    ensures OrderedByHex(found)
    ensures forall h :: h in found <==> h in objects && h !in referenced
  {
    hide OrderedByHex, InsertByHex;
    found := [];
    EmptyOrdered();
    var todo := objects.Keys;
    while todo != {}
      invariant todo <= objects.Keys && OrderedByHex(found)
      invariant forall h :: h in multiset(found) <==> h in objects && h !in todo && h !in referenced
      decreases todo
    {
      var h :| h in todo;
      todo := todo - {h};
      if h !in referenced {
        InsertByHexOrdered(found, h);
        InsertByHexElements(found, h);
        found := InsertByHex(found, h);
      }
    }
    assert forall h :: h in found <==> h in multiset(found);
  }

  /** The objects nothing refers to, in a fixed order. */
  method Unreferenced(objects: map<Hash, Bytes>, referenced: set<Hash>) returns (violations: seq<Violation>)
    ensures forall v :: v in violations <==>
              v.UnreferencedObject? && v.objectHash in objects && v.objectHash !in referenced
    ensures forall i, j :: 0 <= i < j < |violations| ==>
              !Ordered.Less(violations[j].objectHash.ToHex(), violations[i].objectHash.ToHex())
  {
    hide Ordered.Less;
    var found := SortedUnreferenced(objects, referenced);
    violations := [];
    for i := 0 to |found|
      invariant |violations| == i
      invariant forall j :: 0 <= j < i ==> violations[j] == UnreferencedObject(found[j])
    {
      violations := violations + [UnreferencedObject(found[i])];
    }
    forall v
      ensures v in violations <==> v.UnreferencedObject? && v.objectHash in objects && v.objectHash !in referenced
    {
      if v.UnreferencedObject? && v.objectHash in found {
        var j :| 0 <= j < |found| && found[j] == v.objectHash;
        assert violations[j] == v;
      }
      if v in violations {
        var j :| 0 <= j < |violations| && violations[j] == v;
        assert found[j] in found;
      }
    }
  }

  /** The fail-soft report: it holds a violation exactly when the bundle has it. */
  method VerifyBundle(p: Primitives, c: BundleContents) returns (report: Report)
    ensures forall v :: v in report.violations <==> IsViolation(p, c, v)
    ensures var supported := ParseAlgorithm(c.manifest.hashAlgorithm);
            && report.eventsChecked == (if supported.Some? then |c.events| else 0)
            && report.objectReferencesChecked ==
               (if supported.Some? then ReferencesFollowed(p, supported.value, c.events) else 0)
  {
    hide AtEvent, ReferencedBefore, ParseAlgorithm, HashAt, SessionEnds, ReferencesFollowed, ParseHex, DigestBytes;
    var supported := ParseAlgorithm(c.manifest.hashAlgorithm);
    if supported.None? {
      return Report(0, 0, [UnsupportedAlgorithm(c.manifest.hashAlgorithm)]);
    }
    var a := supported.value;
    var violations: seq<Violation> := [];
    if c.manifest.objectCount != |c.objects| {
      violations := violations + [ObjectCountMismatch(c.manifest.objectCount, |c.objects|)];
    }
    if c.manifest.eventCount != |c.events| {
      violations := violations + [EventCountMismatch(c.manifest.eventCount, |c.events|)];
    }
    var mismatched := CheckObjects(p, a, c.objects);
    violations := violations + mismatched;
    if c.events == [] {
      EmptyWalk(p, a, c);
      return Report(0, 0, violations + [NoEvents]);
    }
    var w := WalkEvents(p, a, c);
    WalkEnd(p, a, c, w);
    violations := violations + w.violations;
    var unreferenced := Unreferenced(c.objects, w.referenced);
    violations := violations + unreferenced;
    var closing := CheckSessionEnd(p, a, c, w);
    violations := violations + closing;
    var head := CheckHead(p, a, c, w.prevHash);
    return Report(|c.events|, w.followed, violations + head);
  }

  lemma EmptyWalk(p: Primitives, a: HashAlgorithm, c: BundleContents)
    requires c.events == []
    ensures ReferencesFollowed(p, a, c.events) == 0 && HashAt(p, a, c.events, -1).None?
  {
  }

  /** What the finished walk says about the whole bundle. */
  lemma WalkEnd(p: Primitives, a: HashAlgorithm, c: BundleContents, w: Walk)
    requires WalkedTo(p, a, c, |c.events|, w) && c.events != []
    ensures w.followed == ReferencesFollowed(p, a, c.events)
    ensures forall h :: h in w.referenced <==> ReferencedBefore(p, a, c.events, |c.events|, h)
    ensures w.sessionEnds == SessionEnds(c.events)
    ensures w.prevHash == HashAt(p, a, c.events, |c.events| - 1)
    ensures w.sessionEnds == 1 ==>
              (w.lastSessionEnd == Some(|c.events| - 1) <==> c.events[|c.events| - 1].kind.SessionEnd?)
  {
    hide AtEvent, AtSomeEvent, ReferencedBefore, HashAt, ReferencesFollowed;
    assert c.events[..|c.events|] == c.events;
  }

  method CheckSessionEnd(p: Primitives, a: HashAlgorithm, c: BundleContents, w: Walk)
    returns (violations: seq<Violation>)
    requires c.events != [] && w.sessionEnds == SessionEnds(c.events)
    requires w.sessionEnds == 1 ==>
               (w.lastSessionEnd == Some(|c.events| - 1) <==> c.events[|c.events| - 1].kind.SessionEnd?)
    ensures forall v :: v in violations <==>
              (v.SessionEndMissing? || v.SessionEndDuplicate? || v.SessionEndNotTerminal?) && OfBundle(p, a, c, v)
  {
    hide SessionEnds, ReferencedBefore, HashAt;
    if w.sessionEnds == 0 {
      violations := [SessionEndMissing];
    } else if w.sessionEnds == 1 {
      violations := if w.lastSessionEnd != Some(|c.events| - 1) then [SessionEndNotTerminal] else [];
    } else {
      violations := [SessionEndDuplicate(w.sessionEnds)];
    }
  }

  method CheckHead(p: Primitives, a: HashAlgorithm, c: BundleContents, prevHash: Option<Hash>)
    returns (violations: seq<Violation>)
    requires prevHash == HashAt(p, a, c.events, |c.events| - 1)
    ensures forall v :: v in violations <==> (v.InvalidManifestHead? || v.HeadDiffers?) && OfBundle(p, a, c, v)
  {
    hide HashAt, ParseHex, SessionEnds, ReferencedBefore;
    violations := [];
    if prevHash.Some? {
      match ParseHex(a, c.manifest.session.head)
      case Some(declared) =>
        if declared != prevHash.value {
          violations := [HeadDiffers(declared, prevHash.value)];
        }
      case None =>
        violations := [InvalidManifestHead];
    }
  }

  /** Stops at the first violation; which one comes first depends on the order objects are met in. */
  method VerifyBundleStrict(p: Primitives, c: BundleContents) returns (r: Result<(), BundleError>)
    ensures r.Ok? <==> forall v :: !IsViolation(p, c, v)
    ensures r.Err? ==> exists v :: IsViolation(p, c, v) && r.error == ViolationToError(v)
  {
    var report := VerifyBundle(p, c);
    if report.violations == [] {
      return Ok(());
    }
    assert IsViolation(p, c, report.violations[0]) by {
      assert report.violations[0] in report.violations;
    }
    return Err(ViolationToError(report.violations[0]));
  }

  function ViolationToError(v: Violation): BundleError {
    match v
    case ObjectKeyHashMismatch(objectHash) => ObjectHashMismatch(objectHash.ToHex())
    case MissingObjectOf(objectHash, _) => MissingObject(objectHash.ToHex())
    case UnreferencedObject(_) => InvalidArchive
    case HeadDiffers(declared, terminal) => HeadMismatch(declared.ToHex(), terminal.ToHex())
    case UnsupportedAlgorithm(name) => UnsupportedHashAlgorithm(name)
    case ObjectCountMismatch(_, _) => InvalidManifest
    case EventCountMismatch(_, _) => InvalidManifest
    case InvalidManifestHead => InvalidManifest
    case _ => InvalidArchive
  }

  /** What each kind of error says about the violation it stands for. */
  lemma ViolationToErrorMeans(v: Violation)
    ensures ViolationToError(v).ObjectHashMismatch? <==> v.ObjectKeyHashMismatch?
    ensures ViolationToError(v).MissingObject? <==> v.MissingObjectOf?
    ensures ViolationToError(v).HeadMismatch? <==> v.HeadDiffers?
    ensures v.ObjectKeyHashMismatch? || v.MissingObjectOf? ==>
              HexDecode(ViolationToError(v).hash) == Some(v.objectHash.bytes)
    ensures v.HeadDiffers? ==> HexDecode(ViolationToError(v).expected) == Some(v.declaredHead.bytes)
                               && HexDecode(ViolationToError(v).found) == Some(v.terminal.bytes)
    ensures forall name :: ViolationToError(v) == UnsupportedHashAlgorithm(name) <==> v == UnsupportedAlgorithm(name)
    ensures ViolationToError(v) == InvalidManifest <==>
              v.ObjectCountMismatch? || v.EventCountMismatch? || v.InvalidManifestHead?
  {
    hide HexEncode, HexDecode;
    if v.ObjectKeyHashMismatch? || v.MissingObjectOf? {
      HexRoundTrip(v.objectHash.bytes);
    }
    if v.HeadDiffers? {
      HexRoundTrip(v.declaredHead.bytes);
      HexRoundTrip(v.terminal.bytes);
    }
  }
}
