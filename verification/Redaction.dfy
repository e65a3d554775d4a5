/**
 Redaction: chosen objects are replaced by sentinels, every reference to them is rewritten, the
 chain is re-linked, and the objects and manifest of a derivative bundle are rebuilt.
 */
module Redactions {
  import opened Foundation
  import opened Text
  import opened Cbor
  import opened Events
  import opened Manifests
  import opened Archive
  import opened Verifier
  import opened Integrity
  import opened Journal
  import opened Calendar
  import opened Transfer
  import opened Sentinels

  datatype RedactError =
    | InvalidObjectHash(text: string)
    | MalformedSession
    | ObjectNotInSession(absent: Hash)
    | ObjectMissing(lost: Hash)
    | IoError(cause: JournalError)
    | BundleFailure

  // ---------------------------------------------------------------- requested hashes

  ghost predicate Requested(a: HashAlgorithm, values: seq<string>, h: Hash) {
    exists i :: 0 <= i < |values| && ParseHex(a, values[i]) == Some(h)
  }

  ghost predicate NoDuplicates(s: seq<Hash>) {
    forall i, j :: 0 <= i < j < |s| ==> s[i] != s[j]
  }

  /** The hashes among `values`, each once, in the order they first occur. */
  function RequestedHashes(a: HashAlgorithm, values: seq<string>): seq<Hash> {
    if values == [] then []
    else
      var n := |values| - 1;
      var earlier := RequestedHashes(a, values[..n]);
      match ParseHex(a, values[n])
      case None => earlier
      case Some(h) => if h in earlier then earlier else earlier + [h]
  }

  lemma {:induction false} RequestedHashesExact(a: HashAlgorithm, values: seq<string>)
    ensures NoDuplicates(RequestedHashes(a, values))
    ensures forall h :: h in RequestedHashes(a, values) <==> Requested(a, values, h)
  {
    hide ParseHex;
    if values != [] {
      var n := |values| - 1;
      RequestedHashesExact(a, values[..n]);
      forall h
        ensures Requested(a, values, h) <==> Requested(a, values[..n], h) || ParseHex(a, values[n]) == Some(h)
      {
        if Requested(a, values[..n], h) {
          var i :| 0 <= i < n && ParseHex(a, values[..n][i]) == Some(h);
          assert values[i] == values[..n][i];
        }
        if Requested(a, values, h) && ParseHex(a, values[n]) != Some(h) {
          var i :| 0 <= i < |values| && ParseHex(a, values[i]) == Some(h);
          assert values[..n][i] == values[i];
        }
      }
    }
  }

  ghost predicate AllParse(a: HashAlgorithm, values: seq<string>) {
    forall i :: 0 <= i < |values| ==> ParseHex(a, values[i]).Some?
  }

  /** The requested hashes without repetition; the first text that is no hash is reported. */
  method ParseRequestedRedactHashes(a: HashAlgorithm, values: seq<string>) returns (r: Result<seq<Hash>, string>)
    ensures r.Ok? <==> AllParse(a, values)
    ensures r.Ok? ==> r.value == RequestedHashes(a, values)
    ensures r.Ok? ==> NoDuplicates(r.value) && forall h :: h in r.value <==> Requested(a, values, h)
    ensures r.Err? ==> exists i :: 0 <= i < |values| && values[i] == r.error && ParseHex(a, values[i]).None?
                                   && forall j :: 0 <= j < i ==> ParseHex(a, values[j]).Some?
  {
    hide ParseHex, NoDuplicates, Requested;
    var seen: set<Hash> := {};
    var out: seq<Hash> := [];
    for i := 0 to |values|
      invariant forall j :: 0 <= j < i ==> ParseHex(a, values[j]).Some?
      invariant out == RequestedHashes(a, values[..i])
      invariant forall h :: h in seen <==> h in out
    {
      var parsed := ParseHex(a, values[i]);
      if parsed.None? {
        return Err(values[i]);
      }
      assert values[..i + 1][..i] == values[..i];
      if parsed.value !in seen {
        seen := seen + {parsed.value};
        out := out + [parsed.value];
      }
    }
    assert values[..|values|] == values;
    RequestedHashesExact(a, values);
    return Ok(out);
  }

  // ---------------------------------------------------------------- rewriting one event

  type Replacements = map<Hash, Hash>

  function Replace(m: Replacements, h: Hash): Hash {
    if h in m then m[h] else h
  }

  function Replacer(m: Replacements): Hash -> Hash {
    (h: Hash) => Replace(m, h)
  }

  function Keep(t: Instant): Instant {
    t
  }

  /** Every hash position replaced, nothing else touched. */
  function Rewritten(kind: EventKind, m: Replacements): EventKind {
    MapKind(kind, Replacer(m), Keep)
  }

  ghost predicate Touched(kind: EventKind, m: Replacements) {
    exists h :: h in Refs(kind) && h in m
  }

  method RewriteHash(h: Hash, m: Replacements) returns (r: Hash, changed: bool)
    ensures r == Replace(m, h) && changed == (h in m)
  {
    if h in m {
      return m[h], true;
    }
    return h, false;
  }

  method RewriteOptionalHash(o: Option<Hash>, m: Replacements) returns (r: Option<Hash>, changed: bool)
    ensures r == MapOption(o, Replacer(m)) && changed == (o.Some? && o.value in m)
  {
    match o {
      case None => return None, false;
      case Some(h) =>
        var rewritten, c := RewriteHash(h, m);
        return Some(rewritten), c;
    }
  }

  method RewriteAttempts(attempts: seq<Attempt>, m: Replacements) returns (r: seq<Attempt>, changed: bool)
    ensures r == MapSeq(attempts, (a: Attempt) => MapAttempt(a, Replacer(m), Keep))
    ensures changed <==> exists h :: h in AttemptsRefs(attempts) && h in m
  {
    hide MapAttempt;
    r, changed := [], false;
    for i := 0 to |attempts|
      invariant |r| == i && forall j :: 0 <= j < i ==> r[j] == MapAttempt(attempts[j], Replacer(m), Keep)
      invariant changed <==> exists h :: h in AttemptsRefs(attempts[..i]) && h in m
    {
      var attempt := attempts[i];
      var requestHash, c1 := RewriteHash(attempt.requestHash, m);
      var responseHash, c2 := RewriteOptionalHash(attempt.responseHash, m);
      var streamHash, c3 := RewriteOptionalHash(attempt.streamHash, m);
      AttemptsRefsGrow(attempts, i);
      AttemptTouched(attempt, m);
      changed := changed || c1 || c2 || c3;
      var rewritten := Attempt(attempt.attemptNumber, attempt.startedAt, attempt.endedAt, attempt.status,
                               requestHash, responseHash, streamHash, attempt.errorMessage);
      MapAttemptOf(attempt, rewritten, m);
      r := r + [rewritten];
    }
    assert attempts[..|attempts|] == attempts;
  }

  lemma MapAttemptOf(a: Attempt, b: Attempt, m: Replacements)
    requires b == Attempt(a.attemptNumber, a.startedAt, a.endedAt, a.status, Replace(m, a.requestHash),
                          MapOption(a.responseHash, Replacer(m)), MapOption(a.streamHash, Replacer(m)), a.errorMessage)
    ensures b == MapAttempt(a, Replacer(m), Keep)
  {
  }

  lemma AttemptTouched(a: Attempt, m: Replacements)
    ensures (exists h :: h in AttemptRefs(a) && h in m) <==>
            || a.requestHash in m || (a.responseHash.Some? && a.responseHash.value in m)
            || (a.streamHash.Some? && a.streamHash.value in m)
  {
    var refs := AttemptRefs(a);
    assert refs[0] == a.requestHash;
    assert a.responseHash.Some? ==> refs[1] == a.responseHash.value;
    assert a.streamHash.Some? ==> refs[|refs| - 1] == a.streamHash.value;
  }

  lemma {:induction false} AttemptsRefsGrow(attempts: seq<Attempt>, i: nat)
    requires i < |attempts|
    ensures AttemptsRefs(attempts[..i + 1]) == AttemptsRefs(attempts[..i]) + AttemptRefs(attempts[i])
    decreases i
  {
    if i == 0 {
      assert attempts[..1] == [attempts[0]];
    } else {
      AttemptsRefsGrow(attempts[1..], i - 1);
      assert attempts[..i + 1][1..] == attempts[1..][..i];
      assert attempts[..i][1..] == attempts[1..][..i - 1];
    }
  }

  method RewriteEventKindHashes(kind: EventKind, m: Replacements) returns (r: EventKind, changed: bool)
    ensures r == Rewritten(kind, m)
    ensures changed <==> Touched(kind, m)
  {
    hide MapAttempt, AttemptsRefs;
    match kind {
      case SessionStart(cwd, config) =>
        var cwdHash, c1 := RewriteHash(cwd, m);
        var configHash, c2 := RewriteHash(config, m);
        r, changed := SessionStart(cwdHash, configHash), c1 || c2;
        TouchedBy(kind, m, [cwd, config]);
      case UserTurn(prompt) =>
        var promptHash, c1 := RewriteHash(prompt, m);
        r, changed := UserTurn(promptHash), c1;
        TouchedBy(kind, m, [prompt]);
      case ProviderCall(id, attempts, stream) =>
        var rewrittenAttempts, c1 := RewriteAttempts(attempts, m);
        var streamHash, c2 := RewriteOptionalHash(stream, m);
        r, changed := ProviderCall(id, rewrittenAttempts, streamHash), c1 || c2;
        ProviderCallTouched(kind, m);
      case ToolCall(id, input, output, sideEffects) =>
        var inputHash, c1 := RewriteHash(input, m);
        var outputHash, c2 := RewriteHash(output, m);
        var sideEffectsHash, c3 := RewriteOptionalHash(sideEffects, m);
        r, changed := ToolCall(id, inputHash, outputHash, sideEffectsHash), c1 || c2 || c3;
        TouchedBy(kind, m, [input, output] + OptionSeq(sideEffects));
      case RetrievalCall(id, query, results) =>
        var queryHash, c1 := RewriteHash(query, m);
        var resultsHash, c2 := RewriteHash(results, m);
        r, changed := RetrievalCall(id, queryHash, resultsHash), c1 || c2;
        TouchedBy(kind, m, [query, results]);
      case PermissionGate(id, decision, context) =>
        var contextHash, c1 := RewriteHash(context, m);
        r, changed := PermissionGate(id, decision, contextHash), c1;
        TouchedBy(kind, m, [context]);
      case AssistantTurn(message, toolCalls) =>
        var messageHash, c1 := RewriteHash(message, m);
        var toolCallsHash, c2 := RewriteOptionalHash(toolCalls, m);
        r, changed := AssistantTurn(messageHash, toolCallsHash), c1 || c2;
        TouchedBy(kind, m, [message] + OptionSeq(toolCalls));
      case SessionEnd(summary) =>
        var summaryHash, c1 := RewriteOptionalHash(summary, m);
        r, changed := SessionEnd(summaryHash), c1;
        TouchedBy(kind, m, OptionSeq(summary));
    }
  }

  lemma TouchedBy(kind: EventKind, m: Replacements, refs: seq<Hash>)
    requires refs == Refs(kind) && |refs| <= 3
    ensures Touched(kind, m) <==>
            (|refs| > 0 && refs[0] in m) || (|refs| > 1 && refs[1] in m) || (|refs| > 2 && refs[2] in m)
  {
    if |refs| > 0 && refs[0] in m {
      assert refs[0] in Refs(kind);
    } else if |refs| > 1 && refs[1] in m {
      assert refs[1] in Refs(kind);
    } else if |refs| > 2 && refs[2] in m {
      assert refs[2] in Refs(kind);
    }
  }

  lemma ProviderCallTouched(kind: EventKind, m: Replacements)
    requires kind.ProviderCall?
    ensures Touched(kind, m) <==>
            || (exists h :: h in AttemptsRefs(kind.attempts) && h in m)
            || (kind.callStreamHash.Some? && kind.callStreamHash.value in m)
  {
    var refs, stream := AttemptsRefs(kind.attempts), OptionSeq(kind.callStreamHash);
    forall h
      ensures h in Refs(kind) <==> h in refs || h in stream
    {
    }
    if kind.callStreamHash.Some? && kind.callStreamHash.value in m {
      assert stream[0] in Refs(kind);
    }
  }

  // ---------------------------------------------------------------- sentinels for the requested objects

  function SentinelFor(stored: map<Digest, Bytes>, h: Hash, why: Redaction): SentinelMarker
    requires h.bytes in stored
  {
    SentinelFromOriginal(h, |stored[h.bytes]| % TWO_64, why)
  }

  ghost predicate SentinelOf(p: Primitives, a: HashAlgorithm, stored: map<Digest, Bytes>, why: Redaction,
                             m: Replacements, sentinels: map<Hash, Bytes>, h: Hash)
  {
    && h.algorithm == a && h.bytes in stored && h in m
    && Serialize(p, SentinelCbor(SentinelFor(stored, h, why))).Some?
    && m[h] == DigestBytes(p, a, SentinelBytes(SentinelFor(stored, h, why)))
    && m[h] in sentinels
  }

  /** The requested hash whose sentinel is kept under `g`. */
  ghost predicate SentinelUnder(stored: map<Digest, Bytes>, requested: seq<Hash>, why: Redaction, m: Replacements,
                                sentinels: map<Hash, Bytes>, g: Hash)
    requires g in sentinels
  {
    exists h :: h in requested && h in m && m[h] == g && h.bytes in stored
      && sentinels[g] == SentinelBytes(SentinelFor(stored, h, why))
  }

  /** What the replacement phase establishes. */
  ghost predicate Replacing(p: Primitives, a: HashAlgorithm, stored: map<Digest, Bytes>, requested: seq<Hash>,
                            why: Redaction, m: Replacements, sentinels: map<Hash, Bytes>)
  {
    && (forall h :: h in m <==> h in requested)
    && (forall h :: h in requested ==> SentinelOf(p, a, stored, why, m, sentinels, h))
    && (forall g :: g in sentinels ==> SentinelUnder(stored, requested, why, m, sentinels, g))
  }

  ghost predicate CannotSerialize(p: Primitives, stored: map<Digest, Bytes>, why: Redaction, h: Hash) {
    h.bytes in stored && Serialize(p, SentinelCbor(SentinelFor(stored, h, why))).None?
  }

  /** A sentinel can be made for every requested object. */
  ghost predicate Replaceable(p: Primitives, a: HashAlgorithm, stored: map<Digest, Bytes>, requested: seq<Hash>,
                              why: Redaction)
  {
    forall h :: h in requested ==> h.algorithm == a && h.bytes in stored && !CannotSerialize(p, stored, why, h)
  }

  method BuildSentinels(store: ObjectStore, requested: seq<Hash>, why: Redaction)
    returns (r: Result<(Replacements, map<Hash, Bytes>), RedactError>)
    ensures r.Ok? ==> Replacing(store.p, store.algorithm, store.objects, requested, why, r.value.0, r.value.1)
    ensures r.Ok? <== store.reliable && Replaceable(store.p, store.algorithm, store.objects, requested, why)
    ensures r.Err? ==> r.error.ObjectMissing? || r.error.IoError? || r.error.BundleFailure?
    ensures r.Err? && r.error.ObjectMissing? ==>
              r.error.lost in requested && r.error.lost.algorithm == store.algorithm
                && r.error.lost.bytes !in store.objects
    ensures r.Err? && r.error.IoError? ==>
              || (r.error.cause == Storage && !store.reliable)
              || (r.error.cause == AlgorithmMismatch && exists h :: h in requested && h.algorithm != store.algorithm)
    ensures r.Err? && r.error.BundleFailure? ==>
              exists h :: h in requested && CannotSerialize(store.p, store.objects, why, h)
  {
    hide SentinelCbor, Fits, Replacing;
    ghost var stored := store.objects;
    var m: Replacements := map[];
    var sentinels: map<Hash, Bytes> := map[];
    ReplacingNothing(store.p, store.algorithm, stored, why);
    for i := 0 to |requested|
      invariant Replacing(store.p, store.algorithm, stored, requested[..i], why, m, sentinels)
    {
      var h := requested[i];
      assert h in requested;
      var original := store.Get(h);
      match original {
        case Err(e) => return Err(IoError(e));
        case Ok(None) => return Err(ObjectMissing(h));
        case Ok(Some(bytes)) =>
          var sentinelBytes := Serialize(store.p, SentinelCbor(SentinelFromOriginal(h, |bytes| % TWO_64, why)));
          if sentinelBytes.None? {
            assert CannotSerialize(store.p, stored, why, h);
            return Err(BundleFailure);
          }
          ReplacingOneMore(store.p, store.algorithm, stored, requested, i, why, m, sentinels);
          var sentinelHash := DigestBytes(store.p, store.algorithm, sentinelBytes.value);
          m := m[h := sentinelHash];
          sentinels := sentinels[sentinelHash := sentinelBytes.value];
      }
    }
    assert requested[..|requested|] == requested;
    return Ok((m, sentinels));
  }

  lemma ReplacingNothing(p: Primitives, a: HashAlgorithm, stored: map<Digest, Bytes>, why: Redaction)
    ensures Replacing(p, a, stored, [], why, map[], map[])
  {
  }

  lemma ReplacingOneMore(p: Primitives, a: HashAlgorithm, stored: map<Digest, Bytes>, requested: seq<Hash>, i: nat,
                         why: Redaction, m: Replacements, sentinels: map<Hash, Bytes>)
    requires i < |requested| && Replacing(p, a, stored, requested[..i], why, m, sentinels)
    requires var h := requested[i];
             h.algorithm == a && h.bytes in stored && Serialize(p, SentinelCbor(SentinelFor(stored, h, why))).Some?
    ensures var h := requested[i];
            var bytes := SentinelBytes(SentinelFor(stored, h, why));
            var g := DigestBytes(p, a, bytes);
            Replacing(p, a, stored, requested[..i + 1], why, m[h := g], sentinels[g := bytes])
  {
    hide SentinelCbor, Fits, SentinelBytes, SentinelFor, DigestBytes;
    var h := requested[i];
    var bytes := SentinelBytes(SentinelFor(stored, h, why));
    var g := DigestBytes(p, a, bytes);
    var m', sentinels', asked := m[h := g], sentinels[g := bytes], requested[..i + 1];
    assert asked == requested[..i] + [h];
    forall r | r in asked
      ensures SentinelOf(p, a, stored, why, m', sentinels', r)
    {
      if r != h {
        assert SentinelOf(p, a, stored, why, m, sentinels, r);
      }
    }
    forall k | k in sentinels'
      ensures SentinelUnder(stored, asked, why, m', sentinels', k)
    {
      if k != g {
        assert SentinelUnder(stored, requested[..i], why, m, sentinels, k);
        var r :| r in requested[..i] && r in m && m[r] == k && r.bytes in stored
                 && sentinels[k] == SentinelBytes(SentinelFor(stored, r, why));
        assert SentinelOf(p, a, stored, why, m, sentinels, r);
        assert r in asked && m'[r] == k;
      } else {
        assert h in asked;
      }
    }
  }

  // ---------------------------------------------------------------- rewriting and re-linking the chain

  function RewriteEvent(e: Event, m: Replacements, prev: Option<Hash>): Event {
    var parents := match prev
      case None => e.parents
      case Some(h) => if e.parents == [] then [h] else e.parents[0 := h];
    Event(parents, Rewritten(e.kind, m), e.emittedAt, e.sequence)
  }

  function LastHash(history: seq<StoredEvent>): Option<Hash> {
    if history == [] then None else Some(history[|history| - 1].hash)
  }

  /** The derivative history; undefined when one of its events cannot be hashed. */
  function Relink(p: Primitives, a: HashAlgorithm, events: seq<Event>, m: Replacements): Option<seq<StoredEvent>> {
    if events == [] then Some([])
    else
      var n := |events| - 1;
      var earlier :- Relink(p, a, events[..n], m);
      var event := RewriteEvent(events[n], m, LastHash(earlier));
      var hash :- ContentHash(p, a, event);
      Some(earlier + [StoredEvent(hash, event)])
  }

  ghost predicate RelinkedAt(p: Primitives, a: HashAlgorithm, events: seq<Event>, m: Replacements,
                             out: seq<StoredEvent>, i: nat)
    requires i < |events| == |out|
  {
    && out[i].event == RewriteEvent(events[i], m, if i == 0 then None else Some(out[i - 1].hash))
    && ContentHash(p, a, out[i].event) == Some(out[i].hash)
  }

  ghost predicate Relinked(p: Primitives, a: HashAlgorithm, events: seq<Event>, m: Replacements, out: seq<StoredEvent>)
  {
    |out| == |events| && forall i :: 0 <= i < |out| ==> RelinkedAt(p, a, events, m, out, i)
  }

  lemma {:induction false} RelinkEntries(p: Primitives, a: HashAlgorithm, events: seq<Event>, m: Replacements)
    requires Relink(p, a, events, m).Some?
    ensures Relinked(p, a, events, m, Relink(p, a, events, m).value)
  {
    hide ContentHash, RewriteEvent;
    if events != [] {
      var n := |events| - 1;
      RelinkEntries(p, a, events[..n], m);
      var earlier, out := Relink(p, a, events[..n], m).value, Relink(p, a, events, m).value;
      assert out[..n] == earlier;
      forall i | 0 <= i < |out|
        ensures RelinkedAt(p, a, events, m, out, i)
      {
        if i < n {
          assert RelinkedAt(p, a, events[..n], m, earlier, i);
          assert out[i] == earlier[i] && (i > 0 ==> out[i - 1] == earlier[i - 1]);
        }
      }
    }
  }

  lemma {:induction false} RelinkStops(p: Primitives, a: HashAlgorithm, events: seq<Event>, m: Replacements, i: nat)
    requires i <= |events| && Relink(p, a, events[..i], m).None?
    ensures Relink(p, a, events, m).None?
    decreases |events|
  {
    hide ContentHash, RewriteEvent;
    if i == |events| {
      assert events[..i] == events;
    } else {
      assert events[..|events| - 1][..i] == events[..i];
      RelinkStops(p, a, events[..|events| - 1], m, i);
    }
  }

  /** How many recorded hashes differ. */
  function Changed(before: seq<StoredEvent>, after: seq<StoredEvent>): nat
    requires |before| == |after|
  {
    if before == [] then 0
    else
      var n := |before| - 1;
      Changed(before[..n], after[..n]) + (if after[n].hash != before[n].hash then 1 else 0)
  }

  method RewriteHistory(p: Primitives, a: HashAlgorithm, history: seq<StoredEvent>, m: Replacements)
    returns (r: Result<(seq<StoredEvent>, nat), RedactError>)
    ensures r.Ok? <==> Relink(p, a, EventsOf(history), m).Some?
    ensures r.Ok? ==> Relink(p, a, EventsOf(history), m) == Some(r.value.0) && |r.value.0| == |history|
    ensures r.Ok? ==> r.value.1 == Changed(history, r.value.0)
    ensures r.Err? ==> r.error == BundleFailure
  {
    hide ContentHash, Rewritten, Relink, Changed;
    ghost var events := EventsOf(history);
    var out: seq<StoredEvent> := [];
    var count: nat := 0;
    RelinkNothing(p, a, events, m, history);
    for i := 0 to |history|
      invariant |out| == i && Relink(p, a, events[..i], m) == Some(out)
      invariant count == Changed(history[..i], out)
    {
      var event := history[i].event;
      var kind, _ := RewriteEventKindHashes(event.kind, m);
      var parents := event.parents;
      if i > 0 {
        var prev := out[i - 1].hash;
        parents := if parents == [] then [prev] else parents[0 := prev];
      }
      var rewritten := Event(parents, kind, event.emittedAt, event.sequence);
      var hash := ContentHash(p, a, rewritten);
      RelinkStep(p, a, events, m, i, out, rewritten, hash);
      if hash.None? {
        RelinkStops(p, a, events, m, i + 1);
        return Err(BundleFailure);
      }
      ChangedStep(history, i, out, StoredEvent(hash.value, rewritten));
      if hash.value != history[i].hash {
        count := count + 1;
      }
      out := out + [StoredEvent(hash.value, rewritten)];
    }
    assert events[..|history|] == events && history[..|history|] == history;
    return Ok((out, count));
  }

  lemma RelinkNothing(p: Primitives, a: HashAlgorithm, events: seq<Event>, m: Replacements, history: seq<StoredEvent>)
    ensures Relink(p, a, events[..0], m) == Some([]) && Changed(history[..0], []) == 0
  {
  }

  lemma RelinkStep(p: Primitives, a: HashAlgorithm, events: seq<Event>, m: Replacements, i: nat, out: seq<StoredEvent>,
                   event: Event, hash: Option<Hash>)
    requires i < |events| && Relink(p, a, events[..i], m) == Some(out)
    requires event == RewriteEvent(events[i], m, LastHash(out)) && hash == ContentHash(p, a, event)
    ensures Relink(p, a, events[..i + 1], m) == MapOption(hash, (h: Hash) => out + [StoredEvent(h, event)])
  {
    hide ContentHash, RewriteEvent;
    var prefix := events[..i + 1];
    assert prefix[..i] == events[..i] && prefix[i] == events[i];
  }

  lemma ChangedStep(history: seq<StoredEvent>, i: nat, out: seq<StoredEvent>, next: StoredEvent)
    requires i < |history| && |out| == i
    ensures Changed(history[..i + 1], out + [next]) == Changed(history[..i], out)
            + (if next.hash != history[i].hash then 1 else 0)
  {
    assert history[..i + 1][..i] == history[..i] && (out + [next])[..i] == out;
  }

  // ---------------------------------------------------------------- references after rewriting

  lemma RewrittenVariant(kind: EventKind, m: Replacements)
    ensures Rewritten(kind, m).SessionStart? == kind.SessionStart?
    ensures Rewritten(kind, m).SessionEnd? == kind.SessionEnd?
    ensures AttemptsInOrder(Rewritten(kind, m)) <==> AttemptsInOrder(kind)
  {
    if kind.ProviderCall? {
      var s, t := kind.attempts, Rewritten(kind, m).attempts;
      assert |t| == |s|;
      assert forall i :: 0 <= i < |s| ==> t[i].attemptNumber == s[i].attemptNumber && t[i].startedAt == s[i].startedAt;
    }
  }

  lemma RewrittenRefs(kind: EventKind, m: Replacements)
    ensures Refs(Rewritten(kind, m)) == MapSeq(Refs(kind), Replacer(m))
  {
    MapKindRefs(kind, Replacer(m), Keep);
  }

  /** Some requested object of the source has a sentinel with digest `h`. */
  ghost predicate IsSentinelDigest(events: seq<Event>, m: Replacements, h: Hash) {
    exists r :: r in m && m[r] == h && Referenced(events, r)
  }

  lemma ReferencedAfter(p: Primitives, a: HashAlgorithm, events: seq<Event>, m: Replacements, out: seq<StoredEvent>,
                        h: Hash)
    requires Relinked(p, a, events, m, out)
    ensures Referenced(EventsOf(out), h) <==> (Referenced(events, h) && h !in m) || IsSentinelDigest(events, m, h)
  {
    hide ContentHash, Refs, Rewritten;
    forall i | 0 <= i < |events|
      ensures Refs(out[i].event.kind) == MapSeq(Refs(events[i].kind), Replacer(m))
    {
      assert RelinkedAt(p, a, events, m, out, i);
      RewrittenRefs(events[i].kind, m);
    }
    if Referenced(EventsOf(out), h) {
      var i :| 0 <= i < |out| && h in Refs(EventsOf(out)[i].kind);
      var q :| 0 <= q < |Refs(out[i].event.kind)| && Refs(out[i].event.kind)[q] == h;
      var r := Refs(events[i].kind)[q];
      assert h == Replace(m, r) && r in Refs(events[i].kind);
      assert Referenced(events, r);
    }
    if Referenced(events, h) && h !in m {
      StillReferenced(events, m, out, h);
    }
    if IsSentinelDigest(events, m, h) {
      var r :| r in m && m[r] == h && Referenced(events, r);
      StillReferenced(events, m, out, r);
    }
  }

  lemma StillReferenced(events: seq<Event>, m: Replacements, out: seq<StoredEvent>, r: Hash)
    requires |out| == |events|
    requires forall i :: 0 <= i < |events| ==> Refs(out[i].event.kind) == MapSeq(Refs(events[i].kind), Replacer(m))
    requires Referenced(events, r)
    ensures Referenced(EventsOf(out), Replace(m, r))
  {
    hide Refs;
    var i :| 0 <= i < |events| && r in Refs(events[i].kind);
    var q :| 0 <= q < |Refs(events[i].kind)| && Refs(events[i].kind)[q] == r;
    assert Refs(out[i].event.kind)[q] == Replace(m, r);
    assert Replace(m, r) in Refs(EventsOf(out)[i].kind);
  }

  // ---------------------------------------------------------------- the whole operation

  /** What a successful redaction has done. */
  ghost predicate RedactionOf(p: Primitives, a: HashAlgorithm, stored: map<Digest, Bytes>, history: seq<StoredEvent>,
                              requested: seq<Hash>, why: Redaction, d: Derivative)
  {
    && Replacing(p, a, stored, requested, why, d.replacements, d.sentinels)
    && Relink(p, a, EventsOf(history), d.replacements) == Some(d.history)
    && |d.history| == |history| > 0
    && d.rewrittenCount == Changed(history, d.history)
    && d.bundle.events == EventsOf(d.history)
    && Collected(stored, a, d.sentinels, d.bundle.events, d.bundle.objects)
    && var manifest := d.bundle.manifest;
    && manifest.session.head == d.history[|d.history| - 1].hash.ToHex()
    && manifest.hashAlgorithm == AlgorithmName(a)
    && manifest.objectCount == |d.bundle.objects| % TWO_64
    && manifest.eventCount == |d.bundle.events|
    && manifest.signatures.None? && manifest.operatorAttestations.None? && manifest.extra == map[]
  }

  datatype Derivative = Derivative(
    replacements: Replacements,
    sentinels: map<Hash, Bytes>,
    history: seq<StoredEvent>,
    rewrittenCount: nat,
    bundle: BundleContents)

  /** Every reference of the history, as a set. */
  method ReferencedSet(events: seq<Event>) returns (refs: set<Hash>)
    ensures forall h :: h in refs <==> Referenced(events, h)
  {
    hide Refs;
    refs := {};
    for i := 0 to |events|
      invariant forall h :: h in refs <==> ReferencedIn(events, i, h)
    {
      var found := Refs(events[i].kind);
      forall h
        ensures ReferencedIn(events, i + 1, h) <==> ReferencedIn(events, i, h) || h in found
      {
      }
      refs := refs + (set h | h in found);
    }
    forall h
      ensures Referenced(events, h) <==> ReferencedIn(events, |events|, h)
    {
    }
  }

  method CheckRequested(events: seq<Event>, requested: seq<Hash>) returns (r: Result<(), RedactError>)
    ensures r.Ok? <==> forall h :: h in requested ==> Referenced(events, h)
    ensures r.Err? ==> r.error.ObjectNotInSession? && r.error.absent in requested && !Referenced(events, r.error.absent)
  {
    hide Referenced;
    var refs := ReferencedSet(events);
    for i := 0 to |requested|
      invariant forall j :: 0 <= j < i ==> Referenced(events, requested[j])
    {
      if requested[i] !in refs {
        assert requested[i] in requested;
        return Err(ObjectNotInSession(requested[i]));
      }
    }
    return Ok(());
  }

  /** The digest each requested object's sentinel has. */
  ghost function ReplacementMap(p: Primitives, a: HashAlgorithm, stored: map<Digest, Bytes>, requested: set<Hash>,
                                why: Redaction): Replacements
    requires forall h :: h in requested ==> h.bytes in stored
  {
    map h | h in requested :: DigestBytes(p, a, SentinelBytes(SentinelFor(stored, h, why)))
  }

  function AsSet(s: seq<Hash>): set<Hash> {
    set h | h in s
  }

  lemma ReplacementsFixed(p: Primitives, a: HashAlgorithm, stored: map<Digest, Bytes>, requested: seq<Hash>,
                          why: Redaction, m: Replacements, sentinels: map<Hash, Bytes>)
    requires Replacing(p, a, stored, requested, why, m, sentinels)
    ensures forall h :: h in requested ==> h.bytes in stored
    ensures m == ReplacementMap(p, a, stored, AsSet(requested), why)
  {
    hide SentinelFor, SentinelBytes, SentinelCbor, Fits, SentinelUnder, DigestBytes;
    forall h | h in requested
      ensures SentinelOf(p, a, stored, why, m, sentinels, h)
    {
    }
  }

  ghost predicate AllReferenced(events: seq<Event>, requested: seq<Hash>) {
    forall h :: h in requested ==> Referenced(events, h)
  }

  /** Every object of the session is in the store. */
  ghost predicate AllStored(stored: map<Digest, Bytes>, a: HashAlgorithm, events: seq<Event>) {
    AllObtainable(stored, a, map[], events)
  }

  /** The rewritten events can be hashed. */
  ghost predicate Relinkable(p: Primitives, a: HashAlgorithm, stored: map<Digest, Bytes>, events: seq<Event>,
                             requested: seq<Hash>, why: Redaction)
  {
    && (forall h :: h in requested ==> h.bytes in stored)
    && Relink(p, a, events, ReplacementMap(p, a, stored, AsSet(requested), why)).Some?
  }

  /** When a session can be redacted over a working store. */
  ghost predicate Redactable(p: Primitives, a: HashAlgorithm, stored: map<Digest, Bytes>, events: seq<Event>,
                             requested: seq<Hash>, why: Redaction)
  {
    && FirstStart(events).Some? && LastEnd(events).Some?
    && AllReferenced(events, requested) && AllStored(stored, a, events)
    && Replaceable(p, a, stored, requested, why)
    && Relinkable(p, a, stored, events, requested, why)
  }

  lemma RelinkedVariants(p: Primitives, a: HashAlgorithm, events: seq<Event>, m: Replacements, out: seq<StoredEvent>)
    requires Relinked(p, a, events, m, out)
    ensures FirstStart(EventsOf(out)).Some? == FirstStart(events).Some?
    ensures LastEnd(EventsOf(out)).Some? == LastEnd(events).Some?
  {
    hide ContentHash, Rewritten;
    var after := EventsOf(out);
    forall i | 0 <= i < |events|
      ensures after[i].kind.SessionStart? == events[i].kind.SessionStart?
      ensures after[i].kind.SessionEnd? == events[i].kind.SessionEnd?
    {
      assert RelinkedAt(p, a, events, m, out, i);
      RewrittenVariant(events[i].kind, m);
    }
    FirstStartExists(events);
    FirstStartExists(after);
    LastEndExists(events);
    LastEndExists(after);
  }

  /** A reference of the derivative that is no sentinel's digest is an unrequested one of the source. */
  lemma OrdinaryReference(p: Primitives, a: HashAlgorithm, stored: map<Digest, Bytes>, events: seq<Event>,
                          requested: seq<Hash>, why: Redaction, m: Replacements, sentinels: map<Hash, Bytes>,
                          out: seq<StoredEvent>, h: Hash)
    requires Replacing(p, a, stored, requested, why, m, sentinels)
    requires Relinked(p, a, events, m, out) && Referenced(EventsOf(out), h)
    ensures h in sentinels || (Referenced(events, h) && h !in requested)
  {
    hide SentinelFor, SentinelBytes, SentinelCbor, Fits, SentinelUnder, DigestBytes, Relinked, Referenced;
    ReferencedAfter(p, a, events, m, out, h);
    if IsSentinelDigest(events, m, h) {
      var r :| r in m && m[r] == h;
      assert SentinelOf(p, a, stored, why, m, sentinels, r);
    }
  }

  lemma DerivativeObtainable(p: Primitives, a: HashAlgorithm, stored: map<Digest, Bytes>, events: seq<Event>,
                             requested: seq<Hash>, why: Redaction, m: Replacements, sentinels: map<Hash, Bytes>,
                             out: seq<StoredEvent>)
    requires Replacing(p, a, stored, requested, why, m, sentinels)
    requires Relinked(p, a, events, m, out) && AllStored(stored, a, events)
    ensures AllObtainable(stored, a, sentinels, EventsOf(out))
  {
    hide Refs, Replacing, Relinked;
    forall i, h | 0 <= i < |out| && h in Refs(EventsOf(out)[i].kind)
      ensures Obtainable(stored, a, sentinels, h)
    {
      assert Referenced(EventsOf(out), h);
      OrdinaryReference(p, a, stored, events, requested, why, m, sentinels, out, h);
      if h !in sentinels {
        var j :| 0 <= j < |events| && h in Refs(events[j].kind);
        assert Obtainable(stored, a, map[], h);
      }
    }
  }

  /** What each refusal of a redaction of `requested` means. */
  ghost predicate Explained(p: Primitives, a: HashAlgorithm, stored: map<Digest, Bytes>, reliable: bool,
                            events: seq<Event>, requested: seq<Hash>, why: Redaction, error: RedactError)
  {
    match error
    case ObjectNotInSession(h) => h in requested && !Referenced(events, h)
    case ObjectMissing(h) => Referenced(events, h) && h.algorithm == a && h.bytes !in stored
    case IoError(e) => (e == Storage && !reliable) || (e == AlgorithmMismatch && SomeForeign(a, map[], events))
    case BundleFailure =>
      || (exists h :: h in requested && CannotSerialize(p, stored, why, h))
      || ((forall h :: h in requested ==> h.bytes in stored)
          && Relink(p, a, events, ReplacementMap(p, a, stored, AsSet(requested), why)).None?)
    case MalformedSession => FirstStart(events).None? || LastEnd(events).None?
    case InvalidObjectHash(_) => false
  }

  lemma MalformedExplained(p: Primitives, a: HashAlgorithm, stored: map<Digest, Bytes>, reliable: bool,
                           events: seq<Event>, requested: seq<Hash>, why: Redaction)
    ensures FirstStart(events).None? || LastEnd(events).None? ==>
              Explained(p, a, stored, reliable, events, requested, why, MalformedSession)
  {
  }

  /** Collects the objects of the rewritten history; a failure is told in terms of the source. */
  method CollectDerivative(store: ObjectStore, ghost events: seq<Event>, ghost requested: seq<Hash>,
                           ghost why: Redaction, ghost m: Replacements, sentinels: map<Hash, Bytes>,
                           out: seq<StoredEvent>)
    returns (r: Result<map<Hash, Bytes>, RedactError>)
    requires Replacing(store.p, store.algorithm, store.objects, requested, why, m, sentinels)
    requires Relinked(store.p, store.algorithm, events, m, out)
    ensures r.Ok? ==> Collected(store.objects, store.algorithm, sentinels, EventsOf(out), r.value)
    ensures r.Ok? <== store.reliable && AllStored(store.objects, store.algorithm, events)
    ensures r.Err? ==> r.error.ObjectMissing? || r.error.IoError?
    ensures r.Err? ==> Explained(store.p, store.algorithm, store.objects, store.reliable, events, requested, why,
                                 r.error)
  {
    hide Replacing, Relinked, Collected, Referenced, AllObtainable, AllStored, Relink;
    ghost var p, a, stored := store.p, store.algorithm, store.objects;
    var objects := CollectObjects(store, sentinels, EventsOf(out));
    if AllStored(stored, a, events) {
      DerivativeObtainable(p, a, stored, events, requested, why, m, sentinels, out);
    }
    if objects.Ok? {
      return Ok(objects.value);
    }
    match objects.error {
      case MissingFromStore(h) =>
        OrdinaryReference(p, a, stored, events, requested, why, m, sentinels, out, h);
        return Err(ObjectMissing(h));
      case StoreFailed(e) =>
        if e == AlgorithmMismatch {
          ghost var h :| Referenced(EventsOf(out), h) && Foreign(a, sentinels, h);
          OrdinaryReference(p, a, stored, events, requested, why, m, sentinels, out, h);
          assert Referenced(events, h) && Foreign(a, map[], h);
        }
        return Err(IoError(e));
    }
  }

  /** Collects the objects and writes the manifest of a rewritten history. */
  method BuildDerivative(graph: SessionGraph, ghost requested: seq<Hash>, ghost why: Redaction, m: Replacements,
                         sentinels: map<Hash, Bytes>, out: seq<StoredEvent>, count: nat, producerVersion: string)
    returns (r: Result<Derivative, RedactError>)
    requires |graph.events| < TWO_64
    requires Replacing(graph.store.p, graph.store.algorithm, graph.store.objects, requested, why, m, sentinels)
    requires Relink(graph.store.p, graph.store.algorithm, EventsOf(graph.events), m) == Some(out)
    requires |out| == |graph.events| && count == Changed(graph.events, out)
    ensures r.Ok? ==>
              && RedactionOf(graph.store.p, graph.store.algorithm, graph.store.objects, graph.events, requested, why,
                             r.value)
              && Stamped(graph.sessionId, producerVersion, r.value.bundle)
    ensures r.Ok? <== graph.store.reliable && FirstStart(EventsOf(graph.events)).Some?
            && LastEnd(EventsOf(graph.events)).Some?
                      && AllStored(graph.store.objects, graph.store.algorithm, EventsOf(graph.events))
    ensures r.Err? ==> !r.error.InvalidObjectHash?
                       && Explained(graph.store.p, graph.store.algorithm, graph.store.objects, graph.store.reliable,
                                    EventsOf(graph.events), requested, why, r.error)
  {
    hide Replacing, Relink, Relinked, Changed, Collected, AllStored, Referenced, FormatIso, Explained, CannotSerialize;
    var a := graph.store.algorithm;
    MalformedExplained(graph.store.p, a, graph.store.objects, graph.store.reliable, EventsOf(graph.events), requested,
                       why);
    RelinkEntries(graph.store.p, a, EventsOf(graph.events), m);
    RelinkedVariants(graph.store.p, a, EventsOf(graph.events), m, out);
    if out == [] {
      return Err(MalformedSession);
    }
    var start := FirstStart(EventsOf(out));
    if start.None? {
      return Err(MalformedSession);
    }
    var end := LastEnd(EventsOf(out));
    if end.None? {
      return Err(MalformedSession);
    }
    var objects := CollectDerivative(graph.store, EventsOf(graph.events), requested, why, m, sentinels, out);
    if objects.Err? {
      return Err(objects.error);
    }
    var manifest := BundleManifest(graph.sessionId, producerVersion, a, out[|out| - 1].hash, start.value, end.value,
                                   |objects.value| % TWO_64, |out|);
    var bundle := BundleContents(manifest, EventsOf(out), objects.value);
    return Ok(Derivative(m, sentinels, out, count, bundle));
  }

  /**
   Redacts the objects named by `values`. The source session and its store are only read. A request
   that can be carried out is, and every refusal is explained.
   */
  method Redact(graph: SessionGraph, values: seq<string>, why: Redaction, producerVersion: string)
    returns (r: Result<Derivative, RedactError>)
    requires |graph.events| < TWO_64
    ensures r.Ok? ==>
              && AllParse(graph.store.algorithm, values)
              && AllReferenced(EventsOf(graph.events), RequestedHashes(graph.store.algorithm, values))
              && RedactionOf(graph.store.p, graph.store.algorithm, graph.store.objects, graph.events,
                             RequestedHashes(graph.store.algorithm, values), why, r.value)
              && Stamped(graph.sessionId, producerVersion, r.value.bundle)
    ensures r.Ok? <== graph.store.reliable && graph.head.Some? && AllParse(graph.store.algorithm, values)
                      && Redactable(graph.store.p, graph.store.algorithm, graph.store.objects, EventsOf(graph.events),
                                    RequestedHashes(graph.store.algorithm, values), why)
    ensures r.Err? && r.error.InvalidObjectHash? ==>
              r.error.text in values && ParseHex(graph.store.algorithm, r.error.text).None?
    ensures r.Err? && !r.error.InvalidObjectHash? ==>
              || (r.error.MalformedSession? && graph.head.None?)
              || Explained(graph.store.p, graph.store.algorithm, graph.store.objects, graph.store.reliable,
                           EventsOf(graph.events),
                           RequestedHashes(graph.store.algorithm, values), why, r.error)
  {
    hide ParseHex, Replacing, Relink, Relinked, Changed, Collected, Referenced, Requested, NoDuplicates, AllObtainable,
         CannotSerialize, FormatIso, RequestedHashes;
    var a := graph.store.algorithm;
    var history := graph.events;
    ghost var events := EventsOf(history);
    var parsed := ParseRequestedRedactHashes(a, values);
    if parsed.Err? {
      return Err(InvalidObjectHash(parsed.error));
    }
    var requested := parsed.value;
    if graph.head.None? {
      return Err(MalformedSession);
    }
    var checked := CheckRequested(EventsOf(history), requested);
    if checked.Err? {
      return Err(checked.error);
    }
    var built := BuildSentinels(graph.store, requested, why);
    if built.Err? {
      if built.error.IoError? && built.error.cause == AlgorithmMismatch {
        ghost var h :| h in requested && h.algorithm != a;
        assert Referenced(events, h) && Foreign(a, map[], h);
      }
      return Err(built.error);
    }
    var m, sentinels := built.value.0, built.value.1;
    ReplacementsFixed(graph.store.p, a, graph.store.objects, requested, why, m, sentinels);
    var rewritten := RewriteHistory(graph.store.p, a, history, m);
    if rewritten.Err? {
      return Err(rewritten.error);
    }
    var out, count := rewritten.value.0, rewritten.value.1;
    r := BuildDerivative(graph, requested, why, m, sentinels, out, count, producerVersion);
  }
}
