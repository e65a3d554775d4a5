/** OTEL capture information recorded inside the hash chain. */
module Capture {
  import opened Foundation
  import opened Events
  import opened Archive
  import opened Json

  datatype OtelCaptureInfo = OtelCaptureInfo(captureLevel: string, sourceSemconv: string)

  /** The JSON reader. */
  type JsonReader = Bytes -> Option<Json>

  function FirstConfigHash(events: seq<Event>): Option<Hash> {
    if events == [] then None
    else if events[0].kind.SessionStart? then Some(events[0].kind.configHash)
    else FirstConfigHash(events[1..])
  }

  function Field(v: Json, key: string): Option<Json> {
    if v.JObject? then Lookup(v.members, key) else None
  }

  function TextOr(v: Option<Json>, fallback: string): string {
    if v.Some? && v.value.JString? then v.value.s else fallback
  }

  function CaptureInfo(parse: JsonReader, c: BundleContents): Option<OtelCaptureInfo> {
    var configHash :- FirstConfigHash(c.events);
    if configHash !in c.objects then None
    else
      var value :- parse(c.objects[configHash]);
      if Field(value, "akmon_otel_config") != Some(JBool(true)) then None
      else Some(OtelCaptureInfo(TextOr(Field(value, "capture_level"), "unknown"),
                                TextOr(Field(value, "source_semconv"), "")))
  }

  // ---------------------------------------------------------------- what it means

  /** The value under `key` in an object; if the key repeats, the first counts. */
  ghost predicate HasMember(v: Json, key: string, x: Json) {
    v.JObject? && exists i ::
      0 <= i < |v.members| && v.members[i] == (key, x) && forall j :: 0 <= j < i ==> v.members[j].0 != key
  }

  /** The JSON value of the object that the first session start names as its configuration. */
  ghost predicate IsConfig(parse: JsonReader, c: BundleContents, v: Json) {
    exists i ::
      && 0 <= i < |c.events| && c.events[i].kind.SessionStart?
      && (forall j :: 0 <= j < i ==> !c.events[j].kind.SessionStart?)
      && c.events[i].kind.configHash in c.objects && parse(c.objects[c.events[i].kind.configHash]) == Some(v)
  }

  /** The configuration of a session that was imported from an OTEL trace. */
  ghost predicate IsOtelConfig(parse: JsonReader, c: BundleContents, v: Json) {
    IsConfig(parse, c, v) && HasMember(v, "akmon_otel_config", JBool(true))
  }

  /** `text` is the string under `key`, or `fallback` if there is none. */
  ghost predicate TextUnder(v: Json, key: string, fallback: string, text: string) {
    || HasMember(v, key, JString(text))
    || (text == fallback && forall t :: !HasMember(v, key, JString(t)))
  }

  lemma {:induction false} LookupFirst(ms: seq<(string, Json)>, key: string, x: Json)
    ensures Lookup(ms, key) == Some(x) <==> HasMember(JObject(ms), key, x)
  {
    if ms != [] {
      LookupFirst(ms[1..], key, x);
      if ms[0].0 != key {
        if HasMember(JObject(ms[1..]), key, x) {
          var i :| 0 <= i < |ms[1..]| && ms[1..][i] == (key, x) && forall j :: 0 <= j < i ==> ms[1..][j].0 != key;
          assert ms[i + 1] == (key, x) && forall j :: 0 < j < i + 1 ==> ms[j] == ms[1..][j - 1];
        }
        if HasMember(JObject(ms), key, x) {
          var i :| 0 <= i < |ms| && ms[i] == (key, x) && forall j :: 0 <= j < i ==> ms[j].0 != key;
          assert ms[1..][i - 1] == (key, x) && forall j :: 0 <= j < i - 1 ==> ms[1..][j] == ms[j + 1];
        }
      } else {
        assert ms[0] == (key, ms[0].1);
      }
    }
  }

  lemma FieldMeans(v: Json, key: string)
    ensures forall x :: Field(v, key) == Some(x) <==> HasMember(v, key, x)
  {
    hide Lookup;
    if v.JObject? {
      forall x
        ensures Field(v, key) == Some(x) <==> HasMember(v, key, x)
      {
        LookupFirst(v.members, key, x);
      }
    }
  }

  lemma {:induction false} FirstConfigHashAt(events: seq<Event>, h: Hash)
    ensures FirstConfigHash(events) == Some(h) <==> exists i ::
              && 0 <= i < |events| && events[i].kind.SessionStart? && events[i].kind.configHash == h
              && forall j :: 0 <= j < i ==> !events[j].kind.SessionStart?
  {
    if events != [] && !events[0].kind.SessionStart? {
      FirstConfigHashAt(events[1..], h);
      assert forall j :: 0 < j < |events| ==> events[j] == events[1..][j - 1];
      if i :| 0 <= i < |events[1..]| && events[1..][i].kind.SessionStart? && events[1..][i].kind.configHash == h
              && forall j :: 0 <= j < i ==> !events[1..][j].kind.SessionStart? {
        assert events[i + 1].kind.configHash == h;
      }
      if i :| 0 <= i < |events| && events[i].kind.SessionStart? && events[i].kind.configHash == h
              && forall j :: 0 <= j < i ==> !events[j].kind.SessionStart? {
        assert events[1..][i - 1].kind.configHash == h;
      }
    }
  }

  lemma ConfigMeans(parse: JsonReader, c: BundleContents, v: Json)
    ensures IsConfig(parse, c, v) <==>
            && FirstConfigHash(c.events).Some? && FirstConfigHash(c.events).value in c.objects
            && parse(c.objects[FirstConfigHash(c.events).value]) == Some(v)
  {
    if FirstConfigHash(c.events).Some? {
      FirstConfigHashAt(c.events, FirstConfigHash(c.events).value);
    }
    if IsConfig(parse, c, v) {
      var i :|
        && 0 <= i < |c.events| && c.events[i].kind.SessionStart?
        && (forall j :: 0 <= j < i ==> !c.events[j].kind.SessionStart?)
        && c.events[i].kind.configHash in c.objects && parse(c.objects[c.events[i].kind.configHash]) == Some(v);
      FirstConfigHashAt(c.events, c.events[i].kind.configHash);
    }
  }

  /** Capture information is found exactly in OTEL imports, and holds what their configuration records. */
  lemma CaptureExact(parse: JsonReader, c: BundleContents)
    ensures CaptureInfo(parse, c).Some? <==> exists v :: IsOtelConfig(parse, c, v)
    ensures forall v :: IsOtelConfig(parse, c, v) ==>
              && TextUnder(v, "capture_level", "unknown", CaptureInfo(parse, c).value.captureLevel)
              && TextUnder(v, "source_semconv", "", CaptureInfo(parse, c).value.sourceSemconv)
  {
    hide HasMember, IsConfig, Field, FirstConfigHash;
    forall v
      ensures IsOtelConfig(parse, c, v) ==>
                && CaptureInfo(parse, c).Some?
                && TextUnder(v, "capture_level", "unknown", CaptureInfo(parse, c).value.captureLevel)
                && TextUnder(v, "source_semconv", "", CaptureInfo(parse, c).value.sourceSemconv)
    {
      ConfigMeans(parse, c, v);
      FieldMeans(v, "akmon_otel_config");
      FieldMeans(v, "capture_level");
      FieldMeans(v, "source_semconv");
    }
    if CaptureInfo(parse, c).Some? {
      var v := parse(c.objects[FirstConfigHash(c.events).value]).value;
      ConfigMeans(parse, c, v);
      FieldMeans(v, "akmon_otel_config");
      assert IsOtelConfig(parse, c, v);
    }
  }

  /** A native session, or an OTEL import that was captured in full. */
  ghost predicate CapturedInFull(parse: JsonReader, c: BundleContents) {
    forall v :: IsOtelConfig(parse, c, v) ==> HasMember(v, "capture_level", JString("full"))
  }

  lemma CapturedInFullMeans(parse: JsonReader, c: BundleContents)
    ensures CapturedInFull(parse, c) <==>
              (CaptureInfo(parse, c).Some? ==> CaptureInfo(parse, c).value.captureLevel == "full")
  {
    hide HasMember, IsOtelConfig, CaptureInfo;
    CaptureExact(parse, c);
    assert "unknown"[0] != "full"[0];
    forall v | IsOtelConfig(parse, c, v)
      ensures HasMember(v, "capture_level", JString("full")) <==> CaptureInfo(parse, c).value.captureLevel == "full"
    {
      OneMember(v, "capture_level");
    }
  }

  lemma OneMember(v: Json, key: string)
    ensures forall x, y :: HasMember(v, key, x) && HasMember(v, key, y) ==> x == y
  {
    hide Field, HasMember;
    FieldMeans(v, key);
    assert forall x, y :: HasMember(v, key, x) && HasMember(v, key, y) ==> Some(x) == Field(v, key) == Some(y);
  }
}

/** Tamper evidence from archive bytes up. */
module Evidence {
  import opened Foundation
  import opened Events
  import opened Errors
  import opened Framing
  import opened Manifests
  import opened Archive
  import opened ArchiveLaws
  import opened Verifier
  import opened Integrity
  import opened Capture

  /** The bytes of the event stream in an accepted archive. */
  function EventsBin(opts: ReadOptions, entries: seq<Entry>): Bytes {
    match Gather(entries, opts.allowExtraFiles)
    case Err(_) => []
    case Ok(g) => if g.events.Some? then g.events.value else []
  }

  /** What the reader returned pins down the stream bytes it was given. */
  lemma ReadFixesStream(lib: Library, opts: ReadOptions, entries: seq<Entry>)
    requires LawfulDecoder(lib.decode)
    requires ReadEntries(lib, opts, entries).Ok?
    ensures var c := ReadEntries(lib, opts, entries).value;
            && ParseAlgorithm(c.manifest.hashAlgorithm) == Some(AlgorithmOf(c.manifest))
            && AllNormalised(AlgorithmOf(c.manifest), c.events)
            && StreamBytes(lib.p, c.events) == Some(EventsBin(opts, entries))
            && Accepted(c.manifest, lib.isTimestamp)
  {
    hide Gather, Assemble, ParseStream, ObjectMap, AllNormalised, StreamBytes, FramesFit, DescribesObjects,
         ManifestFromJson, ValidateAll, ValidateAgefVersion, IsObjectName, ObjectHash;
    var c := ReadEntries(lib, opts, entries).value;
    var g := Gather(entries, opts.allowExtraFiles).value;
    AssembleExact(lib, opts, g, c);
    StreamExact(lib.p, lib.decode, AlgorithmOf(c.manifest), opts.maxEventFrameLen, c.events, g.events.value);
  }

  /**
   Two archives that are accepted and verify clean, with one hash algorithm and one head, carry the
   same events, byte-identical event streams, the same objects and the same capture information;
   otherwise two different byte strings hashed by the two verifications collide.
   */
  lemma ArchivesTamperEvident(
      lib: Library, parse: JsonReader, opts1: ReadOptions, opts2: ReadOptions, entries1: seq<Entry>,
      entries2: seq<Entry>)
    requires LawfulDecoder(lib.decode)
    requires ReadEntries(lib, opts1, entries1).Ok? && ReadEntries(lib, opts2, entries2).Ok?
    requires var c, d := ReadEntries(lib, opts1, entries1).value, ReadEntries(lib, opts2, entries2).value;
             && Clean(lib.p, c) && Clean(lib.p, d)
             && c.manifest.hashAlgorithm == d.manifest.hashAlgorithm
             && c.manifest.session.head == d.manifest.session.head
    ensures var c, d := ReadEntries(lib, opts1, entries1).value, ReadEntries(lib, opts2, entries2).value;
            || CollisionBetween(lib.p, AlgorithmOf(c.manifest), c, d)
            || (&& c.events == d.events
                && EventsBin(opts1, entries1) == EventsBin(opts2, entries2)
                && c.objects == d.objects
                && CaptureInfo(parse, c) == CaptureInfo(parse, d))
  {
    hide ReadEntries, Clean, Intact, CollisionBetween, AllNormalised, EventsBin, StreamBytes, Accepted, FirstConfigHash,
         Field;
    var c, d := ReadEntries(lib, opts1, entries1).value, ReadEntries(lib, opts2, entries2).value;
    ReadFixesStream(lib, opts1, entries1);
    ReadFixesStream(lib, opts2, entries2);
    CleanExact(lib.p, c);
    CleanExact(lib.p, d);
    TamperEvident(lib.p, c, d);
  }

  /** Reads an archive and refuses it unless it is intact. */
  method ReadVerifiedBundle(lib: Library, opts: ReadOptions, entries: seq<Entry>)
    returns (r: Result<BundleContents, BundleError>)
    ensures forall c :: r == Ok(c) <==> ReadEntries(lib, opts, entries) == Ok(c) && Intact(lib.p, c)
  {
    hide ReadEntries, Intact, IsViolation;
    var contents :- ReadBundle(lib, opts, entries);
    var strict := VerifyBundleStrict(lib.p, contents);
    CleanExact(lib.p, contents);
    if strict.Err? {
      return Err(strict.error);
    }
    return Ok(contents);
  }

  /** An intact bundle is still intact after it is written, reordered and read back. */
  lemma IntactSurvivesArchive(
      lib: Library, opts: ReadOptions, c: BundleContents, written: seq<Entry>, entries: seq<Entry>)
    requires Lawful(lib)
    requires Intact(lib.p, c)
    requires Accepted(c.manifest, lib.isTimestamp) && PlainExtra(c.manifest)
    requires FramesFit(lib.p, opts.maxEventFrameLen, c.events)
    requires Written(lib, c.manifest, c.events, c.objects, written)
    requires multiset(entries) == multiset(written)
    ensures ReadEntries(lib, opts, entries)
            == Ok(BundleContents(c.manifest, NormaliseAll(AlgorithmOf(c.manifest), c.events), c.objects))
    ensures Intact(lib.p, ReadEntries(lib, opts, entries).value)
  {
    hide ReadEntries, Accepted, PlainExtra, FramesFit, Written, NormaliseAll, Sound, HashAt, ParseHex, LawfulDecoder,
         LawfulManifestCodec, DigestBytes;
    var a := AlgorithmOf(c.manifest);
    SoundKeys(lib.p, a, c.events, c.objects);
    WriteThenReadBundle(lib, opts, c.manifest, c.events, c.objects, written, entries);
    SoundNormalised(lib.p, a, c.events, c.objects);
    NormaliseAllLength(a, c.events);
  }

  lemma NormaliseAllLength(a: HashAlgorithm, events: seq<Event>)
    ensures |NormaliseAll(a, events)| == |events|
  {
  }

  lemma SoundKeys(p: Primitives, a: HashAlgorithm, events: seq<Event>, objects: map<Hash, Bytes>)
    requires Sound(p, a, events, objects)
    ensures KeyedBy(objects, a)
  {
    hide Linked, EndsOnce, AllAttemptsInOrder, Closed;
    forall h | h in objects
      ensures h.algorithm == a
    {
      assert DigestBytes(p, a, objects[h]) == h;
    }
  }
}
