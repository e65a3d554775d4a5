/** Exported and redacted bundles, written to an archive and read back. */
module Delivery {
  import opened Foundation
  import opened Text
  import opened Events
  import opened Framing
  import opened Manifests
  import opened Archive
  import opened ArchiveLaws
  import opened Verifier
  import opened Integrity
  import opened Evidence
  import opened Journal
  import opened Calendar
  import opened Transfer
  import opened Sentinels
  import opened Redactions
  import opened RedactionLaws

  /** Both times of the manifest are timestamps the reader accepts. */
  predicate ReadableTimes(m: Manifest, isTimestamp: TimestampCheck) {
    isTimestamp(m.session.createdAt) && isTimestamp(m.session.endedAt)
  }

  /** The session starts and ends in the year 0 or later. */
  predicate FromYearZero(events: seq<Event>)
    requires events != []
  {
    events[0].emittedAt >= FIRST_READABLE && events[|events| - 1].emittedAt >= FIRST_READABLE
  }

  /** The reader accepts a stamped manifest of an intact bundle exactly when its two times are readable. */
  lemma StampedAccepted(p: Primitives, sessionId: string, producerVersion: string, isTimestamp: TimestampCheck,
                        c: BundleContents)
    requires Intact(p, c) && Stamped(sessionId, producerVersion, c) && IsHyphenatedUuid(sessionId)
    requires exists h: Hash :: c.manifest.session.head == h.ToHex()
    requires c.manifest.extra == map[]
    ensures Accepted(c.manifest, isTimestamp) <==> ReadableTimes(c.manifest, isTimestamp)
    ensures PlainExtra(c.manifest)
  {
    hide Sound, HashAt, FirstStart, LastEnd, SplitOn, FormatIso, ParseSemver;
    SpecVersionParses();
  }

  /** With the exporter's rendering, the times are readable exactly from the year 0 on. */
  lemma StampedReadable(p: Primitives, sessionId: string, producerVersion: string, isTimestamp: TimestampCheck,
                        c: BundleContents)
    requires Intact(p, c) && Stamped(sessionId, producerVersion, c) && LawfulTimestampCheck(isTimestamp)
    ensures c.events != []
    ensures ReadableTimes(c.manifest, isTimestamp) <==> FromYearZero(c.events)
  {
    hide ContentHash, HashAt, FormatIso, LawfulTimestampCheck, Closed, KeyedByDigest, AllAttemptsInOrder, ParseHex,
         ParseAlgorithm;
    var last := c.events[|c.events| - 1];
    assert LinkedAt(p, ParseAlgorithm(c.manifest.hashAlgorithm).value, c.events, 0);
    assert FirstStart(c.events) == Some(c.events[0]) && LastEnd(c.events) == Some(last);
    ReadableExact(isTimestamp, c.events[0].emittedAt);
    ReadableExact(isTimestamp, last.emittedAt);
  }

  /** A decompressed archive whose entries, in any order, are those written for `c`. */
  ghost predicate ArchiveOf(lib: Library, tar: Tar, archive: Bytes, c: BundleContents) {
    var entries := Untar(tar, archive, 0).entries;
    entries.Some? && exists written ::
      Written(lib, c.manifest, c.events, c.objects, written) && multiset(entries.value) == multiset(written)
  }

  /** What a reader makes of a bundle: the events lose what the stream does not record. */
  function InNormalForm(c: BundleContents): BundleContents {
    c.(events := NormaliseAll(AlgorithmOf(c.manifest), c.events))
  }

  /** An intact bundle is read back from its archive exactly when size, manifest and frames are acceptable. */
  lemma ArchiveReadExact(lib: Library, opts: ReadOptions, tar: Tar, limit: u64, c: BundleContents, archive: Bytes)
    requires Lawful(lib) && Intact(lib.p, c) && PlainExtra(c.manifest) && ArchiveOf(lib, tar, archive, c)
    ensures ReadArchive(lib, opts, tar, limit, archive).Ok? <==>
            && Untar(tar, archive, 0).size <= limit && Accepted(c.manifest, lib.isTimestamp)
            && FramesFit(lib.p, opts.maxEventFrameLen, c.events)
    ensures ReadArchive(lib, opts, tar, limit, archive).Ok? ==>
              && ReadArchive(lib, opts, tar, limit, archive).value == InNormalForm(c)
              && Intact(lib.p, InNormalForm(c))
  {
    hide Intact, Lawful, ReadEntries, Accepted, PlainExtra, FramesFit, Written, NormaliseAll, Untar;
    var entries := Untar(tar, archive, 0).entries.value;
    var written :| Written(lib, c.manifest, c.events, c.objects, written) && multiset(entries) == multiset(written);
    IntactKeys(lib.p, c);
    WrittenReadExact(lib, opts, c.manifest, c.events, c.objects, written, entries);
    if Accepted(c.manifest, lib.isTimestamp) && FramesFit(lib.p, opts.maxEventFrameLen, c.events) {
      IntactSurvivesArchive(lib, opts, c, written, entries);
    }
  }

  lemma IntactKeys(p: Primitives, c: BundleContents)
    requires Intact(p, c)
    ensures KeyedBy(c.objects, AlgorithmOf(c.manifest))
  {
    hide Sound, HashAt, ParseHex;
    SoundKeys(p, AlgorithmOf(c.manifest), c.events, c.objects);
  }

  /** What stands between a stamped bundle and its reader: the archive's size, the session's times, long frames. */
  ghost predicate Deliverable(p: Primitives, opts: ReadOptions, limit: u64, size: nat, events: seq<Event>)
    requires events != []
  {
    size <= limit && FromYearZero(events) && FramesFit(p, opts.maxEventFrameLen, events)
  }

  /** A stamped intact bundle is read back from its archive exactly when it is deliverable. */
  lemma StampedDelivered(lib: Library, opts: ReadOptions, tar: Tar, limit: u64, sessionId: string,
                         producerVersion: string, c: BundleContents, archive: Bytes)
    requires Lawful(lib) && LawfulTimestampCheck(lib.isTimestamp)
    requires Intact(lib.p, c) && Stamped(sessionId, producerVersion, c) && IsHyphenatedUuid(sessionId)
    requires exists h: Hash :: c.manifest.session.head == h.ToHex()
    requires c.manifest.extra == map[] && ArchiveOf(lib, tar, archive, c)
    ensures c.events != [] && PlainExtra(c.manifest)
    ensures ReadArchive(lib, opts, tar, limit, archive).Ok? <==>
              Deliverable(lib.p, opts, limit, Untar(tar, archive, 0).size, c.events)
    ensures ReadArchive(lib, opts, tar, limit, archive).Ok? ==>
              && ReadArchive(lib, opts, tar, limit, archive).value == InNormalForm(c)
              && Intact(lib.p, InNormalForm(c)) && Accepted(c.manifest, lib.isTimestamp)
  {
    hide Intact, Stamped, Lawful, LawfulTimestampCheck, ReadArchive, ArchiveOf, Accepted, PlainExtra, FramesFit,
         NormaliseAll, FormatIso, FromYearZero, ReadableTimes, Untar;
    StampedAccepted(lib.p, sessionId, producerVersion, lib.isTimestamp, c);
    StampedReadable(lib.p, sessionId, producerVersion, lib.isTimestamp, c);
    ArchiveReadExact(lib, opts, tar, limit, c, archive);
  }

  /** A session grown by appends and closed once, over a store that is addressed by digest, and its export. */
  ghost predicate Exported(p: Primitives, a: HashAlgorithm, sessionId: string, producerVersion: string,
                           history: seq<StoredEvent>, stored: map<Digest, Bytes>, c: BundleContents)
  {
    && history != [] && Recorded(p, a, history) && EndsOnce(EventsOf(history)) && Addressed(p, a, stored)
    && ExportOf(stored, a, history, history[|history| - 1].hash, c) && Stamped(sessionId, producerVersion, c)
    && |c.objects| < TWO_64
  }

  /**
   A session grown by appends and closed once, exported and archived in any entry order, is read back
   exactly when the tar reader stays within the size limit, the session starts and ends in the year 0
   or later, and every frame is within the reader's limit. It is then intact.
   */
  lemma ExportDelivered(lib: Library, opts: ReadOptions, tar: Tar, limit: u64, sessionId: string,
                        producerVersion: string, a: HashAlgorithm, history: seq<StoredEvent>,
                        stored: map<Digest, Bytes>, c: BundleContents, archive: Bytes)
    requires Lawful(lib) && LawfulTimestampCheck(lib.isTimestamp) && IsHyphenatedUuid(sessionId)
    requires Exported(lib.p, a, sessionId, producerVersion, history, stored, c) && ArchiveOf(lib, tar, archive, c)
    ensures c.events != []
    ensures ReadArchive(lib, opts, tar, limit, archive).Ok? <==>
              Deliverable(lib.p, opts, limit, Untar(tar, archive, 0).size, c.events)
    ensures ReadArchive(lib, opts, tar, limit, archive).Ok? ==>
              && ReadArchive(lib, opts, tar, limit, archive).value
                 == BundleContents(c.manifest, NormaliseAll(a, c.events), c.objects)
              && Intact(lib.p, ReadArchive(lib, opts, tar, limit, archive).value)
  {
    hide Recorded, EndsOnce, Addressed, Collected, Stamped, Intact, ReadArchive, ArchiveOf, NormaliseAll, Lawful,
         LawfulTimestampCheck, Deliverable, Untar, PlainExtra, Accepted;
    ExportOfAppendsIsIntact(lib.p, a, history, stored, c);
    ParseAlgorithmName(a);
    StampedDelivered(lib, opts, tar, limit, sessionId, producerVersion, c, archive);
  }

  /** The same for every redaction of such a session; what counts is the length of the rewritten frames. */
  lemma RedactionDelivered(lib: Library, opts: ReadOptions, tar: Tar, limit: u64, sessionId: string,
                           producerVersion: string, a: HashAlgorithm, stored: map<Digest, Bytes>,
                           history: seq<StoredEvent>, requested: seq<Hash>, why: Redaction, d: Derivative,
                           archive: Bytes)
    requires Lawful(lib) && LawfulTimestampCheck(lib.isTimestamp) && IsHyphenatedUuid(sessionId)
    requires RedactionOf(lib.p, a, stored, history, requested, why, d) && Stamped(sessionId, producerVersion, d.bundle)
    requires Addressed(lib.p, a, stored) && |d.bundle.objects| < TWO_64
    requires Recorded(lib.p, a, history) && EndsOnce(EventsOf(history))
    requires ArchiveOf(lib, tar, archive, d.bundle)
    ensures d.bundle.events != []
    ensures ReadArchive(lib, opts, tar, limit, archive).Ok? <==>
              Deliverable(lib.p, opts, limit, Untar(tar, archive, 0).size, d.bundle.events)
    ensures ReadArchive(lib, opts, tar, limit, archive).Ok? ==>
              && ReadArchive(lib, opts, tar, limit, archive).value
                 == BundleContents(d.bundle.manifest, NormaliseAll(a, d.bundle.events), d.bundle.objects)
              && Intact(lib.p, ReadArchive(lib, opts, tar, limit, archive).value)
  {
    hide Recorded, EndsOnce, Addressed, Collected, Stamped, Intact, ReadArchive, ArchiveOf, NormaliseAll, Lawful,
         LawfulTimestampCheck, Deliverable, Replacing, Relink, Changed, Untar, PlainExtra, Accepted;
    RedactionOfAppendsIsIntact(lib.p, a, stored, history, requested, why, d);
    ParseAlgorithmName(a);
    StampedDelivered(lib, opts, tar, limit, sessionId, producerVersion, d.bundle, archive);
  }
}
