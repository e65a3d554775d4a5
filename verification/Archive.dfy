/**
 Reading and writing a bundle as a list of archive entries: one manifest, one event stream, one file
 per object. An archive is read the same way whatever the order of its entries.
 */
module Archive {
  import opened Foundation
  import opened Text
  import opened Cbor
  import opened Events
  import opened Errors
  import opened Streams
  import opened Framing
  import opened Manifests
  import Ordered

  datatype BundleContents = BundleContents(manifest: Manifest, events: seq<Event>, objects: map<Hash, Bytes>)

  datatype ReadOptions = ReadOptions(allowExtraFiles: bool, maxEventFrameLen: u32)

  datatype EntryType = RegularFile | Directory | OtherType

  datatype Entry = Entry(entryType: EntryType, path: string, bytes: Bytes)

  /** The libraries a reader and a writer rest on. */
  datatype Library = Library(p: Primitives, decode: Decoder, codec: ManifestCodec, isTimestamp: TimestampCheck)

  ghost predicate Lawful(lib: Library) {
    LawfulDecoder(lib.decode) && LawfulManifestCodec(lib.codec)
  }

  // ---------------------------------------------------------------- classifying entries

  const OBJECTS := "objects/"

  function PathToUnix(path: string): string {
    MapSeq(path, c => if c == '\\' then '/' else c)
  }

  /** Strips the prefix as often as it repeats. */
  function TrimObjects(path: string): string
    decreases |path|
  {
    if OBJECTS <= path then TrimObjects(path[|OBJECTS|..]) else path
  }

  datatype Class = Skipped | ManifestFile | EventsFile | ObjectFile(name: string) | Rejected(error: BundleError)

  function Classify(e: Entry, allowExtraFiles: bool): Class {
    var path := PathToUnix(e.path);
    if !e.entryType.RegularFile? then
      if allowExtraFiles || (e.entryType.Directory? && path == OBJECTS) then Skipped
      else Rejected(UnknownBundleFile(path))
    else if path == "manifest.json" then ManifestFile
    else if path == "events.bin" then EventsFile
    else if OBJECTS <= path then
      var name := TrimObjects(path);
      if '/' in name || name == "" then Rejected(InvalidArchive) else ObjectFile(name)
    else if allowExtraFiles then Skipped
    else Rejected(UnknownBundleFile(path))
  }

  /** Two entries that claim the same place in the bundle. */
  predicate Clash(c: Class, d: Class) {
    c == d && (c.ManifestFile? || c.EventsFile? || c.ObjectFile?)
  }

  // ---------------------------------------------------------------- reader specification

  datatype Gathered = Gathered(manifest: Option<Bytes>, events: Option<Bytes>, objects: seq<(string, Bytes)>)

  predicate HasName(objects: seq<(string, Bytes)>, name: string) {
    exists i :: 0 <= i < |objects| && objects[i].0 == name
  }

  function AddEntry(g: Gathered, c: Class, bytes: Bytes): Result<Gathered, BundleError> {
    match c
    case Skipped => Ok(g)
    case ManifestFile => if g.manifest.Some? then Err(InvalidArchive) else Ok(g.(manifest := Some(bytes)))
    case EventsFile => if g.events.Some? then Err(InvalidArchive) else Ok(g.(events := Some(bytes)))
    case ObjectFile(name) =>
      if HasName(g.objects, name) then Err(InvalidArchive) else Ok(g.(objects := g.objects + [(name, bytes)]))
    case Rejected(error) => Err(error)
  }

  function Gather(entries: seq<Entry>, allow: bool): Result<Gathered, BundleError> {
    if entries == [] then Ok(Gathered(None, None, []))
    else
      var last := entries[|entries| - 1];
      var g :- Gather(entries[..|entries| - 1], allow);
      AddEntry(g, Classify(last, allow), last.bytes)
  }

  predicate IsObjectName(name: string) {
    |name| == 64 && AllLowerHex(name)
  }

  function ObjectHash(a: HashAlgorithm, name: string): Hash
    requires IsObjectName(name)
  {
    HexTextRoundTrip(name);
    Hash(a, HexDecode(name).value)
  }

  function ObjectMap(a: HashAlgorithm, raw: seq<(string, Bytes)>): Result<map<Hash, Bytes>, BundleError> {
    if raw == [] then Ok(map[])
    else
      var (name, bytes) := raw[|raw| - 1];
      var objects :- ObjectMap(a, raw[..|raw| - 1]);
      if IsObjectName(name) then Ok(objects[ObjectHash(a, name) := bytes]) else Err(InvalidArchive)
  }

  function ReadEntries(lib: Library, opts: ReadOptions, entries: seq<Entry>): Result<BundleContents, BundleError> {
    var g :- Gather(entries, opts.allowExtraFiles);
    Assemble(lib, opts, g)
  }

  /** Decodes what was gathered, in the reader's order. */
  function Assemble(lib: Library, opts: ReadOptions, g: Gathered): Result<BundleContents, BundleError> {
    if g.manifest.None? || g.events.None? then Err(InvalidArchive)
    else
      var m :- ManifestFromJson(lib.codec, lib.isTimestamp, g.manifest.value);
      var _ :- ValidateAgefVersion(m, AGEF_SPEC_VERSION);
      match ParseAlgorithm(m.hashAlgorithm)
      case None => Err(UnsupportedHashAlgorithm(m.hashAlgorithm))
      case Some(a) =>
        var events :- ParseStream(lib.p, lib.decode, a, opts.maxEventFrameLen, g.events.value);
        var objects :- ObjectMap(a, g.objects);
        Ok(BundleContents(m, events, objects))
  }

  // ---------------------------------------------------------------- reader

  /** `events` were parsed off the front of `data`, and `rest` is still to be parsed. */
  ghost predicate ParsedSoFar(lib: Library, a: HashAlgorithm, max: u32, data: Bytes, events: seq<Event>, rest: Bytes) {
    var tail := ParseStream(lib.p, lib.decode, a, max, rest);
    ParseStream(lib.p, lib.decode, a, max, data) == if tail.Ok? then Ok(events + tail.value) else tail
  }

  lemma ParsedNothing(lib: Library, a: HashAlgorithm, max: u32, data: Bytes)
    ensures ParsedSoFar(lib, a, max, data, [], data)
  {
    hide ParseStream;
    var tail := ParseStream(lib.p, lib.decode, a, max, data);
    assert tail.Ok? ==> [] + tail.value == tail.value;
  }

  lemma ParsedOneMore(lib: Library, a: HashAlgorithm, max: u32, data: Bytes, events: seq<Event>, rest: Bytes)
    requires ParsedSoFar(lib, a, max, data, events, rest)
    ensures var first := FirstFrame(lib.p, lib.decode, a, max, rest);
            && (first.End? ==> ParseStream(lib.p, lib.decode, a, max, data) == Ok(events))
            && (first.Bad? ==> ParseStream(lib.p, lib.decode, a, max, data) == Err(first.error))
            && (first.Frame? ==> ParsedSoFar(lib, a, max, data, events + [first.event], rest[first.len..]))
  {
    hide FirstFrame;
    assert events + [] == events;
    var first := FirstFrame(lib.p, lib.decode, a, max, rest);
    if first.Frame? {
      var tail := ParseStream(lib.p, lib.decode, a, max, rest[first.len..]);
      assert tail.Ok? ==> events + ([first.event] + tail.value) == (events + [first.event]) + tail.value;
    }
  }

  /** Decodes an in-memory event stream to its end. */
  method ReadAllEvents(lib: Library, a: HashAlgorithm, max: u32, data: Bytes)
    returns (r: Result<seq<Event>, BundleError>)
    ensures r == ParseStream(lib.p, lib.decode, a, max, data)
  {
    hide FirstFrame, ParseStream, ParsedSoFar;
    var cursor := new ByteSource(data, true);
    var reader := new EventsReader(lib.p, lib.decode, cursor, a, max);
    var events: seq<Event> := [];
    assert cursor.Rest() == data;
    ParsedNothing(lib, a, max, data);
    while true
      invariant cursor.Valid() && cursor.data == data
      invariant ParsedSoFar(lib, a, max, data, events, cursor.Rest())
      decreases |cursor.Rest()|
    {
      ParsedOneMore(lib, a, max, data, events, cursor.Rest());
      var next := reader.ReadEvent();
      match next {
        case Err(e) => return Err(e);
        case Ok(None) => return Ok(events);
        case Ok(Some(e)) => events := events + [e];
      }
    }
  }

  method ReadBundle(lib: Library, opts: ReadOptions, entries: seq<Entry>)
    returns (r: Result<BundleContents, BundleError>)
    ensures r == ReadEntries(lib, opts, entries)
  {
    hide Classify, ParseStream, ManifestFromJson, ValidateAgefVersion;
    var manifestBytes: Option<Bytes> := None;
    var eventsBytes: Option<Bytes> := None;
    var objectsRaw: seq<(string, Bytes)> := [];
    var seenNames: set<string> := {};
    for i := 0 to |entries|
      invariant Gather(entries[..i], opts.allowExtraFiles) == Ok(Gathered(manifestBytes, eventsBytes, objectsRaw))
      invariant forall name :: name in seenNames <==> HasName(objectsRaw, name)
    {
      GatherStep(entries, i, opts.allowExtraFiles);
      var bytes := entries[i].bytes;
      match Classify(entries[i], opts.allowExtraFiles) {
        case Skipped =>
        case ManifestFile =>
          if manifestBytes.Some? {
            return Err(InvalidArchive);
          }
          manifestBytes := Some(bytes);
        case EventsFile =>
          if eventsBytes.Some? {
            return Err(InvalidArchive);
          }
          eventsBytes := Some(bytes);
        case ObjectFile(name) =>
          if name in seenNames {
            return Err(InvalidArchive);
          }
          seenNames := seenNames + {name};
          HasNameAppend(objectsRaw, name, bytes);
          objectsRaw := objectsRaw + [(name, bytes)];
        case Rejected(error) =>
          return Err(error);
      }
    }
    assert entries[..|entries|] == entries;
    if manifestBytes.None? || eventsBytes.None? {
      return Err(InvalidArchive);
    }
    var m :- ManifestFromJson(lib.codec, lib.isTimestamp, manifestBytes.value);
    var _ :- ValidateAgefVersion(m, AGEF_SPEC_VERSION);
    var algorithm := ParseAlgorithm(m.hashAlgorithm);
    if algorithm.None? {
      return Err(UnsupportedHashAlgorithm(m.hashAlgorithm));
    }
    var a := algorithm.value;
    var events :- ReadAllEvents(lib, a, opts.maxEventFrameLen, eventsBytes.value);
    var objects :- ReadObjects(a, objectsRaw);
    return Ok(BundleContents(m, events, objects));
  }

  // ---------------------------------------------------------------- the decompressed archive

  /** The default cap on how much a bundle may decompress to: 1 GiB. */
  const DEFAULT_MAX_BUNDLE_DECODED_BYTES: u64 := 0x4000_0000

  type Positive = n: nat | n > 0 witness 1

  /** The tar reader after some bytes of the archive: it asks for more, or has reached its end marker. */
  datatype TarStep = More(count: Positive) | Complete(entries: seq<Entry>) | BadArchive

  type Tar = Bytes -> TarStep

  /** What the tar reader makes of an archive, and how many of its bytes it reads. */
  datatype TarRun = TarRun(entries: Option<seq<Entry>>, size: nat)

  /** Runs the reader from the first `pos` bytes on. Bytes after the end marker are never asked for. */
  function Untar(tar: Tar, archive: Bytes, pos: nat): (run: TarRun)
    requires pos <= |archive|
    ensures pos <= run.size <= |archive|
    decreases |archive| - pos
  {
    match tar(archive[..pos])
    case Complete(entries) => TarRun(Some(entries), pos)
    case BadArchive => TarRun(None, pos)
    case More(count) =>
      if pos + count > |archive| then TarRun(None, |archive|) else Untar(tar, archive, pos + count)
  }

  function ReadArchive(lib: Library, opts: ReadOptions, tar: Tar, limit: u64, archive: Bytes)
    : Result<BundleContents, BundleError>
  {
    var run := Untar(tar, archive, 0);
    if run.size > limit then Err(BundleTooLarge(limit))
    else
      match run.entries
      case None => Err(InvalidArchive)
      case Some(entries) => ReadEntries(lib, opts, entries)
  }

  /**
   Reads a bundle from its decompressed stream, through the guard on its size. Short reads and
   buffers of any size make no difference; only a failing stream can.
   */
  method ReadBundleLimited(lib: Library, opts: ReadOptions, tar: Tar, inner: ByteSource, limit: u64)
    returns (r: Result<BundleContents, BundleError>)
    requires inner.Valid()
    modifies inner
    ensures r == ReadArchive(lib, opts, tar, limit, old(inner.Rest())) || (!inner.reliable && r == Err(InvalidArchive))
  {
    hide ReadEntries;
    ghost var archive := inner.Rest();
    var guard := new LimitedReader(inner, limit);
    var read: Bytes := [];
    var step := tar(read);
    while step.More?
      invariant guard.Valid() && guard.inner == inner && guard.limit == limit && guard.Stream() == archive
      invariant fresh(guard) && guard.swallowed == 0 && guard.delivered == read && |read| <= |archive|
      invariant read == archive[..|read|] && step == tar(read)
      invariant Untar(tar, archive, |read|) == Untar(tar, archive, 0)
      decreases |archive| - |read|
    {
      var chunk := guard.ReadUpTo(step.count);
      match chunk {
        case Err(DecodedSizeLimitExceeded) => return Err(BundleTooLarge(limit));
        case Err(ReadFailed) => return Err(InvalidArchive);
        case Ok(bytes) =>
          if |bytes| < step.count {
            return Err(InvalidArchive);
          }
          read := read + bytes;
      }
      step := tar(read);
    }
    if step.BadArchive? {
      return Err(InvalidArchive);
    }
    r := ReadBundle(lib, opts, step.entries);
  }

  method ReadObjects(a: HashAlgorithm, raw: seq<(string, Bytes)>) returns (r: Result<map<Hash, Bytes>, BundleError>)
    ensures r == ObjectMap(a, raw)
  {
    var objects: map<Hash, Bytes> := map[];
    for i := 0 to |raw|
      invariant ObjectMap(a, raw[..i]) == Ok(objects)
    {
      assert raw[..i + 1][..i] == raw[..i];
      var (name, bytes) := raw[i];
      if !IsObjectName(name) {
        ObjectMapPrefix(a, raw, i + 1);
        return Err(InvalidArchive);
      }
      objects := objects[ObjectHash(a, name) := bytes];
    }
    assert raw[..|raw|] == raw;
    return Ok(objects);
  }

  lemma HasNameAppend(objects: seq<(string, Bytes)>, added: string, bytes: Bytes)
    ensures forall name :: HasName(objects + [(added, bytes)], name) <==> HasName(objects, name) || name == added
  {
    var longer := objects + [(added, bytes)];
    assert longer[|objects|] == (added, bytes);
    forall name | HasName(objects, name)
      ensures HasName(longer, name)
    {
      var i :| 0 <= i < |objects| && objects[i].0 == name;
      assert longer[i].0 == name;
    }
  }

  /** An error in a prefix is the error of the whole. */
  lemma {:induction false} GatherPrefix(entries: seq<Entry>, i: nat, allow: bool)
    requires i <= |entries| && Gather(entries[..i], allow).Err?
    ensures Gather(entries, allow) == Gather(entries[..i], allow)
    decreases |entries|
  {
    if i < |entries| {
      assert entries[..|entries| - 1][..i] == entries[..i];
      GatherPrefix(entries[..|entries| - 1], i, allow);
    } else {
      assert entries[..i] == entries;
    }
  }

  lemma GatherStep(entries: seq<Entry>, i: nat, allow: bool)
    requires i < |entries| && Gather(entries[..i], allow).Ok?
    ensures var next := AddEntry(Gather(entries[..i], allow).value, Classify(entries[i], allow), entries[i].bytes);
            && Gather(entries[..i + 1], allow) == next
            && (next.Err? ==> Gather(entries, allow) == next)
  {
    hide Classify;
    assert entries[..i + 1][..i] == entries[..i];
    if Gather(entries[..i + 1], allow).Err? {
      GatherPrefix(entries, i + 1, allow);
    }
  }

  lemma {:induction false} ObjectMapPrefix(a: HashAlgorithm, raw: seq<(string, Bytes)>, i: nat)
    requires i <= |raw| && ObjectMap(a, raw[..i]).Err?
    ensures ObjectMap(a, raw) == Err(InvalidArchive)
    decreases |raw|
  {
    if i < |raw| {
      assert raw[..|raw| - 1][..i] == raw[..i];
      ObjectMapPrefix(a, raw[..|raw| - 1], i);
    } else {
      assert raw[..i] == raw;
      assert raw[..i - 1][..i - 1] == raw[..i - 1];
      if ObjectMap(a, raw[..i - 1]).Err? {
        ObjectMapPrefix(a, raw[..i - 1], i - 1);
      }
    }
  }
}
