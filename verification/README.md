# Verified model of AGEF evidence bundles

This project models how akmon encodes, reads, verifies, signs, redacts, exports and imports AGEF
evidence bundles, and proves properties of that model with Dafny 4.11.

    dafny verify dfyconfig.toml

A session is a chain of events; each event names the content hash of the one before it and refers to
objects by digest. A bundle carries a manifest, the events (`events.bin`) and the objects. The head in
the manifest is the hash of the last event.

## What is taken as given

* The digest is an arbitrary function. No collision resistance is assumed: where a result depends on
  it, the conclusion is "or two different byte strings, both hashed by the runs in question, have one
  digest", and the two byte strings are exhibited.
* A serializer call may fail for any value; only its output, when there is one, is fixed: the
  shortest-form CBOR encoding, which is concrete here and proved prefix-free.
* A CBOR decoder undoes the encoder (`Framing.LawfulDecoder`); nothing is said about other inputs.
  `Framing.LawfulDecoderExists` shows that this can be met.
* The manifest reader undoes the manifest writer on manifests whose extra members are in canonical
  order, hold no floats and nest no deeper than the reader goes (`Manifests.LawfulManifestCodec`).
  `CodecWitness.LawfulManifestCodecExists` shows that this can be met, even by one codec for all
  manifests.
* The tar reader is any function that, from the bytes it has, asks for more, gives its entries or gives
  up (`Archive.Tar`). Nothing is assumed about it.
* An Ed25519 signature that was made verifies under its own 32-byte public key
  (`Signing.LawfulEd25519`). Nothing is assumed about forgery.
* The date library's RFC 3339 check takes every text that `Calendar.ReadDateTime` reads, and nothing that
  does not start with a digit (`Calendar.LawfulTimestampCheck`). The exporter's rendering is concrete. A
  UUID is recognised in its canonical form.

## The modules

| module | subject |
|---|---|
| `Foundation`, `Text`, `Ordered` | options and results, byte order, UTF-8, hexadecimal, string order |
| `Cbor`, `Events` | CBOR encoding; events, their wire form, their two CBOR layouts, content hashes |
| `CborReader`, `EventReader` | readers of CBOR and of events, written from the other side |
| `Streams`, `Framing` | byte streams with short reads, the decompression guard, `events.bin` frames |
| `Json`, `Manifests` | canonical JSON; manifest rules and versions |
| `Archive`, `ArchiveLaws`, `EntryLaws` | reading and writing a bundle as a list of archive entries; which entries are taken |
| `Verifier`, `Integrity` | the fail-soft verifier; the rules it decides; tamper evidence |
| `Capture`, `Evidence` | capture information; results from archive bytes up |
| `Calendar` | instants as dates and as text |
| `Journal`, `Transfer` | object store and session graph; export, staging and import |
| `Sentinels`, `Redactions`, `RedactionLaws` | sentinels; redaction; what it keeps, changes and removes |
| `Signing`, `SignedManifests` | signed statements; checking and adding entries |
| `Policies` | the verdict under a policy; proofs for an outside verifier |
| `Delivery`, `Sealing` | whole pipelines: export or redact, sign, write, read, evaluate |
| `CodecWitness`, `Witnesses` | lawful libraries exist; runs that show where operations fail |
| `Spki`, `Display`, `Shell` | base64 and SPKI; display and Markdown escaping; shell quoting |

## Main results

* The verifier's report is empty exactly on intact bundles (`Integrity.CleanExact`), and it holds a
  violation exactly when the bundle has it (`Verifier.VerifyBundle`).
* Two archives that are accepted and verify clean with one head have byte-identical event streams and
  the same objects, or a collision is at hand (`Evidence.ArchivesTamperEvident`).
* `events.bin` and its decoded events determine each other (`Framing.StreamExact`); reading an archive
  does not depend on the order of its entries (`ArchiveLaws.ReadExact`).
* A redacted derivative verifies clean exactly when the source has the shape of a session
  (`RedactionLaws.RedactionExact`); hashes change exactly from the first touched event on
  (`RedactionLaws.CascadeExact`, `RedactionLaws.CascadeOfAppends`); no reference to a redacted object
  and no copy of its bytes is left (`RedactionLaws.RedactedBytesGone`). The sentinel still records the
  original's hash and size, as it is meant to.
* Over any run of signings and attestations, refused ones included, every existing entry keeps its
  outcome under every list of trusted keys (`SignedManifests.RunKeepsOutcomes`).
* Import staging conserves the store in every run (`Transfer.StageObjects`); an export verifies clean
  exactly when the journal does and its attempts are in order (`Transfer.ExportExact`); a closed
  session over a working store does export (`Transfer.ExportClosedSession`).
* A working journal imports a bundle unless a session with the id is already there, the bundle is not
  intact or of another algorithm, or two byte strings collide (`Transfer.ImportBundle`); a second import
  under one id is always refused (`Transfer.ImportTwice`); import and export undo each other
  (`Transfer.ImportAndExport`).
* A written archive reads back exactly when its manifest is acceptable and every frame is within the
  reader's limit (`ArchiveLaws.WrittenReadExact`). For exports and redactions that means: the tar reader
  stays within the size limit, the session starts and ends in the year 0 or later, and every frame,
  after rewriting, is within the frame limit (`Delivery.ExportDelivered`, `Delivery.RedactionDelivered`).
* What is written is pinned from the other side: readers of CBOR, of events by field name, of RFC 3339
  text and of sentinels take it back (`EventReader.ContentHashRead`, `Calendar.FormatIsoReads`,
  `RedactionLaws.RedactionLeavesRecord`); which archive entries and manifests are taken is told by their
  characters (`EntryLaws.AcceptedEntries`, `Manifests.AcceptedExact`).
* A sealed session that is read back passes the policy that sealing checks it by, operator key included
  (`Sealing.SealedSessionPasses`); and signing or attesting again never makes a passing bundle fail,
  under any policy, unless the key id of a signer clashes with a trusted one
  (`Sealing.CoSigningKeepsPasses`).

## Where the code differs from what one might expect

* The decompression guard can report a clean end of stream after it has reported the limit, because
  the probe that found the extra byte consumed it: `Streams.EndOfStreamAfterLimit`. Before a limit
  report, end of stream does mean that everything was delivered.
* An export, redaction or seal is not always readable: the reader refuses what is not
  `Delivery.Deliverable`, which the writer does not check. That leaves three kinds of refused bundles.
  * `format_iso_utc` writes a sign before years below zero, and RFC 3339 has no such form. So a session
    from before the year 0 can be imported, but its export is refused: `Witnesses.ImportedButUnreadable`.
  * The writer emits frames of up to 2^32 bytes and the reader takes 1,048,576. A recorded session with a
    tool name of that length exports to an intact bundle that is refused: `Witnesses.ExportedButTooLong`.
  * The archive may decompress to more than the limit of the guard, 1 GiB by default
    (`Archive.ReadBundleLimited`).
* `prepare_operator_proof` does not look for line breaks in the identity fields, while the verifier
  calls an entry with a newline or a carriage return malformed. They agree exactly on identities
  without either (`Policies.OperatorProofExact`), and the disagreement can be produced with any working
  key (`Policies.OperatorProofDisagrees`).
* A requested object survives redaction exactly when it already is the sentinel of a requested object,
  or collides with one (`RedactionLaws.SurvivesExactly`); `Witnesses.SentinelSurvives` is such a run.
* The journal's verifier does not check the order of provider attempts and the bundle's does. An
  export verifies clean exactly when the journal is clean and the attempts are in order;
  `Witnesses.CleanForJournalOnly` is a session that only the journal finds clean.
* `markdown_escape` shows a value as it is exactly when the value holds no hostile character
  (`Display.ShownExactly`); beyond that it is not reversible (`Display.MarkdownNotReversible`).

## Model

| member | source | states |
|---|---|---|
| Events.MapKindRefs | crates/akmon-journal/src/event.rs:89-156 | mapping the hashes of an event kind maps its references position by position, so every hash field is a reference |
| Events.FromWireToWire | crates/akmon-bundle/src/events.rs:183-383 | decoding the wire form of any event gives the event with whole-second times and the stream's algorithm |
| Events.ToWireFromWire | crates/akmon-bundle/src/events.rs:198-218 | a wire event with representable times survives decoding and encoding unchanged |
| Events.EventCborInjective | crates/akmon-journal/src/event.rs:198-345 | either CBOR layout determines the wire event, all variants and optional fields included |
| Events.ContentHashBinds | crates/akmon-journal/src/event.rs:27-43 | events with one content hash have one wire form, or the two hashed byte strings collide |
| Events.ContentHashNormalised | crates/akmon-journal/src/event.rs:256-266 | content hashes do not see sub-second times or algorithm tags |
| Events.ParseHexOfToHex | crates/akmon-journal/src/hash.rs:87-104 | a hash survives hexadecimal text |
| Text.HexTextRoundTrip | crates/akmon-bundle/src/archive.rs:219-236 | lowercase hexadecimal names of even length are exactly the images of byte strings |
| Text.HexEncodeAt | crates/akmon-journal/src/hash.rs:87-104 | each byte is written as two lowercase digits, the high one first |
| Text.TrimmedHex | crates/akmon-bundle/src/signing.rs:123-124 | trimming finds hexadecimal text exactly when it stands between white space |
| Cbor.EncodePrefixFree | crates/akmon-journal/src/event.rs:36-41 | no encoding is a proper prefix of another: a front of a byte string is at most one value |
| Cbor.EncodeInjective | crates/akmon-bundle/src/events.rs:96-110 | a byte string is the canonical encoding of at most one value |
| CborReader.ReadItemOf | crates/akmon-journal/src/event.rs:36-41 | a reader written after RFC 8949, which refuses longer forms, reads every encoded item back and leaves the bytes after it alone |
| EventReader.ReadWireEventOf | crates/akmon-journal/src/event.rs:198-275 | a reader that goes by field names and their order reads every event back from either layout |
| EventReader.ContentHashRead | crates/akmon-journal/src/event.rs:26-34 | a content hash is the digest of bytes that read as the event's wire form, digests as byte strings |
| EventReader.PayloadRead | crates/akmon-bundle/src/events.rs:24-35 | a frame's payload reads as the event's wire form, digests as lists of 32 numbers |
| EventReader.LawfulDecoderBuilt | crates/akmon-bundle/src/events.rs:96-110 | this reader is a decoder of the kind the framing results rest on |
| Streams.LimitedReader.Read | crates/akmon-bundle/src/archive.rs:308-344 | for any buffer and any short reads: delivered bytes are a prefix within the limit; a limit error means the stream is longer; end of stream accounts for every byte |
| Streams.LimitedReader.ReadUpTo | crates/akmon-bundle/src/archive.rs:308-344 | through any short reads, so many bytes arrive unless the stream ends first or is longer than the limit and the bytes asked for go beyond it |
| Streams.LimitedReader.ReadToEnd | crates/akmon-bundle/src/archive.rs:308-344 | with buffers of any sizes, a stream within the limit arrives whole and a longer one is always refused |
| Streams.EndOfStreamAfterLimit | crates/akmon-bundle/src/archive.rs:322-344 | a run over a one-byte stream with limit zero in which the guard reports the limit, swallows the byte and then signals a clean end of stream |
| Framing.EventsWriter.WriteEvent | crates/akmon-bundle/src/events.rs:24-35 | appends the length prefix and canonical payload; an event that cannot be framed changes nothing, and a failing output is left with part of the frame |
| Framing.EventsReader.ReadEvent | crates/akmon-bundle/src/events.rs:71-111 | however the stream splits its bytes, one read agrees with the pure parser on the bytes left, and consumes exactly the frame |
| Framing.PayloadExact | crates/akmon-bundle/src/events.rs:96-110 | a payload is accepted exactly when it is the encoding of the normalised event it yields, so trailing bytes and other encodings are refused |
| Framing.PayloadRefused | crates/akmon-bundle/src/events.rs:94-128 | what a refused payload is refused for: the decoder's message, another encoding, or a time out of range |
| Framing.StreamExact | crates/akmon-bundle/src/events.rs:24-111 | a byte string reads to its end as given events exactly when writing them produces it, all frames fit and the events are in normal form |
| Framing.WriteThenRead | crates/akmon-bundle/src/events.rs:24-111 | written events read back, in normal form, whenever every frame is within the reader's limit |
| Framing.WrittenFramesFit | crates/akmon-bundle/src/events.rs:24-93 | a written stream is read only if every frame is within the reader's limit |
| Framing.LongToolName | crates/akmon-bundle/src/events.rs:24-35 | the frame of a tool call is longer than the tool's name, so a long name makes a frame the reader refuses |
| Framing.DecoderIrrelevant | crates/akmon-bundle/src/events.rs:96-110 | the re-encode check makes the result independent of which decoder is used |
| Json.SortJsonCanonical | crates/akmon-bundle/src/manifest.rs:245-260 | two values sort to the same result exactly when they are equal up to key order at every depth |
| Json.SortJsonIdempotent | crates/akmon-bundle/src/manifest.rs:245-260 | sorting twice is sorting once |
| Json.SortJsonKeepsValue | crates/akmon-bundle/src/manifest.rs:245-260 | sorting only changes key order |
| Json.GetSorted | crates/akmon-bundle/src/manifest.rs:245-260 | a lookup along any path of keys and indices finds the same value after sorting |
| Json.SortJsonValue | crates/akmon-bundle/src/manifest.rs:245-260 | the loop over the separately sorted keys computes the canonical form |
| Json.SortKeys | crates/akmon-bundle/src/manifest.rs:249-251 | the keys of an object, each once, in order |
| Ordered.LessMeans | crates/akmon-bundle/src/manifest.rs:249-251 | keys are ordered by their first difference, a proper prefix first |
| Manifests.AcceptedOneLine | crates/akmon-bundle/src/manifest.rs:111-212 | an accepted manifest has no newline in its version, algorithm, session id or head |
| Manifests.AcceptedExact | crates/akmon-bundle/src/manifest.rs:111-243 | exactly these manifests are let through: five groups of hexadecimal digits as id, a supported algorithm, 64 hexadecimal digits as head, two readable times, and three numerals 0, 1 and any patch as version |
| Manifests.ManifestRefused | crates/akmon-bundle/src/manifest.rs:111-232 | what a refused manifest is refused for, in the order of the checks |
| Manifests.VersionRefused | crates/akmon-bundle/src/manifest.rs:198-243 | a version is refused exactly when it is not 0.1 with some patch number, and is named in the error |
| Manifests.SpecVersionParses | crates/akmon-bundle/src/manifest.rs:198-243 | every manifest with the version the program stamps passes its own version check |
| CodecWitness.LawfulManifestCodecExists | crates/akmon-bundle/src/manifest.rs:215-232 | the round trip asked of the manifest writer and reader can be met |
| CodecWitness.LawfulLibraryExists | crates/akmon-bundle/src/archive.rs:63-243 | so the libraries the archive results rest on exist, for any digest and date check |
| CodecWitness.LawfulReaderExists | crates/akmon-bundle/src/sentinel.rs:95-182 | readers of values and sentinels that meet the two laws exist |
| Calendar.FieldsDenote | crates/akmon-cli/src/main.rs:2517-2521 | the rendered date and time are those of the instant, to the millisecond, in the proleptic Gregorian calendar |
| Calendar.FormatIsoReads | crates/akmon-cli/src/main.rs:2517-2521 | a reader of RFC 3339 text with a calendar of its own takes the exporter's text back to the instant, to the millisecond; before the year 0 behind a minus sign |
| Calendar.ReadableExact | crates/akmon-bundle/src/manifest.rs:166-183 | a check that takes every text this reader takes, and only what starts with a digit, takes the exporter's text of an instant exactly from the year 0 on |
| Archive.ReadAllEvents | crates/akmon-bundle/src/archive.rs:209-217 | the reading loop returns what the stream parses as, or the first error |
| Archive.ReadBundle | crates/akmon-bundle/src/archive.rs:133-243 | the loops over entries and objects compute the reader's specification, errors included |
| Archive.ReadBundleLimited | crates/akmon-bundle/src/archive.rs:123-243 | through the guard and any short reads, and for any tar reader: refused as too large exactly when the tar reader reads beyond the limit, otherwise what the entries read as; bytes after the end marker do not count |
| ArchiveLaws.ReadExact | crates/akmon-bundle/src/archive.rs:133-243 | a list of entries reads as a bundle exactly when the entries, taken without order, stand for it: no clash, one manifest, one stream, every object under its name |
| EntryLaws.ClassifyMeans | crates/akmon-bundle/src/archive.rs:147-198 | what each entry is taken for, told by its type and the characters of its path |
| EntryLaws.AcceptedEntries | crates/akmon-bundle/src/archive.rs:133-236 | every entry of an accepted archive is the manifest, the event stream, an object named by 64 hexadecimal digits below `objects/`, or that directory; with extra files allowed, also an entry that is none of these and not below `objects/` |
| EntryLaws.AcceptedOnce | crates/akmon-bundle/src/archive.rs:157-190 | no two entries of an accepted archive are for the same part of the bundle |
| EntryLaws.AcceptedContents | crates/akmon-bundle/src/archive.rs:200-243 | the manifest, the events and each object are what the entry for them holds |
| EntryLaws.NoOtherObjects | crates/akmon-bundle/src/archive.rs:218-236 | every object comes from an entry named by its digest |
| EntryLaws.BadObjectRefused | crates/akmon-bundle/src/archive.rs:178-236 | a file below `objects/` that is not named by a digest is refused in both modes, such as `objects/` itself and `objects/a/b` |
| EntryLaws.ForeignRefused | crates/akmon-bundle/src/archive.rs:150-196 | without extra files, the first entry that is no part of a bundle is refused by its path |
| EntryLaws.ForeignIgnored | crates/akmon-bundle/src/archive.rs:150-196 | with extra files allowed, such entries make no difference to the result |
| ArchiveLaws.OrderIndependent | crates/akmon-bundle/src/archive.rs:133-243 | permuting the entries changes neither acceptance nor the bundle |
| ArchiveLaws.NoneMerged | crates/akmon-bundle/src/archive.rs:178-236 | an accepted archive has as many objects as object entries |
| ArchiveLaws.WriteEvents | crates/akmon-bundle/src/archive.rs:74-81 | the writing loop produces the concatenated frames, or fails if any event cannot be framed |
| ArchiveLaws.WriteBundle | crates/akmon-bundle/src/archive.rs:63-102 | succeeds exactly for a supported algorithm and framable events, and writes manifest, stream and objects in name order |
| ArchiveLaws.SortByName | crates/akmon-bundle/src/archive.rs:90-97 | whatever order the objects are met in, they are listed once each in order of their names |
| ArchiveLaws.WriteThenReadBundle | crates/akmon-bundle/src/archive.rs:63-243 | a written archive, in any entry order, reads back as the same manifest, events in normal form and objects |
| ArchiveLaws.WrittenReadExact | crates/akmon-bundle/src/archive.rs:63-243 | a written archive, in any entry order, is read exactly when the reader accepts its manifest and every frame is within the limit |
| Verifier.EventInvariantViolation | crates/akmon-bundle/src/verify.rs:438-461 | the loop over attempts finds the first fault |
| Verifier.FaultOfNone | crates/akmon-bundle/src/verify.rs:438-461 | there is no fault exactly when attempts exist, are numbered from one without gaps and never start before the previous one |
| Verifier.FaultOfFirst | crates/akmon-bundle/src/verify.rs:438-461 | the fault is that of the first attempt that is not in order, a wrong number before a wrong time |
| Verifier.CheckObjects | crates/akmon-bundle/src/verify.rs:296-305 | in any order of the objects, reports exactly those whose bytes do not hash to their key |
| Verifier.CheckReferences | crates/akmon-bundle/src/verify.rs:372-381 | follows every reference and reports exactly the absent ones |
| Verifier.CheckEvent | crates/akmon-bundle/src/verify.rs:319-384 | reports exactly the violations the event gives rise to, given the previous hash |
| Verifier.WalkEvents | crates/akmon-bundle/src/verify.rs:312-384 | after the walk the accumulators hold all violations at events, all references, the session ends and the last hash |
| Verifier.Unreferenced | crates/akmon-bundle/src/verify.rs:386-397 | reports exactly the unreferenced objects, ordered by hexadecimal form |
| Verifier.CheckSessionEnd | crates/akmon-bundle/src/verify.rs:399-411 | reports exactly a missing, duplicate or non-terminal session end |
| Verifier.CheckHead | crates/akmon-bundle/src/verify.rs:413-430 | reports exactly an unreadable or differing head, and only if the last event is hashable |
| Verifier.VerifyBundle | crates/akmon-bundle/src/verify.rs:265-433 | the report holds a violation exactly when the bundle has it; every event is checked when the algorithm is supported |
| Verifier.VerifyBundleStrict | crates/akmon-bundle/src/verify.rs:469-504 | succeeds exactly when there is no violation, and otherwise returns the error of one |
| Verifier.ViolationToErrorMeans | crates/akmon-bundle/src/verify.rs:477-504 | which error stands for which violation, and the hashes in it |
| Integrity.CleanExact | crates/akmon-bundle/src/verify.rs:265-461 | no violation exactly when counts, object digests, chain, numbering, closure both ways, attempts, one terminal session end and head all hold |
| Witnesses.IntactExists | crates/akmon-bundle/src/verify.rs:265-433 | for every digest function a session of a start and an end over one object is intact, so the rules do not contradict each other |
| Integrity.Verify | crates/akmon-bundle/src/verify.rs:252-433 | the report is clean exactly on intact bundles |
| Integrity.HeadFixesWire | crates/akmon-bundle/src/verify.rs:346-384 | intact bundles with one head have the same number of events and the same wire events, or a collision is at hand |
| Integrity.TamperEvident | crates/akmon-bundle/src/verify.rs:265-433 | intact bundles with one head have the same events and objects, or a collision is at hand |
| Integrity.SoundNormalised | crates/akmon-bundle/src/events.rs:183-218 | bringing events to normal form keeps integrity and the head |
| Evidence.ReadFixesStream | crates/akmon-bundle/src/archive.rs:200-217 | an accepted archive's stream bytes are what writing its events produces |
| Evidence.ArchivesTamperEvident | crates/akmon-bundle/src/capture.rs:47-73 | clean archives with one head have equal events, byte-identical streams, equal objects and equal capture information, or a collision is at hand |
| Evidence.ReadVerifiedBundle | crates/akmon-bundle/src/archive.rs:252-259 | returns a bundle exactly when the archive reads as it and it is intact |
| Evidence.IntactSurvivesArchive | crates/akmon-bundle/src/archive.rs:63-243 | an intact bundle is intact after writing, reordering and reading back |
| Journal.ObjectStore.Get | crates/akmon-journal/src/object_store.rs:315-333 | answers with the bytes under the digest; hashes of another algorithm are an error |
| Journal.ObjectStore.Contains | crates/akmon-journal/src/object_store.rs:335-353 | answers whether the digest is present |
| Journal.ObjectStore.Put | crates/akmon-journal/src/object_store.rs:289-313 | stores under the digest of the bytes, never overwrites, and keeps every key the digest of its bytes; a failed write changes nothing |
| Journal.VerifyHistory | crates/akmon-journal/src/session_graph.rs:92-188 | the report is clean exactly when every entry hashes, links, is numbered and has its objects, one session end is last and the head agrees; each of its lists holds exactly what it is for, and the counts are exact |
| Journal.SessionGraph.Append | crates/akmon-journal/src/session_graph.rs:399-465 | every run of appends, failed ones included, keeps the graph linked, numbered and with recorded hashes; an append records the kind and the time asked for; exactly when a working database accepts an append |
| Journal.SessionGraph.Verify | crates/akmon-journal/src/session_graph.rs:513-517 | verifies the graph's own history and head, with an exact report |
| Journal.SessionGraph.ImportVerifiedLinearHistory | crates/akmon-journal/src/session_graph.rs:519-597 | imports only into an empty graph and only a verified non-empty history; a refusal or a failed write changes nothing |
| Journal.RecordedIsLinked | crates/akmon-journal/src/session_graph.rs:399-465 | a history grown by appends is a linked chain with ordered attempts |
| Journal.JournalDb.ContainsSession | crates/akmon-journal/src/open.rs:42-49 | whether there is a session under an id, empty ones included |
| Journal.JournalDb.OpenNew | crates/akmon-journal/src/session_graph.rs:262-295 | opens an empty session under a new id; an id in use is refused and nothing changes |
| Journal.JournalDb.Reopen | crates/akmon-journal/src/session_graph.rs:297-315 | finds exactly the sessions there are |
| Transfer.CollectEvent | crates/akmon-cli/src/redact_cmd.rs:382-421 | adds exactly the objects of one event, sentinels first, and names a missing one |
| Transfer.CollectObjects | crates/akmon-cli/src/bundle_cmd.rs:524-553 | collects exactly the referenced objects; succeeds on a working store that has them, and otherwise names a missing one or a reference of another algorithm |
| Transfer.AssembleSessionBundle | crates/akmon-cli/src/bundle_cmd.rs:465-588 | succeeds on a working store with a head, a start, an end and every object; the bundle has the history's events, exactly the referenced objects, the head, the counts and the stamped metadata; each error says which of these is missing |
| Transfer.StampedTimes | crates/akmon-cli/src/bundle_cmd.rs:494-562 | the stamped times read back as those of the first session start and the last session end, to the millisecond |
| Transfer.ExportClosedSession | crates/akmon-cli/src/bundle_cmd.rs:465-588 | a session grown by appends and closed once, over a working store that holds its objects, does export, and the bundle is intact |
| Transfer.ExportExact | crates/akmon-cli/src/bundle_cmd.rs:465-588 | an export verifies clean exactly when the journal verifies clean and its attempts are in order |
| Transfer.ExportOfAppendsIsIntact | crates/akmon-cli/src/bundle_cmd.rs:465-588 | a session grown by appends and closed by its one session end exports to an intact bundle |
| Transfer.StageObjects | crates/akmon-cli/src/bundle_cmd.rs:1180-1265 | in any order, old entries are untouched even when staging stops; a completed run counts every object once and leaves the old store plus the bundle |
| Transfer.StageOne | crates/akmon-cli/src/bundle_cmd.rs:1182-1264 | stages one object, and stops only for a failing store or different bytes under one digest |
| Transfer.StageAgain | crates/akmon-cli/src/bundle_cmd.rs:1180-1265 | staging a bundle a second time adds nothing |
| Transfer.BundleImportHistory | crates/akmon-cli/src/bundle_cmd.rs:747-759 | pairs each event with its content hash, or fails if one cannot be hashed |
| Transfer.IntactImports | crates/akmon-cli/src/bundle_cmd.rs:1093-1290 | an intact bundle whose objects are staged passes the journal's verification, with the bundle's head |
| Transfer.ImportBundle | crates/akmon-cli/src/bundle_cmd.rs:1025-1340 | on a working journal succeeds unless the target id is in use, the bundle is not intact or of another algorithm, or the store holds other bytes under one of the digests; the new and the existing objects are counted apart; an id in use is noticed before anything is staged; every refusal leaves the sessions as they are |
| Transfer.ImportThenExport | crates/akmon-cli/src/bundle_cmd.rs:465-588 | exporting an imported session gives back the bundle's events, objects, head and counts |
| Transfer.ImportAndExport | crates/akmon-cli/src/bundle_cmd.rs:465-588 | import that is not refused and export again: the same events, objects and head, intact, with the session's new id stamped; otherwise the reason of the refusal |
| Transfer.ImportTwice | crates/akmon-cli/src/bundle_cmd.rs:1025-1053 | after an import, importing the bundle under the same id is refused as a collision and adds nothing to the store |
| Sentinels.SentinelNamesOriginal | crates/akmon-bundle/src/sentinel.rs:59-91 | sentinels of different objects have different bytes |
| Sentinels.SentinelRoundTrip | crates/akmon-bundle/src/sentinel.rs:59-182 | every sentinel the program writes is recognised with its marker intact |
| Sentinels.RecognisedIsCanonical | crates/akmon-bundle/src/sentinel.rs:95-182 | recognised bytes are the canonical encoding of a flagged map that names a 32-byte hash and a valid time |
| Sentinels.SentinelRecords | crates/akmon-bundle/src/sentinel.rs:59-91 | the bytes of a sentinel read as a map of five named entries: flag, hash, size, reason and time |
| Sentinels.TryParseExact | crates/akmon-bundle/src/sentinel.rs:95-182 | which bytes are no sentinel, which are one, and what a broken one is refused for, in the order of the checks |
| Redactions.ParseRequestedRedactHashes | crates/akmon-cli/src/redact_cmd.rs:533-546 | succeeds exactly when every text is a hash; each requested hash once, in order of first occurrence; otherwise the first bad text |
| Redactions.RewriteEventKindHashes | crates/akmon-cli/src/redact_cmd.rs:556-708 | replaces at every hash position and only there; the flag says whether a requested hash occurred |
| Redactions.BuildSentinels | crates/akmon-cli/src/redact_cmd.rs:242-300 | succeeds on a working store that has the requested objects when their sentinels serialize; every requested hash then maps to the digest of its sentinel, and every kept sentinel belongs to a requested hash; each error says what failed |
| Redactions.RewriteHistory | crates/akmon-cli/src/redact_cmd.rs:301-342 | the loop computes the re-linked history and counts the entries whose hash changed; fails exactly when an event cannot be hashed |
| Redactions.ReferencedSet | crates/akmon-cli/src/redact_cmd.rs:222-225 | the set of all references of a history |
| Redactions.CheckRequested | crates/akmon-cli/src/redact_cmd.rs:226-240 | passes exactly when every requested hash is referenced, and names one that is not |
| Redactions.BuildDerivative | crates/akmon-cli/src/redact_cmd.rs:343-447 | collects exactly the rewritten history's objects and stamps its manifest; succeeds on a working store that holds the session's objects |
| Redactions.Redact | crates/akmon-cli/src/redact_cmd.rs:167-447 | a request that names stored objects of the session is carried out on a working store; a success is a redaction of exactly the requested hashes; every refusal is explained by the inputs; store and session are only read |
| RedactionLaws.RedactionExact | crates/akmon-cli/src/redact_cmd.rs:301-447 | the derivative verifies clean exactly when the source is numbered by position from one start, with at most one parent each, ordered attempts and one terminal end |
| RedactionLaws.RedactionOfAppendsIsIntact | crates/akmon-cli/src/redact_cmd.rs:242-447 | every redaction of a session grown by appends and closed once verifies clean |
| RedactionLaws.RedactClosedSession | crates/akmon-cli/src/redact_cmd.rs:167-447 | a session grown by appends and closed once is redacted whenever the request can be carried out, and the derivative is intact |
| RedactionLaws.RedactionIsMinimal | crates/akmon-cli/src/redact_cmd.rs:301-342 | sequence, time and every non-hash field are kept, and each reference changes only if it was requested |
| RedactionLaws.RedactionIsComplete | crates/akmon-cli/src/redact_cmd.rs:382-421 | the derivative's keys are its references: unrequested ones and sentinel digests |
| RedactionLaws.RedactionLeavesRecord | crates/akmon-cli/src/redact_cmd.rs:242-300 | for every requested object the derivative holds bytes that record its hash, size, reason and time and that every lawful reader recognises, unless two sentinels collide |
| RedactionLaws.SurvivesExactly | crates/akmon-cli/src/redact_cmd.rs:243-421 | a requested hash survives exactly when the object it names already is the sentinel of a requested object, or collides with one |
| Witnesses.SentinelSurvives | crates/akmon-cli/src/redact_cmd.rs:243-421 | a run that redacts an object together with its own sentinel: a redaction of both, with the second still in the derivative |
| RedactionLaws.RedactedBytesGone | crates/akmon-cli/src/redact_cmd.rs:382-421 | neither the hash nor the bytes of a redacted object remain, unless the object already was a sentinel or collides with one |
| RedactionLaws.AlterationSpreads | crates/akmon-cli/src/redact_cmd.rs:301-342 | from the first altered event on every hash is new, or a source event and its rewritten form collide |
| RedactionLaws.CascadeExact | crates/akmon-cli/src/redact_cmd.rs:301-342 | events before the first touched one are kept with their hashes, all from it on change hash, and the count is their number, unless two inputs of the digest collide or an object is its own sentinel |
| RedactionLaws.CascadeOfAppends | crates/akmon-cli/src/redact_cmd.rs:301-342 | for a session grown by appends there is such a first event, and hashes change exactly from it on |
| RedactionLaws.FirstTouched | crates/akmon-cli/src/redact_cmd.rs:222-240 | a redaction of a referenced object has a first touched event |
| Signing.SigningStatementInjective | crates/akmon-bundle/src/signing.rs:54-67 | equal `AGEF-SIG-v1` bytes mean equal version, algorithm, session and head |
| Signing.OperatorStatementInjective | crates/akmon-bundle/src/signing.rs:285-319 | equal `AGEF-OPERATOR-v1` bytes mean the same session and the same identity |
| Signing.StatementKindsDiffer | crates/akmon-bundle/src/signing.rs:54-319 | no statement of one kind has the bytes of one of the other |
| Signing.NewlinesWouldCollide | crates/akmon-bundle/src/signing.rs:306-319 | without the guard two different identities would share their signed bytes |
| Signing.SigningStatementText | crates/akmon-bundle/src/signing.rs:48-67 | the exact text that a head signature covers |
| Signing.OperatorStatementText | crates/akmon-bundle/src/signing.rs:277-319 | the exact text that an attestation covers |
| SignedManifests.SignatureOutcomeMeans | crates/akmon-bundle/src/signing.rs:218-248 | verified exactly when scheme and version match, the signature is hex and a trusted 32-byte key validates it; invalid exactly when none does and a trusted key has the recorded id; what the other outcomes mean |
| SignedManifests.OperatorOutcomeMeans | crates/akmon-bundle/src/signing.rs:468-521 | the same for attestations over the reconstructed statement, where identity fields must also be free of line breaks |
| SignedManifests.MoreTrust | crates/akmon-bundle/src/signing.rs:236-247 | trusting more keys never takes a verified entry back |
| SignedManifests.ManifestCell.AddHeadSignature | crates/akmon-cli/src/bundle_cmd.rs:1395-1441 | a head is signed exactly when the key has a public half; one entry is added, with the SHA-256 of that half as id, a signature over the new manifest's statement and the time given; otherwise nothing changes |
| SignedManifests.SignHeadMeans | crates/akmon-cli/src/bundle_cmd.rs:1395-1441 | the same for a lawful signature library, told of the step function |
| SignedManifests.ManifestCell.AddOperatorAttestation | crates/akmon-cli/src/bundle_attest.rs:95-125 | an identity is attested exactly when it has an id, none of its fields has a line break and the key has a public half; one entry is added, with that identity and the time given; otherwise the error says which is missing, and only the version of an unsigned manifest may have been stamped |
| SignedManifests.AttestMeans | crates/akmon-bundle/src/signing.rs:334-371 | the same for a lawful signature library, told of the step function |
| SignedManifests.NewSignatureVerifies | crates/akmon-cli/src/bundle_cmd.rs:1410-1441 | a new signature verifies under its own key, and records that key's id |
| SignedManifests.NewAttestationVerifies | crates/akmon-bundle/src/signing.rs:334-371 | a new attestation verifies under its own key, with the identity that was asked for |
| SignedManifests.RunExtends | crates/akmon-cli/src/bundle_attest.rs:95-125 | any run of steps only appends entries and keeps all content; the version moves only while nothing is signed |
| SignedManifests.RunKeepsOutcomes | crates/akmon-cli/src/bundle_cmd.rs:1395-1441 | over any run of steps every existing entry keeps its outcome under every list of trusted keys |
| SignedManifests.SignedStaysVerified | crates/akmon-cli/src/bundle_cmd.rs:1395-1441 | whatever comes before and after, a step with a working key leaves an entry that verifies under it |
| SignedManifests.RunKeepsIntegrity | crates/akmon-bundle/src/signing.rs:187-196 | signing changes no finding of the verifier and keeps the manifest acceptable |
| Policies.CategoriesDistinct | crates/akmon-bundle/src/verify.rs:134-153 | no violation has the category of the synthetic capture entry |
| Policies.CategoryMeans | crates/akmon-bundle/src/verify.rs:134-153 | the name of every kind of violation |
| Policies.CategoryFixesKind | crates/akmon-bundle/src/verify.rs:134-153 | violations with one name are of one kind |
| Policies.ReportViolationMeans | crates/akmon-bundle/src/verify.rs:155-176 | a reported violation names the object it is about and, for a missing object, the event that refers to it |
| Policies.ParsePublicKeyHexMeans | crates/akmon-bundle/src/signing.rs:123-129 | a key file is taken exactly when it holds the hexadecimal text of 32 bytes between white space |
| Policies.LoadPolicy | crates/akmon-bundle/src/report.rs:608-649 | loads exactly when every key file parses; every required operator key is trusted and required under its own key id |
| Policies.EvaluateBundle | crates/akmon-bundle/src/report.rs:519-685 | the integrity flag means intact, the verified flags mean intact and verified, and the bundle passes exactly when every requirement holds; the reported violations are those of the bundle and the unmet capture requirement; every entry is reported in its place with its outcome |
| Capture.CaptureExact | crates/akmon-bundle/src/capture.rs:47-73 | there is capture information exactly when the configuration object of the first session start is an object that maps `akmon_otel_config` to true; level and conventions are the texts in it, or their defaults |
| Capture.CapturedInFullMeans | crates/akmon-bundle/src/report.rs:399-435 | a bundle meets the capture requirement exactly when it is a native session or an OTEL import of level `full` |
| Policies.OperatorRequirements | crates/akmon-bundle/src/report.rs:259-276 | operator requirements hold exactly when nothing is invalid, one is verified if asked, and each required id is recorded by a verified attestation |
| Policies.WeakerPolicyPasses | crates/akmon-bundle/src/report.rs:259-456 | dropping requirements never turns a pass into a failure |
| Policies.CoSigningKeepsVerified | crates/akmon-cli/src/bundle_cmd.rs:1410-1441 | a head that is verified stays verified through any run of signings and attestations |
| Policies.CoSigningKeepsAttested | crates/akmon-cli/src/bundle_attest.rs:95-125 | a verified attestation under a key id stays one through any run of signings and attestations |
| Policies.HeadProofIsVerified | crates/akmon-cli/src/bundle_prove.rs:266-346 | a head proof that is handed out is over the reconstructed statement, carries the key, and the evaluator trusting only that key finds a verified signature |
| Policies.HeadProofExact | crates/akmon-cli/src/bundle_prove.rs:281-346 | the first entry under the key's id decides: a proof is handed out exactly when its scheme, version and 64-byte signature are right and it verifies under the key, and each refusal says which fails |
| Policies.OperatorProofGiven | crates/akmon-cli/src/bundle_prove.rs:350-426 | the same for an attestation, with the operator id and role recorded in it |
| Policies.NoProofWithoutEntry | crates/akmon-cli/src/bundle_prove.rs:281-375 | there is no matching entry exactly when none has the key's id |
| Policies.OperatorProofExact | crates/akmon-cli/src/bundle_prove.rs:350-426 | an operator proof is handed out; the evaluator agrees exactly when the identity has no newline or carriage return |
| Policies.OperatorProofDisagrees | crates/akmon-cli/src/bundle_prove.rs:350-426 | an attestation for which a proof is handed out and the evaluator says malformed |
| Delivery.StampedAccepted | crates/akmon-bundle/src/manifest.rs:185-212 | the reader accepts what export and redaction stamp exactly when its two times are readable |
| Delivery.StampedReadable | crates/akmon-cli/src/bundle_cmd.rs:555-562 | the times are readable exactly when the session starts and ends in the year 0 or later |
| Delivery.ArchiveReadExact | crates/akmon-bundle/src/archive.rs:63-243 | an intact bundle is read back from an archive of it, in any entry order, exactly when the size, the manifest and every frame are acceptable, and is then intact |
| Delivery.ExportDelivered | crates/akmon-cli/src/bundle_cmd.rs:465-588 | an exported session, archived in any entry order, is read back exactly when it is within the size limit, starts and ends in the year 0 or later and has no frame beyond the frame limit, and is then intact |
| Delivery.RedactionDelivered | crates/akmon-cli/src/redact_cmd.rs:423-476 | the same for a redacted session, with the frames as they are after rewriting |
| Witnesses.ImportedButUnreadable | crates/akmon-bundle/src/events.rs:214-218 | a bundle of the year -1 whose manifest the reader accepts, imported and exported again: same events and objects, intact, and refused by the reader |
| Witnesses.ExportedButTooLong | crates/akmon-bundle/src/events.rs:86-89 | a session of the epoch, grown by appends, whose intact export has a frame beyond the reader's default limit |
| Witnesses.CleanForJournalOnly | crates/akmon-journal/src/session_graph.rs:92-188 | a session the journal's verifier finds clean and none of whose exports is intact |
| Sealing.RunMakes | crates/akmon-cli/src/bundle_cmd.rs:1410-1441 | every signature and attestation that a run adds was made, over the statement at the end, by one of the keys of its steps |
| Sealing.RunAddsNoInvalid | crates/akmon-bundle/src/signing.rs:218-247 | a run adds no entry that is called invalid under any trusted keys, unless the key id of a signer clashes with a trusted one |
| Sealing.CoSigningKeepsPasses | crates/akmon-bundle/src/report.rs:654-685 | a bundle that passes a policy still passes it after any run of signings and attestations, unless such a clash exists |
| Sealing.LoadSealPolicy | crates/akmon-cli/src/seal_cmd.rs:636-647 | the policy loaded from the key files that sealing writes asks for a signature by the one key and an attestation by the other, and for nothing else |
| Sealing.SealedPasses | crates/akmon-cli/src/seal_cmd.rs:586-672 | an unsigned intact bundle, signed and, with an operator, attested, passes that policy, whatever other steps come before, between and after, unless key ids clash |
| Sealing.NormalAgain | crates/akmon-bundle/src/events.rs:24-111 | reading normalises at most once and keeps the length of every frame, so what was read once fits again |
| Sealing.SealedSessionPasses | crates/akmon-cli/src/seal_cmd.rs:574-672 | export, read back, sign and attest, archive, read back again: the first reading succeeds exactly when the export is deliverable, then only the size limit can stop the second, and the result passes the policy of sealing, operator key included, unless key ids clash |
| Spki.Base64Encode | crates/akmon-bundle/src/spki.rs:60-82 | the loop over chunks computes the base64 text |
| Spki.Base64RoundTrip | crates/akmon-bundle/src/spki.rs:60-82 | a strict decoder recovers every byte string |
| Spki.Base64Exact | crates/akmon-bundle/src/spki.rs:60-82 | text the strict decoder accepts is exactly what the encoder writes |
| Spki.Base64Shape | crates/akmon-bundle/src/spki.rs:60-82 | four characters for every three bytes begun, padded by as many `=` as bytes are missing and nowhere else |
| Spki.Ed25519SpkiDer | crates/akmon-bundle/src/spki.rs:33-41 | the fixed prefix and the key, or the wrong length |
| Spki.Ed25519SpkiPem | crates/akmon-bundle/src/spki.rs:48-54 | the PEM block of any 32-byte key, or the wrong length |
| Spki.PemRoundTrip | crates/akmon-bundle/src/spki.rs:43-54 | the body is 60 characters and the key comes back out of the block |
| Spki.DerStructure | crates/akmon-bundle/src/spki.rs:17-41 | every tag is the right one and every length octet counts what follows it; the object identifier is 1.3.101.112 |
| Display.SanitizeDisplay | crates/akmon-bundle/src/sanitize.rs:26-41 | the loop over characters computes the escaped text |
| Display.SanitizeReversible | crates/akmon-bundle/src/sanitize.rs:26-41 | an unescaper recovers every input |
| Display.SanitizeHarmless | crates/akmon-bundle/src/sanitize.rs:26-68 | no control, format or bidirectional character is left |
| Display.HostileAsDocumented | crates/akmon-bundle/src/sanitize.rs:12-24 | the characters that are escaped are those the documentation lists |
| Display.MarkdownEscape | crates/akmon-bundle/src/render.rs:206-225 | the nested loops compute the escaped Markdown |
| Display.MetaMeans | crates/akmon-bundle/src/render.rs:215-222 | the eleven metacharacters |
| Display.MarkdownRenders | crates/akmon-bundle/src/render.rs:206-225 | the output is made of plain characters and escaped metacharacters, and renders as the visible form of each character |
| Display.ShownHarmless | crates/akmon-bundle/src/render.rs:206-225 | what is rendered holds no control, format or bidirectional character |
| Display.ShownExactly | crates/akmon-bundle/src/render.rs:206-225 | the rendering shows the value itself exactly when nothing in it is hostile |
| Display.MarkdownNotReversible | crates/akmon-bundle/src/render.rs:206-225 | a control character and the text of its escape render alike |
| Shell.QuoteIsOneWord | crates/akmon-cli/src/otel_cmd.rs:288-298 | for every string, a POSIX shell reads the quoted form as exactly one word, equal to it |
| Shell.UnquotedExactly | crates/akmon-cli/src/otel_cmd.rs:288-298 | a text is left as it is exactly when it has characters and all of them are plain |
| Shell.SafeMeans | crates/akmon-cli/src/otel_cmd.rs:289-292 | the plain characters are the ASCII letters and digits and ten more |
| Shell.CommandReadsBack | crates/akmon-cli/src/otel_cmd.rs:288-298 | any list of arguments, each quoted, joined by blanks, is read back as that list |
| Shell.NextCommandArguments | crates/akmon-cli/src/otel_cmd.rs:301-307 | for a session id that needs no quoting the suggested command passes the session id, the journal path and the output name as single arguments |
| Shell.NextCommandOfSession | crates/akmon-cli/src/otel_cmd.rs:301-307 | so it does for every session, whose id is a UUID, and for every journal path |
| Shell.OpensslCommandArguments | crates/akmon-cli/src/bundle_prove.rs:221-228 | whatever the file names are, the printed command passes them as single arguments |

## Left out

- Manifests.LawfulManifestCodec: JSON text is not modelled; the law is asked only for manifests whose extra members have no reserved name, are in canonical order, hold no floats and nest at most 126 deep, since the reader rounds floats and stops at a depth.
- Manifests.ValidateAll: a session id is accepted in its canonical hyphenated form only, and RFC 3339 recognition is a parameter with the law `Calendar.LawfulTimestampCheck`.
- ArchiveLaws.ReadExact: starts from the list of archive entries; zstd and tar headers are outside.
- Archive.ReadBundleLimited: the tar reader is a parameter, and entries are looked at once it has finished; when several things are wrong with an archive, the code may report another one first.
- Delivery.ExportDelivered: the two limits are parameters of the reader; how large an archive gets is not computed from its contents.
- Sealing.SealedSessionPasses: key files' permissions, temporary files and the final renames are outside.
- Transfer.ImportBundle: of an import that a failing database stops, only what stays in the store is stated.
- ArchiveLaws.WriteThenReadBundle: keys must be of the manifest's algorithm, since file names do not record it.
- Framing.LawfulDecoder: the CBOR decoder is known only through its law; CBOR values the program never writes, such as floats, are not represented.
- Sentinels.TryParseSentinel: the generic and the typed reader are two parameters with one law each; map keys and values outside the modelled CBOR are not represented.
- Transfer.ExportExact: asks that there be fewer than 2^64 objects, the range of the declared count.
- RedactionLaws.RedactionExact: asks that there be fewer than 2^64 objects, the range of the declared count.
- Signing.LawfulEd25519: nothing is proved about forged signatures; key generation and PKCS#8 parsing are outside.
- Policies.ComputePassedAndViolations: the wording of messages is not modelled, only categories and hashes.
- Policies.BuildVerifyReport: session window, unsigned metadata and time warnings of the report are not modelled.
- Journal.SessionGraph.Append: the database is a store whose reads and whole transactions may fail; its tables, reopening and concurrent writers are not modelled, and the clock is a parameter.
- Transfer.ExportClosedSession: intactness is stated for fewer than 2^64 objects, the range of the declared count.
- RedactionLaws.RedactClosedSession: intactness is stated for fewer than 2^64 objects, the range of the declared count.
- Human and Markdown report layout, exit codes, command-line arguments, file creation and renaming.
- OTEL trace mapping, provider checks, configuration, transcripts and the archived prototypes.
