/** Which archive entries a reader takes, told by their type and the characters of their path. */
module EntryLaws {
  import opened Foundation
  import opened Text
  import opened Events
  import opened Errors
  import opened Framing
  import opened Manifests
  import opened Archive
  import opened ArchiveLaws

  // ---------------------------------------------------------------- paths

  /** The path reads as `text`, where a backslash may stand for a slash. */
  predicate ReadsAsPath(path: string, text: string) {
    && |path| == |text|
    && forall i :: 0 <= i < |path| ==> text[i] == if path[i] == '\\' then '/' else path[i]
  }

  predicate IsFile(e: Entry, text: string) {
    e.entryType.RegularFile? && ReadsAsPath(e.path, text)
  }

  /** "objects/", `n` times over. */
  function Prefixes(n: nat): string {
    if n == 0 then "" else "objects/" + Prefixes(n - 1)
  }

  /** A path that is "objects/", once or repeated, and then `name`. */
  ghost predicate UnderObjects(path: string, name: string) {
    exists n {:trigger Prefixes(n)} :: 1 <= n && ReadsAsPath(path, Prefixes(n) + name)
  }

  predicate IsDigestName(name: string) {
    |name| == 64 && forall i :: 0 <= i < 64 ==> '0' <= name[i] <= '9' || 'a' <= name[i] <= 'f'
  }

  ghost predicate IsObjectEntry(e: Entry) {
    e.entryType.RegularFile? && exists name :: IsDigestName(name) && UnderObjects(e.path, name)
  }

  predicate IsObjectsDirectory(e: Entry) {
    e.entryType.Directory? && ReadsAsPath(e.path, "objects/")
  }

  /** A regular file below "objects/". */
  predicate BelowObjects(e: Entry) {
    e.entryType.RegularFile? && |e.path| >= 8 && ReadsAsPath(e.path[..8], "objects/")
  }

  /** An entry that is no part of a bundle. */
  predicate Foreign(e: Entry) {
    if e.entryType.RegularFile? then !IsFile(e, "manifest.json") && !IsFile(e, "events.bin") && !BelowObjects(e)
    else !IsObjectsDirectory(e)
  }

  lemma UnixReads(path: string, text: string)
    ensures PathToUnix(path) == text <==> ReadsAsPath(path, text)
  {
    var unix := PathToUnix(path);
    assert |unix| == |path|;
    if ReadsAsPath(path, text) {
      assert unix == text;
    }
  }

  lemma BelowObjectsMeans(e: Entry)
    ensures BelowObjects(e) <==> e.entryType.RegularFile? && OBJECTS <= PathToUnix(e.path)
  {
    var unix := PathToUnix(e.path);
    assert |OBJECTS| == 8;
    if |e.path| >= 8 {
      UnixReads(e.path[..8], OBJECTS);
      assert PathToUnix(e.path[..8]) == unix[..8];
    }
  }

  lemma PrefixesStep(n: nat, name: string)
    ensures Prefixes(n + 1) + name == OBJECTS + (Prefixes(n) + name)
    ensures OBJECTS <= Prefixes(n + 1) + name && (Prefixes(n + 1) + name)[|OBJECTS|..] == Prefixes(n) + name
  {
    assert Prefixes(n + 1) == OBJECTS + Prefixes(n);
  }

  /** What is left after all leading "objects/" are stripped does not start with one. */
  lemma {:induction false} TrimmedOf(path: string) returns (n: nat)
    ensures path == Prefixes(n) + TrimObjects(path) && (OBJECTS <= path ==> 1 <= n)
    ensures !(OBJECTS <= TrimObjects(path))
    decreases |path|
  {
    if OBJECTS <= path {
      var rest := path[|OBJECTS|..];
      var k := TrimmedOf(rest);
      assert path == OBJECTS + rest;
      PrefixesStep(k, TrimObjects(rest));
      n := k + 1;
    } else {
      n := 0;
      assert path == Prefixes(0) + path;
    }
  }

  lemma {:induction false} TrimPrefixes(n: nat, name: string)
    requires !(OBJECTS <= name)
    ensures TrimObjects(Prefixes(n) + name) == name
    ensures n >= 1 ==> OBJECTS <= Prefixes(n) + name
  {
    if n == 0 {
      assert Prefixes(0) + name == name;
    } else {
      hide Prefixes;
      TrimPrefixes(n - 1, name);
      PrefixesStep(n - 1, name);
    }
  }

  lemma TrimmedMeans(e: Entry, name: string)
    requires name != "" && '/' !in name
    ensures BelowObjects(e) && TrimObjects(PathToUnix(e.path)) == name <==>
              e.entryType.RegularFile? && UnderObjects(e.path, name)
  {
    hide PathToUnix, ReadsAsPath;
    var unix := PathToUnix(e.path);
    BelowObjectsMeans(e);
    assert !(OBJECTS <= name) by {
      assert OBJECTS[7] == '/';
    }
    if OBJECTS <= unix && TrimObjects(unix) == name {
      var n := TrimmedOf(unix);
      UnixReads(e.path, Prefixes(n) + name);
    }
    if UnderObjects(e.path, name) {
      var n :| 1 <= n && ReadsAsPath(e.path, Prefixes(n) + name);
      UnixReads(e.path, Prefixes(n) + name);
      TrimPrefixes(n, name);
    }
  }

  // ---------------------------------------------------------------- classes

  /** What an entry is taken for, told by its type and path. */
  lemma ClassifyMeans(e: Entry, allow: bool)
    ensures Classify(e, allow).ManifestFile? <==> IsFile(e, "manifest.json")
    ensures Classify(e, allow).EventsFile? <==> IsFile(e, "events.bin")
    ensures Classify(e, allow).Skipped? <==> IsObjectsDirectory(e) || (allow && Foreign(e))
    ensures forall name :: Classify(e, allow) == ObjectFile(name) <==>
              e.entryType.RegularFile? && name != "" && '/' !in name && UnderObjects(e.path, name)
    ensures Foreign(e) && !allow ==>
              Classify(e, allow).Rejected? && Classify(e, allow).error.UnknownBundleFile?
              && ReadsAsPath(e.path, Classify(e, allow).error.path)
    ensures BelowObjects(e) ==>
              Classify(e, allow).ObjectFile? || Classify(e, allow) == Rejected(InvalidArchive)
  {
    hide PathToUnix, TrimObjects, ReadsAsPath, UnderObjects;
    var unix := PathToUnix(e.path);
    UnixReads(e.path, unix);
    UnixReads(e.path, "manifest.json");
    UnixReads(e.path, "events.bin");
    UnixReads(e.path, "objects/");
    BelowObjectsMeans(e);
    assert OBJECTS[0] == 'o' && "manifest.json"[0] == 'm' && "events.bin"[0] == 'e';
    forall name
      ensures Classify(e, allow) == ObjectFile(name) <==>
                e.entryType.RegularFile? && name != "" && '/' !in name && UnderObjects(e.path, name)
    {
      if name != "" && '/' !in name {
        TrimmedMeans(e, name);
      }
    }
  }

  // ---------------------------------------------------------------- what a reader lets through

  /** An entry that belongs in a bundle. */
  ghost predicate Admissible(e: Entry) {
    IsFile(e, "manifest.json") || IsFile(e, "events.bin") || IsObjectEntry(e) || IsObjectsDirectory(e)
  }

  /** Every entry of an accepted archive belongs in a bundle, except for foreign ones where those are let through. */
  lemma AcceptedEntries(lib: Library, opts: ReadOptions, entries: seq<Entry>)
    requires ReadEntries(lib, opts, entries).Ok?
    ensures forall e :: e in entries ==> Admissible(e) || (opts.allowExtraFiles && Foreign(e))
    ensures exists e :: e in entries && IsFile(e, "manifest.json")
    ensures exists e :: e in entries && IsFile(e, "events.bin")
  {
    hide ReadEntries, Classify, IsFile, IsObjectsDirectory, Foreign, BelowObjects, UnderObjects;
    var c, allow := ReadEntries(lib, opts, entries).value, opts.allowExtraFiles;
    ReadExact(lib, opts, entries, c);
    assert forall x :: x in multiset(entries) <==> x in entries;
    forall e
      ensures e in entries ==> Admissible(e) || (allow && Foreign(e))
      ensures Classify(e, allow).ManifestFile? <==> IsFile(e, "manifest.json")
      ensures Classify(e, allow).EventsFile? <==> IsFile(e, "events.bin")
    {
      ClassifyMeans(e, allow);
      if e in entries && Classify(e, allow).ObjectFile? {
        assert ObjectPresent(AlgorithmOf(c.manifest), Classify(e, allow).name, e.bytes, c.objects);
        assert IsDigestName(Classify(e, allow).name);
      }
    }
  }

  /** No two entries of an accepted archive are for the same part of the bundle. */
  lemma AcceptedOnce(lib: Library, opts: ReadOptions, entries: seq<Entry>, i: nat, j: nat)
    requires ReadEntries(lib, opts, entries).Ok? && i < j < |entries|
    ensures !(IsFile(entries[i], "manifest.json") && IsFile(entries[j], "manifest.json"))
    ensures !(IsFile(entries[i], "events.bin") && IsFile(entries[j], "events.bin"))
    ensures IsObjectEntry(entries[i]) && IsObjectEntry(entries[j]) ==>
              !exists name :: UnderObjects(entries[i].path, name) && UnderObjects(entries[j].path, name)
                              && IsDigestName(name)
  {
    hide ReadEntries, Classify, IsFile, UnderObjects, ObjectsAre, BytesDecodeTo, Foreign, BelowObjects;
    var x, y, ms, allow := entries[i], entries[j], multiset(entries), opts.allowExtraFiles;
    ReadExact(lib, opts, entries, ReadEntries(lib, opts, entries).value);
    ClassifyMeans(x, allow);
    ClassifyMeans(y, allow);
    assert x in entries && y in entries;
    if x == y {
      TwiceCounted(entries, i, j);
    }
    assert !Clash(Classify(x, allow), Classify(y, allow));
    forall name | UnderObjects(x.path, name) && UnderObjects(y.path, name) && IsDigestName(name)
      ensures !(x.entryType.RegularFile? && y.entryType.RegularFile?)
    {
      DigestNameIsPlain(name);
    }
  }

  lemma DigestNameIsPlain(name: string)
    requires IsDigestName(name)
    ensures name != "" && '/' !in name
  {
    assert forall i :: 0 <= i < 64 ==> name[i] != '/';
  }

  lemma TwiceCounted<T>(s: seq<T>, i: nat, j: nat)
    requires i < j < |s| && s[i] == s[j]
    ensures multiset(s)[s[i]] >= 2
  {
    assert s == s[..j] + s[j..];
    assert s[i] in s[..j] && s[j] in s[j..];
    assert multiset(s) == multiset(s[..j]) + multiset(s[j..]);
    assert s[..j][i] == s[i] && s[j..][0] == s[j];
  }

  /** What the parts of an accepted archive hold: the manifest, the events, each object under its digest. */
  lemma AcceptedContents(lib: Library, opts: ReadOptions, entries: seq<Entry>, e: Entry)
    requires ReadEntries(lib, opts, entries).Ok? && e in entries
    ensures var c := ReadEntries(lib, opts, entries).value;
            var a := AlgorithmOf(c.manifest);
            && (IsFile(e, "manifest.json") ==> lib.codec.read(e.bytes) == Some(c.manifest))
            && (IsFile(e, "events.bin") ==>
                  ParseStream(lib.p, lib.decode, a, opts.maxEventFrameLen, e.bytes) == Ok(c.events))
            && (forall h: Hash :: e.entryType.RegularFile? && UnderObjects(e.path, h.ToHex()) && h.algorithm == a ==>
                  h in c.objects && c.objects[h] == e.bytes)
  {
    hide ReadEntries, Classify, IsFile, UnderObjects, Foreign, BelowObjects, ValidateAll, ParseStream, Accepted;
    var c, ms, allow := ReadEntries(lib, opts, entries).value, multiset(entries), opts.allowExtraFiles;
    ReadExact(lib, opts, entries, c);
    ClassifyMeans(e, allow);
    assert e in ms;
    var m, s :|
      && m in ms && Classify(m, allow).ManifestFile? && s in ms && Classify(s, allow).EventsFile?
      && BytesDecodeTo(lib, opts, m.bytes, s.bytes, c);
    assert IsFile(e, "manifest.json") ==> Clash(Classify(e, allow), Classify(m, allow));
    assert IsFile(e, "events.bin") ==> Clash(Classify(e, allow), Classify(s, allow));
    forall h: Hash | e.entryType.RegularFile? && UnderObjects(e.path, h.ToHex())
      && h.algorithm == AlgorithmOf(c.manifest)
      ensures h in c.objects && c.objects[h] == e.bytes
    {
      HexNameIsDigest(h);
      DigestNameIsPlain(h.ToHex());
      assert ObjectPresent(h.algorithm, h.ToHex(), e.bytes, c.objects);
      HexRoundTrip(h.bytes);
    }
  }

  lemma HexNameIsDigest(h: Hash)
    ensures IsDigestName(h.ToHex())
  {
    assert forall i :: 0 <= i < 64 ==> IsLowerHexDigit(h.ToHex()[i]);
  }

  /** And it has no other objects. */
  lemma NoOtherObjects(lib: Library, opts: ReadOptions, entries: seq<Entry>, h: Hash)
    requires ReadEntries(lib, opts, entries).Ok? && h in ReadEntries(lib, opts, entries).value.objects
    ensures h.algorithm == AlgorithmOf(ReadEntries(lib, opts, entries).value.manifest)
    ensures exists e :: e in entries && e.entryType.RegularFile? && UnderObjects(e.path, h.ToHex())
  {
    hide ReadEntries, Classify, IsFile, UnderObjects, Foreign, BelowObjects, BytesDecodeTo, NoClash;
    var c, allow := ReadEntries(lib, opts, entries).value, opts.allowExtraFiles;
    ReadExact(lib, opts, entries, c);
    assert HasFile(multiset(entries), allow, h);
    var e :| e in multiset(entries) && Classify(e, allow) == ObjectFile(h.ToHex());
    ClassifyMeans(e, allow);
    assert e in entries;
  }

  lemma OnlyObjects(e: Entry)
    requires BelowObjects(e)
    ensures !IsFile(e, "manifest.json") && !IsFile(e, "events.bin") && !IsObjectsDirectory(e) && !Foreign(e)
  {
    assert "objects/"[0] == 'o' && "manifest.json"[0] == 'm' && "events.bin"[0] == 'e';
    assert e.path[..8][0] == e.path[0];
  }

  /** A file below "objects/" that is not named by a digest is refused, whether or not extra files are allowed. */
  lemma BadObjectRefused(lib: Library, opts: ReadOptions, entries: seq<Entry>, e: Entry)
    requires e in entries && BelowObjects(e) && !IsObjectEntry(e)
    ensures ReadEntries(lib, opts, entries).Err?
  {
    hide ReadEntries, ReadsAsPath, IsObjectEntry;
    if ReadEntries(lib, opts, entries).Ok? {
      AcceptedEntries(lib, opts, entries);
      OnlyObjects(e);
      assert false;
    }
  }

  /** "objects/" itself and a path with a further slash are no object files. */
  lemma NoObjectNames(e: Entry)
    ensures IsFile(e, "objects/") || IsFile(e, "objects/a/b") ==> BelowObjects(e) && !IsObjectEntry(e)
  {
    hide PathToUnix, UnderObjects;
    if IsFile(e, "objects/") || IsFile(e, "objects/a/b") {
      assert ReadsAsPath(e.path[..8], "objects/");
      if IsObjectEntry(e) {
        var name :| IsDigestName(name) && UnderObjects(e.path, name);
        LongPath(e.path, name);
        assert false;
      }
    }
  }

  lemma LongPath(path: string, name: string)
    requires UnderObjects(path, name)
    ensures |path| >= |name|
  {
  }

  /** In strict mode the first foreign entry, if nothing before it is refused, is the error. */
  lemma ForeignRefused(lib: Library, opts: ReadOptions, entries: seq<Entry>, i: nat)
    requires !opts.allowExtraFiles && i < |entries| && Foreign(entries[i])
    requires Gather(entries[..i], false).Ok?
    ensures var r := ReadEntries(lib, opts, entries);
            r.Err? && r.error.UnknownBundleFile? && ReadsAsPath(entries[i].path, r.error.path)
  {
    hide Classify, Foreign, ReadsAsPath, Assemble;
    ClassifyMeans(entries[i], false);
    GatherStep(entries, i, false);
  }

  /** The entries that are part of a bundle, in order. */
  function WithoutForeign(entries: seq<Entry>): seq<Entry> {
    if entries == [] then []
    else
      var n := |entries| - 1;
      WithoutForeign(entries[..n]) + (if Foreign(entries[n]) then [] else [entries[n]])
  }

  lemma {:induction false} GatherWithoutForeign(entries: seq<Entry>)
    ensures Gather(WithoutForeign(entries), true) == Gather(entries, true)
  {
    hide Classify, Foreign, AddEntry, Gather, IsObjectsDirectory;
    if entries != [] {
      var n := |entries| - 1;
      var kept := WithoutForeign(entries[..n]);
      GatherWithoutForeign(entries[..n]);
      GatherLast(entries[..n], entries[n]);
      GatherLast(kept, entries[n]);
      assert entries == entries[..n] + [entries[n]];
      assert kept + [] == kept;
    }
  }

  /** The last entry is added to what came before it; a foreign one is passed over. */
  lemma GatherLast(entries: seq<Entry>, e: Entry)
    ensures Gather(entries + [e], true) ==
            if Gather(entries, true).Err? then Gather(entries, true)
            else AddEntry(Gather(entries, true).value, Classify(e, true), e.bytes)
    ensures Foreign(e) ==> Gather(entries + [e], true) == Gather(entries, true)
  {
    hide Classify, Foreign, IsObjectsDirectory;
    var all := entries + [e];
    assert all[..|all| - 1] == entries && all[|all| - 1] == e;
    ClassifyMeans(e, true);
  }

  /** Where extra files are allowed, foreign entries make no difference at all. */
  lemma ForeignIgnored(lib: Library, opts: ReadOptions, entries: seq<Entry>)
    requires opts.allowExtraFiles
    ensures ReadEntries(lib, opts, entries) == ReadEntries(lib, opts, WithoutForeign(entries))
    ensures forall e :: e in WithoutForeign(entries) <==> e in entries && !Foreign(e)
  {
    hide Assemble, Gather, Foreign;
    GatherWithoutForeign(entries);
    KeptEntries(entries);
  }

  lemma {:induction false} KeptEntries(entries: seq<Entry>)
    ensures forall e :: e in WithoutForeign(entries) <==> e in entries && !Foreign(e)
  {
    hide Foreign;
    if entries != [] {
      var n := |entries| - 1;
      KeptEntries(entries[..n]);
      assert entries == entries[..n] + [entries[n]];
    }
  }
}
