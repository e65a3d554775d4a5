/** Order independence of reading, the writer, and the round trip between them. */
module ArchiveLaws {
  import opened Foundation
  import opened Text
  import opened Cbor
  import opened Events
  import opened Errors
  import opened Framing
  import opened Manifests
  import opened Archive
  import Ordered

  // ---------------------------------------------------------------- what a set of entries reads as

  /** Nothing is rejected and no two entries claim the same place. */
  ghost predicate NoClash(ms: multiset<Entry>, allow: bool) {
    && (forall x :: x in ms ==> !Classify(x, allow).Rejected?)
    && (forall x, y :: x in ms && y in ms && Clash(Classify(x, allow), Classify(y, allow)) ==> x == y && ms[x] == 1)
  }

  ghost predicate ObjectPresent(a: HashAlgorithm, name: string, bytes: Bytes, objects: map<Hash, Bytes>) {
    IsObjectName(name) && ObjectHash(a, name) in objects && objects[ObjectHash(a, name)] == bytes
  }

  ghost predicate HasFile(ms: multiset<Entry>, allow: bool, h: Hash) {
    exists x :: x in ms && Classify(x, allow) == ObjectFile(h.ToHex())
  }

  ghost predicate ObjectsAre(ms: multiset<Entry>, allow: bool, a: HashAlgorithm, objects: map<Hash, Bytes>) {
    && (forall x :: x in ms && Classify(x, allow).ObjectFile? ==>
          ObjectPresent(a, Classify(x, allow).name, x.bytes, objects))
    && (forall h {:trigger HasFile(ms, allow, h)} :: h in objects ==> h.algorithm == a && HasFile(ms, allow, h))
  }

  function AlgorithmOf(m: Manifest): HashAlgorithm {
    match ParseAlgorithm(m.hashAlgorithm)
    case Some(a) => a
    case None => Sha256
  }

  ghost predicate BytesDecodeTo(lib: Library, opts: ReadOptions, manifest: Bytes, events: Bytes, c: BundleContents) {
    && ManifestFromJson(lib.codec, lib.isTimestamp, manifest) == Ok(c.manifest)
    && Accepted(c.manifest, lib.isTimestamp)
    && ParseStream(lib.p, lib.decode, AlgorithmOf(c.manifest), opts.maxEventFrameLen, events) == Ok(c.events)
  }

  /** The bundle that a collection of entries, in any order, stands for. */
  ghost predicate ReadsAs(lib: Library, opts: ReadOptions, ms: multiset<Entry>, c: BundleContents) {
    && NoClash(ms, opts.allowExtraFiles)
    && (exists m, e ::
          && m in ms && Classify(m, opts.allowExtraFiles).ManifestFile?
          && e in ms && Classify(e, opts.allowExtraFiles).EventsFile?
          && BytesDecodeTo(lib, opts, m.bytes, e.bytes, c))
    && ObjectsAre(ms, opts.allowExtraFiles, AlgorithmOf(c.manifest), c.objects)
  }

  // ---------------------------------------------------------------- gathering entries

  ghost predicate Describes(g: Gathered, ms: multiset<Entry>, allow: bool) {
    && (forall x :: x in ms && Classify(x, allow).ManifestFile? ==> g.manifest == Some(x.bytes))
    && (g.manifest.Some? ==> exists x :: x in ms && Classify(x, allow).ManifestFile?)
    && (forall x :: x in ms && Classify(x, allow).EventsFile? ==> g.events == Some(x.bytes))
    && (g.events.Some? ==> exists x :: x in ms && Classify(x, allow).EventsFile?)
    && DescribesObjects(g.objects, ms, allow)
  }

  ghost predicate HasObject(objects: seq<(string, Bytes)>, name: string, bytes: Bytes) {
    exists i :: 0 <= i < |objects| && objects[i].0 == name && objects[i].1 == bytes
  }

  ghost predicate HasEntry(ms: multiset<Entry>, allow: bool, name: string, bytes: Bytes) {
    exists x :: x in ms && Classify(x, allow) == ObjectFile(name) && x.bytes == bytes
  }

  ghost predicate DescribesObjects(objects: seq<(string, Bytes)>, ms: multiset<Entry>, allow: bool) {
    && (forall x :: x in ms && Classify(x, allow).ObjectFile? ==> HasObject(objects, Classify(x, allow).name, x.bytes))
    && (forall i :: 0 <= i < |objects| ==> HasEntry(ms, allow, objects[i].0, objects[i].1))
  }

  ghost predicate DistinctNames(objects: seq<(string, Bytes)>) {
    forall i, j :: 0 <= i < j < |objects| ==> objects[i].0 != objects[j].0
  }

  /** The number of entries that are object files. */
  function ObjectEntries(entries: seq<Entry>, allow: bool): nat {
    if entries == [] then 0
    else
      var n := |entries| - 1;
      ObjectEntries(entries[..n], allow) + (if Classify(entries[n], allow).ObjectFile? then 1 else 0)
  }

  lemma NoClashAdd(ms: multiset<Entry>, e: Entry, allow: bool)
    ensures NoClash(ms + multiset{e}, allow) <==>
            && NoClash(ms, allow)
            && !Classify(e, allow).Rejected?
            && forall x :: x in ms ==> !Clash(Classify(x, allow), Classify(e, allow))
  {
    hide Classify;
    var more := ms + multiset{e};
    assert forall x :: x in more <==> x in ms || x == e;
    if NoClash(more, allow) {
      forall x, y | x in ms && y in ms && Clash(Classify(x, allow), Classify(y, allow))
        ensures x == y && ms[x] == 1
      {
        assert more[x] == 1;
      }
      assert e in more && (e in ms ==> more[e] > 1);
    }
  }

  /** A new entry is refused exactly when it is rejected or clashes with one already there. */
  lemma AddEntryRefused(g: Gathered, ms: multiset<Entry>, e: Entry, allow: bool)
    requires Describes(g, ms, allow)
    ensures AddEntry(g, Classify(e, allow), e.bytes).Ok? <==>
            !Classify(e, allow).Rejected? && forall x :: x in ms ==> !Clash(Classify(x, allow), Classify(e, allow))
  {
    hide Classify;
    var c := Classify(e, allow);
    if c.ObjectFile? {
      if HasName(g.objects, c.name) {
        var i :| 0 <= i < |g.objects| && g.objects[i].0 == c.name;
        assert HasEntry(ms, allow, g.objects[i].0, g.objects[i].1);
      }
      if x :| x in ms && Clash(Classify(x, allow), c) {
        assert HasObject(g.objects, c.name, x.bytes);
      }
    }
  }

  lemma AddEntryDescribes(g: Gathered, ms: multiset<Entry>, e: Entry, allow: bool)
    requires Describes(g, ms, allow) && DistinctNames(g.objects)
    requires AddEntry(g, Classify(e, allow), e.bytes).Ok?
    ensures var h := AddEntry(g, Classify(e, allow), e.bytes).value;
            && Describes(h, ms + multiset{e}, allow) && DistinctNames(h.objects)
            && |h.objects| == |g.objects| + (if Classify(e, allow).ObjectFile? then 1 else 0)
  {
    hide Classify, DescribesObjects;
    AddEntryRefused(g, ms, e, allow);
    var h := AddEntry(g, Classify(e, allow), e.bytes).value;
    var more := ms + multiset{e};
    assert e in more;
    assert forall x :: x in more <==> x in ms || x == e;
    assert forall x :: x in ms ==> x in more;
    if Classify(e, allow).ObjectFile? {
      AddObjectDescribes(g.objects, ms, e, allow);
      HasNameAppend(g.objects, Classify(e, allow).name, e.bytes);
    } else {
      SkipDescribes(g.objects, ms, e, allow);
    }
  }

  lemma SkipDescribes(objects: seq<(string, Bytes)>, ms: multiset<Entry>, e: Entry, allow: bool)
    requires DescribesObjects(objects, ms, allow) && !Classify(e, allow).ObjectFile?
    ensures DescribesObjects(objects, ms + multiset{e}, allow)
  {
    hide Classify;
    assert forall x :: x in ms + multiset{e} <==> x in ms || x == e;
    forall i | 0 <= i < |objects|
      ensures HasEntry(ms + multiset{e}, allow, objects[i].0, objects[i].1)
    {
      assert HasEntry(ms, allow, objects[i].0, objects[i].1);
    }
  }

  lemma AddObjectDescribes(objects: seq<(string, Bytes)>, ms: multiset<Entry>, e: Entry, allow: bool)
    requires DescribesObjects(objects, ms, allow) && Classify(e, allow).ObjectFile?
    ensures DescribesObjects(objects + [(Classify(e, allow).name, e.bytes)], ms + multiset{e}, allow)
  {
    hide Classify;
    var name := Classify(e, allow).name;
    var longer, more := objects + [(name, e.bytes)], ms + multiset{e};
    assert forall x :: x in more <==> x in ms || x == e;
    assert longer[|objects|] == (name, e.bytes);
    forall x | x in more && Classify(x, allow).ObjectFile?
      ensures HasObject(longer, Classify(x, allow).name, x.bytes)
    {
      if x != e {
        assert HasObject(objects, Classify(x, allow).name, x.bytes);
        var i :| 0 <= i < |objects| && objects[i].0 == Classify(x, allow).name && objects[i].1 == x.bytes;
        assert longer[i] == objects[i];
      }
    }
    forall i | 0 <= i < |longer|
      ensures HasEntry(more, allow, longer[i].0, longer[i].1)
    {
      if i < |objects| {
        assert HasEntry(ms, allow, objects[i].0, objects[i].1);
      } else {
        assert e in more;
      }
    }
  }

  lemma EmptyDescribed(allow: bool)
    ensures NoClash(multiset{}, allow)
    ensures Describes(Gathered(None, None, []), multiset{}, allow) && DistinctNames([])
  {
  }

  lemma {:induction false} GatherExact(entries: seq<Entry>, allow: bool)
    ensures Gather(entries, allow).Ok? <==> NoClash(multiset(entries), allow)
    ensures Gather(entries, allow).Ok? ==>
              var g := Gather(entries, allow).value;
              && Describes(g, multiset(entries), allow)
              && DistinctNames(g.objects)
              && |g.objects| == ObjectEntries(entries, allow)
  {
    hide Classify, AddEntry, Describes, DistinctNames, NoClash;
    if entries == [] {
      EmptyDescribed(allow);
    } else {
      var n := |entries| - 1;
      var init, last := entries[..n], entries[n];
      assert entries == init + [last];
      assert multiset(entries) == multiset(init) + multiset{last};
      GatherExact(init, allow);
      NoClashAdd(multiset(init), last, allow);
      if Gather(init, allow).Ok? {
        var g := Gather(init, allow).value;
        AddEntryRefused(g, multiset(init), last, allow);
        if AddEntry(g, Classify(last, allow), last.bytes).Ok? {
          AddEntryDescribes(g, multiset(init), last, allow);
        }
      }
    }
  }

  // ---------------------------------------------------------------- the object map

  ghost predicate AllObjectNames(raw: seq<(string, Bytes)>) {
    forall i :: 0 <= i < |raw| ==> IsObjectName(raw[i].0)
  }

  lemma ObjectHashName(a: HashAlgorithm, name: string)
    requires IsObjectName(name)
    ensures ObjectHash(a, name).ToHex() == name && ObjectHash(a, name).algorithm == a
  {
    HexTextRoundTrip(name);
  }

  lemma ObjectNameOfHash(h: Hash)
    ensures IsObjectName(h.ToHex()) && ObjectHash(h.algorithm, h.ToHex()) == h
  {
    HexRoundTrip(h.bytes);
  }

  /** What the object map of a list of named files holds. */
  ghost predicate MapOf(raw: seq<(string, Bytes)>, a: HashAlgorithm, objects: map<Hash, Bytes>) {
    && |objects| == |raw|
    && (forall i :: 0 <= i < |raw| ==> ObjectPresent(a, raw[i].0, raw[i].1, objects))
    && (forall h {:trigger HasName(raw, h.ToHex())} :: h in objects ==> h.algorithm == a && HasName(raw, h.ToHex()))
  }

  lemma {:induction false} ObjectMapAccepts(a: HashAlgorithm, raw: seq<(string, Bytes)>)
    ensures ObjectMap(a, raw).Ok? <==> AllObjectNames(raw)
  {
    hide IsObjectName, ObjectHash, HexEncode, HexDecode, AllLowerHex, IsLowerHexDigit;
    if raw != [] {
      var n := |raw| - 1;
      ObjectMapAccepts(a, raw[..n]);
      assert forall i :: 0 <= i < n ==> raw[..n][i] == raw[i];
    }
  }

  /** Distinct names give distinct keys: no object is merged or lost. */
  lemma {:induction false} ObjectMapExact(a: HashAlgorithm, raw: seq<(string, Bytes)>)
    requires DistinctNames(raw) && ObjectMap(a, raw).Ok?
    ensures MapOf(raw, a, ObjectMap(a, raw).value)
  {
    hide IsObjectName, ObjectHash, MapOf, HexEncode, HexDecode, AllLowerHex, IsLowerHexDigit;
    if raw == [] {
      EmptyMapOf(a);
    } else {
      var n := |raw| - 1;
      ObjectMapExact(a, raw[..n]);
      assert raw == raw[..n] + [raw[n]];
      AddObject(a, raw[..n], raw[n], ObjectMap(a, raw[..n]).value);
    }
  }

  lemma EmptyMapOf(a: HashAlgorithm)
    ensures MapOf([], a, map[])
  {
  }

  lemma AddObject(a: HashAlgorithm, init: seq<(string, Bytes)>, last: (string, Bytes), objects: map<Hash, Bytes>)
    requires DistinctNames(init + [last]) && IsObjectName(last.0) && MapOf(init, a, objects)
    ensures MapOf(init + [last], a, objects[ObjectHash(a, last.0) := last.1])
  {
    hide IsObjectName, ObjectHash, HexEncode, HexDecode, AllLowerHex, IsLowerHexDigit;
    var raw, key := init + [last], ObjectHash(a, last.0);
    var more := objects[key := last.1];
    ObjectHashName(a, last.0);
    HasNameAppend(init, last.0, last.1);
    assert last == (last.0, last.1);
    forall i | 0 <= i < |init|
      ensures IsObjectName(init[i].0) && ObjectHash(a, init[i].0) != key
    {
      assert ObjectPresent(a, init[i].0, init[i].1, objects);
      ObjectHashName(a, init[i].0);
      assert raw[i].0 != raw[|init|].0;
    }
    assert forall i :: 0 <= i < |init| ==> raw[i].0 != raw[|init|].0;
    assert !HasName(init, key.ToHex());
    forall h | h in more
      ensures h.algorithm == a && HasName(raw, h.ToHex())
    {
      if h != key {
        assert h in objects && (HasName(init, h.ToHex()) || !HasName(init, h.ToHex()));
      }
    }
    forall i | 0 <= i < |raw|
      ensures ObjectPresent(a, raw[i].0, raw[i].1, more)
    {
      if i < |init| {
        assert ObjectPresent(a, init[i].0, init[i].1, objects);
      }
    }
  }

  // ---------------------------------------------------------------- order independence

  lemma GatheredObjects(raw: seq<(string, Bytes)>, ms: multiset<Entry>, allow: bool, a: HashAlgorithm,
                        objects: map<Hash, Bytes>)
    requires DescribesObjects(raw, ms, allow) && DistinctNames(raw)
    ensures ObjectMap(a, raw) == Ok(objects) <==> ObjectsAre(ms, allow, a, objects)
  {
    hide Classify, ObjectMap, IsObjectName, ObjectHash, HexEncode, HexDecode, AllLowerHex, IsLowerHexDigit;
    ObjectMapAccepts(a, raw);
    if ObjectMap(a, raw) == Ok(objects) {
      ObjectsAreOfMap(raw, ms, allow, a, objects);
    }
    if ObjectsAre(ms, allow, a, objects) {
      forall i | 0 <= i < |raw|
        ensures IsObjectName(raw[i].0)
      {
        assert HasEntry(ms, allow, raw[i].0, raw[i].1);
        var x :| x in ms && Classify(x, allow) == ObjectFile(raw[i].0) && x.bytes == raw[i].1;
        assert ObjectPresent(a, Classify(x, allow).name, x.bytes, objects);
      }
      var built := ObjectMap(a, raw).value;
      ObjectsAreOfMap(raw, ms, allow, a, built);
      ObjectsAreUnique(ms, allow, a, built, objects);
    }
  }

  lemma ObjectsAreOfMap(raw: seq<(string, Bytes)>, ms: multiset<Entry>, allow: bool, a: HashAlgorithm,
                        objects: map<Hash, Bytes>)
    requires DescribesObjects(raw, ms, allow) && DistinctNames(raw)
    requires ObjectMap(a, raw) == Ok(objects)
    ensures ObjectsAre(ms, allow, a, objects)
  {
    hide Classify, ObjectMap, ObjectPresent, IsObjectName, ObjectHash, HexEncode, HexDecode, AllLowerHex,
         IsLowerHexDigit;
    ObjectMapExact(a, raw);
    forall x | x in ms && Classify(x, allow).ObjectFile?
      ensures ObjectPresent(a, Classify(x, allow).name, x.bytes, objects)
    {
      assert HasObject(raw, Classify(x, allow).name, x.bytes);
      var i :| 0 <= i < |raw| && raw[i].0 == Classify(x, allow).name && raw[i].1 == x.bytes;
      assert ObjectPresent(a, raw[i].0, raw[i].1, objects);
    }
    forall h | h in objects
      ensures h.algorithm == a && HasFile(ms, allow, h)
    {
      assert HasName(raw, h.ToHex());
      var i :| 0 <= i < |raw| && raw[i].0 == h.ToHex();
      assert HasEntry(ms, allow, raw[i].0, raw[i].1);
    }
  }

  lemma ObjectsAreUnique(ms: multiset<Entry>, allow: bool, a: HashAlgorithm, o1: map<Hash, Bytes>, o2: map<Hash, Bytes>)
    requires ObjectsAre(ms, allow, a, o1) && ObjectsAre(ms, allow, a, o2)
    ensures o1 == o2
  {
    hide Classify;
    forall h
      ensures h in o1 ==> h in o2 && o1[h] == o2[h]
      ensures h in o2 ==> h in o1
    {
      if h in o1 || h in o2 {
        assert HasFile(ms, allow, h);
        var x :| x in ms && Classify(x, allow) == ObjectFile(h.ToHex());
        ObjectNameOfHash(h);
        assert ObjectPresent(a, Classify(x, allow).name, x.bytes, o1);
        assert ObjectPresent(a, Classify(x, allow).name, x.bytes, o2);
      }
    }
  }

  lemma AssembleExact(lib: Library, opts: ReadOptions, g: Gathered, c: BundleContents)
    ensures Assemble(lib, opts, g) == Ok(c) <==>
            && g.manifest.Some? && g.events.Some?
            && BytesDecodeTo(lib, opts, g.manifest.value, g.events.value, c)
            && ObjectMap(AlgorithmOf(c.manifest), g.objects) == Ok(c.objects)
  {
    hide ObjectMap, ParseStream, ValidateAll, ValidateAgefVersion, ParseAlgorithm;
  }

  /** Reading a list of entries yields `c` exactly when the unordered entries stand for `c`. */
  lemma ReadExact(lib: Library, opts: ReadOptions, entries: seq<Entry>, c: BundleContents)
    ensures ReadEntries(lib, opts, entries) == Ok(c) <==> ReadsAs(lib, opts, multiset(entries), c)
  {
    hide Classify, Gather, Assemble, ObjectMap, ObjectsAre, NoClash, BytesDecodeTo, DescribesObjects, AlgorithmOf;
    var ms, allow := multiset(entries), opts.allowExtraFiles;
    GatherExact(entries, allow);
    if Gather(entries, allow).Ok? {
      var g := Gather(entries, allow).value;
      AssembleExact(lib, opts, g, c);
      GatheredObjects(g.objects, ms, allow, AlgorithmOf(c.manifest), c.objects);
    }
  }

  /** Permuting the entries of an archive changes neither acceptance nor the bundle read. */
  lemma OrderIndependent(lib: Library, opts: ReadOptions, e1: seq<Entry>, e2: seq<Entry>)
    requires multiset(e1) == multiset(e2)
    ensures ReadEntries(lib, opts, e1).Ok? <==> ReadEntries(lib, opts, e2).Ok?
    ensures ReadEntries(lib, opts, e1).Ok? ==> ReadEntries(lib, opts, e1) == ReadEntries(lib, opts, e2)
  {
    hide *;
    var r1, r2 := ReadEntries(lib, opts, e1), ReadEntries(lib, opts, e2);
    if r1.Ok? {
      ReadExact(lib, opts, e1, r1.value);
      ReadExact(lib, opts, e2, r1.value);
    }
    if r2.Ok? {
      ReadExact(lib, opts, e2, r2.value);
      ReadExact(lib, opts, e1, r2.value);
    }
  }

  /** Every object entry of an accepted archive is an object of the bundle. */
  lemma NoneMerged(lib: Library, opts: ReadOptions, entries: seq<Entry>)
    requires ReadEntries(lib, opts, entries).Ok?
    ensures |ReadEntries(lib, opts, entries).value.objects| == ObjectEntries(entries, opts.allowExtraFiles)
  {
    hide Classify, Gather, Assemble, ObjectMap, ObjectEntries, Describes, BytesDecodeTo, AlgorithmOf;
    GatherExact(entries, opts.allowExtraFiles);
    var c := ReadEntries(lib, opts, entries).value;
    var g := Gather(entries, opts.allowExtraFiles).value;
    AssembleExact(lib, opts, g, c);
    ObjectMapExact(AlgorithmOf(c.manifest), g.objects);
  }

  // ---------------------------------------------------------------- writer

  function ManifestEntry(lib: Library, m: Manifest): Entry {
    Entry(RegularFile, "manifest.json", lib.codec.write(m))
  }

  function EventsEntry(bytes: Bytes): Entry {
    Entry(RegularFile, "events.bin", bytes)
  }

  function ObjectEntry(o: (string, Bytes)): Entry {
    Entry(RegularFile, OBJECTS + o.0, o.1)
  }

  ghost predicate IsObjectOf(objects: map<Hash, Bytes>, o: (string, Bytes)) {
    exists h :: h in objects && o == (h.ToHex(), objects[h])
  }

  /** The objects in order of their names; objects whose names agree are written once. */
  ghost predicate Listing(listing: seq<(string, Bytes)>, objects: map<Hash, Bytes>) {
    && Ordered.Sorted(listing)
    && (forall i :: 0 <= i < |listing| ==> IsObjectOf(objects, listing[i]))
    && (forall h {:trigger HasName(listing, h.ToHex())} :: h in objects ==> HasName(listing, h.ToHex()))
  }

  ghost predicate Written(lib: Library, m: Manifest, events: seq<Event>, objects: map<Hash, Bytes>, entries: seq<Entry>)
  {
    exists listing ::
      && Listing(listing, objects)
      && StreamBytes(lib.p, events).Some?
      && entries == [ManifestEntry(lib, m), EventsEntry(StreamBytes(lib.p, events).value)]
         + MapSeq(listing, ObjectEntry)
  }

  method WriteEvents(p: Primitives, events: seq<Event>) returns (r: Result<Bytes, BundleError>)
    ensures r == match StreamBytes(p, events) case Some(b) => Ok(b) case None => Err(MalformedFraming)
  {
    hide FrameBytes;
    var writer := new EventsWriter(p, true);
    for i := 0 to |events|
      invariant StreamBytes(p, events[..i]) == Some(writer.inner)
    {
      var written := writer.WriteEvent(events[i]);
      StreamAppend(p, events[..i], events[i]);
      assert events[..i + 1] == events[..i] + [events[i]];
      if written.Err? {
        StreamPrefix(p, events, i + 1);
        return Err(written.error);
      }
    }
    assert events[..|events|] == events;
    return Ok(writer.inner);
  }

  lemma {:induction false} StreamAppend(p: Primitives, events: seq<Event>, e: Event)
    ensures StreamBytes(p, events + [e]) ==
            if StreamBytes(p, events).Some? && FrameBytes(p, e).Some?
            then Some(StreamBytes(p, events).value + FrameBytes(p, e).value) else None
  {
    hide FrameBytes;
    if events != [] {
      StreamAppend(p, events[1..], e);
      assert (events + [e])[1..] == events[1..] + [e];
    } else {
      assert events + [e] == [e];
      assert StreamBytes(p, [e][1..]) == Some([]);
      assert FrameBytes(p, e).Some? ==> FrameBytes(p, e).value + [] == [] + FrameBytes(p, e).value;
    }
    assert StreamBytes(p, events).Some? && FrameBytes(p, e).Some? && events != [] ==>
        FrameBytes(p, events[0]).value + (StreamBytes(p, events[1..]).value + FrameBytes(p, e).value)
        == StreamBytes(p, events).value + FrameBytes(p, e).value;
  }

  lemma {:induction false} StreamPrefix(p: Primitives, events: seq<Event>, i: nat)
    requires i <= |events| && StreamBytes(p, events[..i]).None?
    ensures StreamBytes(p, events).None?
    decreases |events|
  {
    hide FrameBytes;
    if i < |events| {
      var init := events[..|events| - 1];
      assert init[..i] == events[..i];
      StreamPrefix(p, init, i);
      StreamAppend(p, init, events[|events| - 1]);
      assert events == init + [events[|events| - 1]];
    } else {
      assert events[..i] == events;
    }
  }

  method WriteBundle(lib: Library, m: Manifest, events: seq<Event>, objects: map<Hash, Bytes>)
    returns (r: Result<seq<Entry>, BundleError>)
    ensures r.Ok? <==> ParseAlgorithm(m.hashAlgorithm).Some? && StreamBytes(lib.p, events).Some?
    ensures r.Ok? ==> Written(lib, m, events, objects, r.value)
    ensures r.Err? ==>
              r.error == if ParseAlgorithm(m.hashAlgorithm).None? then UnsupportedHashAlgorithm(m.hashAlgorithm)
                                  else MalformedFraming
  {
    hide StreamBytes, ParseAlgorithm, MapSeq, Listing, Written;
    var manifestBytes := lib.codec.write(m);
    if ParseAlgorithm(m.hashAlgorithm).None? {
      return Err(UnsupportedHashAlgorithm(m.hashAlgorithm));
    }
    var eventsBytes :- WriteEvents(lib.p, events);
    var entries := [Entry(RegularFile, "manifest.json", manifestBytes), Entry(RegularFile, "events.bin", eventsBytes)];
    var listing := SortByName(objects);
    var i := 0;
    assert MapSeq(listing[..0], ObjectEntry) == [];
    while i < |listing|
      invariant i <= |listing|
      invariant entries == [ManifestEntry(lib, m), EventsEntry(eventsBytes)] + MapSeq(listing[..i], ObjectEntry)
    {
      entries := entries + [Entry(RegularFile, "objects/" + listing[i].0, listing[i].1)];
      MapSeqNext(listing, i);
      i := i + 1;
    }
    assert listing[..i] == listing;
    IsWritten(lib, m, events, objects, listing);
    return Ok(entries);
  }

  lemma MapSeqNext(listing: seq<(string, Bytes)>, i: nat)
    requires i < |listing|
    ensures MapSeq(listing[..i + 1], ObjectEntry) == MapSeq(listing[..i], ObjectEntry) + [ObjectEntry(listing[i])]
  {
  }

  lemma IsWritten(lib: Library, m: Manifest, events: seq<Event>, objects: map<Hash, Bytes>,
                  listing: seq<(string, Bytes)>)
    requires Listing(listing, objects) && StreamBytes(lib.p, events).Some?
    ensures Written(lib, m, events, objects,
                    [ManifestEntry(lib, m), EventsEntry(StreamBytes(lib.p, events).value)]
                      + MapSeq(listing, ObjectEntry))
  {
  }

  /** Collects the objects, met in any order, into a map ordered by name. */
  method SortByName(objects: map<Hash, Bytes>) returns (listing: seq<(string, Bytes)>)
    ensures Listing(listing, objects)
  {
    listing := [];
    var todo := objects.Keys;
    while todo != {}
      invariant todo <= objects.Keys
      invariant Ordered.Sorted(listing)
      invariant forall o :: o in listing ==> IsObjectOf(objects, o)
      invariant forall h {:trigger NameListed(listing, h)} :: h in objects && h !in todo ==> NameListed(listing, h)
      decreases todo
    {
      var h :| h in todo;
      todo := todo - {h};
      ghost var before := listing;
      Ordered.InsertSorted(listing, h.ToHex(), objects[h]);
      listing := Ordered.Insert(listing, h.ToHex(), objects[h]);
      assert IsObjectOf(objects, (h.ToHex(), objects[h]));
      forall g | g in objects && g !in todo
        ensures NameListed(listing, g)
      {
        if g.ToHex() == h.ToHex() {
          assert (g.ToHex(), objects[h]) in listing;
        } else {
          assert NameListed(before, g);
          var bytes :| (g.ToHex(), bytes) in before;
          assert (g.ToHex(), bytes) in listing;
        }
      }
    }
    forall h | h in objects
      ensures HasName(listing, h.ToHex())
    {
      assert NameListed(listing, h);
    }
  }

  ghost predicate NameListed(listing: seq<(string, Bytes)>, h: Hash) {
    exists bytes :: (h.ToHex(), bytes) in listing
  }

  // ---------------------------------------------------------------- round trip

  /** The keys a bundle of algorithm `a` can carry: file names do not record the algorithm. */
  ghost predicate KeyedBy(objects: map<Hash, Bytes>, a: HashAlgorithm) {
    forall h :: h in objects ==> h.algorithm == a
  }

  lemma TrimObjectName(name: string)
    requires IsObjectName(name)
    ensures TrimObjects(OBJECTS + name) == name && '/' !in name
  {
    assert (OBJECTS + name)[|OBJECTS|..] == name;
    assert OBJECTS[0] == 'o' && !IsLowerHexDigit('o');
    assert name[0] != 'o';
    assert OBJECTS <= OBJECTS + name;
    assert forall i :: 0 <= i < |name| ==> IsLowerHexDigit(name[i]) && name[i] != '/';
  }

  lemma ClassifyWritten(lib: Library, m: Manifest, bytes: Bytes, o: (string, Bytes), allow: bool)
    requires IsObjectName(o.0)
    ensures Classify(ManifestEntry(lib, m), allow) == ManifestFile
    ensures Classify(EventsEntry(bytes), allow) == EventsFile
    ensures Classify(ObjectEntry(o), allow) == ObjectFile(o.0)
  {
    UnixPathUnchanged("manifest.json");
    UnixPathUnchanged("events.bin");
    TrimObjectName(o.0);
    var path := OBJECTS + o.0;
    assert forall i :: 0 <= i < |o.0| ==> IsLowerHexDigit(o.0[i]) && o.0[i] != '\\';
    UnixPathUnchanged(path);
    assert path[0] == 'o' && "manifest.json"[0] == 'm' && "events.bin"[0] == 'e';
  }

  lemma UnixPathUnchanged(path: string)
    requires '\\' !in path
    ensures PathToUnix(path) == path
  {
  }

  /** A written archive, in any order, reads back as what was written, with events in normal form. */
  lemma WriteThenReadBundle(
      lib: Library, opts: ReadOptions, m: Manifest, events: seq<Event>, objects: map<Hash, Bytes>,
      written: seq<Entry>, entries: seq<Entry>)
    requires Lawful(lib)
    requires Accepted(m, lib.isTimestamp) && PlainExtra(m)
    requires KeyedBy(objects, AlgorithmOf(m))
    requires FramesFit(lib.p, opts.maxEventFrameLen, events)
    requires Written(lib, m, events, objects, written)
    requires multiset(entries) == multiset(written)
    ensures ReadEntries(lib, opts, entries) == Ok(BundleContents(m, NormaliseAll(AlgorithmOf(m), events), objects))
  {
    hide Classify, ReadEntries, StreamBytes, ParseStream, Accepted, PlainExtra, ParseAlgorithm, NormaliseAll,
         FramesFit, MapSeq, ReadsAs, ValidateAll, Written;
    var c := BundleContents(m, NormaliseAll(AlgorithmOf(m), events), objects);
    WrittenReadsAs(lib, opts, m, events, objects, written);
    ReadExact(lib, opts, entries, c);
  }

  /** A written archive is read back exactly when its manifest is acceptable and its frames are within the limit. */
  lemma WrittenReadExact(
      lib: Library, opts: ReadOptions, m: Manifest, events: seq<Event>, objects: map<Hash, Bytes>,
      written: seq<Entry>, entries: seq<Entry>)
    requires Lawful(lib) && PlainExtra(m)
    requires KeyedBy(objects, AlgorithmOf(m))
    requires Written(lib, m, events, objects, written)
    requires multiset(entries) == multiset(written)
    ensures ReadEntries(lib, opts, entries).Ok? <==>
            Accepted(m, lib.isTimestamp) && FramesFit(lib.p, opts.maxEventFrameLen, events)
    ensures ReadEntries(lib, opts, entries).Ok? ==>
              ReadEntries(lib, opts, entries).value == BundleContents(m, NormaliseAll(AlgorithmOf(m), events), objects)
  {
    hide Classify, ReadEntries, StreamBytes, ParseStream, Accepted, PlainExtra, ParseAlgorithm, NormaliseAll,
         FramesFit, ReadsAs, ValidateAll, Written, Lawful;
    if Accepted(m, lib.isTimestamp) && FramesFit(lib.p, opts.maxEventFrameLen, events) {
      WriteThenReadBundle(lib, opts, m, events, objects, written, entries);
    }
    if ReadEntries(lib, opts, entries).Ok? {
      ReadExact(lib, opts, entries, ReadEntries(lib, opts, entries).value);
      WrittenAccepted(lib, opts, m, events, objects, written, ReadEntries(lib, opts, entries).value);
    }
  }

  lemma WrittenAccepted(
      lib: Library, opts: ReadOptions, m: Manifest, events: seq<Event>, objects: map<Hash, Bytes>,
      written: seq<Entry>, c: BundleContents)
    requires Lawful(lib) && PlainExtra(m)
    requires Written(lib, m, events, objects, written)
    requires ReadsAs(lib, opts, multiset(written), c)
    ensures Accepted(m, lib.isTimestamp) && FramesFit(lib.p, opts.maxEventFrameLen, events)
  {
    hide Classify, StreamBytes, Accepted, PlainExtra, ObjectsAre, NoClash, Lawful, BytesDecodeTo, Listing, AlgorithmOf,
         FramesFit;
    var allow := opts.allowExtraFiles;
    var listing :|
      && Listing(listing, objects) && StreamBytes(lib.p, events).Some?
      && written == [ManifestEntry(lib, m), EventsEntry(StreamBytes(lib.p, events).value)]
         + MapSeq(listing, ObjectEntry);
    var me, e :|
      && me in multiset(written) && Classify(me, allow).ManifestFile?
      && e in multiset(written) && Classify(e, allow).EventsFile?
      && BytesDecodeTo(lib, opts, me.bytes, e.bytes, c);
    OnlyManifestAndEvents(lib, m, StreamBytes(lib.p, events).value, objects, listing, allow, me);
    OnlyManifestAndEvents(lib, m, StreamBytes(lib.p, events).value, objects, listing, allow, e);
    DecodedWritten(lib, opts, m, events, c);
  }

  lemma DecodedWritten(lib: Library, opts: ReadOptions, m: Manifest, events: seq<Event>, c: BundleContents)
    requires Lawful(lib) && PlainExtra(m) && StreamBytes(lib.p, events).Some?
    requires BytesDecodeTo(lib, opts, lib.codec.write(m), StreamBytes(lib.p, events).value, c)
    ensures Accepted(m, lib.isTimestamp) && FramesFit(lib.p, opts.maxEventFrameLen, events)
  {
    hide ParseStream, StreamBytes, Accepted, PlainExtra, ValidateAll, LawfulDecoder, FramesFit;
    assert lib.codec.read(lib.codec.write(m)) == Some(m);
    WrittenFramesFit(lib.p, lib.decode, AlgorithmOf(c.manifest), opts.maxEventFrameLen, events);
  }

  lemma OnlyManifestAndEvents(lib: Library, m: Manifest, bytes: Bytes, objects: map<Hash, Bytes>,
                              listing: seq<(string, Bytes)>, allow: bool, x: Entry)
    requires Listing(listing, objects)
    requires x in multiset([ManifestEntry(lib, m), EventsEntry(bytes)] + MapSeq(listing, ObjectEntry))
    ensures Classify(x, allow).ManifestFile? ==> x == ManifestEntry(lib, m)
    ensures Classify(x, allow).EventsFile? ==> x == EventsEntry(bytes)
  {
    hide Classify, IsObjectName, ManifestEntry, EventsEntry, ObjectEntry, Ordered.Sorted, HasName, HexEncode;
    var written := [ManifestEntry(lib, m), EventsEntry(bytes)] + MapSeq(listing, ObjectEntry);
    assert x in written;
    var k :| 0 <= k < |written| && written[k] == x;
    if k >= 2 {
      assert x == ObjectEntry(listing[k - 2]);
      assert IsObjectOf(objects, listing[k - 2]);
      var h :| h in objects && listing[k - 2] == (h.ToHex(), objects[h]);
      ObjectNameOfHash(h);
      ClassifyWritten(lib, m, bytes, listing[k - 2], allow);
    } else {
      var zero := Hash(Sha256, seq(32, _ => 0));
      ObjectNameOfHash(zero);
      ClassifyWritten(lib, m, bytes, (zero.ToHex(), []), allow);
    }
  }

  lemma WrittenReadsAs(
      lib: Library, opts: ReadOptions, m: Manifest, events: seq<Event>, objects: map<Hash, Bytes>, written: seq<Entry>)
    requires Lawful(lib)
    requires Accepted(m, lib.isTimestamp) && PlainExtra(m)
    requires KeyedBy(objects, AlgorithmOf(m))
    requires FramesFit(lib.p, opts.maxEventFrameLen, events)
    requires Written(lib, m, events, objects, written)
    ensures ReadsAs(lib, opts, multiset(written), BundleContents(m, NormaliseAll(AlgorithmOf(m), events), objects))
  {
    hide Classify, ReadEntries, StreamBytes, ParseStream, PlainExtra, ParseAlgorithm, NormaliseAll,
         FramesFit, ValidateAll, ObjectsAre, NoClash, ValidateAgefVersion, Listing;
    var allow, a, ms := opts.allowExtraFiles, AlgorithmOf(m), multiset(written);
    var c := BundleContents(m, NormaliseAll(a, events), objects);
    var listing :| Listing(listing, objects)
                   && written == [ManifestEntry(lib, m), EventsEntry(StreamBytes(lib.p, events).value)]
                      + MapSeq(listing, ObjectEntry);
    var me, ee := ManifestEntry(lib, m), EventsEntry(StreamBytes(lib.p, events).value);
    assert written[0] == me && written[1] == ee;
    assert me in ms && ee in ms;
    var zero := Hash(a, seq(32, _ => 0));
    ObjectNameOfHash(zero);
    ClassifyWritten(lib, m, StreamBytes(lib.p, events).value, (zero.ToHex(), []), allow);
    WriteThenRead(lib.p, lib.decode, a, opts.maxEventFrameLen, events);
    AcceptedAlgorithm(m, lib.isTimestamp);
    assert lib.codec.read(lib.codec.write(m)) == Some(m);
    assert ManifestFromJson(lib.codec, lib.isTimestamp, me.bytes) == Ok(m);
    assert BytesDecodeTo(lib, opts, me.bytes, ee.bytes, c);
    WrittenObjects(lib, m, objects, listing, StreamBytes(lib.p, events).value, allow, a);
  }

  lemma AcceptedAlgorithm(m: Manifest, isTimestamp: TimestampCheck)
    requires Accepted(m, isTimestamp)
    ensures ParseAlgorithm(m.hashAlgorithm) == Some(AlgorithmOf(m))
  {
  }

  lemma WrittenObjects(
      lib: Library, m: Manifest, objects: map<Hash, Bytes>, listing: seq<(string, Bytes)>, bytes: Bytes,
      allow: bool, a: HashAlgorithm)
    requires Listing(listing, objects) && KeyedBy(objects, a)
    ensures var written := [ManifestEntry(lib, m), EventsEntry(bytes)] + MapSeq(listing, ObjectEntry);
            NoClash(multiset(written), allow) && ObjectsAre(multiset(written), allow, a, objects)
  {
    hide Classify, IsObjectName, ObjectsAre, NoClash, HexEncode, HexDecode, AllLowerHex, IsLowerHexDigit;
    var written := [ManifestEntry(lib, m), EventsEntry(bytes)] + MapSeq(listing, ObjectEntry);
    var zero := Hash(a, seq(32, _ => 0));
    ObjectNameOfHash(zero);
    ClassifyWritten(lib, m, bytes, (zero.ToHex(), []), allow);
    forall i | 0 <= i < |listing|
      ensures written[i + 2] == ObjectEntry(listing[i])
      ensures Classify(written[i + 2], allow) == ObjectFile(listing[i].0)
    {
      assert IsObjectOf(objects, listing[i]);
      var h :| h in objects && listing[i] == (h.ToHex(), objects[h]);
      ObjectNameOfHash(h);
      ClassifyWritten(lib, m, bytes, listing[i], allow);
    }
    WrittenNoClash(written, listing, allow);
    WrittenObjectsAre(written, listing, objects, allow, a);
  }

  lemma WrittenObjectsAre(
      written: seq<Entry>, listing: seq<(string, Bytes)>, objects: map<Hash, Bytes>, allow: bool, a: HashAlgorithm)
    requires Listing(listing, objects) && KeyedBy(objects, a)
    requires |written| == |listing| + 2
    requires Classify(written[0], allow) == ManifestFile && Classify(written[1], allow) == EventsFile
    requires forall i :: 0 <= i < |listing| ==> written[i + 2] == ObjectEntry(listing[i])
    requires forall i :: 0 <= i < |listing| ==> Classify(written[i + 2], allow) == ObjectFile(listing[i].0)
    ensures ObjectsAre(multiset(written), allow, a, objects)
  {
    hide Classify, HexEncode, HexDecode, AllLowerHex, IsLowerHexDigit;
    forall x | x in multiset(written) && Classify(x, allow).ObjectFile?
      ensures ObjectPresent(a, Classify(x, allow).name, x.bytes, objects)
    {
      assert x in written;
      var k :| 0 <= k < |written| && written[k] == x;
      assert written[k - 2 + 2] == x;
      assert IsObjectOf(objects, listing[k - 2]);
      var h :| h in objects && listing[k - 2] == (h.ToHex(), objects[h]);
      ObjectNameOfHash(h);
    }
    forall h | h in objects
      ensures HasFile(multiset(written), allow, h)
    {
      assert HasName(listing, h.ToHex());
      var i :| 0 <= i < |listing| && listing[i].0 == h.ToHex();
      assert written[i + 2] in multiset(written);
    }
  }

  lemma WrittenNoClash(written: seq<Entry>, listing: seq<(string, Bytes)>, allow: bool)
    requires |written| == |listing| + 2 && Ordered.Sorted(listing)
    requires Classify(written[0], allow) == ManifestFile && Classify(written[1], allow) == EventsFile
    requires forall i :: 0 <= i < |listing| ==> Classify(written[i + 2], allow) == ObjectFile(listing[i].0)
    ensures NoClash(multiset(written), allow)
  {
    hide Classify;
    var ms := multiset(written);
    assert forall k :: 2 <= k < |written| ==> Classify(written[k], allow) == ObjectFile(listing[k - 2].0);
    forall j, k | 0 <= j < k < |written|
      ensures !Clash(Classify(written[j], allow), Classify(written[k], allow))
    {
      if j >= 2 {
        assert Ordered.Less(listing[j - 2].0, listing[k - 2].0);
        Ordered.LessTotal(listing[j - 2].0, listing[k - 2].0);
      }
    }
    forall x, y | x in ms && y in ms && Clash(Classify(x, allow), Classify(y, allow))
      ensures x == y && ms[x] == 1
    {
      assert x in written && y in written;
      var j :| 0 <= j < |written| && written[j] == x;
      var k :| 0 <= k < |written| && written[k] == y;
      assert j == k;
      OccursOnce(written, j);
    }
    forall x | x in ms
      ensures !Classify(x, allow).Rejected?
    {
      assert x in written;
      var j :| 0 <= j < |written| && written[j] == x;
    }
  }

  lemma OccursOnce(s: seq<Entry>, j: nat)
    requires j < |s| && forall k :: 0 <= k < |s| && k != j ==> s[k] != s[j]
    ensures multiset(s)[s[j]] == 1
  {
    assert s == s[..j] + [s[j]] + s[j + 1..];
    assert s[j] !in s[..j] && s[j] !in s[j + 1..];
  }
}
