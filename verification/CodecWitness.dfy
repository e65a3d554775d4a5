/** Lawful libraries exist: manifests and events can be written so that they read back. */
module CodecWitness {
  import opened Foundation
  import opened Cbor
  import opened Events
  import opened Framing
  import opened Manifests
  import opened Archive
  import opened Signing
  import opened Sentinels
  import opened Json

  // ---------------------------------------------------------------- trees as bytes

  datatype Tree = Leaf(n: nat) | Node(children: seq<Tree>)

  function Unary(n: nat): Bytes {
    if n == 0 then [0] else [1] + Unary(n - 1)
  }

  function TreeBytes(t: Tree): Bytes
    decreases t, 1
  {
    match t
    case Leaf(n) => [2] + Unary(n)
    case Node(ts) => [3] + Unary(|ts|) + AllBytes(ts)
  }

  function AllBytes(ts: seq<Tree>): Bytes
    decreases ts, 0
  {
    if ts == [] then [] else TreeBytes(ts[0]) + AllBytes(ts[1..])
  }

  lemma {:induction false} UnaryPrefixFree(m: nat, n: nat, x: Bytes, y: Bytes)
    requires Unary(m) + x == Unary(n) + y
    ensures m == n && x == y
  {
    var s, t := Unary(m) + x, Unary(n) + y;
    assert s[0] == (if m == 0 then 0 else 1) && t[0] == (if n == 0 then 0 else 1);
    if m > 0 && n > 0 {
      assert s[1..] == Unary(m - 1) + x && t[1..] == Unary(n - 1) + y;
      UnaryPrefixFree(m - 1, n - 1, x, y);
    } else {
      assert s[1..] == x && t[1..] == y;
    }
  }

  lemma {:induction false} TreePrefixFree(t: Tree, u: Tree, x: Bytes, y: Bytes)
    requires TreeBytes(t) + x == TreeBytes(u) + y
    ensures t == u && x == y
    decreases t, 1
  {
    hide Unary;
    TreeTag(t, x);
    TreeTag(u, y);
    match t
    case Leaf(n) =>
      SplitEqual([2], Unary(n) + x, [2], Unary(u.n) + y);
      UnaryPrefixFree(n, u.n, x, y);
    case Node(ts) =>
      var us := u.children;
      SplitEqual([3], Unary(|ts|) + (AllBytes(ts) + x), [3], Unary(|us|) + (AllBytes(us) + y));
      UnaryPrefixFree(|ts|, |us|, AllBytes(ts) + x, AllBytes(us) + y);
      AllPrefixFree(ts, us, x, y);
  }

  /** The first byte tells leaves from nodes. */
  lemma TreeTag(t: Tree, x: Bytes)
    ensures (TreeBytes(t) + x)[0] == (if t.Leaf? then 2 else 3)
    ensures TreeBytes(t) + x ==
            if t.Leaf? then [2] + (Unary(t.n) + x) else [3] + (Unary(|t.children|) + (AllBytes(t.children) + x))
  {
    hide Unary;
  }

  lemma {:induction false} AllPrefixFree(ts: seq<Tree>, us: seq<Tree>, x: Bytes, y: Bytes)
    requires |ts| == |us| && AllBytes(ts) + x == AllBytes(us) + y
    ensures ts == us && x == y
    decreases ts, 0
  {
    if ts == [] {
      assert AllBytes(ts) + x == x && AllBytes(us) + y == y;
    } else {
      assert AllBytes(ts) + x == TreeBytes(ts[0]) + (AllBytes(ts[1..]) + x);
      assert AllBytes(us) + y == TreeBytes(us[0]) + (AllBytes(us[1..]) + y);
      TreePrefixFree(ts[0], us[0], AllBytes(ts[1..]) + x, AllBytes(us[1..]) + y);
      AllPrefixFree(ts[1..], us[1..], x, y);
      assert ts == [ts[0]] + ts[1..] && us == [us[0]] + us[1..];
    }
  }

  lemma TreeBytesInjective(t: Tree, u: Tree)
    requires TreeBytes(t) == TreeBytes(u)
    ensures t == u
  {
    assert TreeBytes(t) + [] == TreeBytes(u) + [];
    TreePrefixFree(t, u, [], []);
  }

  // ---------------------------------------------------------------- manifests as trees

  function Text(s: string): Tree {
    Node(MapSeq(s, (c: char) => Leaf(c as int)))
  }

  lemma TextInjective(s: string, t: string)
    requires Text(s) == Text(t)
    ensures s == t
  {
    var x, y := Text(s).children, Text(t).children;
    assert |s| == |t|;
    forall i | 0 <= i < |s|
      ensures s[i] == t[i]
    {
      assert x[i] == y[i];
    }
  }

  function JsonTree(v: Json): Tree
    decreases v
  {
    match v
    case JNull => Node([Leaf(0)])
    case JBool(b) => Node([Leaf(1), Leaf(if b then 1 else 0)])
    case JInt(n) => Node([Leaf(2), Leaf(if n < 0 then 0 else 1), Leaf(if n < 0 then -n else n)])
    case JFloat(bits) => Node([Leaf(3), Leaf(bits)])
    case JString(s) => Node([Leaf(4), Text(s)])
    case JArray(items) => Node([Leaf(5), Node(seq(|items|, i requires 0 <= i < |items| => JsonTree(items[i])))])
    case JObject(ms) =>
      Node([Leaf(6), Node(seq(|ms|, i requires 0 <= i < |ms| => Node([Text(ms[i].0), JsonTree(ms[i].1)])))])
  }

  lemma {:induction false} JsonTreeInjective(v: Json, w: Json)
    requires JsonTree(v) == JsonTree(w)
    ensures v == w
    decreases v
  {
    hide Text;
    var x, y := JsonTree(v).children, JsonTree(w).children;
    assert x[0] == y[0];
    match v
    case JNull =>
    case JBool(_) => assert x[1] == y[1];
    case JInt(_) => assert x[1] == y[1] && x[2] == y[2];
    case JFloat(_) => assert x[1] == y[1];
    case JString(s) => TextInjective(s, w.s);
    case JArray(items) =>
      assert x[1].children == y[1].children;
      forall i | 0 <= i < |items|
        ensures items[i] == w.items[i]
      {
        assert x[1].children[i] == y[1].children[i];
        JsonTreeInjective(items[i], w.items[i]);
      }
      assert items == w.items;
    case JObject(ms) =>
      assert x[1].children == y[1].children;
      forall i | 0 <= i < |ms|
        ensures ms[i] == w.members[i]
      {
        var a, b := x[1].children[i].children, y[1].children[i].children;
        assert a[0] == b[0] && a[1] == b[1];
        TextInjective(ms[i].0, w.members[i].0);
        JsonTreeInjective(ms[i].1, w.members[i].1);
      }
      assert ms == w.members;
  }

  /** The members of a map, in some order fixed by the map. */
  ghost function Listing(m: map<string, Json>): seq<(string, Json)>
    decreases |m|
  {
    if m == map[] then []
    else
      var k :| k in m;
      assert |m - {k}| < |m| by {
        assert (m - {k}).Keys == m.Keys - {k};
      }
      [(k, m[k])] + Listing(m - {k})
  }

  lemma {:induction false} ListingElements(m: map<string, Json>, e: (string, Json))
    ensures e in Listing(m) <==> e.0 in m && m[e.0] == e.1
    decreases |m|
  {
    if m != map[] {
      var k := Listing(m)[0].0;
      assert (m - {k}).Keys == m.Keys - {k};
      assert Listing(m) == [(k, m[k])] + Listing(m - {k});
      ListingElements(m - {k}, e);
    }
  }

  lemma ListingInjective(m: map<string, Json>, n: map<string, Json>)
    requires Listing(m) == Listing(n)
    ensures m == n
  {
    forall k
      ensures k in m ==> k in n && n[k] == m[k]
      ensures k in n ==> k in m
    {
      if k in m {
        ListingElements(m, (k, m[k]));
        ListingElements(n, (k, m[k]));
      }
      if k in n {
        ListingElements(n, (k, n[k]));
        ListingElements(m, (k, n[k]));
      }
    }
  }

  function Texts(ss: seq<string>): Tree {
    Node(MapSeq(ss, (s: string) => Text(s)))
  }

  lemma TextsInjective(ss: seq<string>, tt: seq<string>)
    requires Texts(ss) == Texts(tt)
    ensures ss == tt
  {
    hide Text;
    var x, y := Texts(ss).children, Texts(tt).children;
    assert |ss| == |x| == |y| == |tt|;
    forall i | 0 <= i < |ss|
      ensures ss[i] == tt[i]
    {
      assert x[i] == y[i];
      TextInjective(ss[i], tt[i]);
    }
  }

  function SignatureTexts(s: HeadSignature): seq<string> {
    [s.scheme, s.keyId, s.statementVersion, s.signature, s.createdAt]
  }

  function AttestationTexts(t: OperatorAttestation): seq<string> {
    [t.scheme, t.keyId, t.statementVersion, t.operatorId, t.displayName, t.role, t.org, t.signature, t.createdAt]
  }

  function SignaturesTree(o: Option<seq<HeadSignature>>): Tree {
    match o
    case None => Leaf(0)
    case Some(entries) => Node(MapSeq(entries, (s: HeadSignature) => Texts(SignatureTexts(s))))
  }

  function AttestationsTree(o: Option<seq<OperatorAttestation>>): Tree {
    match o
    case None => Leaf(0)
    case Some(entries) => Node(MapSeq(entries, (t: OperatorAttestation) => Texts(AttestationTexts(t))))
  }

  lemma SignaturesTreeInjective(o: Option<seq<HeadSignature>>, q: Option<seq<HeadSignature>>)
    requires SignaturesTree(o) == SignaturesTree(q)
    ensures o == q
  {
    hide Texts;
    if o.Some? {
      var x, y := SignaturesTree(o).children, SignaturesTree(q).children;
      forall i | 0 <= i < |o.value|
        ensures |q.value| == |o.value| && o.value[i] == q.value[i]
      {
        assert |q.value| == |y| == |x|;
        assert x[i] == y[i];
        TextsInjective(SignatureTexts(o.value[i]), SignatureTexts(q.value[i]));
        var a, b := SignatureTexts(o.value[i]), SignatureTexts(q.value[i]);
        assert a[0] == b[0] && a[1] == b[1] && a[2] == b[2] && a[3] == b[3] && a[4] == b[4];
      }
      assert |q.value| == |y| == |x| == |o.value|;
      assert o.value == q.value;
    }
  }

  lemma AttestationsTreeInjective(o: Option<seq<OperatorAttestation>>, q: Option<seq<OperatorAttestation>>)
    requires AttestationsTree(o) == AttestationsTree(q)
    ensures o == q
  {
    hide Texts;
    if o.Some? {
      var x, y := AttestationsTree(o).children, AttestationsTree(q).children;
      forall i | 0 <= i < |o.value|
        ensures |q.value| == |o.value| && o.value[i] == q.value[i]
      {
        assert |q.value| == |y| == |x|;
        assert x[i] == y[i];
        TextsInjective(AttestationTexts(o.value[i]), AttestationTexts(q.value[i]));
        var a, b := AttestationTexts(o.value[i]), AttestationTexts(q.value[i]);
        assert a[0] == b[0] && a[1] == b[1] && a[2] == b[2] && a[3] == b[3] && a[4] == b[4];
        assert a[5] == b[5] && a[6] == b[6] && a[7] == b[7] && a[8] == b[8];
      }
      assert |q.value| == |y| == |x| == |o.value|;
      assert o.value == q.value;
    }
  }

  function Strings(m: Manifest): seq<string> {
    [m.agefVersion, m.producer.name, m.producer.version, m.session.id, m.session.head, m.session.createdAt,
     m.session.endedAt, m.hashAlgorithm]
  }

  ghost function ManifestTree(m: Manifest): Tree {
    Node([Texts(Strings(m)), Leaf(m.objectCount), Leaf(m.eventCount), SignaturesTree(m.signatures),
          AttestationsTree(m.operatorAttestations), JsonTree(JObject(Listing(m.extra)))])
  }

  lemma ManifestTreeInjective(m: Manifest, n: Manifest)
    requires ManifestTree(m) == ManifestTree(n)
    ensures m == n
  {
    hide Texts, SignaturesTree, AttestationsTree, JsonTree, Listing;
    var x, y := ManifestTree(m).children, ManifestTree(n).children;
    assert x[0] == y[0] && x[1] == y[1] && x[2] == y[2] && x[3] == y[3] && x[4] == y[4] && x[5] == y[5];
    TextsInjective(Strings(m), Strings(n));
    var a, b := Strings(m), Strings(n);
    assert a[0] == b[0] && a[1] == b[1] && a[2] == b[2] && a[3] == b[3];
    assert a[4] == b[4] && a[5] == b[5] && a[6] == b[6] && a[7] == b[7];
    SignaturesTreeInjective(m.signatures, n.signatures);
    AttestationsTreeInjective(m.operatorAttestations, n.operatorAttestations);
    JsonTreeInjective(JObject(Listing(m.extra)), JObject(Listing(n.extra)));
    ListingInjective(m.extra, n.extra);
  }

  /** The law asked of the manifest codec can be met, even for every manifest. */
  lemma LawfulManifestCodecExists()
    ensures exists codec :: LawfulManifestCodec(codec)
  {
    hide ManifestTree, TreeBytes, PlainExtra;
    ghost var write := (m: Manifest) => TreeBytes(ManifestTree(m));
    ghost var read := (b: Bytes) =>
      if exists m: Manifest :: TreeBytes(ManifestTree(m)) == b then
        var m: Manifest :| TreeBytes(ManifestTree(m)) == b;
        Some(m)
      else None;
    ghost var codec := ManifestCodec(write, read);
    forall m: Manifest
      ensures codec.read(codec.write(m)) == Some(m)
    {
      var n := codec.read(codec.write(m)).value;
      TreeBytesInjective(ManifestTree(n), ManifestTree(m));
      ManifestTreeInjective(n, m);
    }
    assert LawfulManifestCodec(codec);
  }

  /** So the libraries that the archive results rest on exist, for any digest and any date check. */
  lemma LawfulLibraryExists(p: Primitives, isTimestamp: TimestampCheck)
    ensures exists lib: Library :: Lawful(lib) && lib.p == p && lib.isTimestamp == isTimestamp
  {
    hide LawfulDecoder, LawfulManifestCodec;
    LawfulDecoderExists();
    LawfulManifestCodecExists();
    var decode: Decoder :| LawfulDecoder(decode);
    var codec :| LawfulManifestCodec(codec);
    assert Lawful(Library(p, decode, codec, isTimestamp));
  }

  /** Readers of values and sentinels that undo the encoder exist, for any date check. */
  lemma LawfulReaderExists(isTimestamp: TimestampCheck)
    ensures exists reader :: LawfulReader(reader) && reader.isTimestamp == isTimestamp
  {
    hide SentinelBytes, SentinelCbor, Fits, Encode;
    ghost var decodeValue := (b: Bytes) =>
      if exists v: Cbor :: Fits(v) && Encode(v) == b then
        var v: Cbor :| Fits(v) && Encode(v) == b;
        Some(v)
      else None;
    ghost var decodeMarker := (b: Bytes) =>
      if exists m: SentinelMarker :: Fits(SentinelCbor(m)) && SentinelBytes(m) == b then
        var m: SentinelMarker :| Fits(SentinelCbor(m)) && SentinelBytes(m) == b;
        Some(m)
      else None;
    ghost var reader := SentinelReader(decodeValue, decodeMarker, isTimestamp);
    forall v: Cbor | Fits(v)
      ensures reader.decodeValue(Encode(v)) == Some(v)
    {
      EncodeInjective(reader.decodeValue(Encode(v)).value, v);
    }
    forall m: SentinelMarker | Fits(SentinelCbor(m))
      ensures reader.decodeMarker(SentinelBytes(m)) == Some(m)
    {
      SentinelBytesInjective(reader.decodeMarker(SentinelBytes(m)).value, m);
    }
    assert LawfulReader(reader);
  }

  /** A signature library that keeps its one promise exists. */
  lemma LawfulEd25519Exists(sha256: Bytes -> Digest)
    ensures exists e :: LawfulEd25519(e) && e.sha256 == sha256 && exists k :: e.publicKey(k).Some?
  {
    var e := Ed25519(
      (k: Bytes) => Some(sha256(k)),
      (k: Bytes, s: Bytes) => Some(sha256(k) + sha256(s)),
      (k: Bytes, s: Bytes, g: Bytes) => |g| == 64 && g[..32] == k,
      sha256);
    forall k: Bytes, s: Bytes
      ensures e.verify(e.publicKey(k).value, s, e.sign(k, s).value)
    {
      var g := sha256(k) + sha256(s);
      assert g[..32] == sha256(k);
    }
    assert LawfulEd25519(e);
    assert e.publicKey([]).Some?;
  }
}
