/**
 Checking signature and attestation entries, and adding them to a manifest: over any run of
 signings and attestations, nothing that was already signed stops verifying.
 */
module SignedManifests {
  import opened Foundation
  import opened Text
  import opened Events
  import opened Manifests
  import opened Archive
  import opened Verifier
  import opened Integrity
  import opened Signing

  // ---------------------------------------------------------------- checking entries

  /** What one entry amounts to against a list of trusted keys. */
  datatype Outcome = Verified | Invalid | UnverifiedNoKey | UnsupportedScheme | Malformed

  datatype SignatureCheck = SignatureCheck(keyId: string, scheme: string, outcome: Outcome)

  datatype OperatorCheck = OperatorCheck(
    keyId: string, scheme: string, identity: OperatorIdentity, createdAt: string, outcome: Outcome)

  type Keys = seq<Bytes>

  predicate VerifyStatement(e: Ed25519, statement: string, signature: Bytes, key: Bytes) {
    |key| == 32 && e.verify(key, Utf8(statement), signature)
  }

  /** The trusted keys decide; the entry's `key_id` only tells a failure from a stranger. */
  function TrustOutcome(e: Ed25519, statement: string, signature: Bytes, keyId: string, trusted: Keys): Outcome {
    if exists i :: 0 <= i < |trusted| && VerifyStatement(e, statement, signature, trusted[i]) then Verified
    else if exists i :: 0 <= i < |trusted| && KeyId(e, trusted[i]) == keyId then Invalid
    else UnverifiedNoKey
  }

  function SignatureOutcome(e: Ed25519, s: HeadSignature, statement: string, trusted: Keys): Outcome {
    if s.scheme != SCHEME_ED25519 then UnsupportedScheme
    else if s.statementVersion != SIG_STATEMENT_VERSION then Malformed
    else
      match HexDecode(s.signature)
      case None => Malformed
      case Some(signature) => TrustOutcome(e, statement, signature, s.keyId, trusted)
  }

  function IdentityOf(t: OperatorAttestation): OperatorIdentity {
    OperatorIdentity(t.operatorId, t.displayName, t.role, t.org)
  }

  function OperatorOutcome(e: Ed25519, t: OperatorAttestation, m: Manifest, trusted: Keys): Outcome {
    if t.scheme != SCHEME_ED25519 then UnsupportedScheme
    else if t.statementVersion != OPERATOR_STATEMENT_VERSION then Malformed
    else if !ValidIdentity(IdentityOf(t)) then Malformed
    else
      match HexDecode(t.signature)
      case None => Malformed
      case Some(signature) => TrustOutcome(e, OperatorStatement(m, IdentityOf(t)), signature, t.keyId, trusted)
  }

  function Signatures(m: Manifest): seq<HeadSignature> {
    if m.signatures.Some? then m.signatures.value else []
  }

  function Attestations(m: Manifest): seq<OperatorAttestation> {
    if m.operatorAttestations.Some? then m.operatorAttestations.value else []
  }

  function VerifyManifestSignatures(e: Ed25519, m: Manifest, trusted: Keys): (checks: seq<SignatureCheck>)
    ensures |checks| == |Signatures(m)|
    ensures forall i :: 0 <= i < |checks| ==> checks[i].keyId == Signatures(m)[i].keyId
    ensures forall i :: 0 <= i < |checks| ==>
              checks[i].outcome == SignatureOutcome(e, Signatures(m)[i], SigningStatement(m), trusted)
    ensures forall i :: 0 <= i < |checks| ==> checks[i].scheme == Signatures(m)[i].scheme
  {
    MapSeq(Signatures(m), (s: HeadSignature) =>
      SignatureCheck(s.keyId, s.scheme, SignatureOutcome(e, s, SigningStatement(m), trusted)))
  }

  function VerifyOperatorAttestations(e: Ed25519, m: Manifest, trusted: Keys): (checks: seq<OperatorCheck>)
    ensures |checks| == |Attestations(m)|
    ensures forall i :: 0 <= i < |checks| ==> checks[i].keyId == Attestations(m)[i].keyId
    ensures forall i :: 0 <= i < |checks| ==> checks[i].outcome == OperatorOutcome(e, Attestations(m)[i], m, trusted)
    ensures forall i :: 0 <= i < |checks| ==>
              && checks[i].scheme == Attestations(m)[i].scheme && checks[i].identity == IdentityOf(Attestations(m)[i])
              && checks[i].createdAt == Attestations(m)[i].createdAt
  {
    MapSeq(Attestations(m), (t: OperatorAttestation) =>
      OperatorCheck(t.keyId, t.scheme, IdentityOf(t), t.createdAt, OperatorOutcome(e, t, m, trusted)))
  }

  /** A trusted 32-byte key validates the signature over the statement. */
  ghost predicate Validated(e: Ed25519, statement: string, signature: string, trusted: Keys) {
    && HexDecode(signature).Some?
    && exists key {:trigger e.verify(key, Utf8(statement), HexDecode(signature).value)} ::
         key in trusted && |key| == 32 && e.verify(key, Utf8(statement), HexDecode(signature).value)
  }

  ghost predicate NamesTrusted(e: Ed25519, keyId: string, trusted: Keys) {
    exists key :: key in trusted && KeyId(e, key) == keyId
  }

  lemma TrustOutcomeMeans(e: Ed25519, statement: string, signature: string, keyId: string, trusted: Keys)
    requires HexDecode(signature).Some?
    ensures var o := TrustOutcome(e, statement, HexDecode(signature).value, keyId, trusted);
            && (o == Verified <==> Validated(e, statement, signature, trusted))
            && (o == Invalid <==> !Validated(e, statement, signature, trusted) && NamesTrusted(e, keyId, trusted))
            && (o == UnverifiedNoKey <==>
                  !Validated(e, statement, signature, trusted) && !NamesTrusted(e, keyId, trusted))
            && o != UnsupportedScheme && o != Malformed
  {
    hide Utf8, HexDecode, KeyId;
    var bytes := HexDecode(signature).value;
    assert forall i :: 0 <= i < |trusted| ==> trusted[i] in trusted;
    if Validated(e, statement, signature, trusted) {
      var key :| key in trusted && |key| == 32 && e.verify(key, Utf8(statement), bytes);
      var i :| 0 <= i < |trusted| && trusted[i] == key;
      assert VerifyStatement(e, statement, bytes, trusted[i]);
    }
    if NamesTrusted(e, keyId, trusted) {
      var key :| key in trusted && KeyId(e, key) == keyId;
      var i :| 0 <= i < |trusted| && trusted[i] == key;
      assert KeyId(e, trusted[i]) == keyId;
    }
  }

  /**
   What the outcome for a signature says: verified when a trusted key validates it; invalid when
   none does and a trusted key has the recorded id; and otherwise whose fault it is.
   */
  lemma SignatureOutcomeMeans(e: Ed25519, s: HeadSignature, statement: string, trusted: Keys)
    ensures var o := SignatureOutcome(e, s, statement, trusted);
            var readable := s.scheme == "ed25519" && s.statementVersion == "AGEF-SIG-v1"
                && HexDecode(s.signature).Some?;
            var validated := Validated(e, statement, s.signature, trusted);
            && (o == UnsupportedScheme <==> s.scheme != "ed25519")
            && (o == Malformed <==> s.scheme == "ed25519" && !readable)
            && (o == Verified <==> readable && validated)
            && (o == Invalid <==> readable && !validated && NamesTrusted(e, s.keyId, trusted))
            && (o == UnverifiedNoKey <==> readable && !validated && !NamesTrusted(e, s.keyId, trusted))
  {
    hide TrustOutcome, Validated, NamesTrusted, HexDecode;
    if HexDecode(s.signature).Some? {
      TrustOutcomeMeans(e, statement, s.signature, s.keyId, trusted);
    }
  }

  /** The same for an attestation, which must also have identity fields without line breaks. */
  lemma OperatorOutcomeMeans(e: Ed25519, t: OperatorAttestation, m: Manifest, trusted: Keys)
    ensures var o := OperatorOutcome(e, t, m, trusted);
            var identity := OperatorIdentity(t.operatorId, t.displayName, t.role, t.org);
            var readable := t.scheme == "ed25519" && t.statementVersion == "AGEF-OPERATOR-v1" && ValidIdentity(identity)
                            && HexDecode(t.signature).Some?;
            var validated := Validated(e, OperatorStatement(m, identity), t.signature, trusted);
            && (o == UnsupportedScheme <==> t.scheme != "ed25519")
            && (o == Malformed <==> t.scheme == "ed25519" && !readable)
            && (o == Verified <==> readable && validated)
            && (o == Invalid <==> readable && !validated && NamesTrusted(e, t.keyId, trusted))
            && (o == UnverifiedNoKey <==> readable && !validated && !NamesTrusted(e, t.keyId, trusted))
  {
    hide TrustOutcome, Validated, NamesTrusted, HexDecode, OperatorStatement, ValidIdentity;
    if HexDecode(t.signature).Some? {
      TrustOutcomeMeans(e, OperatorStatement(m, IdentityOf(t)), t.signature, t.keyId, trusted);
    }
  }

  /** Trusting more keys never takes a verified entry back. */
  lemma MoreTrust(e: Ed25519, statement: string, signature: Bytes, keyId: string, trusted: Keys, more: Keys)
    requires forall k :: k in trusted ==> k in more
    requires TrustOutcome(e, statement, signature, keyId, trusted) == Verified
    ensures TrustOutcome(e, statement, signature, keyId, more) == Verified
  {
    hide Utf8;
    var i :| 0 <= i < |trusted| && VerifyStatement(e, statement, signature, trusted[i]);
    assert trusted[i] in more;
    var j :| 0 <= j < |more| && more[j] == trusted[i];
    assert VerifyStatement(e, statement, signature, more[j]);
  }

  lemma OneKeyVerifies(e: Ed25519, statement: string, signature: Bytes, keyId: string, trusted: Keys, key: Bytes)
    requires key in trusted && VerifyStatement(e, statement, signature, key)
    ensures TrustOutcome(e, statement, signature, keyId, trusted) == Verified
  {
    hide Utf8, VerifyStatement;
    var i :| 0 <= i < |trusted| && trusted[i] == key;
    assert VerifyStatement(e, statement, signature, trusted[i]);
  }

  // ---------------------------------------------------------------- adding entries

  datatype SigningError = InvalidPrivateKey | IllegalOperatorField

  datatype Step =
    | SignHead(pkcs8: Bytes, createdAt: string)
    | Attest(identity: OperatorIdentity, pkcs8: Bytes, createdAt: string)

  predicate ManifestUnsignedAndUnattested(m: Manifest) {
    Signatures(m) == [] && Attestations(m) == []
  }

  /** The current version, stamped only while there is nothing it could invalidate. */
  function StampVersion(m: Manifest): Manifest {
    if ManifestUnsignedAndUnattested(m) then m.(agefVersion := AGEF_SPEC_VERSION) else m
  }

  function BuildOperatorAttestation(e: Ed25519, m: Manifest, o: OperatorIdentity, pkcs8: Bytes, createdAt: string)
    : Result<OperatorAttestation, SigningError>
  {
    if o.operatorId == "" || !ValidIdentity(o) then Err(IllegalOperatorField)
    else
      match (e.publicKey(pkcs8), e.sign(pkcs8, Utf8(OperatorStatement(m, o))))
      case (Some(publicKey), Some(signature)) =>
        Ok(OperatorAttestation(SCHEME_ED25519, KeyId(e, publicKey), OPERATOR_STATEMENT_VERSION,
                               o.operatorId, o.displayName, o.role, o.org, HexEncode(signature), createdAt))
      case _ => Err(InvalidPrivateKey)
  }

  /** The manifest after one step, and the error if the step was refused. */
  function AfterStep(e: Ed25519, m: Manifest, step: Step): (Manifest, Option<SigningError>) {
    var stamped := StampVersion(m);
    match step
    case SignHead(pkcs8, createdAt) =>
      (match (e.publicKey(pkcs8), e.sign(pkcs8, Utf8(SigningStatement(stamped))))
       case (None, _) => (m, Some(InvalidPrivateKey))
       case (Some(_), None) => (stamped, Some(InvalidPrivateKey))
       case (Some(publicKey), Some(signature)) =>
         var entry := HeadSignature(SCHEME_ED25519, KeyId(e, publicKey), SIG_STATEMENT_VERSION, HexEncode(signature),
                                    createdAt);
         (stamped.(signatures := Some(Signatures(m) + [entry])), None))
    case Attest(identity, pkcs8, createdAt) =>
      match BuildOperatorAttestation(e, stamped, identity, pkcs8, createdAt)
      case Err(error) => (stamped, Some(error))
      case Ok(entry) => (stamped.(operatorAttestations := Some(Attestations(m) + [entry])), None)
  }

  function Run(e: Ed25519, m: Manifest, steps: seq<Step>): Manifest
    decreases |steps|
  {
    if steps == [] then m else Run(e, AfterStep(e, m, steps[0]).0, steps[1..])
  }

  // ---------------------------------------------------------------- what adding an entry does

  /** Everything but the version, the signatures and the attestations. */
  predicate SameContent(m: Manifest, n: Manifest) {
    && n.producer == m.producer && n.session == m.session && n.hashAlgorithm == m.hashAlgorithm
    && n.objectCount == m.objectCount && n.eventCount == m.eventCount && n.extra == m.extra
  }

  /** No line breaks in a text. */
  predicate CleanField(value: string) {
    forall i :: 0 <= i < |value| ==> value[i] != '\n' && value[i] != '\r'
  }

  /** An identity that can be attested: it has an id, and none of its fields has a line break. */
  predicate Attestable(o: OperatorIdentity) {
    && o.operatorId != "" && CleanField(o.operatorId) && CleanField(o.displayName)
    && CleanField(o.role) && CleanField(o.org)
  }

  /** The version is set to 0.1.3 while there is no entry yet, and left alone after that. */
  predicate VersionStamped(m: Manifest, n: Manifest) {
    n.agefVersion == if Signatures(m) == [] && Attestations(m) == [] then "0.1.3" else m.agefVersion
  }

  /** `n` is `m` with one more signature: by this key, over its own statement, at this time. */
  ghost predicate HeadAdded(e: Ed25519, m: Manifest, n: Manifest, pkcs8: Bytes, createdAt: string) {
    && SameContent(m, n) && VersionStamped(m, n) && Attestations(n) == Attestations(m)
    && |Signatures(n)| == |Signatures(m)| + 1 && Signatures(m) <= Signatures(n)
    && var entry := Signatures(n)[|Signatures(m)|];
    && entry.scheme == "ed25519" && entry.statementVersion == "AGEF-SIG-v1" && entry.createdAt == createdAt
    && e.publicKey(pkcs8).Some? && AllLowerHex(entry.keyId) && AllLowerHex(entry.signature)
    && HexDecode(entry.keyId) == Some(e.sha256(e.publicKey(pkcs8).value))
    && HexDecode(entry.signature) == e.sign(pkcs8, Utf8(SigningStatement(n)))
  }

  /** `n` is `m` with one more attestation: of this identity, by this key, over its own statement. */
  ghost predicate AttestationAdded(e: Ed25519, m: Manifest, n: Manifest, o: OperatorIdentity, pkcs8: Bytes,
                                   createdAt: string)
  {
    && SameContent(m, n) && VersionStamped(m, n) && Signatures(n) == Signatures(m)
    && |Attestations(n)| == |Attestations(m)| + 1 && Attestations(m) <= Attestations(n)
    && var entry := Attestations(n)[|Attestations(m)|];
    && entry.scheme == "ed25519" && entry.statementVersion == "AGEF-OPERATOR-v1" && entry.createdAt == createdAt
    && entry.operatorId == o.operatorId && entry.displayName == o.displayName && entry.role == o.role
    && entry.org == o.org
    && e.publicKey(pkcs8).Some? && AllLowerHex(entry.keyId) && AllLowerHex(entry.signature)
    && HexDecode(entry.keyId) == Some(e.sha256(e.publicKey(pkcs8).value))
    && HexDecode(entry.signature) == e.sign(pkcs8, Utf8(OperatorStatement(n, o)))
  }

  /** Nothing was added; the version may have been set. */
  predicate NothingAdded(m: Manifest, n: Manifest) {
    && SameContent(m, n) && VersionStamped(m, n)
    && n.signatures == m.signatures && n.operatorAttestations == m.operatorAttestations
  }

  lemma AttestableMeans(o: OperatorIdentity)
    ensures Attestable(o) <==> o.operatorId != "" && ValidIdentity(o)
  {
  }

  /** A head is signed exactly when the key has a public half; otherwise nothing changes. */
  lemma SignHeadMeans(e: Ed25519, m: Manifest, pkcs8: Bytes, createdAt: string)
    requires LawfulEd25519(e)
    ensures var (n, error) := AfterStep(e, m, SignHead(pkcs8, createdAt));
            if e.publicKey(pkcs8).Some? then error.None? && HeadAdded(e, m, n, pkcs8, createdAt)
            else error == Some(InvalidPrivateKey) && n == m
  {
    hide Lines, HexDecode, HexEncode, Utf8;
    var n := AfterStep(e, m, SignHead(pkcs8, createdAt)).0;
    if e.publicKey(pkcs8).Some? {
      assert KeyWorks(e, pkcs8);
      assert SessionLines(n) == SessionLines(StampVersion(m));
      HexRoundTrip(e.sha256(e.publicKey(pkcs8).value));
      HexRoundTrip(e.sign(pkcs8, Utf8(SigningStatement(n))).value);
    }
  }

  /** An identity is attested exactly when it can be and the key has a public half; otherwise nothing is added. */
  lemma AttestMeans(e: Ed25519, m: Manifest, o: OperatorIdentity, pkcs8: Bytes, createdAt: string)
    requires LawfulEd25519(e)
    ensures var (n, error) := AfterStep(e, m, Attest(o, pkcs8, createdAt));
            if !Attestable(o) then error == Some(IllegalOperatorField) && NothingAdded(m, n)
            else if e.publicKey(pkcs8).None? then error == Some(InvalidPrivateKey) && NothingAdded(m, n)
            else error.None? && AttestationAdded(e, m, n, o, pkcs8, createdAt)
  {
    hide Lines, HexDecode, HexEncode, Utf8, ValidIdentity, Attestable;
    var n := AfterStep(e, m, Attest(o, pkcs8, createdAt)).0;
    AttestableMeans(o);
    if e.publicKey(pkcs8).Some? {
      assert KeyWorks(e, pkcs8);
      assert SessionLines(n) == SessionLines(StampVersion(m));
      HexRoundTrip(e.sha256(e.publicKey(pkcs8).value));
      HexRoundTrip(e.sign(pkcs8, Utf8(OperatorStatement(n, o))).value);
    }
  }

  /** A manifest that is edited in place. */
  class ManifestCell {
    var manifest: Manifest

    constructor (m: Manifest)
      ensures manifest == m
    {
      manifest := m;
    }

    method AddHeadSignature(e: Ed25519, pkcs8: Bytes, createdAt: string) returns (r: Result<(), SigningError>)
      modifies this
      ensures manifest == AfterStep(e, old(manifest), SignHead(pkcs8, createdAt)).0
      ensures (if r.Ok? then None else Some(r.error)) == AfterStep(e, old(manifest), SignHead(pkcs8, createdAt)).1
      ensures LawfulEd25519(e) ==>
                if e.publicKey(pkcs8).Some? then r.Ok? && HeadAdded(e, old(manifest), manifest, pkcs8, createdAt)
                else r == Err(InvalidPrivateKey) && manifest == old(manifest)
    {
      if LawfulEd25519(e) {
        SignHeadMeans(e, manifest, pkcs8, createdAt);
      }
      hide SigningStatement, Utf8, HexEncode;
      var publicKey := e.publicKey(pkcs8);
      if publicKey.None? {
        return Err(InvalidPrivateKey);
      }
      if ManifestUnsignedAndUnattested(manifest) {
        manifest := manifest.(agefVersion := AGEF_SPEC_VERSION);
      }
      var signature := e.sign(pkcs8, Utf8(SigningStatement(manifest)));
      if signature.None? {
        return Err(InvalidPrivateKey);
      }
      if manifest.signatures.None? {
        manifest := manifest.(signatures := Some([]));
      }
      var entry := HeadSignature(SCHEME_ED25519, KeyId(e, publicKey.value), SIG_STATEMENT_VERSION,
                                 HexEncode(signature.value), createdAt);
      manifest := manifest.(signatures := Some(manifest.signatures.value + [entry]));
      return Ok(());
    }

    method AddOperatorAttestation(e: Ed25519, identity: OperatorIdentity, pkcs8: Bytes, createdAt: string)
      returns (r: Result<(), SigningError>)
      modifies this
      ensures manifest == AfterStep(e, old(manifest), Attest(identity, pkcs8, createdAt)).0
      ensures (if r.Ok? then None else Some(r.error))
              == AfterStep(e, old(manifest), Attest(identity, pkcs8, createdAt)).1
      ensures LawfulEd25519(e) ==>
                if !Attestable(identity) then r == Err(IllegalOperatorField) && NothingAdded(old(manifest), manifest)
                else if e.publicKey(pkcs8).None? then
                  r == Err(InvalidPrivateKey) && NothingAdded(old(manifest), manifest)
                else r.Ok? && AttestationAdded(e, old(manifest), manifest, identity, pkcs8, createdAt)
    {
      if LawfulEd25519(e) {
        AttestMeans(e, manifest, identity, pkcs8, createdAt);
      }
      hide BuildOperatorAttestation;
      if ManifestUnsignedAndUnattested(manifest) {
        manifest := manifest.(agefVersion := AGEF_SPEC_VERSION);
      }
      var attestation := BuildOperatorAttestation(e, manifest, identity, pkcs8, createdAt);
      if attestation.Err? {
        return Err(attestation.error);
      }
      if manifest.operatorAttestations.None? {
        manifest := manifest.(operatorAttestations := Some([]));
      }
      manifest := manifest.(operatorAttestations := Some(manifest.operatorAttestations.value + [attestation.value]));
      return Ok(());
    }
  }

  // ---------------------------------------------------------------- what a run of steps keeps

  /** `n` extends `m`: same content, entries only appended, version fixed once anything is signed. */
  ghost predicate Extended(m: Manifest, n: Manifest) {
    && SameContent(m, n)
    && Signatures(m) <= Signatures(n) && Attestations(m) <= Attestations(n)
    && (n.agefVersion == m.agefVersion
        || (ManifestUnsignedAndUnattested(m) && n.agefVersion == AGEF_SPEC_VERSION))
  }

  lemma StepExtends(e: Ed25519, m: Manifest, step: Step)
    ensures Extended(m, AfterStep(e, m, step).0)
  {
    hide SigningStatement, BuildOperatorAttestation, Utf8, HexEncode;
  }

  lemma ExtendedTransitive(m: Manifest, n: Manifest, q: Manifest)
    requires Extended(m, n) && Extended(n, q)
    ensures Extended(m, q)
  {
    assert Signatures(n) == Signatures(m) + Signatures(n)[|Signatures(m)|..];
    assert Attestations(n) == Attestations(m) + Attestations(n)[|Attestations(m)|..];
  }

  lemma {:induction false} RunExtends(e: Ed25519, m: Manifest, steps: seq<Step>)
    ensures Extended(m, Run(e, m, steps))
    decreases |steps|
  {
    hide AfterStep;
    if steps != [] {
      var next := AfterStep(e, m, steps[0]).0;
      StepExtends(e, m, steps[0]);
      RunExtends(e, next, steps[1..]);
      ExtendedTransitive(m, next, Run(e, next, steps[1..]));
    }
  }

  /** An extension leaves every existing entry where it was, with the outcome it had. */
  lemma ExtensionKeepsOutcomes(e: Ed25519, m: Manifest, n: Manifest, trusted: Keys)
    requires Extended(m, n)
    ensures VerifyManifestSignatures(e, m, trusted) <= VerifyManifestSignatures(e, n, trusted)
    ensures VerifyOperatorAttestations(e, m, trusted) <= VerifyOperatorAttestations(e, n, trusted)
  {
    hide TrustOutcome, HexDecode, Lines, Utf8;
    var s, s' := VerifyManifestSignatures(e, m, trusted), VerifyManifestSignatures(e, n, trusted);
    var t, t' := VerifyOperatorAttestations(e, m, trusted), VerifyOperatorAttestations(e, n, trusted);
    assert !ManifestUnsignedAndUnattested(m) ==> SessionLines(m) == SessionLines(n);
    forall i | 0 <= i < |s|
      ensures s[i] == s'[i]
    {
      assert Signatures(m)[i] == Signatures(n)[i];
    }
    forall i | 0 <= i < |t|
      ensures t[i] == t'[i]
    {
      assert Attestations(m)[i] == Attestations(n)[i];
    }
  }

  /**
   Signing never breaks what is already signed: over any run of steps, refused ones included, every
   existing entry keeps its outcome under every list of trusted keys.
   */
  lemma RunKeepsOutcomes(e: Ed25519, m: Manifest, steps: seq<Step>, trusted: Keys)
    ensures VerifyManifestSignatures(e, m, trusted) <= VerifyManifestSignatures(e, Run(e, m, steps), trusted)
    ensures VerifyOperatorAttestations(e, m, trusted) <= VerifyOperatorAttestations(e, Run(e, m, steps), trusted)
  {
    RunExtends(e, m, steps);
    ExtensionKeepsOutcomes(e, m, Run(e, m, steps), trusted);
  }

  lemma {:induction false} RunSplit(e: Ed25519, m: Manifest, before: seq<Step>, after: seq<Step>)
    ensures Run(e, m, before + after) == Run(e, Run(e, m, before), after)
    decreases |before|
  {
    hide AfterStep;
    if before == [] {
      assert before + after == after;
    } else {
      RunSplit(e, AfterStep(e, m, before[0]).0, before[1..], after);
      assert (before + after)[1..] == before[1..] + after;
    }
  }

  lemma NewSignatureVerifies(e: Ed25519, m: Manifest, pkcs8: Bytes, createdAt: string, trusted: Keys)
    requires LawfulEd25519(e) && e.publicKey(pkcs8).Some? && e.publicKey(pkcs8).value in trusted
    ensures var n := AfterStep(e, m, SignHead(pkcs8, createdAt)).0;
            && |Signatures(n)| == |Signatures(m)| + 1
            && VerifyManifestSignatures(e, n, trusted)[|Signatures(m)|].outcome == Verified
            && Signatures(n)[|Signatures(m)|].keyId == KeyId(e, e.publicKey(pkcs8).value)
  {
    hide Lines, TrustOutcome, HexDecode, HexEncode, Utf8;
    assert KeyWorks(e, pkcs8);
    var n := AfterStep(e, m, SignHead(pkcs8, createdAt)).0;
    assert SessionLines(n) == SessionLines(StampVersion(m));
    var entry := Signatures(n)[|Signatures(m)|];
    var signature := e.sign(pkcs8, Utf8(SigningStatement(n))).value;
    HexRoundTrip(signature);
    OneKeyVerifies(e, SigningStatement(n), signature, entry.keyId, trusted, e.publicKey(pkcs8).value);
  }

  lemma NewAttestationVerifies(e: Ed25519, m: Manifest, o: OperatorIdentity, pkcs8: Bytes, createdAt: string,
                               trusted: Keys)
    requires LawfulEd25519(e) && e.publicKey(pkcs8).Some? && e.publicKey(pkcs8).value in trusted
    requires o.operatorId != "" && ValidIdentity(o)
    ensures var n := AfterStep(e, m, Attest(o, pkcs8, createdAt)).0;
            && |Attestations(n)| == |Attestations(m)| + 1
            && VerifyOperatorAttestations(e, n, trusted)[|Attestations(m)|].outcome == Verified
            && IdentityOf(Attestations(n)[|Attestations(m)|]) == o
            && Attestations(n)[|Attestations(m)|].keyId == KeyId(e, e.publicKey(pkcs8).value)
  {
    hide Lines, TrustOutcome, HexDecode, HexEncode, Utf8, ValidIdentity;
    assert KeyWorks(e, pkcs8);
    var n := AfterStep(e, m, Attest(o, pkcs8, createdAt)).0;
    assert SessionLines(n) == SessionLines(StampVersion(m));
    var entry := Attestations(n)[|Attestations(m)|];
    var signature := e.sign(pkcs8, Utf8(OperatorStatement(n, o))).value;
    HexRoundTrip(signature);
    OneKeyVerifies(e, OperatorStatement(n, o), signature, entry.keyId, trusted, e.publicKey(pkcs8).value);
  }

  /** Whatever comes before and after, a step with a working key leaves an entry that verifies under it. */
  lemma SignedStaysVerified(e: Ed25519, m: Manifest, before: seq<Step>, step: Step, after: seq<Step>, trusted: Keys)
    requires LawfulEd25519(e) && e.publicKey(step.pkcs8).Some? && e.publicKey(step.pkcs8).value in trusted
    requires step.Attest? ==> step.identity.operatorId != "" && ValidIdentity(step.identity)
    ensures var start, end := Run(e, m, before), Run(e, m, before + [step] + after);
            match step
            case SignHead(_, _) =>
              && |Signatures(start)| < |Signatures(end)|
              && VerifyManifestSignatures(e, end, trusted)[|Signatures(start)|].outcome == Verified
              && Signatures(end)[|Signatures(start)|].keyId == KeyId(e, e.publicKey(step.pkcs8).value)
            case Attest(identity, _, _) =>
              && |Attestations(start)| < |Attestations(end)|
              && VerifyOperatorAttestations(e, end, trusted)[|Attestations(start)|].outcome == Verified
              && IdentityOf(Attestations(end)[|Attestations(start)|]) == identity
              && Attestations(end)[|Attestations(start)|].keyId == KeyId(e, e.publicKey(step.pkcs8).value)
  {
    hide AfterStep, VerifyManifestSignatures, VerifyOperatorAttestations, ValidIdentity, SignatureOutcome,
         OperatorOutcome, Extended;
    var start := Run(e, m, before);
    var next := AfterStep(e, start, step).0;
    RunSplit(e, m, before, [step] + after);
    assert before + [step] + after == before + ([step] + after);
    assert ([step] + after)[1..] == after;
    var end := Run(e, next, after);
    RunExtends(e, next, after);
    ExtendedEntries(next, end);
    ExtensionKeepsOutcomes(e, next, end, trusted);
    match step
    case SignHead(pkcs8, createdAt) =>
      NewSignatureVerifies(e, start, pkcs8, createdAt, trusted);
      assert VerifyManifestSignatures(e, end, trusted)[|Signatures(start)|]
             == VerifyManifestSignatures(e, next, trusted)[|Signatures(start)|];
    case Attest(identity, pkcs8, createdAt) =>
      NewAttestationVerifies(e, start, identity, pkcs8, createdAt, trusted);
      assert VerifyOperatorAttestations(e, end, trusted)[|Attestations(start)|]
             == VerifyOperatorAttestations(e, next, trusted)[|Attestations(start)|];
  }

  lemma ExtendedEntries(m: Manifest, n: Manifest)
    requires Extended(m, n)
    ensures Signatures(m) <= Signatures(n) && Attestations(m) <= Attestations(n)
  {
  }

  /** Signing leaves the verifier's findings as they are, and keeps the manifest readable. */
  lemma RunKeepsIntegrity(e: Ed25519, p: Primitives, c: BundleContents, steps: seq<Step>, isTimestamp: TimestampCheck)
    ensures var signed := c.(manifest := Run(e, c.manifest, steps));
            && (forall v :: IsViolation(p, signed, v) <==> IsViolation(p, c, v))
            && (Intact(p, signed) <==> Intact(p, c))
            && (Accepted(c.manifest, isTimestamp) ==> Accepted(signed.manifest, isTimestamp))
            && (PlainExtra(c.manifest) ==> PlainExtra(signed.manifest))
  {
    hide ParseAlgorithm, HashAt, SessionEnds, ParseHex, Run, Sound, ParseSemver, IsHyphenatedUuid;
    RunExtends(e, c.manifest, steps);
    SpecVersionParses();
    var signed := c.(manifest := Run(e, c.manifest, steps));
    forall v
      ensures IsViolation(p, signed, v) <==> IsViolation(p, c, v)
    {
      SameFindings(p, c, signed, v);
    }
  }

  lemma SameFindings(p: Primitives, c: BundleContents, d: BundleContents, v: Violation)
    requires d.events == c.events && d.objects == c.objects && SameContent(c.manifest, d.manifest)
    ensures IsViolation(p, d, v) <==> IsViolation(p, c, v)
  {
    hide ParseAlgorithm, HashAt, SessionEnds, ParseHex, ReferencedBefore;
    forall a: HashAlgorithm, j: nat | j < |c.events|
      ensures AtEvent(p, a, d, j, v) <==> AtEvent(p, a, c, j, v)
    {
    }
  }
}
