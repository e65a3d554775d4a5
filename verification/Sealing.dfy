/** From a recorded session to a verdict: export, sign, attest, write, read back, evaluate. */
module Sealing {
  import opened Foundation
  import opened Text
  import opened Events
  import opened Framing
  import opened Manifests
  import opened Archive
  import opened ArchiveLaws
  import opened Verifier
  import opened Integrity
  import opened Evidence
  import opened Capture
  import opened Journal
  import opened Calendar
  import opened Transfer
  import opened Delivery
  import opened Signing
  import opened SignedManifests
  import opened Policies

  // ---------------------------------------------------------------- who made an entry

  /** An entry that `key` signed over the manifest's current statement. */
  ghost predicate MadeBy(e: Ed25519, m: Manifest, entry: HeadSignature, key: Bytes) {
    && entry.scheme == SCHEME_ED25519 && entry.statementVersion == SIG_STATEMENT_VERSION
    && entry.keyId == KeyId(e, key)
    && HexDecode(entry.signature).Some?
    && VerifyStatement(e, SigningStatement(m), HexDecode(entry.signature).value, key)
  }

  ghost predicate MadeByOne(e: Ed25519, m: Manifest, entry: HeadSignature, keys: set<Bytes>) {
    exists key :: key in keys && MadeBy(e, m, entry, key)
  }

  /** The same for an attestation. */
  ghost predicate AttestedBy(e: Ed25519, m: Manifest, entry: OperatorAttestation, key: Bytes) {
    && entry.scheme == SCHEME_ED25519 && entry.statementVersion == OPERATOR_STATEMENT_VERSION
    && entry.keyId == KeyId(e, key)
    && HexDecode(entry.signature).Some?
    && VerifyStatement(e, OperatorStatement(m, IdentityOf(entry)), HexDecode(entry.signature).value, key)
  }

  ghost predicate AttestedByOne(e: Ed25519, m: Manifest, entry: OperatorAttestation, keys: set<Bytes>) {
    exists key :: key in keys && AttestedBy(e, m, entry, key)
  }

  /** Every entry beyond those of `start` was made by one of the keys. */
  ghost predicate AllMade(e: Ed25519, start: Manifest, m: Manifest, signers: set<Bytes>, attesters: set<Bytes>) {
    && (forall i :: |Signatures(start)| <= i < |Signatures(m)| ==> MadeByOne(e, m, Signatures(m)[i], signers))
    && (forall i :: |Attestations(start)| <= i < |Attestations(m)| ==>
          AttestedByOne(e, m, Attestations(m)[i], attesters))
  }

  /** The public keys a run of steps signs heads with. */
  function SigningKeys(e: Ed25519, steps: seq<Step>): (keys: set<Bytes>)
    ensures forall i :: 0 <= i < |steps| ==> SignerOf(e, steps[i]) <= keys
    decreases |steps|
  {
    if steps == [] then {}
    else SignerOf(e, steps[0]) + SigningKeys(e, steps[1..])
  }

  function SignerOf(e: Ed25519, step: Step): set<Bytes> {
    if step.SignHead? && e.publicKey(step.pkcs8).Some? then {e.publicKey(step.pkcs8).value} else {}
  }

  /** The public keys a run of steps attests with. */
  function AttestingKeys(e: Ed25519, steps: seq<Step>): (keys: set<Bytes>)
    ensures forall i :: 0 <= i < |steps| ==> AttesterOf(e, steps[i]) <= keys
    decreases |steps|
  {
    if steps == [] then {}
    else AttesterOf(e, steps[0]) + AttestingKeys(e, steps[1..])
  }

  function AttesterOf(e: Ed25519, step: Step): set<Bytes> {
    if step.Attest? && e.publicKey(step.pkcs8).Some? then {e.publicKey(step.pkcs8).value} else {}
  }

  lemma MadeCarriesOver(e: Ed25519, m: Manifest, n: Manifest, entry: HeadSignature, keys: set<Bytes>, more: set<Bytes>)
    requires SessionLines(m) == SessionLines(n) && keys <= more
    requires MadeByOne(e, m, entry, keys)
    ensures MadeByOne(e, n, entry, more)
  {
    hide Lines, HexDecode, VerifyStatement;
    var key :| key in keys && MadeBy(e, m, entry, key);
    assert MadeBy(e, n, entry, key);
  }

  lemma AttestedCarriesOver(e: Ed25519, m: Manifest, n: Manifest, entry: OperatorAttestation,
                            keys: set<Bytes>, more: set<Bytes>)
    requires SessionLines(m) == SessionLines(n) && keys <= more
    requires AttestedByOne(e, m, entry, keys)
    ensures AttestedByOne(e, n, entry, more)
  {
    hide Lines, HexDecode, VerifyStatement;
    var key :| key in keys && AttestedBy(e, m, entry, key);
    assert AttestedBy(e, n, entry, key);
  }

  /** Once there is an entry, the signed lines stay as they are. */
  lemma StepKeepsLines(e: Ed25519, m: Manifest, step: Step)
    requires !ManifestUnsignedAndUnattested(m)
    ensures SessionLines(AfterStep(e, m, step).0) == SessionLines(m)
  {
    hide BuildOperatorAttestation, HexEncode, SigningStatement, Utf8;
    StepExtends(e, m, step);
  }

  lemma StepMakes(e: Ed25519, start: Manifest, m: Manifest, step: Step, signers: set<Bytes>, attesters: set<Bytes>)
    requires LawfulEd25519(e) && AllMade(e, start, m, signers, attesters)
    ensures AllMade(e, start, AfterStep(e, m, step).0, signers + SignerOf(e, step), attesters + AttesterOf(e, step))
  {
    hide SessionLines, HexDecode, HexEncode, VerifyStatement, MadeByOne, AttestedByOne, BuildOperatorAttestation, Utf8,
         LawfulEd25519, AfterStep, SignerOf, AttesterOf;
    var n := AfterStep(e, m, step).0;
    var signers', attesters' := signers + SignerOf(e, step), attesters + AttesterOf(e, step);
    StepExtends(e, m, step);
    forall i | |Signatures(start)| <= i < |Signatures(n)|
      ensures MadeByOne(e, n, Signatures(n)[i], signers')
    {
      if i < |Signatures(m)| {
        assert Signatures(n)[i] == Signatures(m)[i];
        StepKeepsLines(e, m, step);
        MadeCarriesOver(e, m, n, Signatures(m)[i], signers, signers');
      } else {
        NewSignatureMade(e, m, step, signers');
      }
    }
    forall i | |Attestations(start)| <= i < |Attestations(n)|
      ensures AttestedByOne(e, n, Attestations(n)[i], attesters')
    {
      if i < |Attestations(m)| {
        assert Attestations(n)[i] == Attestations(m)[i];
        StepKeepsLines(e, m, step);
        AttestedCarriesOver(e, m, n, Attestations(m)[i], attesters, attesters');
      } else {
        NewAttestationMade(e, m, step, attesters');
      }
    }
  }

  lemma NewSignatureMade(e: Ed25519, m: Manifest, step: Step, keys: set<Bytes>)
    requires LawfulEd25519(e) && SignerOf(e, step) <= keys
    requires |Signatures(AfterStep(e, m, step).0)| > |Signatures(m)|
    ensures var n := AfterStep(e, m, step).0;
            |Signatures(n)| == |Signatures(m)| + 1 && MadeByOne(e, n, Signatures(n)[|Signatures(m)|], keys)
  {
    hide Lines, HexDecode, HexEncode, BuildOperatorAttestation, Utf8;
    assert step.SignHead? && e.publicKey(step.pkcs8).Some?;
    assert KeyWorks(e, step.pkcs8);
    var n, key := AfterStep(e, m, step).0, e.publicKey(step.pkcs8).value;
    assert SessionLines(n) == SessionLines(StampVersion(m));
    HexRoundTrip(e.sign(step.pkcs8, Utf8(SigningStatement(n))).value);
    assert MadeBy(e, n, Signatures(n)[|Signatures(m)|], key);
  }

  lemma NewAttestationMade(e: Ed25519, m: Manifest, step: Step, keys: set<Bytes>)
    requires LawfulEd25519(e) && AttesterOf(e, step) <= keys
    requires |Attestations(AfterStep(e, m, step).0)| > |Attestations(m)|
    ensures var n := AfterStep(e, m, step).0;
            |Attestations(n)| == |Attestations(m)| + 1
            && AttestedByOne(e, n, Attestations(n)[|Attestations(m)|], keys)
  {
    hide Lines, HexDecode, HexEncode, Utf8, ValidIdentity;
    assert step.Attest? && e.publicKey(step.pkcs8).Some?;
    assert KeyWorks(e, step.pkcs8);
    var n, key := AfterStep(e, m, step).0, e.publicKey(step.pkcs8).value;
    assert SessionLines(n) == SessionLines(StampVersion(m));
    HexRoundTrip(e.sign(step.pkcs8, Utf8(OperatorStatement(n, step.identity))).value);
    assert IdentityOf(Attestations(n)[|Attestations(m)|]) == step.identity;
    assert AttestedBy(e, n, Attestations(n)[|Attestations(m)|], key);
  }

  /** What a run of steps adds was made by the keys of its steps, over the statement that stands at the end. */
  lemma RunMakes(e: Ed25519, m: Manifest, steps: seq<Step>)
    requires LawfulEd25519(e)
    ensures AllMade(e, m, Run(e, m, steps), SigningKeys(e, steps), AttestingKeys(e, steps))
  {
    hide Run, SigningKeys, AttestingKeys, LawfulEd25519;
    RunMakesFrom(e, m, m, steps, {}, {});
    assert {} + SigningKeys(e, steps) == SigningKeys(e, steps);
    assert {} + AttestingKeys(e, steps) == AttestingKeys(e, steps);
  }

  lemma {:induction false} RunMakesFrom(e: Ed25519, start: Manifest, m: Manifest, steps: seq<Step>,
                                        signers: set<Bytes>, attesters: set<Bytes>)
    requires LawfulEd25519(e) && AllMade(e, start, m, signers, attesters)
    ensures AllMade(e, start, Run(e, m, steps), signers + SigningKeys(e, steps), attesters + AttestingKeys(e, steps))
    decreases |steps|
  {
    hide AfterStep, SignerOf, AttesterOf, AllMade, LawfulEd25519;
    if steps == [] {
      assert signers + SigningKeys(e, steps) == signers && attesters + AttestingKeys(e, steps) == attesters;
    } else {
      var next := AfterStep(e, m, steps[0]).0;
      var signers', attesters' := signers + SignerOf(e, steps[0]), attesters + AttesterOf(e, steps[0]);
      StepMakes(e, start, m, steps[0], signers, attesters);
      RunMakesFrom(e, start, next, steps[1..], signers', attesters');
      assert signers' + SigningKeys(e, steps[1..]) == signers + SigningKeys(e, steps);
      assert attesters' + AttestingKeys(e, steps[1..]) == attesters + AttestingKeys(e, steps);
    }
  }

  // ---------------------------------------------------------------- what signing again can spoil

  /** A key that is not trusted has the key id of a trusted one: a collision of the key digest. */
  ghost predicate KeyIdClash(e: Ed25519, keys: set<Bytes>, trusted: Keys) {
    exists k, t :: k in keys && k !in trusted && t in trusted && KeyId(e, k) == KeyId(e, t)
  }

  /** The bundle passes, or the key id of one of the steps' keys clashes with that of a trusted key. */
  ghost predicate PassesOrClash(p: Primitives, e: Ed25519, parse: JsonReader, c: BundleContents, steps: seq<Step>,
                                policy: Policy)
  {
    || Passes(p, e, parse, c, policy)
    || KeyIdClash(e, SigningKeys(e, steps), policy.trustedKeys)
    || KeyIdClash(e, AttestingKeys(e, steps), policy.operatorTrustedKeys)
  }

  /** No entry that one of the keys made is called invalid. */
  lemma MadeNotInvalid(e: Ed25519, m: Manifest, entry: HeadSignature, keys: set<Bytes>, trusted: Keys)
    requires MadeByOne(e, m, entry, keys) && !KeyIdClash(e, keys, trusted)
    ensures SignatureOutcome(e, entry, SigningStatement(m), trusted) != Invalid
  {
    hide SigningStatement, HexDecode, VerifyStatement, KeyId;
    var k :| k in keys && MadeBy(e, m, entry, k);
    if k in trusted {
      OneKeyVerifies(e, SigningStatement(m), HexDecode(entry.signature).value, entry.keyId, trusted, k);
    }
  }

  lemma AttestedNotInvalid(e: Ed25519, m: Manifest, entry: OperatorAttestation, keys: set<Bytes>, trusted: Keys)
    requires AttestedByOne(e, m, entry, keys) && !KeyIdClash(e, keys, trusted)
    ensures OperatorOutcome(e, entry, m, trusted) != Invalid
  {
    hide OperatorStatement, HexDecode, VerifyStatement, KeyId, ValidIdentity;
    var k :| k in keys && AttestedBy(e, m, entry, k);
    if k in trusted {
      OneKeyVerifies(e, OperatorStatement(m, IdentityOf(entry)), HexDecode(entry.signature).value, entry.keyId, trusted,
                     k);
    }
  }

  /** A run of steps adds no invalid entry, unless a key of one of its steps clashes with a trusted one. */
  lemma RunAddsNoInvalid(e: Ed25519, m: Manifest, steps: seq<Step>, trusted: Keys, operators: Keys)
    requires LawfulEd25519(e)
    requires !KeyIdClash(e, SigningKeys(e, steps), trusted) && !KeyIdClash(e, AttestingKeys(e, steps), operators)
    ensures var n := Run(e, m, steps);
            && (SomeSignature(e, n, trusted, Invalid) ==> SomeSignature(e, m, trusted, Invalid))
            && (SomeAttestation(e, n, operators, Invalid) ==> SomeAttestation(e, m, operators, Invalid))
  {
    hide SignatureOutcome, OperatorOutcome, SigningStatement, Run, MadeByOne, AttestedByOne, KeyIdClash, LawfulEd25519,
         SigningKeys, AttestingKeys;
    var n := Run(e, m, steps);
    RunMakes(e, m, steps);
    RunExtends(e, m, steps);
    RunKeepsOutcomes(e, m, steps, trusted);
    RunKeepsOutcomes(e, m, steps, operators);
    if SomeSignature(e, n, trusted, Invalid) {
      var i :| 0 <= i < |Signatures(n)|
          && SignatureOutcome(e, Signatures(n)[i], SigningStatement(n), trusted) == Invalid;
      if i >= |Signatures(m)| {
        MadeNotInvalid(e, n, Signatures(n)[i], SigningKeys(e, steps), trusted);
      } else {
        assert VerifyManifestSignatures(e, n, trusted)[i] == VerifyManifestSignatures(e, m, trusted)[i];
      }
    }
    if SomeAttestation(e, n, operators, Invalid) {
      var i :| 0 <= i < |Attestations(n)| && OperatorOutcome(e, Attestations(n)[i], n, operators) == Invalid;
      if i >= |Attestations(m)| {
        AttestedNotInvalid(e, n, Attestations(n)[i], AttestingKeys(e, steps), operators);
      } else {
        assert VerifyOperatorAttestations(e, n, operators)[i] == VerifyOperatorAttestations(e, m, operators)[i];
      }
    }
  }

  /**
   Signing and attesting again never makes a passing bundle fail, under any policy and over any run
   of steps; the only way out is a key of one of the steps with the key id of another, trusted key.
   */
  lemma CoSigningKeepsPasses(p: Primitives, e: Ed25519, parse: JsonReader, c: BundleContents, steps: seq<Step>,
                             policy: Policy)
    requires LawfulEd25519(e) && Passes(p, e, parse, c, policy)
    ensures PassesOrClash(p, e, parse, c.(manifest := Run(e, c.manifest, steps)), steps, policy)
  {
    hide Intact, IsViolation, SomeSignature, SomeAttestation, AttestedAs, Run, KeyIdClash, LawfulEd25519,
         SigningKeys, AttestingKeys, Accepted, PlainExtra, FirstConfigHash;
    var signed := c.(manifest := Run(e, c.manifest, steps));
    if  && !KeyIdClash(e, SigningKeys(e, steps), policy.trustedKeys)
        && !KeyIdClash(e, AttestingKeys(e, steps), policy.operatorTrustedKeys) {
      RunKeepsIntegrity(e, p, c, steps, (s: string) => true);
      RunAddsNoInvalid(e, c.manifest, steps, policy.trustedKeys, policy.operatorTrustedKeys);
      if policy.requireSignature {
        CoSigningKeepsVerified(e, c.manifest, steps, policy.trustedKeys);
      }
      if policy.requireOperator {
        SomeAttestedAs(e, c.manifest, steps, policy.operatorTrustedKeys);
      }
      forall k | k in policy.requiredOperatorKeyIds
        ensures AttestedAs(e, signed.manifest, policy.operatorTrustedKeys, k)
      {
        CoSigningKeepsAttested(e, c.manifest, steps, policy.operatorTrustedKeys, k);
      }
    }
  }

  lemma SomeAttestedAs(e: Ed25519, m: Manifest, steps: seq<Step>, trusted: Keys)
    requires SomeAttestation(e, m, trusted, Verified)
    ensures SomeAttestation(e, Run(e, m, steps), trusted, Verified)
  {
    hide OperatorOutcome, Run;
    var i :| 0 <= i < |Attestations(m)| && OperatorOutcome(e, Attestations(m)[i], m, trusted) == Verified;
    CoSigningKeepsAttested(e, m, steps, trusted, Attestations(m)[i].keyId);
  }

  // ---------------------------------------------------------------- sealing

  /** Asks for a head signature by `key`, and for an attestation by the operator's key if there is one. */
  function SealPolicy(e: Ed25519, key: Bytes, operator: Option<Bytes>): Policy {
    Policy([key], true, if operator.Some? then [operator.value] else [], false,
           if operator.Some? then [KeyId(e, operator.value)] else [], false)
  }

  /** The policy that sealing loads from the key files it has written is that one. */
  method LoadSealPolicy(e: Ed25519, key: Bytes, operator: Option<Bytes>) returns (policy: Policy)
    requires |key| == 32 && (operator.Some? ==> |operator.value| == 32)
    ensures policy == SealPolicy(e, key, operator)
  {
    hide ParsePublicKeyHex, HexEncode, KeyId;
    KeyFileParses(key);
    var operatorFiles := [];
    if operator.Some? {
      KeyFileParses(operator.value);
      operatorFiles := [Some(HexEncode(operator.value))];
    }
    var loaded := LoadPolicy(e, [Some(HexEncode(key))], true, [], false, operatorFiles, false);
    return loaded.value;
  }

  lemma KeyFileParses(key: Bytes)
    requires |key| == 32
    ensures ParsePublicKeyHex(HexEncode(key)) == Some(key)
  {
    hide HexEncode, HexDecode, TrimStart, TrimEnd;
    HexRoundTrip(key);
    NothingToTrim(HexEncode(key));
  }

  ghost predicate SignsWith(e: Ed25519, step: Step, key: Bytes) {
    step.SignHead? && e.publicKey(step.pkcs8) == Some(key)
  }

  ghost predicate AttestsWith(e: Ed25519, step: Step, key: Bytes) {
    && step.Attest? && e.publicKey(step.pkcs8) == Some(key)
    && step.identity.operatorId != "" && ValidIdentity(step.identity)
  }

  /** The steps sign with `key` and, if there is an operator, attest with the operator's key. */
  ghost predicate Seals(e: Ed25519, steps: seq<Step>, key: Bytes, operator: Option<Bytes>) {
    && (exists i :: 0 <= i < |steps| && SignsWith(e, steps[i], key))
    && (operator.Some? ==> exists i :: 0 <= i < |steps| && AttestsWith(e, steps[i], operator.value))
  }

  lemma SignedVerifies(e: Ed25519, m: Manifest, steps: seq<Step>, key: Bytes, i: nat)
    requires LawfulEd25519(e) && i < |steps| && SignsWith(e, steps[i], key)
    ensures SomeSignature(e, Run(e, m, steps), [key], Verified)
  {
    hide Run, SignatureOutcome, SigningStatement, LawfulEd25519, VerifyOperatorAttestations;
    assert steps == steps[..i] + [steps[i]] + steps[i + 1..];
    SignedStaysVerified(e, m, steps[..i], steps[i], steps[i + 1..], [key]);
    var n, j := Run(e, m, steps), |Signatures(Run(e, m, steps[..i]))|;
    assert SignatureOutcome(e, Signatures(n)[j], SigningStatement(n), [key]) == Verified;
  }

  lemma AttestedVerifies(e: Ed25519, m: Manifest, steps: seq<Step>, key: Bytes, i: nat)
    requires LawfulEd25519(e) && i < |steps| && AttestsWith(e, steps[i], key)
    ensures AttestedAs(e, Run(e, m, steps), [key], KeyId(e, key))
  {
    hide Run, OperatorOutcome, OperatorStatement, LawfulEd25519, ValidIdentity, VerifyManifestSignatures, KeyId;
    assert steps == steps[..i] + [steps[i]] + steps[i + 1..];
    SignedStaysVerified(e, m, steps[..i], steps[i], steps[i + 1..], [key]);
    var n, j := Run(e, m, steps), |Attestations(Run(e, m, steps[..i]))|;
    assert OperatorOutcome(e, Attestations(n)[j], n, [key]) == Verified;
  }

  /** An unsigned intact bundle, taken through steps that seal it, passes the policy sealing checks it by. */
  lemma SealedPasses(p: Primitives, e: Ed25519, parse: JsonReader, c: BundleContents, steps: seq<Step>, key: Bytes,
                     operator: Option<Bytes>)
    requires LawfulEd25519(e) && Intact(p, c) && ManifestUnsignedAndUnattested(c.manifest)
    requires Seals(e, steps, key, operator)
    ensures PassesOrClash(p, e, parse, c.(manifest := Run(e, c.manifest, steps)), steps, SealPolicy(e, key, operator))
  {
    hide Intact, IsViolation, SignatureOutcome, OperatorOutcome, SigningStatement, AttestedAs, CapturedInFull, Run,
         KeyIdClash, LawfulEd25519, SigningKeys, AttestingKeys, Accepted, PlainExtra, KeyId;
    var policy := SealPolicy(e, key, operator);
    if  && !KeyIdClash(e, SigningKeys(e, steps), policy.trustedKeys)
        && !KeyIdClash(e, AttestingKeys(e, steps), policy.operatorTrustedKeys) {
      RunKeepsIntegrity(e, p, c, steps, (s: string) => true);
      RunAddsNoInvalid(e, c.manifest, steps, policy.trustedKeys, policy.operatorTrustedKeys);
      var i :| 0 <= i < |steps| && SignsWith(e, steps[i], key);
      SignedVerifies(e, c.manifest, steps, key, i);
      if operator.Some? {
        var j :| 0 <= j < |steps| && AttestsWith(e, steps[j], operator.value);
        AttestedVerifies(e, c.manifest, steps, operator.value, j);
      }
    }
  }

  /** Signs and attests a bundle that was read, archives it again and reads it back. */
  lemma SignedDelivered(
      lib: Library, opts: ReadOptions, tar: Tar, limit: u64, parse: JsonReader, e: Ed25519,
      c: BundleContents, steps: seq<Step>, key: Bytes, operator: Option<Bytes>, archive: Bytes)
    requires Lawful(lib) && LawfulEd25519(e) && Intact(lib.p, c) && ManifestUnsignedAndUnattested(c.manifest)
    requires Accepted(c.manifest, lib.isTimestamp) && PlainExtra(c.manifest)
    requires FramesFit(lib.p, opts.maxEventFrameLen, c.events)
             && NormaliseAll(AlgorithmOf(c.manifest), c.events) == c.events
    requires Seals(e, steps, key, operator)
    requires ArchiveOf(lib, tar, archive, c.(manifest := Run(e, c.manifest, steps)))
    ensures ReadArchive(lib, opts, tar, limit, archive).Ok? <==> Untar(tar, archive, 0).size <= limit
    ensures var r := ReadArchive(lib, opts, tar, limit, archive);
            r.Ok? ==>
              && r.value == c.(manifest := Run(e, c.manifest, steps))
              && PassesOrClash(lib.p, e, parse, r.value, steps, SealPolicy(e, key, operator))
  {
    hide Lawful, LawfulEd25519, FramesFit, ArchiveOf, Untar, Intact, Run, ReadArchive, Accepted, PlainExtra,
         NormaliseAll, PassesOrClash, Seals, SealPolicy, IsViolation,
           ManifestUnsignedAndUnattested;
    var signed := c.(manifest := Run(e, c.manifest, steps));
    RunKeepsIntegrity(e, lib.p, c, steps, lib.isTimestamp);
    RunExtends(e, c.manifest, steps);
    assert InNormalForm(signed) == signed;
    ArchiveReadExact(lib, opts, tar, limit, signed, archive);
    SealedPasses(lib.p, e, parse, c, steps, key, operator);
  }

  /**
   The promise of sealing. A session grown by appends and closed by its one session end is exported to
   an archive and read back, taken through any run of signings and attestations that includes a
   signature by `key` and, if there is an operator, an attestation by the operator's key, archived
   again, in any entry order, and read back. The first reading succeeds exactly when the export is
   deliverable. Then only the size limit can stop the second, and the result passes the policy that
   sealing checks it by; the only way out is another key with the key id of a required one.
   */
  lemma SealedSessionPasses(
      lib: Library, opts: ReadOptions, tar: Tar, limit: u64, sessionId: string, producerVersion: string,
      parse: JsonReader, e: Ed25519, a: HashAlgorithm, history: seq<StoredEvent>, stored: map<Digest, Bytes>,
      c: BundleContents, exported: Bytes, steps: seq<Step>, key: Bytes, operator: Option<Bytes>, archive: Bytes)
    requires Lawful(lib) && LawfulTimestampCheck(lib.isTimestamp) && LawfulEd25519(e) && IsHyphenatedUuid(sessionId)
    requires Exported(lib.p, a, sessionId, producerVersion, history, stored, c) && ArchiveOf(lib, tar, exported, c)
    requires var gate := ReadArchive(lib, opts, tar, limit, exported);
             gate.Ok? ==> ArchiveOf(lib, tar, archive, gate.value.(manifest := Run(e, gate.value.manifest, steps)))
    requires Seals(e, steps, key, operator)
    ensures c.events != []
    ensures ReadArchive(lib, opts, tar, limit, exported).Ok? <==>
              Deliverable(lib.p, opts, limit, Untar(tar, exported, 0).size, c.events)
    ensures ReadArchive(lib, opts, tar, limit, exported).Ok? ==>
              var r := ReadArchive(lib, opts, tar, limit, archive);
              && (r.Ok? <==> Untar(tar, archive, 0).size <= limit)
              && (r.Ok? ==>
                    && r.value == BundleContents(Run(e, c.manifest, steps), NormaliseAll(a, c.events), c.objects)
                    && PassesOrClash(lib.p, e, parse, r.value, steps, SealPolicy(e, key, operator)))
  {
    hide Lawful, LawfulEd25519, LawfulTimestampCheck, Recorded, EndsOnce, Addressed, Collected, Stamped, FramesFit,
         ArchiveOf, Untar, Intact, Run, ReadArchive, Accepted, PlainExtra, NormaliseAll, PassesOrClash,
         FromYearZero, Seals, SealPolicy;
    ExportOfAppendsIsIntact(lib.p, a, history, stored, c);
    ParseAlgorithmName(a);
    StampedDelivered(lib, opts, tar, limit, sessionId, producerVersion, c, exported);
    if ReadArchive(lib, opts, tar, limit, exported).Ok? {
      NormalAgain(lib.p, opts.maxEventFrameLen, a, c.events);
      SignedDelivered(lib, opts, tar, limit, parse, e, InNormalForm(c), steps, key, operator, archive);
    }
  }

  /** Reading normalises at most once, and keeps the length of every frame. */
  lemma NormalAgain(p: Primitives, max: u32, a: HashAlgorithm, events: seq<Event>)
    ensures NormaliseAll(a, NormaliseAll(a, events)) == NormaliseAll(a, events)
    ensures FramesFit(p, max, events) ==> FramesFit(p, max, NormaliseAll(a, events))
  {
    hide Normalise, FrameCbor, ToWire;
    var once := NormaliseAll(a, events);
    forall i | 0 <= i < |events|
      ensures Normalise(a, once[i]) == once[i] && Payload(p, once[i]) == Payload(p, events[i])
    {
      NormaliseIdempotent(a, events[i]);
      NormaliseKeepsWire(a, events[i]);
    }
  }
}
