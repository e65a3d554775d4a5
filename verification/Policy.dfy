/** The verdict on a bundle under a policy, and the proofs handed to an outside verifier. */
module Policies {
  import opened Foundation
  import opened Text
  import opened Events
  import opened Manifests
  import opened Archive
  import opened Verifier
  import opened Integrity
  import opened Capture
  import opened Signing
  import opened SignedManifests
  import Spki

  // ---------------------------------------------------------------- report entries

  const CAPTURE_REQUIREMENT_CATEGORY := "capture_requirement_unmet"

  function Category(v: Violation): string {
    match v
    case UnsupportedAlgorithm(_) => "unsupported_hash_algorithm"
    case ObjectCountMismatch(_, _) => "manifest_object_count_mismatch"
    case EventCountMismatch(_, _) => "manifest_event_count_mismatch"
    case ObjectKeyHashMismatch(_) => "object_key_hash_mismatch"
    case NoEvents => "no_events"
    case SequenceMismatch(_, _) => "sequence"
    case EventContentHash(_) => "event_content_hash"
    case BrokenParentChain(_, _) => "broken_parent_chain"
    case MissingObjectOf(_, _) => "missing_object"
    case SessionEndMissing => "session_end_missing"
    case SessionEndDuplicate(_) => "session_end_duplicate"
    case SessionEndNotTerminal => "session_end_not_terminal"
    case InvalidManifestHead => "invalid_manifest_head"
    case HeadDiffers(_, _) => "head_mismatch"
    case UnreferencedObject(_) => "unreferenced_object"
    case EventInvariant(_, _) => "event_invariant"
  }

  datatype ReportViolation = ReportViolation(category: string, eventHash: Option<string>, objectHash: Option<string>)

  function ToReportViolation(v: Violation): ReportViolation {
    ReportViolation(
      Category(v),
      if v.MissingObjectOf? then Some(v.referencedBy.ToHex()) else None,
      if v.ObjectKeyHashMismatch? || v.MissingObjectOf? || v.UnreferencedObject? then Some(v.objectHash.ToHex())
        else None)
  }

  function OutcomeText(o: Outcome): string {
    match o
    case Verified => "verified"
    case Invalid => "invalid"
    case UnverifiedNoKey => "unverified_no_key"
    case UnsupportedScheme => "unsupported_scheme"
    case Malformed => "malformed"
  }

  datatype SignatureReport = SignatureReport(keyId: string, scheme: string, outcome: string)

  datatype OperatorReport = OperatorReport(
    keyId: string, scheme: string, identity: OperatorIdentity, createdAt: string, outcome: string,
      operatorKeyVerified: bool)

  function SignatureReports(checks: seq<SignatureCheck>): (r: seq<SignatureReport>)
    ensures |r| == |checks| && forall i :: 0 <= i < |r| ==>
              r[i] == SignatureReport(checks[i].keyId, checks[i].scheme, OutcomeText(checks[i].outcome))
  {
    MapSeq(checks, (c: SignatureCheck) => SignatureReport(c.keyId, c.scheme, OutcomeText(c.outcome)))
  }

  function OperatorReports(checks: seq<OperatorCheck>): (r: seq<OperatorReport>)
    ensures |r| == |checks| && forall i :: 0 <= i < |r| ==>
              r[i] == OperatorReport(checks[i].keyId, checks[i].scheme, checks[i].identity, checks[i].createdAt,
                                     OutcomeText(checks[i].outcome), checks[i].outcome == Verified)
  {
    MapSeq(checks, (c: OperatorCheck) =>
      OperatorReport(c.keyId, c.scheme, c.identity, c.createdAt, OutcomeText(c.outcome), c.outcome == Verified))
  }

  /** The synthetic category never stands for an integrity violation. */
  lemma CategoriesDistinct(v: Violation)
    ensures Category(v) != CAPTURE_REQUIREMENT_CATEGORY
  {
    var c, k := Category(v), CAPTURE_REQUIREMENT_CATEGORY;
    assert |k| == 25 && |c| != 25;
  }

  /** The name of every kind of violation. */
  lemma CategoryMeans(v: Violation)
    ensures v.UnsupportedAlgorithm? ==> Category(v) == "unsupported_hash_algorithm"
    ensures v.ObjectCountMismatch? ==> Category(v) == "manifest_object_count_mismatch"
    ensures v.EventCountMismatch? ==> Category(v) == "manifest_event_count_mismatch"
    ensures v.ObjectKeyHashMismatch? ==> Category(v) == "object_key_hash_mismatch"
    ensures v.NoEvents? ==> Category(v) == "no_events"
    ensures v.SequenceMismatch? ==> Category(v) == "sequence"
    ensures v.EventContentHash? ==> Category(v) == "event_content_hash"
    ensures v.BrokenParentChain? ==> Category(v) == "broken_parent_chain"
    ensures v.MissingObjectOf? ==> Category(v) == "missing_object"
    ensures v.SessionEndMissing? ==> Category(v) == "session_end_missing"
    ensures v.SessionEndDuplicate? ==> Category(v) == "session_end_duplicate"
    ensures v.SessionEndNotTerminal? ==> Category(v) == "session_end_not_terminal"
    ensures v.InvalidManifestHead? ==> Category(v) == "invalid_manifest_head"
    ensures v.HeadDiffers? ==> Category(v) == "head_mismatch"
    ensures v.UnreferencedObject? ==> Category(v) == "unreferenced_object"
    ensures v.EventInvariant? ==> Category(v) == "event_invariant"
  {
  }

  /** Length and first letter of a name already tell the kinds apart. */
  lemma CategoryFixesKind(v: Violation, w: Violation)
    requires Category(v) == Category(w)
    ensures SameKind(v, w)
  {
    var c, d := Category(v), Category(w);
    assert |c| == |d| && c[0] == d[0];
  }

  predicate SameKind(v: Violation, w: Violation) {
    && (v.UnsupportedAlgorithm? <==> w.UnsupportedAlgorithm?) && (v.ObjectCountMismatch? <==> w.ObjectCountMismatch?)
    && (v.EventCountMismatch? <==> w.EventCountMismatch?) && (v.ObjectKeyHashMismatch? <==> w.ObjectKeyHashMismatch?)
    && (v.NoEvents? <==> w.NoEvents?) && (v.SequenceMismatch? <==> w.SequenceMismatch?)
    && (v.EventContentHash? <==> w.EventContentHash?) && (v.BrokenParentChain? <==> w.BrokenParentChain?)
    && (v.MissingObjectOf? <==> w.MissingObjectOf?) && (v.SessionEndMissing? <==> w.SessionEndMissing?)
    && (v.SessionEndDuplicate? <==> w.SessionEndDuplicate?) && (v.SessionEndNotTerminal? <==> w.SessionEndNotTerminal?)
    && (v.InvalidManifestHead? <==> w.InvalidManifestHead?) && (v.HeadDiffers? <==> w.HeadDiffers?)
    && (v.UnreferencedObject? <==> w.UnreferencedObject?) && (v.EventInvariant? <==> w.EventInvariant?)
  }

  /** A report names the objects a violation is about, and for a missing object the event that refers to it. */
  lemma ReportViolationMeans(v: Violation)
    ensures ToReportViolation(v).eventHash.Some? <==> v.MissingObjectOf?
    ensures v.MissingObjectOf? ==> ParseHex(v.referencedBy.algorithm, ToReportViolation(v).eventHash.value)
                                   == Some(v.referencedBy)
    ensures ToReportViolation(v).objectHash.Some? <==>
              v.MissingObjectOf? || v.ObjectKeyHashMismatch? || v.UnreferencedObject?
    ensures ToReportViolation(v).objectHash.Some? ==>
              ParseHex(v.objectHash.algorithm, ToReportViolation(v).objectHash.value) == Some(v.objectHash)
    ensures ToReportViolation(v).category == Category(v)
  {
    hide ParseHex, Category;
    if v.MissingObjectOf? {
      ParseHexOfToHex(v.referencedBy);
    }
    if v.MissingObjectOf? || v.ObjectKeyHashMismatch? || v.UnreferencedObject? {
      ParseHexOfToHex(v.objectHash);
    }
  }

  lemma OutcomeTextMeans(o: Outcome)
    ensures OutcomeText(o) == "verified" <==> o == Verified
    ensures OutcomeText(o) == "invalid" <==> o == Invalid
    ensures OutcomeText(o) == "unverified_no_key" <==> o == UnverifiedNoKey
    ensures OutcomeText(o) == "unsupported_scheme" <==> o == UnsupportedScheme
    ensures OutcomeText(o) == "malformed" <==> o == Malformed
  {
    assert |OutcomeText(o)| == 7 ==> o == Invalid;
  }

  lemma VerifiedText(o: Outcome)
    ensures OutcomeText(o) == "verified" <==> o == Verified
  {
    assert |OutcomeText(o)| == 8 ==> o == Verified;
  }

  // ---------------------------------------------------------------- policy

  datatype Policy = Policy(
    trustedKeys: Keys,
    requireSignature: bool,
    operatorTrustedKeys: Keys,
    requireOperator: bool,
    requiredOperatorKeyIds: seq<string>,
    requireCaptureFull: bool)

  datatype PolicyKeyError = VerifyKeyError | OperatorKeyError

  /** A public key as hexadecimal text, surrounding white space ignored. */
  function ParsePublicKeyHex(text: string): Option<Bytes> {
    var key :- HexDecode(TrimEnd(TrimStart(text)));
    if |key| == 32 then Some(key) else None
  }

  /** A key file holds the hexadecimal text of 32 bytes, perhaps with white space around it, and nothing else. */
  lemma ParsePublicKeyHexMeans(text: string, key: Bytes)
    ensures ParsePublicKeyHex(text) == Some(key) <==> |key| == 32 && IsPaddedHex(text, key)
  {
    hide HexDecode, TrimStart, TrimEnd, IsPaddedHex;
    if |key| == 32 {
      TrimmedHex(text, key);
    }
  }

  ghost predicate AllKeysParse(files: seq<Option<string>>) {
    forall i :: 0 <= i < |files| ==> files[i].Some? && ParsePublicKeyHex(files[i].value).Some?
  }

  ghost predicate ParsedKeys(files: seq<Option<string>>, keys: Keys) {
    |keys| == |files| &&
    forall i :: 0 <= i < |files| ==> files[i].Some? && ParsePublicKeyHex(files[i].value) == Some(keys[i])
  }

  /** Key files in order; an unreadable file is `None`. */
  method LoadKeys(files: seq<Option<string>>) returns (r: Option<Keys>)
    ensures r.Some? <==> AllKeysParse(files)
    ensures r.Some? ==> ParsedKeys(files, r.value)
  {
    hide ParsePublicKeyHex;
    var keys: Keys := [];
    for i := 0 to |files|
      invariant |keys| == i
      invariant forall j :: 0 <= j < i ==> files[j].Some? && ParsePublicKeyHex(files[j].value) == Some(keys[j])
    {
      if files[i].None? || ParsePublicKeyHex(files[i].value).None? {
        return None;
      }
      keys := keys + [ParsePublicKeyHex(files[i].value).value];
    }
    return Some(keys);
  }

  /** Every required operator key is also trusted, and is required by its own key id. */
  method LoadPolicy(e: Ed25519, verifyKeys: seq<Option<string>>, requireSignature: bool,
                    operatorKeys: seq<Option<string>>, requireOperator: bool, requireOperatorKeys: seq<Option<string>>,
                    requireCaptureFull: bool)
    returns (r: Result<Policy, PolicyKeyError>)
    ensures r.Ok? <==> AllKeysParse(verifyKeys) && AllKeysParse(operatorKeys) && AllKeysParse(requireOperatorKeys)
    ensures r.Err? ==> (r.error == VerifyKeyError <==> !AllKeysParse(verifyKeys))
    ensures r.Ok? ==>
              && ParsedKeys(verifyKeys, r.value.trustedKeys)
              && ParsedKeys(operatorKeys + requireOperatorKeys, r.value.operatorTrustedKeys)
              && |r.value.requiredOperatorKeyIds| == |requireOperatorKeys|
              && (forall i :: 0 <= i < |requireOperatorKeys| ==>
                    r.value.requiredOperatorKeyIds[i] == KeyId(e, r.value.operatorTrustedKeys[|operatorKeys| + i]))
              && r.value.requireSignature == requireSignature && r.value.requireOperator == requireOperator
              && r.value.requireCaptureFull == requireCaptureFull
  {
    hide ParsePublicKeyHex, KeyId;
    var trusted := LoadKeys(verifyKeys);
    if trusted.None? {
      return Err(VerifyKeyError);
    }
    var operators := LoadKeys(operatorKeys);
    if operators.None? {
      return Err(OperatorKeyError);
    }
    var required := LoadKeys(requireOperatorKeys);
    if required.None? {
      return Err(OperatorKeyError);
    }
    var keyIds := MapSeq(required.value, (k: Bytes) => KeyId(e, k));
    return Ok(Policy(trusted.value, requireSignature, operators.value + required.value, requireOperator, keyIds,
                     requireCaptureFull));
  }

  // ---------------------------------------------------------------- the verdict

  ghost predicate SomeSignature(e: Ed25519, m: Manifest, trusted: Keys, o: Outcome) {
    exists i :: 0 <= i < |Signatures(m)| && SignatureOutcome(e, Signatures(m)[i], SigningStatement(m), trusted) == o
  }

  ghost predicate SomeAttestation(e: Ed25519, m: Manifest, trusted: Keys, o: Outcome) {
    exists i :: 0 <= i < |Attestations(m)| && OperatorOutcome(e, Attestations(m)[i], m, trusted) == o
  }

  /** Some verified attestation records the required key id; any trusted key may have validated it. */
  ghost predicate AttestedAs(e: Ed25519, m: Manifest, trusted: Keys, keyId: string) {
    exists i :: 0 <= i < |Attestations(m)| && Attestations(m)[i].keyId == keyId
                && OperatorOutcome(e, Attestations(m)[i], m, trusted) == Verified
  }

  /** When a bundle passes, requirement by requirement. */
  ghost predicate Passes(p: Primitives, e: Ed25519, parse: JsonReader, c: BundleContents, policy: Policy) {
    var m := c.manifest;
    && Intact(p, c)
    && !SomeSignature(e, m, policy.trustedKeys, Invalid)
    && (policy.requireSignature ==> SomeSignature(e, m, policy.trustedKeys, Verified))
    && !SomeAttestation(e, m, policy.operatorTrustedKeys, Invalid)
    && (policy.requireOperator ==> SomeAttestation(e, m, policy.operatorTrustedKeys, Verified))
    && (forall k {:trigger AttestedAs(e, m, policy.operatorTrustedKeys, k)} :: k in policy.requiredOperatorKeyIds ==>
          AttestedAs(e, m, policy.operatorTrustedKeys, k))
    && (policy.requireCaptureFull ==> CapturedInFull(parse, c))
  }

  datatype Verdict = Verdict(
    passed: bool,
    violations: seq<ReportViolation>,
    signatures: seq<SignatureReport>,
    operators: seq<OperatorReport>,
    capture: Option<OtelCaptureInfo>,
    integrityOk: bool,
    signatureVerified: bool,
    operatorKeyVerified: bool)

  predicate AnySignature(checks: seq<SignatureCheck>, o: Outcome) {
    exists i :: 0 <= i < |checks| && checks[i].outcome == o
  }

  predicate AnyOperator(checks: seq<OperatorCheck>, o: Outcome) {
    exists i :: 0 <= i < |checks| && checks[i].outcome == o
  }

  predicate OperatorRequirementsOk(checks: seq<OperatorCheck>, requireOperator: bool, requiredKeyIds: seq<string>) {
    && !AnyOperator(checks, Invalid)
    && (requireOperator ==> AnyOperator(checks, Verified))
    && forall j :: 0 <= j < |requiredKeyIds| ==> VerifiedAs(checks, requiredKeyIds[j])
  }

  predicate VerifiedAs(checks: seq<OperatorCheck>, keyId: string) {
    exists i :: 0 <= i < |checks| && checks[i].outcome == Verified && checks[i].keyId == keyId
  }

  predicate CaptureRequirementUnmet(requireCaptureFull: bool, capture: Option<OtelCaptureInfo>) {
    requireCaptureFull && capture.Some? && capture.value.captureLevel != "full"
  }

  /** The verdict and the reported violations: those of the verifier, then the synthetic one. */
  method ComputePassedAndViolations(report: Report, checks: seq<SignatureCheck>, requireSignature: bool,
                                    operatorOk: bool, capture: Option<OtelCaptureInfo>, requireCaptureFull: bool)
    returns (passed: bool, violations: seq<ReportViolation>)
    ensures passed <==>
            && report.IsClean() && !AnySignature(checks, Invalid)
               && (requireSignature ==> AnySignature(checks, Verified))
            && operatorOk && !CaptureRequirementUnmet(requireCaptureFull, capture)
    ensures |violations| == |report.violations|
            + (if CaptureRequirementUnmet(requireCaptureFull, capture) then 1 else 0)
    ensures forall i :: 0 <= i < |report.violations| ==> violations[i] == ToReportViolation(report.violations[i])
    ensures |violations| > |report.violations| ==>
              violations[|report.violations|] == ReportViolation(CAPTURE_REQUIREMENT_CATEGORY, None, None)
  {
    var signaturesOk := !AnySignature(checks, Invalid) && (!requireSignature || AnySignature(checks, Verified));
    var captureUnmet := CaptureRequirementUnmet(requireCaptureFull, capture);
    violations := MapSeq(report.violations, (v: Violation) => ToReportViolation(v));
    if captureUnmet {
      violations := violations + [ReportViolation(CAPTURE_REQUIREMENT_CATEGORY, None, None)];
    }
    passed := report.IsClean() && signaturesOk && operatorOk && !captureUnmet;
  }

  function BuildVerifyReport(passed: bool, violations: seq<ReportViolation>, signatures: seq<SignatureReport>,
                             operators: seq<OperatorReport>, capture: Option<OtelCaptureInfo>): Verdict
  {
    var integrityOk := forall i :: 0 <= i < |violations| ==> violations[i].category == CAPTURE_REQUIREMENT_CATEGORY;
    Verdict(
      passed, violations, signatures, operators, capture, integrityOk,
      integrityOk && exists i :: 0 <= i < |signatures| && signatures[i].outcome == "verified",
      integrityOk && exists i :: 0 <= i < |operators| && operators[i].operatorKeyVerified)
  }

  /** The whole decision: the flags mean what they say, and the bundle passes exactly when it should. */
  method EvaluateBundle(p: Primitives, e: Ed25519, parse: JsonReader, c: BundleContents, policy: Policy)
    returns (v: Verdict)
    ensures v.integrityOk <==> Intact(p, c)
    ensures v.passed <==> Passes(p, e, parse, c, policy)
    ensures v.signatureVerified <==> Intact(p, c) && SomeSignature(e, c.manifest, policy.trustedKeys, Verified)
    ensures v.operatorKeyVerified <==>
              Intact(p, c) && SomeAttestation(e, c.manifest, policy.operatorTrustedKeys, Verified)
    ensures v.capture == CaptureInfo(parse, c)
    // The violations are those of the bundle, and the unmet capture requirement.
    ensures forall w :: IsViolation(p, c, w) ==> ToReportViolation(w) in v.violations
    ensures forall r :: r in v.violations && r.category != CAPTURE_REQUIREMENT_CATEGORY ==>
              exists w :: IsViolation(p, c, w) && r == ToReportViolation(w)
    ensures ReportViolation(CAPTURE_REQUIREMENT_CATEGORY, None, None) in v.violations <==>
              policy.requireCaptureFull && !CapturedInFull(parse, c)
    // Each entry is reported in its place, with its outcome.
    ensures |v.signatures| == |Signatures(c.manifest)| && |v.operators| == |Attestations(c.manifest)|
    ensures forall i :: 0 <= i < |v.signatures| ==>
              var entry := Signatures(c.manifest)[i];
              v.signatures[i] == SignatureReport(
                entry.keyId, entry.scheme,
                OutcomeText(SignatureOutcome(e, entry, SigningStatement(c.manifest), policy.trustedKeys)))
    ensures forall i :: 0 <= i < |v.operators| ==>
              var entry := Attestations(c.manifest)[i];
              var outcome := OperatorOutcome(e, entry, c.manifest, policy.operatorTrustedKeys);
              v.operators[i] == OperatorReport(
                entry.keyId, entry.scheme,
                OperatorIdentity(entry.operatorId, entry.displayName, entry.role, entry.org), entry.createdAt,
                OutcomeText(outcome), outcome == Verified)
  {
    hide Intact, IsViolation, ParseAlgorithm, SignatureOutcome, OperatorOutcome, SigningStatement, OutcomeText,
         CaptureInfo, VerifyManifestSignatures, VerifyOperatorAttestations, Category;
    var report := Verify(p, c);
    var signatures := VerifyManifestSignatures(e, c.manifest, policy.trustedKeys);
    var operators := VerifyOperatorAttestations(e, c.manifest, policy.operatorTrustedKeys);
    SignatureAnswers(e, c.manifest, policy.trustedKeys);
    OperatorAnswers(e, c.manifest, policy.operatorTrustedKeys);
    var operatorOk := OperatorRequirementsOk(operators, policy.requireOperator, policy.requiredOperatorKeyIds);
    OperatorRequirements(e, c.manifest, policy);
    var capture := CaptureInfo(parse, c);
    CapturedInFullMeans(parse, c);
    var passed, violations := ComputePassedAndViolations(
      report, signatures, policy.requireSignature, operatorOk, capture, policy.requireCaptureFull);
    v := BuildVerifyReport(passed, violations, SignatureReports(signatures), OperatorReports(operators), capture);
    IntegrityFlag(report.violations, violations);
    ReportedViolations(report.violations, violations);
    VerifiedFlag(signatures);
  }

  lemma SignatureAnswers(e: Ed25519, m: Manifest, trusted: Keys)
    ensures forall o :: AnySignature(VerifyManifestSignatures(e, m, trusted), o) <==> SomeSignature(e, m, trusted, o)
  {
    hide SignatureOutcome, SigningStatement;
    var checks := VerifyManifestSignatures(e, m, trusted);
    forall o
      ensures AnySignature(checks, o) <==> SomeSignature(e, m, trusted, o)
    {
      if SomeSignature(e, m, trusted, o) {
        var i :| 0 <= i < |Signatures(m)| && SignatureOutcome(e, Signatures(m)[i], SigningStatement(m), trusted) == o;
        assert checks[i].outcome == o;
      }
    }
  }

  lemma OperatorAnswers(e: Ed25519, m: Manifest, trusted: Keys)
    ensures forall o :: AnyOperator(VerifyOperatorAttestations(e, m, trusted), o) <==> SomeAttestation(e, m, trusted, o)
  {
    hide OperatorOutcome;
    var checks := VerifyOperatorAttestations(e, m, trusted);
    forall o
      ensures AnyOperator(checks, o) <==> SomeAttestation(e, m, trusted, o)
    {
      if SomeAttestation(e, m, trusted, o) {
        var i :| 0 <= i < |Attestations(m)| && OperatorOutcome(e, Attestations(m)[i], m, trusted) == o;
        assert checks[i].outcome == o;
      }
    }
  }

  lemma OperatorRequirements(e: Ed25519, m: Manifest, policy: Policy)
    ensures OperatorRequirementsOk(VerifyOperatorAttestations(e, m, policy.operatorTrustedKeys),
                                   policy.requireOperator, policy.requiredOperatorKeyIds) <==>
            && !SomeAttestation(e, m, policy.operatorTrustedKeys, Invalid)
            && (policy.requireOperator ==> SomeAttestation(e, m, policy.operatorTrustedKeys, Verified))
            && forall k {:trigger AttestedAs(e, m, policy.operatorTrustedKeys, k)} ::
                 k in policy.requiredOperatorKeyIds ==>
                 AttestedAs(e, m, policy.operatorTrustedKeys, k)
  {
    hide OperatorOutcome;
    var checks, ids := VerifyOperatorAttestations(e, m, policy.operatorTrustedKeys), policy.requiredOperatorKeyIds;
    OperatorAnswers(e, m, policy.operatorTrustedKeys);
    forall k
      ensures AttestedAs(e, m, policy.operatorTrustedKeys, k) <==> VerifiedAs(checks, k)
    {
      if AttestedAs(e, m, policy.operatorTrustedKeys, k) {
        var i :| 0 <= i < |Attestations(m)| && Attestations(m)[i].keyId == k
                 && OperatorOutcome(e, Attestations(m)[i], m, policy.operatorTrustedKeys) == Verified;
        assert checks[i].outcome == Verified && checks[i].keyId == k;
      }
    }
    assert forall j :: 0 <= j < |ids| ==> ids[j] in ids;
  }

  lemma IntegrityFlag(found: seq<Violation>, reported: seq<ReportViolation>)
    requires |found| <= |reported| <= |found| + 1
    requires forall i :: 0 <= i < |found| ==> reported[i] == ToReportViolation(found[i])
    requires |reported| > |found| ==> reported[|found|].category == CAPTURE_REQUIREMENT_CATEGORY
    ensures (forall i :: 0 <= i < |reported| ==> reported[i].category == CAPTURE_REQUIREMENT_CATEGORY) <==> found == []
  {
    if found != [] {
      CategoriesDistinct(found[0]);
      assert reported[0].category == Category(found[0]);
    }
  }

  /** The reported violations are those found, in order, and possibly one that has a category of its own. */
  lemma ReportedViolations(found: seq<Violation>, reported: seq<ReportViolation>)
    requires |found| <= |reported| <= |found| + 1
    requires forall i :: 0 <= i < |found| ==> reported[i] == ToReportViolation(found[i])
    requires |reported| > |found| ==> reported[|found|] == ReportViolation(CAPTURE_REQUIREMENT_CATEGORY, None, None)
    ensures forall w :: w in found ==> ToReportViolation(w) in reported
    ensures forall r :: r in reported && r.category != CAPTURE_REQUIREMENT_CATEGORY ==>
              exists w :: w in found && r == ToReportViolation(w)
    ensures ReportViolation(CAPTURE_REQUIREMENT_CATEGORY, None, None) in reported <==> |reported| > |found|
  {
    hide Category;
    forall w | w in found
      ensures ToReportViolation(w) in reported
    {
      var i :| 0 <= i < |found| && found[i] == w;
      assert reported[i] == ToReportViolation(w);
    }
    forall r | r in reported && r.category != CAPTURE_REQUIREMENT_CATEGORY
      ensures exists w :: w in found && r == ToReportViolation(w)
    {
      var i :| 0 <= i < |reported| && reported[i] == r;
      assert found[i] in found;
    }
    forall i | 0 <= i < |found|
      ensures reported[i].category != CAPTURE_REQUIREMENT_CATEGORY
    {
      CategoriesDistinct(found[i]);
    }
  }

  lemma VerifiedFlag(checks: seq<SignatureCheck>)
    ensures (exists i :: 0 <= i < |checks| && SignatureReports(checks)[i].outcome == "verified") <==>
              AnySignature(checks, Verified)
  {
    var reports := SignatureReports(checks);
    forall i | 0 <= i < |checks|
      ensures reports[i].outcome == "verified" <==> checks[i].outcome == Verified
    {
      VerifiedText(checks[i].outcome);
    }
    if AnySignature(checks, Verified) {
      var i :| 0 <= i < |checks| && checks[i].outcome == Verified;
      assert reports[i].outcome == "verified";
    }
  }

  /** `weak` asks for no more than `strong`, of the same keys. */
  ghost predicate Weakens(weak: Policy, strong: Policy) {
    && weak.trustedKeys == strong.trustedKeys && weak.operatorTrustedKeys == strong.operatorTrustedKeys
    && (weak.requireSignature ==> strong.requireSignature)
    && (weak.requireOperator ==> strong.requireOperator)
    && (forall k :: k in weak.requiredOperatorKeyIds ==> k in strong.requiredOperatorKeyIds)
    && (weak.requireCaptureFull ==> strong.requireCaptureFull)
  }

  /** Dropping requirements never turns a pass into a failure. */
  lemma WeakerPolicyPasses(p: Primitives, e: Ed25519, parse: JsonReader, c: BundleContents, weak: Policy,
                           strong: Policy)
    requires Weakens(weak, strong) && Passes(p, e, parse, c, strong)
    ensures Passes(p, e, parse, c, weak)
  {
    hide Intact, SomeSignature, SomeAttestation, AttestedAs, CapturedInFull;
    forall k | k in weak.requiredOperatorKeyIds
      ensures AttestedAs(e, c.manifest, weak.operatorTrustedKeys, k)
    {
      assert k in strong.requiredOperatorKeyIds;
    }
  }

  /** A head that verifies under a list of keys still does after any run of steps. */
  lemma CoSigningKeepsVerified(e: Ed25519, m: Manifest, steps: seq<Step>, trusted: Keys)
    requires SomeSignature(e, m, trusted, Verified)
    ensures SomeSignature(e, Run(e, m, steps), trusted, Verified)
  {
    hide SignatureOutcome, SigningStatement, Run;
    var n := Run(e, m, steps);
    RunKeepsOutcomes(e, m, steps, trusted);
    RunExtends(e, m, steps);
    var i :| 0 <= i < |Signatures(m)|
        && SignatureOutcome(e, Signatures(m)[i], SigningStatement(m), trusted) == Verified;
    assert VerifyManifestSignatures(e, n, trusted)[i] == VerifyManifestSignatures(e, m, trusted)[i];
    assert SignatureOutcome(e, Signatures(n)[i], SigningStatement(n), trusted) == Verified;
  }

  /** An attestation that verifies under a list of keys still does, under the same key id. */
  lemma CoSigningKeepsAttested(e: Ed25519, m: Manifest, steps: seq<Step>, trusted: Keys, keyId: string)
    requires AttestedAs(e, m, trusted, keyId)
    ensures AttestedAs(e, Run(e, m, steps), trusted, keyId)
    ensures SomeAttestation(e, Run(e, m, steps), trusted, Verified)
  {
    hide OperatorOutcome, Run;
    var n := Run(e, m, steps);
    RunKeepsOutcomes(e, m, steps, trusted);
    RunExtends(e, m, steps);
    var i :| 0 <= i < |Attestations(m)| && Attestations(m)[i].keyId == keyId
             && OperatorOutcome(e, Attestations(m)[i], m, trusted) == Verified;
    assert VerifyOperatorAttestations(e, n, trusted)[i] == VerifyOperatorAttestations(e, m, trusted)[i];
    assert Attestations(n)[i].keyId == keyId && OperatorOutcome(e, Attestations(n)[i], n, trusted) == Verified;
  }

  // ---------------------------------------------------------------- proofs for an outside verifier

  datatype Refusal =
    | NoMatchingEntry
    | UnsupportedEntry
    | MalformedSignature
    | SignatureDoesNotVerify
    | KeyNotEncodable

  datatype PreparedProof = PreparedProof(keyId: string, statement: string, signature: Bytes, publicKeyPem: string)

  function DecodeSignature(text: string): Option<Bytes> {
    var signature :- HexDecode(text);
    if |signature| == 64 then Some(signature) else None
  }

  /** The position of the first entry recorded under `keyId`. */
  function FindKeyId(keyIds: seq<string>, keyId: string): (r: Option<nat>)
    ensures r.Some? ==> r.value < |keyIds| && keyIds[r.value] == keyId && keyId !in keyIds[..r.value]
    ensures r.None? ==> keyId !in keyIds
  {
    if keyIds == [] then None
    else if keyIds[0] == keyId then Some(0)
    else
      assert keyIds == [keyIds[0]] + keyIds[1..];
      var i :- FindKeyId(keyIds[1..], keyId);
      assert keyIds[..i + 1] == [keyIds[0]] + keyIds[1..][..i];
      Some(i + 1)
  }

  function FindSignature(m: Manifest, keyId: string): (r: Option<nat>)
    ensures r.Some? ==> r.value < |Signatures(m)| && Signatures(m)[r.value].keyId == keyId
  {
    FindKeyId(MapSeq(Signatures(m), (s: HeadSignature) => s.keyId), keyId)
  }

  function FindAttestation(m: Manifest, keyId: string): (r: Option<nat>)
    ensures r.Some? ==> r.value < |Attestations(m)| && Attestations(m)[r.value].keyId == keyId
  {
    FindKeyId(MapSeq(Attestations(m), (t: OperatorAttestation) => t.keyId), keyId)
  }

  /** Verifies a decoded signature and wraps the key, or says why not. */
  function ProofOver(e: Ed25519, statement: string, signature: string, key: Bytes): Result<PreparedProof, Refusal> {
    match DecodeSignature(signature)
    case None => Err(MalformedSignature)
    case Some(bytes) =>
      if !VerifyStatement(e, statement, bytes, key) then Err(SignatureDoesNotVerify)
      else if |key| != 32 then Err(KeyNotEncodable)
      else Ok(PreparedProof(KeyId(e, key), statement, bytes, Spki.Pem(key)))
  }

  function PrepareHeadProof(e: Ed25519, m: Manifest, key: Bytes): Result<PreparedProof, Refusal> {
    match FindSignature(m, KeyId(e, key))
    case None => Err(NoMatchingEntry)
    case Some(i) =>
      var entry := Signatures(m)[i];
      if entry.scheme != SCHEME_ED25519 || entry.statementVersion != SIG_STATEMENT_VERSION then Err(UnsupportedEntry)
      else ProofOver(e, SigningStatement(m), entry.signature, key)
  }

  /** Unlike the verifier, this does not look for newlines in the identity fields. */
  function PrepareOperatorProof(e: Ed25519, m: Manifest, key: Bytes): Result<(PreparedProof, string, string), Refusal> {
    match FindAttestation(m, KeyId(e, key))
    case None => Err(NoMatchingEntry)
    case Some(i) =>
      var entry := Attestations(m)[i];
      if entry.scheme != SCHEME_ED25519
        || entry.statementVersion != OPERATOR_STATEMENT_VERSION then Err(UnsupportedEntry)
      else
        var proof :- ProofOver(e, OperatorStatement(m, IdentityOf(entry)), entry.signature, key);
        Ok((proof, entry.operatorId, entry.role))
  }

  /** Exactly these signature texts are taken for proofs: hexadecimal, of 64 bytes. */
  ghost predicate IsProofSignature(text: string) {
    HexDecode(text).Some? && |HexDecode(text).value| == 64
  }

  lemma NoProofWithoutEntry(e: Ed25519, m: Manifest, key: Bytes)
    ensures PrepareHeadProof(e, m, key) == Err(NoMatchingEntry) <==>
              forall i :: 0 <= i < |Signatures(m)| ==> Signatures(m)[i].keyId != KeyId(e, key)
    ensures PrepareOperatorProof(e, m, key) == Err(NoMatchingEntry) <==>
              forall i :: 0 <= i < |Attestations(m)| ==> Attestations(m)[i].keyId != KeyId(e, key)
  {
    hide HexDecode, KeyId, SigningStatement, OperatorStatement, VerifyStatement, Spki.Pem;
    var heads := MapSeq(Signatures(m), (s: HeadSignature) => s.keyId);
    var operators := MapSeq(Attestations(m), (t: OperatorAttestation) => t.keyId);
    assert forall i :: 0 <= i < |heads| ==> heads[i] == Signatures(m)[i].keyId;
    assert forall i :: 0 <= i < |operators| ==> operators[i] == Attestations(m)[i].keyId;
  }

  /** The first entry under the key's id decides: a proof is handed out exactly when it verifies under the key. */
  lemma HeadProofExact(e: Ed25519, m: Manifest, key: Bytes, i: nat)
    requires i < |Signatures(m)| && Signatures(m)[i].keyId == KeyId(e, key)
    requires forall j :: 0 <= j < i ==> Signatures(m)[j].keyId != KeyId(e, key)
    ensures var entry, r := Signatures(m)[i], PrepareHeadProof(e, m, key);
            if entry.scheme != "ed25519" || entry.statementVersion != "AGEF-SIG-v1" then r == Err(UnsupportedEntry)
            else if !IsProofSignature(entry.signature) then r == Err(MalformedSignature)
            else if !(|key| == 32 && e.verify(key, Utf8(SigningStatement(m)), HexDecode(entry.signature).value)) then
              r == Err(SignatureDoesNotVerify)
            else
              && r.Ok? && r.value.keyId == KeyId(e, key) && r.value.statement == SigningStatement(m)
              && Some(r.value.signature) == HexDecode(entry.signature)
              && Spki.KeyFromPem(r.value.publicKeyPem) == Some(key)
  {
    hide HexDecode, KeyId, SigningStatement, Utf8, Spki.Pem, Spki.KeyFromPem;
    var keyIds := MapSeq(Signatures(m), (s: HeadSignature) => s.keyId);
    assert forall k :: 0 <= k < |keyIds| ==> keyIds[k] == Signatures(m)[k].keyId;
    FirstFound(keyIds, KeyId(e, key), i);
    if |key| == 32 {
      Spki.PemRoundTrip(key);
    }
  }

  /** The same for an attestation. */
  lemma OperatorProofGiven(e: Ed25519, m: Manifest, key: Bytes, i: nat)
    requires i < |Attestations(m)| && Attestations(m)[i].keyId == KeyId(e, key)
    requires forall j :: 0 <= j < i ==> Attestations(m)[j].keyId != KeyId(e, key)
    ensures var entry, r := Attestations(m)[i], PrepareOperatorProof(e, m, key);
            var statement := OperatorStatement(m,
                                               OperatorIdentity(entry.operatorId, entry.displayName, entry.role,
                                                                entry.org));
            if entry.scheme != "ed25519" || entry.statementVersion != "AGEF-OPERATOR-v1" then r == Err(UnsupportedEntry)
            else if !IsProofSignature(entry.signature) then r == Err(MalformedSignature)
            else if !(|key| == 32 && e.verify(key, Utf8(statement), HexDecode(entry.signature).value)) then
              r == Err(SignatureDoesNotVerify)
            else
              && r.Ok? && r.value.0.keyId == KeyId(e, key) && r.value.0.statement == statement
              && Some(r.value.0.signature) == HexDecode(entry.signature)
              && Spki.KeyFromPem(r.value.0.publicKeyPem) == Some(key)
              && r.value.1 == entry.operatorId && r.value.2 == entry.role
  {
    hide HexDecode, KeyId, OperatorStatement, Utf8, Spki.Pem, Spki.KeyFromPem;
    var keyIds := MapSeq(Attestations(m), (t: OperatorAttestation) => t.keyId);
    assert forall k :: 0 <= k < |keyIds| ==> keyIds[k] == Attestations(m)[k].keyId;
    FirstFound(keyIds, KeyId(e, key), i);
    if |key| == 32 {
      Spki.PemRoundTrip(key);
    }
  }

  lemma {:induction false} FirstFound(keyIds: seq<string>, keyId: string, i: nat)
    requires i < |keyIds| && keyIds[i] == keyId && forall j :: 0 <= j < i ==> keyIds[j] != keyId
    ensures FindKeyId(keyIds, keyId) == Some(i)
  {
    if i > 0 {
      FirstFound(keyIds[1..], keyId, i - 1);
    }
  }

  /** A head proof that is handed out is one the verifier would honour, for the same key and statement. */
  lemma HeadProofIsVerified(e: Ed25519, m: Manifest, key: Bytes)
    requires PrepareHeadProof(e, m, key).Ok?
    ensures SomeSignature(e, m, [key], Verified)
    ensures var proof := PrepareHeadProof(e, m, key).value;
            && VerifyStatement(e, proof.statement, proof.signature, key)
            && proof.statement == SigningStatement(m)
            && Spki.KeyFromPem(proof.publicKeyPem) == Some(key)
  {
    hide SigningStatement, Utf8, HexDecode, TrustOutcome, Spki.Base64, Spki.KeyFromPem, Spki.Pem, FindSignature;
    var i := FindSignature(m, KeyId(e, key)).value;
    var entry := Signatures(m)[i];
    var proof := PrepareHeadProof(e, m, key).value;
    OneKeyVerifies(e, SigningStatement(m), proof.signature, entry.keyId, [key], key);
    assert SignatureOutcome(e, entry, SigningStatement(m), [key]) == Verified;
    Spki.PemRoundTrip(key);
  }

  /** For an operator proof the verifier agrees exactly when the identity fields are free of newlines. */
  lemma OperatorProofExact(e: Ed25519, m: Manifest, key: Bytes, i: nat)
    requires PrepareOperatorProof(e, m, key).Ok? && FindAttestation(m, KeyId(e, key)) == Some(i)
    ensures OperatorOutcome(e, Attestations(m)[i], m, [key]) ==
            if ValidIdentity(IdentityOf(Attestations(m)[i])) then Verified else Malformed
    ensures var (proof, _, _) := PrepareOperatorProof(e, m, key).value;
            && VerifyStatement(e, proof.statement, proof.signature, key)
            && Spki.KeyFromPem(proof.publicKeyPem) == Some(key)
  {
    hide OperatorStatement, Utf8, HexDecode, TrustOutcome, Spki.Base64, Spki.KeyFromPem, Spki.Pem, FindAttestation,
         ValidIdentity;
    var entry := Attestations(m)[i];
    var proof := PrepareOperatorProof(e, m, key).value.0;
    OneKeyVerifies(e, OperatorStatement(m, IdentityOf(entry)), proof.signature, entry.keyId, [key], key);
    Spki.PemRoundTrip(key);
  }

  /** The disagreement is real: any working key can sign an identity with a newline in it. */
  lemma OperatorProofDisagrees(e: Ed25519, m: Manifest, pkcs8: Bytes)
    requires LawfulEd25519(e) && e.publicKey(pkcs8).Some?
    ensures var key := e.publicKey(pkcs8).value;
            var o := OperatorIdentity("a\nb", "", "", "");
            var signature := e.sign(pkcs8, Utf8(OperatorStatement(m, o))).value;
            var entry := OperatorAttestation(SCHEME_ED25519, KeyId(e, key), OPERATOR_STATEMENT_VERSION,
                                             o.operatorId, o.displayName, o.role, o.org, HexEncode(signature), "");
            var n := m.(operatorAttestations := Some([entry]));
            && PrepareOperatorProof(e, n, key).Ok?
            && OperatorOutcome(e, entry, n, [key]) == Malformed
  {
    hide Lines, Utf8, HexEncode, HexDecode, Spki.Pem;
    assert KeyWorks(e, pkcs8);
    var key := e.publicKey(pkcs8).value;
    var o := OperatorIdentity("a\nb", "", "", "");
    var signature := e.sign(pkcs8, Utf8(OperatorStatement(m, o))).value;
    var entry := OperatorAttestation(SCHEME_ED25519, KeyId(e, key), OPERATOR_STATEMENT_VERSION,
                                     o.operatorId, o.displayName, o.role, o.org, HexEncode(signature), "");
    var n := m.(operatorAttestations := Some([entry]));
    HexRoundTrip(signature);
    assert o.operatorId[1] == '\n';
    assert FindAttestation(n, KeyId(e, key)) == Some(0);
    assert SessionLines(n) == SessionLines(m);
  }
}
