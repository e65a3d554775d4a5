/**
 Detached signatures and operator attestations: the signed statements, how entries are added to a
 manifest and how they are checked. Ed25519 and SHA-256 are parameters.
 */
module Signing {
  import opened Foundation
  import opened Text
  import opened Events
  import opened Manifests
  import opened Archive
  import opened Verifier

  const SIG_STATEMENT_VERSION := "AGEF-SIG-v1"
  const OPERATOR_STATEMENT_VERSION := "AGEF-OPERATOR-v1"
  const SCHEME_ED25519 := "ed25519"

  /** The signature library: private keys are PKCS#8 byte strings. */
  datatype Ed25519 = Ed25519(
    publicKey: Bytes -> Option<Bytes>,
    sign: (Bytes, Bytes) -> Option<Bytes>,
    verify: (Bytes, Bytes, Bytes) -> bool,
    sha256: Bytes -> Digest)

  /** A signature that was made verifies under its own public key; nothing is said about forgery. */
  ghost predicate LawfulEd25519(e: Ed25519) {
    forall pkcs8: Bytes :: e.publicKey(pkcs8).Some? ==> KeyWorks(e, pkcs8)
  }

  ghost predicate KeyWorks(e: Ed25519, pkcs8: Bytes)
    requires e.publicKey(pkcs8).Some?
  {
    && |e.publicKey(pkcs8).value| == 32
    && forall statement: Bytes ::
         && e.sign(pkcs8, statement).Some? && |e.sign(pkcs8, statement).value| == 64
         && e.verify(e.publicKey(pkcs8).value, statement, e.sign(pkcs8, statement).value)
  }

  function KeyId(e: Ed25519, publicKey: Bytes): string {
    HexEncode(e.sha256(publicKey))
  }

  // ---------------------------------------------------------------- statements

  /** Each field on a line of its own. */
  function Lines(fields: seq<string>): string {
    if fields == [] then "" else fields[0] + "\n" + Lines(fields[1..])
  }

  function SessionLines(m: Manifest): seq<string> {
    ["agef_version:" + m.agefVersion, "hash_algorithm:" + m.hashAlgorithm, "session_id:" + m.session.id,
     "head:" + m.session.head]
  }

  function SigningStatement(m: Manifest): string {
    Lines([SIG_STATEMENT_VERSION] + SessionLines(m))
  }

  datatype OperatorIdentity = OperatorIdentity(operatorId: string, displayName: string, role: string, org: string)

  function OperatorStatement(m: Manifest, o: OperatorIdentity): string {
    Lines([OPERATOR_STATEMENT_VERSION] + SessionLines(m) +
          ["operator_id:" + o.operatorId, "display_name:" + o.displayName, "role:" + o.role, "org:" + o.org])
  }

  /** The signed text of a head, as section A.14 of AGEF v0.1.2 lays it out. */
  lemma SigningStatementText(m: Manifest)
    ensures SigningStatement(m) ==
            "AGEF-SIG-v1\n"
            + ("agef_version:" + m.agefVersion + "\nhash_algorithm:" + m.hashAlgorithm
               + "\nsession_id:" + m.session.id + "\nhead:" + m.session.head + "\n")
  {
    hide SessionLines;
    var lines := [SIG_STATEMENT_VERSION] + SessionLines(m);
    SessionLinesText(m);
    assert lines[1..] == SessionLines(m);
    assert Lines(lines) == SIG_STATEMENT_VERSION + "\n" + Lines(SessionLines(m));
  }

  lemma SessionLinesText(m: Manifest)
    ensures Lines(SessionLines(m)) ==
            "agef_version:" + m.agefVersion + "\nhash_algorithm:" + m.hashAlgorithm
            + "\nsession_id:" + m.session.id + "\nhead:" + m.session.head + "\n"
  {
    FourLines("agef_version:" + m.agefVersion, "hash_algorithm:" + m.hashAlgorithm,
              "session_id:" + m.session.id, "head:" + m.session.head);
  }

  lemma FourLines(w: string, x: string, y: string, z: string)
    ensures Lines([w, x, y, z]) == w + "\n" + x + "\n" + y + "\n" + z + "\n"
  {
    assert [w, x, y, z][1..] == [x, y, z] && [x, y, z][1..] == [y, z] && [y, z][1..] == [z] && [z][1..] == [];
    assert Lines([z]) == z + "\n";
    assert Lines([y, z]) == y + "\n" + (z + "\n");
    assert Lines([x, y, z]) == x + "\n" + (y + "\n" + (z + "\n"));
    assert Lines([w, x, y, z]) == w + "\n" + (x + "\n" + (y + "\n" + (z + "\n")));
  }

  /** The signed text of an attestation, as section A.15 of AGEF v0.1.3 lays it out. */
  lemma OperatorStatementText(m: Manifest, o: OperatorIdentity)
    ensures OperatorStatement(m, o) ==
            "AGEF-OPERATOR-v1\n"
            + ("agef_version:" + m.agefVersion + "\nhash_algorithm:" + m.hashAlgorithm
               + "\nsession_id:" + m.session.id + "\nhead:" + m.session.head + "\n")
            + ("operator_id:" + o.operatorId + "\ndisplay_name:" + o.displayName
               + "\nrole:" + o.role + "\norg:" + o.org + "\n")
  {
    hide SessionLines;
    var identity := ["operator_id:" + o.operatorId, "display_name:" + o.displayName, "role:" + o.role, "org:" + o.org];
    SessionLinesText(m);
    IdentityLinesText(o);
    LinesAppend([OPERATOR_STATEMENT_VERSION] + SessionLines(m), identity);
    LinesAppend([OPERATOR_STATEMENT_VERSION], SessionLines(m));
    assert Lines([OPERATOR_STATEMENT_VERSION]) == "AGEF-OPERATOR-v1\n";
    assert OperatorStatement(m, o) == "AGEF-OPERATOR-v1\n" + Lines(SessionLines(m)) + Lines(identity);
  }

  lemma IdentityLinesText(o: OperatorIdentity)
    ensures Lines(["operator_id:" + o.operatorId, "display_name:" + o.displayName, "role:" + o.role, "org:" + o.org]) ==
            "operator_id:" + o.operatorId + "\ndisplay_name:" + o.displayName
            + "\nrole:" + o.role + "\norg:" + o.org + "\n"
  {
    FourLines("operator_id:" + o.operatorId, "display_name:" + o.displayName, "role:" + o.role, "org:" + o.org);
  }

  predicate ValidateOperatorField(value: string) {
    '\n' !in value && '\r' !in value
  }

  predicate ValidIdentity(o: OperatorIdentity) {
    && ValidateOperatorField(o.operatorId) && ValidateOperatorField(o.displayName)
    && ValidateOperatorField(o.role) && ValidateOperatorField(o.org)
  }

  ghost predicate AllOneLine(fields: seq<string>) {
    forall i :: 0 <= i < |fields| ==> NoNewline(fields[i])
  }

  /** Line framing is unambiguous, whatever the number of lines. */
  lemma {:induction false} LinesInjective(f: seq<string>, g: seq<string>)
    requires AllOneLine(f) && AllOneLine(g) && Lines(f) == Lines(g)
    ensures f == g
  {
    if f == [] || g == [] {
      assert |Lines(f)| == |Lines(g)|;
    } else {
      assert Lines(f) == f[0] + "\n" + Lines(f[1..]) && Lines(g) == g[0] + "\n" + Lines(g[1..]);
      FirstLineUnique(f[0], Lines(f[1..]), g[0], Lines(g[1..]));
      LinesInjective(f[1..], g[1..]);
      assert f == [f[0]] + f[1..] && g == [g[0]] + g[1..];
    }
  }

  lemma LabelledOneLine(name: string, value: string)
    requires NoNewline(name) && NoNewline(value)
    ensures NoNewline(name + value)
  {
  }

  /** Two manifests whose signed fields agree. */
  predicate SameSession(m: Manifest, n: Manifest) {
    && m.agefVersion == n.agefVersion && m.hashAlgorithm == n.hashAlgorithm
    && m.session.id == n.session.id && m.session.head == n.session.head
  }

  lemma LabelInjective(name: string, x: string, y: string)
    requires name + x == name + y
    ensures x == y
  {
    SplitEqual(name, x, name, y);
  }

  lemma SessionLinesInjective(m: Manifest, n: Manifest)
    requires SessionLines(m) == SessionLines(n)
    ensures SameSession(m, n)
  {
    var x, y := SessionLines(m), SessionLines(n);
    assert x[0] == y[0] && x[1] == y[1] && x[2] == y[2] && x[3] == y[3];
    LabelInjective("agef_version:", m.agefVersion, n.agefVersion);
    LabelInjective("hash_algorithm:", m.hashAlgorithm, n.hashAlgorithm);
    LabelInjective("session_id:", m.session.id, n.session.id);
    LabelInjective("head:", m.session.head, n.session.head);
  }

  lemma SessionLinesOneLine(m: Manifest)
    requires OneLine(m)
    ensures AllOneLine(SessionLines(m))
  {
    LabelledOneLine("agef_version:", m.agefVersion);
    LabelledOneLine("hash_algorithm:", m.hashAlgorithm);
    LabelledOneLine("session_id:", m.session.id);
    LabelledOneLine("head:", m.session.head);
  }

  lemma SigningStatementInjective(m: Manifest, n: Manifest)
    requires OneLine(m) && OneLine(n)
    requires Utf8(SigningStatement(m)) == Utf8(SigningStatement(n))
    ensures SameSession(m, n)
  {
    hide SessionLines, OneLine;
    Utf8Injective(SigningStatement(m), SigningStatement(n));
    SessionLinesOneLine(m);
    SessionLinesOneLine(n);
    LinesInjective([SIG_STATEMENT_VERSION] + SessionLines(m), [SIG_STATEMENT_VERSION] + SessionLines(n));
    SplitEqual([SIG_STATEMENT_VERSION], SessionLines(m), [SIG_STATEMENT_VERSION], SessionLines(n));
    SessionLinesInjective(m, n);
  }

  function OperatorLines(m: Manifest, o: OperatorIdentity): (lines: seq<string>)
    ensures Lines(lines) == OperatorStatement(m, o) && |lines| == 9 && lines[0] == OPERATOR_STATEMENT_VERSION
  {
    [OPERATOR_STATEMENT_VERSION] + SessionLines(m) +
    ["operator_id:" + o.operatorId, "display_name:" + o.displayName, "role:" + o.role, "org:" + o.org]
  }

  lemma OperatorLinesOneLine(m: Manifest, o: OperatorIdentity)
    requires OneLine(m) && ValidIdentity(o)
    ensures AllOneLine(OperatorLines(m, o))
  {
    hide SessionLines, OneLine;
    SessionLinesOneLine(m);
    LabelledOneLine("operator_id:", o.operatorId);
    LabelledOneLine("display_name:", o.displayName);
    LabelledOneLine("role:", o.role);
    LabelledOneLine("org:", o.org);
  }

  lemma OperatorStatementInjective(m: Manifest, o: OperatorIdentity, n: Manifest, q: OperatorIdentity)
    requires OneLine(m) && OneLine(n) && ValidIdentity(o) && ValidIdentity(q)
    requires Utf8(OperatorStatement(m, o)) == Utf8(OperatorStatement(n, q))
    ensures SameSession(m, n) && o == q
  {
    hide OneLine, OperatorStatement, ValidIdentity, SameSession;
    Utf8Injective(OperatorStatement(m, o), OperatorStatement(n, q));
    OperatorLinesOneLine(m, o);
    OperatorLinesOneLine(n, q);
    LinesInjective(OperatorLines(m, o), OperatorLines(n, q));
    OperatorLinesInjective(m, o, n, q);
  }

  lemma OperatorLinesInjective(m: Manifest, o: OperatorIdentity, n: Manifest, q: OperatorIdentity)
    requires OperatorLines(m, o) == OperatorLines(n, q)
    ensures SameSession(m, n) && o == q
  {
    hide OperatorStatement, SameSession;
    var x, y := OperatorLines(m, o), OperatorLines(n, q);
    assert x[1..5] == SessionLines(m) && y[1..5] == SessionLines(n);
    SessionLinesInjective(m, n);
    assert x[5] == y[5] && x[6] == y[6] && x[7] == y[7] && x[8] == y[8];
    LabelInjective("operator_id:", o.operatorId, q.operatorId);
    LabelInjective("display_name:", o.displayName, q.displayName);
    LabelInjective("role:", o.role, q.role);
    LabelInjective("org:", o.org, q.org);
  }

  /** A head signature can never pass for an attestation: the signed bytes always differ. */
  lemma StatementKindsDiffer(m: Manifest, n: Manifest, o: OperatorIdentity)
    ensures Utf8(SigningStatement(m)) != Utf8(OperatorStatement(n, o))
  {
    hide SessionLines, OperatorStatement;
    var s, t := SigningStatement(m), OperatorStatement(n, o);
    var x, y := [SIG_STATEMENT_VERSION] + SessionLines(m), OperatorLines(n, o);
    assert s == SIG_STATEMENT_VERSION + "\n" + Lines(x[1..]);
    assert t == OPERATOR_STATEMENT_VERSION + "\n" + Lines(y[1..]);
    assert s[5] == 'S' && t[5] == 'O';
    if Utf8(s) == Utf8(t) {
      Utf8Injective(s, t);
    }
  }

  /** The guard on identity fields is needed: with newlines, two identities share their signed bytes. */
  lemma NewlinesWouldCollide(m: Manifest)
    ensures var o, q := OperatorIdentity("a", "b\nrole:c", "d", "e"), OperatorIdentity("a", "b", "c\nrole:d", "e");
            o != q && OperatorStatement(m, o) == OperatorStatement(m, q)
  {
    var o, q := OperatorIdentity("a", "b\nrole:c", "d", "e"), OperatorIdentity("a", "b", "c\nrole:d", "e");
    var front := [OPERATOR_STATEMENT_VERSION] + SessionLines(m) + ["operator_id:a"];
    assert o.displayName[1] == '\n';
    TwoLines("display_name:b\nrole:c", "role:d", ["org:e"]);
    TwoLines("display_name:b", "role:c\nrole:d", ["org:e"]);
    assert "display_name:b\nrole:c" + "\n" + "role:d" + "\n" == "display_name:b" + "\n" + "role:c\nrole:d" + "\n";
    LinesAppend(front, ["display_name:b\nrole:c", "role:d"] + ["org:e"]);
    LinesAppend(front, ["display_name:b", "role:c\nrole:d"] + ["org:e"]);
    assert "operator_id:" + "a" == "operator_id:a" && "role:" + "d" == "role:d" && "org:" + "e" == "org:e";
    assert "display_name:" + "b" == "display_name:b";
    assert "display_name:" + o.displayName == "display_name:b\nrole:c" && "role:" + q.role == "role:c\nrole:d";
    assert OperatorLines(m, o) == front + (["display_name:b\nrole:c", "role:d"] + ["org:e"]);
    assert OperatorLines(m, q) == front + (["display_name:b", "role:c\nrole:d"] + ["org:e"]);
  }

  lemma TwoLines(x: string, y: string, rest: seq<string>)
    ensures Lines([x, y] + rest) == x + "\n" + y + "\n" + Lines(rest)
  {
    assert ([x, y] + rest)[1..] == [y] + rest && ([y] + rest)[1..] == rest;
    assert Lines([x, y] + rest) == x + "\n" + (y + "\n" + Lines(rest));
  }

  lemma {:induction false} LinesAppend(f: seq<string>, g: seq<string>)
    ensures Lines(f + g) == Lines(f) + Lines(g)
  {
    if f == [] {
      assert f + g == g;
    } else {
      LinesAppend(f[1..], g);
      assert (f + g)[1..] == f[1..] + g;
      assert Lines(f + g) == f[0] + "\n" + (Lines(f[1..]) + Lines(g));
    }
  }
}
