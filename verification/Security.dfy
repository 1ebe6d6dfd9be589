/**
 Security workflows: what a job is for, its intent key, and its payload. UUIDs that appear in
 texts are kept as texts; a column of that type holds nothing else.
 */
module Security {
  import opened Wrappers
  import opened Text
  import Decimal
  import JobQueue

  const ScanKind := "TRIVY_SCAN"
  const SbomKind := "TRIVY_SBOM"
  const VerificationKind := "COSIGN_VERIFY"
  const DefaultAttempts := 3
  const MaxRepairBatch := 500

  /** An image: a digest in a repository. */
  datatype Subject = Subject(repositoryId: string, digest: string)

  datatype Target = Target(subject: Subject, namespace: string, repository: string)

  /** What a job is for: a scan, a bill of materials, or a verification under a policy. */
  datatype Purpose =
    | Scan(of: Subject)
    | Sbom(of: Subject)
    | Verify(of: Subject, policyId: string, policyVersion: nat)

  predicate IsHex(c: char) {
    '0' <= c <= '9' || 'a' <= c <= 'f'
  }

  predicate IsUuid(s: string) {
    |s| == 36 && forall c | c in s :: IsHex(c) || c == '-'
  }

  type Uuid = s: string | IsUuid(s) witness "00000000-0000-0000-0000-000000000000"

  predicate IsDigest(s: string) {
    |s| == 71 && s[..7] == "sha256:" && forall i | 7 <= i < 71 :: IsHex(s[i])
  }

  predicate ValidSubject(s: Subject) {
    IsUuid(s.repositoryId) && IsDigest(s.digest)
  }

  /** NewTarget. */
  predicate ValidTarget(t: Target) {
    ValidSubject(t.subject)
    && |t.namespace| <= 128 && IsName(t.namespace)
    && |t.repository| <= 128 && IsName(t.repository)
  }

  predicate ValidPurpose(p: Purpose) {
    ValidSubject(p.of) && (p.Verify? ==> IsUuid(p.policyId) && p.policyVersion >= 1)
  }

  function KindOf(p: Purpose): string {
    match p
    case Scan(_) => ScanKind
    case Sbom(_) => SbomKind
    case Verify(_, _, _) => VerificationKind
  }

  function KeyOf(p: Purpose): string {
    match p
    case Scan(s) => "security-scan:" + s.repositoryId + ":" + s.digest
    case Sbom(s) => "security-sbom:" + s.repositoryId + ":" + s.digest
    case Verify(s, policy, _) =>
      "security-signature:" + s.repositoryId + ":" + s.digest + ":policy:" + policy
  }

  /** Purposes that differ at most in the version of one and the same policy. */
  predicate SameJob(p: Purpose, q: Purpose) {
    p == q || (p.Verify? && q.Verify? && p.of == q.of && p.policyId == q.policyId)
  }

  /** Intent keys tell every kind, image and policy apart. */
  lemma KeysDiffer(p: Purpose, q: Purpose)
    requires ValidPurpose(p) && ValidPurpose(q)
    ensures KeyOf(p) == KeyOf(q) <==> SameJob(p, q)
  {
    var x, y := KeyOf(p), KeyOf(q);
    if x == y {
      assert x[10] == match p case Scan(_) => 'c' case Sbom(_) => 'b' case Verify(_, _, _) => 'i';
      assert y[10] == match q case Scan(_) => 'c' case Sbom(_) => 'b' case Verify(_, _, _) => 'i';
      FieldsOfKey(p);
      FieldsOfKey(q);
    }
  }

  lemma FieldsOfKey(p: Purpose)
    requires ValidPurpose(p)
    ensures var key, start := KeyOf(p), if p.Verify? then 19 else 14;
            |key| == start + 108 + (if p.Verify? then 44 else 0)
            && key[start..start + 36] == p.of.repositoryId
            && key[start + 37..start + 108] == p.of.digest
            && (p.Verify? ==> key[start + 116..] == p.policyId)
  {
  }

  lemma KeyIsValid(p: Purpose)
    requires ValidPurpose(p)
    ensures JobQueue.ValidIntentKey(KeyOf(p))
  {
    assert JobQueue.Printable(p.of.repositoryId) by {
      assert forall i | 0 <= i < 36 :: p.of.repositoryId[i] in p.of.repositoryId;
    }
    assert JobQueue.Printable(p.of.digest) by {
      assert forall i | 0 <= i < 7 :: p.of.digest[i] == p.of.digest[..7][i];
    }
    assert p.Verify? ==> JobQueue.Printable(p.policyId) by {
      if p.Verify? {
        assert forall i | 0 <= i < 36 :: p.policyId[i] in p.policyId;
      }
    }
    hide IsUuid, IsDigest;
    FieldsOfKeyLength(p);
    hide KeyOf;
  }

  lemma FieldsOfKeyLength(p: Purpose)
    requires |p.of.repositoryId| == 36 && |p.of.digest| == 71 && (p.Verify? ==> |p.policyId| == 36)
    requires JobQueue.Printable(p.of.repositoryId) && JobQueue.Printable(p.of.digest)
    requires p.Verify? ==> JobQueue.Printable(p.policyId)
    ensures 1 <= |KeyOf(p)| <= 255 && JobQueue.Printable(KeyOf(p))
  {
    match p
    case Scan(s) => PrintableParts("security-scan:", s.repositoryId, ":", s.digest);
    case Sbom(s) => PrintableParts("security-sbom:", s.repositoryId, ":", s.digest);
    case Verify(s, policy, _) =>
      var image := "security-signature:" + s.repositoryId + ":" + s.digest;
      PrintableParts("security-signature:", s.repositoryId, ":", s.digest);
      PrintableParts(image, ":policy:", "", policy);
      assert KeyOf(p) == image + ":policy:" + "" + policy;
      hide JobQueue.Printable;
  }

  lemma PrintableParts(first: string, second: string, third: string, fourth: string)
    requires JobQueue.Printable(first) && JobQueue.Printable(second)
    requires JobQueue.Printable(third) && JobQueue.Printable(fourth)
    ensures JobQueue.Printable(first + second + third + fourth)
  {
  }

  // Payloads, as the text of a jsonb column: shorter member names first

  function PayloadParts(t: Target): seq<string> {
    ["{", "digest", ": ", t.subject.digest, ", ", "namespace", ": ", t.namespace, ", ",
     "repository", ": ", t.repository, ", ", "repository_id", ": ", t.subject.repositoryId, ", ",
     "workflow_version", ": ", "v1", "}"]
  }

  function VerificationParts(t: Target, policyId: string, policyVersion: nat): seq<string> {
    ["{", "digest", ": ", t.subject.digest, ", ", "namespace", ": ", t.namespace, ", ",
     "policy_id", ": ", policyId, ", ", "repository", ": ", t.repository, ", ",
     "repository_id", ": ", t.subject.repositoryId, ", ",
     "policy_version", ": " + Decimal.Print(policyVersion) + ", ",
     "workflow_version", ": ", "signature-v1", "}"]
  }

  function PartsFor(p: Purpose, t: Target): seq<string> {
    if p.Verify? then VerificationParts(t, p.policyId, p.policyVersion) else PayloadParts(t)
  }

  function PayloadText(p: Purpose, t: Target): string {
    Join(PartsFor(p, t), '"')
  }

  /** A job of this kind and payload is for this purpose and target. */
  ghost predicate Reads(kind: string, payload: JobQueue.Payload, p: Purpose, t: Target) {
    KindOf(p) == kind && ValidPurpose(p) && ValidTarget(t) && t.subject == p.of
    && payload == JobQueue.Object(PayloadText(p, t))
  }

  lemma NoQuotes(p: Purpose, t: Target)
    requires ValidPurpose(p) && ValidTarget(t) && t.subject == p.of
    ensures forall part | part in PartsFor(p, t) :: '"' !in part
  {
    assert '"' !in t.subject.digest && '"' !in t.subject.repositoryId by {
      assert forall i | 0 <= i < 7 :: t.subject.digest[i] == t.subject.digest[..7][i];
    }
    assert '"' !in t.namespace && '"' !in t.repository;
    if p.Verify? {
      var number := ": " + Decimal.Print(p.policyVersion) + ", ";
      assert '"' !in p.policyId && '"' !in number;
      hide ValidPurpose, ValidTarget, Decimal.Print;
      NoQuotesInVerification(t, p.policyId, p.policyVersion);
    } else {
      hide ValidPurpose, ValidTarget;
      NoQuotesInPayload(t);
    }
  }

  lemma NoQuotesInPayload(t: Target)
    requires '"' !in t.subject.digest && '"' !in t.subject.repositoryId
    requires '"' !in t.namespace && '"' !in t.repository
    ensures forall part | part in PayloadParts(t) :: '"' !in part
  {
  }

  lemma NoQuotesInVerification(t: Target, policyId: string, policyVersion: nat)
    requires '"' !in t.subject.digest && '"' !in t.subject.repositoryId
    requires '"' !in t.namespace && '"' !in t.repository && '"' !in policyId
    requires '"' !in ": " + Decimal.Print(policyVersion) + ", "
    ensures forall part | part in VerificationParts(t, policyId, policyVersion) :: '"' !in part
  {
    hide Decimal.Print;
  }

  /** A payload says what its job is for: parsing it back can give only one answer. */
  lemma PayloadFixesPurpose(kind: string, payload: JobQueue.Payload, p: Purpose, t: Target, q: Purpose, u: Target)
    requires Reads(kind, payload, p, t) && Reads(kind, payload, q, u)
    ensures p == q && t == u
  {
    NoQuotes(p, t);
    NoQuotes(q, u);
    hide ValidPurpose, ValidTarget;
    assert ScanKind[7] != SbomKind[7];
    SplitOfJoin(PartsFor(p, t), '"');
    SplitOfJoin(PartsFor(q, u), '"');
    hide Join, Split;
    PartsFixPurpose(p, t, q, u);
  }

  lemma PartsFixPurpose(p: Purpose, t: Target, q: Purpose, u: Target)
    requires KindOf(p) == KindOf(q) && t.subject == p.of && u.subject == q.of
    requires PartsFor(p, t) == PartsFor(q, u)
    ensures p == q && t == u
  {
    var x, y := PartsFor(p, t), PartsFor(q, u);
    assert ScanKind[7] != SbomKind[7] && ScanKind[0] != VerificationKind[0];
    assert SbomKind[0] != VerificationKind[0];
    assert x[3] == y[3] && x[7] == y[7] && x[11] == y[11] && x[15] == y[15];
    if p.Verify? {
      assert x[19] == y[19] && x[22] == y[22];
      assert Decimal.Print(p.policyVersion) == x[22][2..|x[22]| - 2];
      assert Decimal.Print(q.policyVersion) == y[22][2..|y[22]| - 2];
      Decimal.PrintIsInjective(p.policyVersion, q.policyVersion);
    }
  }

  /** The intent that a store enqueues for a purpose. */
  function IntentOf(p: Purpose, t: Target, now: JobQueue.Time): JobQueue.Intent {
    JobQueue.Intent(KindOf(p), KeyOf(p), JobQueue.Object(PayloadText(p, t)), DefaultAttempts, now)
  }

  lemma IntentIsValid(p: Purpose, t: Target, now: JobQueue.Time)
    requires ValidPurpose(p) && now != JobQueue.ZeroTime
    ensures JobQueue.ValidIntent(IntentOf(p, t, now))
  {
    KeyIsValid(p);
    hide KeyOf, PayloadText, JobQueue.ValidIntentKey;
    KindIsValid(p);
    hide KindOf;
  }

  lemma KindIsValid(p: Purpose)
    ensures JobQueue.ValidIdentifier(KindOf(p))
  {
  }

  /** What NewTarget accepts: a digest, the text of a UUID, and two names of at most 128 characters. */
  lemma TargetIff(t: Target)
    ensures ValidTarget(t)
       <==> |t.subject.repositoryId| == 36
            && (forall c | c in t.subject.repositoryId :: '0' <= c <= '9' || 'a' <= c <= 'f' || c == '-')
            && |t.subject.digest| == 71 && t.subject.digest[..7] == "sha256:"
            && (forall c | c in t.subject.digest[7..] :: '0' <= c <= '9' || 'a' <= c <= 'f')
            && IsName(t.namespace) && |t.namespace| < 129 && IsName(t.repository) && |t.repository| < 129
  {
    hide IsName;
    var digest := t.subject.digest;
    if |digest| == 71 {
      var hex := digest[7..];
      assert forall i | 7 <= i < 71 :: digest[i] == hex[i - 7] && hex[i - 7] in hex;
      forall c | c in hex ensures exists i :: 7 <= i < 71 && digest[i] == c {
        var i :| 0 <= i < |hex| && hex[i] == c;
        assert digest[i + 7] == c;
      }
    }
  }
}
