/** Evidence entries: how one is collected from an evaluated predicate, and what the repository check demands of it. */
module ImageEvidence {
  import opened Wrappers
  import opened Strings
  import opened ImageReference
  import opened PolicyExceptions
  import opened ImagePolicy
  import opened PolicyLaws

  /** An attested vulnerability disposition. */
  datatype Predicate = Predicate(
    image: string, repository: string, digest: string, revision: string, sbom: string,
    approved: bool, summary: Outcome, findings: seq<Finding>)

  predicate Revision(s: string) {
    var t := WithoutBreak(s);
    |t| == 40 && Hex(t)
  }

  predicate DigestText(s: string) {
    Digest(WithoutBreak(s))
  }

  /** The evaluation step; `scannerValid` says that grype produced the report from a valid database. */
  function Evaluate(
    findings: seq<Finding>, sbom: string, validation: Validation, scannerValid: bool,
    image: string, revision: string, today: int): Option<Predicate> {
    var parts := ParseImage(image);
    if parts.None? || !Revision(revision) || !validation.Valid? || !scannerValid then None
    else
      var judged := JudgeAll(findings, parts.value.0, validation.entries, today);
      Some(Predicate(image, parts.value.0, parts.value.1, revision, sbom, Report(judged).approved, Report(judged),
                     judged))
  }

  function Reapply(p: Predicate, exceptions: seq<Exception>, today: int): Outcome {
    Report(JudgeAll(p.findings, p.repository, exceptions, today))
  }

  /** Re-applying the policy with the same exceptions on the same day reproduces the whole summary. */
  lemma ReapplyIsStable(
    findings: seq<Finding>, sbom: string, validation: Validation, image: string, revision: string, today: int,
    p: Predicate)
    requires Evaluate(findings, sbom, validation, true, image, revision, today) == Some(p) && validation.Valid?
    ensures Reapply(p, validation.entries, today) == p.summary
    ensures JudgeAll(p.findings, p.repository, validation.entries, today) == p.findings
  {
    ReapplyReproduces(findings, p.repository, validation.entries, today);
    hide Report, Revision, ParseImage, JudgeAll;
  }

  // ------------------------------------------------------------------ the evidence record

  datatype Status = Approved | BlockedImage | Revoked | OtherStatus

  datatype Signature = Signature(reference: string, dockerReference: string)

  datatype Scan = Scan(
    sha: string, approved: bool, blocking: Option<nat>, exceptionsUsed: set<string>,
    blockingFindings: Option<seq<Finding>>)

  datatype Evidence = Evidence(
    image: string, repository: string, digest: string, status: Status, revision: string, sbomSha: string,
    scan: Scan, attestations: string, signature: Option<Signature>, revocationReason: string)

  function Sidecar(repository: string, digest: string, suffix: string): string
    requires |digest| >= 7
  {
    repository + ":sha256-" + digest[7..] + "." + suffix
  }

  /** A finished TaskRun, and what its images carry in the registry. */
  datatype TaskRun = TaskRun(image: string, approved: bool, sbomSha: Option<string>, vulnSha: Option<string>)

  datatype Registry = Registry(
    sboms: set<string>, predicates: map<string, Predicate>, approvalSignature: bool, anySignature: bool,
    attestations: bool)

  function Collect(
    image: string, revision: string, run: TaskRun, registry: Registry, exceptions: seq<Exception>, today: int):
    Option<Evidence> {
    if ParseImage(image).None? || run.image != image || run.sbomSha.None? || run.vulnSha.None? then None
    else if !DigestText(run.sbomSha.value) || !DigestText(run.vulnSha.value) then None
    else if run.sbomSha.value !in registry.sboms || run.vulnSha.value !in registry.predicates then None
    else
      var p := registry.predicates[run.vulnSha.value];
      if p.image != image || p.revision != revision || p.sbom != run.sbomSha.value || p.approved != run.approved
        then None
      else if Reapply(p, exceptions, today).approved != p.approved then None
      else if (if run.approved then !registry.approvalSignature else registry.anySignature) || !registry.attestations
        then None
      else Some(Entered(image, revision, run.sbomSha.value, run.vulnSha.value, p))
  }

  function Entered(image: string, revision: string, sbomSha: string, vulnSha: string, p: Predicate): Evidence
    requires ParseImage(image).Some?
  {
    ParsedParts(image);
    var repository, digest := ParseImage(image).value.0, ParseImage(image).value.1;
    Evidence(
      image, repository, digest, if p.approved then Approved else BlockedImage, revision, sbomSha,
      Scan(vulnSha, p.approved, Some(p.summary.blocking), p.summary.exceptionsUsed, Some(BlockingFindings(p.findings))),
      Sidecar(repository, digest, "att"),
      if p.approved then Some(Signature(Sidecar(repository, digest, "sig"), repository)) else None, "")
  }

  lemma ParsedParts(image: string)
    ensures ParseImage(image).Some? ==> |ParseImage(image).value.1| == 71 && Repository(ParseImage(image).value.0)
  {
    hide Repository, Hex;
  }

  // ------------------------------------------------------------------ the repository check

  datatype CheckError =
    | BadReference | RecordedTwice | PartsDisagree | BadStatus | BadRevision | BadSbomSha | BadScanSha
    | BadAttestations | BlockingMiscounted | ApprovedButBlocked | BadSignature | BadSigner
    | ExceptionUnknown(key: string) | ExceptionExpired(key: string)
    | BlockedButApproved | BlockedButSigned | NoReason

  /** The last exception with a key, as a dictionary keeps it. */
  function ActiveExpiry(exceptions: seq<Exception>, key: string): Option<int> {
    if exceptions == [] then None
    else if KeyOf(exceptions[|exceptions| - 1]) == key then Some(exceptions[|exceptions| - 1].expires)
    else ActiveExpiry(exceptions[..|exceptions| - 1], key)
  }

  predicate Blank(findings: Option<seq<Finding>>) {
    findings.None? || findings.value == []
  }

  predicate Miscounted(scan: Scan) {
    scan.blockingFindings.None? || scan.blocking != Some(|scan.blockingFindings.value|)
  }

  function KeyErrors(exceptions: seq<Exception>, keys: set<string>, today: int): set<CheckError> {
    (set key | key in keys && ActiveExpiry(exceptions, key).None? :: ExceptionUnknown(key))
    + (set key | key in keys && ActiveExpiry(exceptions, key).Some? && ActiveExpiry(exceptions, key).value < today ::
         ExceptionExpired(key))
  }

  function When(condition: bool, error: CheckError): set<CheckError> {
    if condition then {error} else {}
  }

  /** What is wrong with one entry that has a readable reference, apart from being recorded twice. */
  function EntryErrors(e: Evidence, exceptions: seq<Exception>, today: int): set<CheckError> {
    var parts := ParseImage(e.image);
    if parts.None? then {BadReference}
    else
      ParsedParts(e.image);
      var repository, digest := parts.value.0, parts.value.1;
      When(e.repository != repository || e.digest != digest, PartsDisagree)
      + if e.status == OtherStatus then {BadStatus}
        else
          When(!Revision(e.revision), BadRevision)
          + When(!DigestText(e.sbomSha), BadSbomSha)
          + When(!DigestText(e.scan.sha), BadScanSha)
          + When(e.attestations != Sidecar(repository, digest, "att"), BadAttestations)
          + When(Miscounted(e.scan), BlockingMiscounted)
          + StatusErrors(e, repository, Sidecar(repository, digest, "sig"), exceptions, today)
  }

  function StatusErrors(
    e: Evidence, repository: string, signature: string, exceptions: seq<Exception>, today: int): set<CheckError> {
    match e.status
    case Approved =>
      When(!e.scan.approved || !Blank(e.scan.blockingFindings), ApprovedButBlocked)
      + When(e.signature.None? || e.signature.value.reference != signature, BadSignature)
      + When(e.signature.None? || e.signature.value.dockerReference != repository, BadSigner)
      + KeyErrors(exceptions, e.scan.exceptionsUsed, today)
    case BlockedImage =>
      When(e.scan.approved || Blank(e.scan.blockingFindings), BlockedButApproved)
      + When(e.signature.Some?, BlockedButSigned)
    case Revoked => When(Trim(e.revocationReason) == "", NoReason)
    case OtherStatus => {}
  }

  lemma {:induction false} ActiveIsLive(exceptions: seq<Exception>, key: string, today: int)
    requires DistinctKeys(exceptions)
    ensures ActiveExpiry(exceptions, key).Some? <==> Named(exceptions, key)
    ensures Live(exceptions, key, today) <==>
            ActiveExpiry(exceptions, key).Some? && today <= ActiveExpiry(exceptions, key).value
    decreases |exceptions|
  {
    hide KeyOf;
    if exceptions != [] {
      var front, last := exceptions[..|exceptions| - 1], exceptions[|exceptions| - 1];
      assert exceptions == front + [last];
      if KeyOf(last) == key {
        assert last in exceptions;
        forall e | e in front
          ensures KeyOf(e) != key
        {
          var i :| 0 <= i < |front| && front[i] == e;
          assert exceptions[i] == e && exceptions[|exceptions| - 1] == last;
        }
      } else {
        ActiveIsLive(front, key, today);
      }
    }
  }

  /** No exception error exactly when every key the entry relies on is still live. */
  lemma KeyErrorsAre(exceptions: seq<Exception>, keys: set<string>, today: int)
    requires DistinctKeys(exceptions)
    ensures KeyErrors(exceptions, keys, today) == {} <==> forall key | key in keys :: Live(exceptions, key, today)
  {
    hide ActiveExpiry, Live, Named, DistinctKeys;
    var unknown := set key | key in keys && ActiveExpiry(exceptions, key).None? :: ExceptionUnknown(key);
    var expired := set key |
      key in keys && ActiveExpiry(exceptions, key).Some? && ActiveExpiry(exceptions, key).value < today ::
                     ExceptionExpired(key);
    forall key | key in keys
      ensures Live(exceptions, key, today) <==> ExceptionUnknown(key) !in unknown && ExceptionExpired(key) !in expired
    {
      ActiveIsLive(exceptions, key, today);
    }
    if forall key | key in keys :: Live(exceptions, key, today) {
      assert unknown == {} && expired == {};
    }
  }

  /** The predicate came out of the evaluation step with some accepted exceptions on some day. */
  ghost predicate Evaluated(p: Predicate) {
    exists findings, sbom, validation, image, revision, day ::
      EvaluatedFrom(p, findings, sbom, validation, image, revision, day)
  }

  ghost predicate EvaluatedFrom(
    p: Predicate, findings: seq<Finding>, sbom: string, validation: Validation, image: string, revision: string,
    day: int) {
    validation.Valid? && DistinctKeys(validation.entries)
    && Evaluate(findings, sbom, validation, true, image, revision, day) == Some(p)
  }

  /** What an evaluated predicate says about itself. */
  lemma EvaluatedFacts(p: Predicate)
    requires Evaluated(p)
    ensures Revision(p.revision) && ParseImage(p.image) == Some((p.repository, p.digest))
    ensures p.approved == p.summary.approved && p.summary.blocking == |BlockingFindings(p.findings)|
    ensures p.approved <==> BlockingFindings(p.findings) == []
  {
    var findings, sbom, validation, image, revision, day :|
      EvaluatedFrom(p, findings, sbom, validation, image, revision, day);
    ReportConserves(findings, p.repository, validation.entries, day);
    hide Report, Revision, ParseImage, JudgeAll, BlockingFindings, DistinctKeys;
  }

  /** With any accepted exceptions on any day, an approval is reproduced exactly when its keys are live. */
  lemma RecheckMeansLive(p: Predicate, exceptions: seq<Exception>, today: int)
    requires Evaluated(p) && p.approved && DistinctKeys(exceptions)
    ensures Reapply(p, exceptions, today).approved <==>
              forall key | key in p.summary.exceptionsUsed :: Live(exceptions, key, today)
  {
    var findings, sbom, validation, image, revision, day :|
      EvaluatedFrom(p, findings, sbom, validation, image, revision, day);
    ApprovalLasts(findings, p.repository, validation.entries, day, exceptions, today);
    SameVerdicts(findings, p.repository, validation.entries, day, exceptions, today);
    hide Report, Revision, ParseImage, JudgeAll, DistinctKeys, Live;
  }

  /** Judging already judged findings is judging the findings. */
  lemma SameVerdicts(
    fs: seq<Finding>, repository: string, exceptions: seq<Exception>, day: int, others: seq<Exception>, today: int)
    ensures JudgeAll(JudgeAll(fs, repository, exceptions, day), repository, others, today) ==
              JudgeAll(fs, repository, others, today)
  {
    var judged := JudgeAll(fs, repository, exceptions, day);
    forall i | 0 <= i < |fs|
      ensures JudgeAll(judged, repository, others, today)[i] == JudgeAll(fs, repository, others, today)[i]
    {
      assert Classify(judged[i], repository, others, today) == Classify(fs[i], repository, others, today);
    }
  }

  /** An entry written from an evaluated predicate can only be wrong about the exceptions it relies on. */
  lemma EnteredErrors(
    image: string, revision: string, sbomSha: string, vulnSha: string, p: Predicate, exceptions: seq<Exception>,
    today: int)
    requires ParseImage(image).Some? && Revision(revision) && DigestText(sbomSha) && DigestText(vulnSha)
    requires p.summary.blocking == |BlockingFindings(p.findings)|
             && (p.approved <==> BlockingFindings(p.findings) == [])
    ensures EntryErrors(Entered(image, revision, sbomSha, vulnSha, p), exceptions, today)
            == if p.approved then KeyErrors(exceptions, p.summary.exceptionsUsed, today) else {}
  {
    hide Revision, ParseImage, DigestText, BlockingFindings, KeyErrors, Sidecar;
    ParsedParts(image);
    var repository, digest := ParseImage(image).value.0, ParseImage(image).value.1;
    var e := Entered(image, revision, sbomSha, vulnSha, p);
    assert !Miscounted(e.scan);
    assert StatusErrors(e, repository, Sidecar(repository, digest, "sig"), exceptions, today)
           == if p.approved then KeyErrors(exceptions, p.summary.exceptionsUsed, today) else {};
    hide StatusErrors, Miscounted;
  }

  /**
    The single comparison of decisions is enough: an entry collected from evaluated predicates
    passes every check of the repository with the same exceptions on the same day.
   */
  lemma CollectedEntriesPass(
    image: string, revision: string, run: TaskRun, registry: Registry, exceptions: seq<Exception>, today: int)
    requires forall sha | sha in registry.predicates :: Evaluated(registry.predicates[sha])
    requires DistinctKeys(exceptions) && Collect(image, revision, run, registry, exceptions, today).Some?
    ensures EntryErrors(Collect(image, revision, run, registry, exceptions, today).value, exceptions, today) == {}
  {
    hide Evaluated, Revision, ParseImage, DigestText, Reapply, BlockingFindings, DistinctKeys, KeyErrors, Live,
      EntryErrors, Entered;
    var p := registry.predicates[run.vulnSha.value];
    EvaluatedFacts(p);
    EnteredErrors(image, revision, run.sbomSha.value, run.vulnSha.value, p, exceptions, today);
    if p.approved {
      RecheckMeansLive(p, exceptions, today);
    }
    KeyErrorsAre(exceptions, p.summary.exceptionsUsed, today);
  }

  /** On another day or with other exceptions, an approved entry passes exactly when the policy still approves it. */
  lemma ApprovedEntriesAge(
    image: string, revision: string, run: TaskRun, registry: Registry, exceptions: seq<Exception>, today: int,
    others: seq<Exception>, day: int)
    requires forall sha | sha in registry.predicates :: Evaluated(registry.predicates[sha])
    requires DistinctKeys(exceptions) && DistinctKeys(others) && run.approved
    requires Collect(image, revision, run, registry, exceptions, today).Some?
    ensures run.vulnSha.Some? && run.vulnSha.value in registry.predicates
    ensures EntryErrors(Collect(image, revision, run, registry, exceptions, today).value, others, day) == {} <==>
            Reapply(registry.predicates[run.vulnSha.value], others, day).approved
  {
    hide Evaluated, Revision, ParseImage, DigestText, Reapply, BlockingFindings, DistinctKeys, KeyErrors, Live,
      EntryErrors, Entered;
    var p := registry.predicates[run.vulnSha.value];
    EvaluatedFacts(p);
    EnteredErrors(image, revision, run.sbomSha.value, run.vulnSha.value, p, others, day);
    RecheckMeansLive(p, others, day);
    KeyErrorsAre(others, p.summary.exceptionsUsed, day);
  }
}
