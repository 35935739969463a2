/** Which entries of the evidence record the repository check accepts, in the entries' own fields. */
module ImageEntries {
  import opened Wrappers
  import opened Strings
  import opened Trimming
  import opened ImageReference
  import opened ImageGrammar
  import opened PolicyExceptions
  import opened ImagePolicy
  import opened PolicyLaws
  import opened ImageEvidence

  /** So many small hexadecimal digits, in front of at most one line break. */
  ghost predicate HexText(s: string, n: nat) {
    exists hex :: (s == hex || s == hex + "\n") && HexDigits(hex, n)
  }

  ghost predicate HexDigits(hex: string, n: nat) {
    |hex| == n && forall k | 0 <= k < n :: '0' <= hex[k] <= '9' || 'a' <= hex[k] <= 'f'
  }

  ghost predicate Sha256Text(s: string) {
    exists hex :: (s == "sha256:" + hex || s == "sha256:" + hex + "\n") && HexDigits(hex, 64)
  }

  /** The name under which the registry keeps what belongs to an image. */
  ghost function Beside(repository: string, hex: string, suffix: string): string {
    repository + ":sha256-" + hex + "." + suffix
  }

  /** An approved scan without blocking findings, both signatures' references, and only live exceptions. */
  ghost predicate ApprovedEntry(
    e: Evidence, repository: string, hex: string, exceptions: seq<Exception>, today: int) {
    && e.scan.approved && e.scan.blockingFindings == Some([])
    && e.signature == Some(Signature(Beside(repository, hex, "sig"), repository))
    && forall key | key in e.scan.exceptionsUsed ::
         exists exception :: exception in exceptions && KeyOf(exception) == key && today <= exception.expires
  }

  ghost predicate BlockedEntry(e: Evidence) {
    && !e.scan.approved && e.scan.blockingFindings.Some? && |e.scan.blockingFindings.value| >= 1
    && e.signature.None?
  }

  /** A readable reference that the parts agree with, full digests, and what its status asks for. */
  ghost predicate AcceptedAs(
    e: Evidence, repository: string, hex: string, exceptions: seq<Exception>, today: int) {
    && Reads(e.image, repository, hex) && e.repository == repository && e.digest == "sha256:" + hex
    && HexText(e.revision, 40) && Sha256Text(e.sbomSha) && Sha256Text(e.scan.sha)
    && e.attestations == Beside(repository, hex, "att")
    && e.scan.blockingFindings.Some? && e.scan.blocking == Some(|e.scan.blockingFindings.value|)
    && (|| (e.status == Approved && ApprovedEntry(e, repository, hex, exceptions, today))
        || (e.status == BlockedImage && BlockedEntry(e))
        || (e.status == Revoked && Filled(e.revocationReason)))
  }

  ghost predicate AcceptedEntry(e: Evidence, exceptions: seq<Exception>, today: int) {
    exists repository, hex :: AcceptedAs(e, repository, hex, exceptions, today)
  }

  lemma RevisionIs(s: string)
    ensures Revision(s) <==> HexText(s, 40)
  {
    var t := WithoutBreak(s);
    assert s == t || s == t + "\n";
    if Revision(s) {
      assert HexDigits(t, 40);
    }
    if hex :| (s == hex || s == hex + "\n") && HexDigits(hex, 40) {
      assert hex[39] != '\n' && t == hex;
    }
  }

  lemma DigestTextIs(s: string)
    ensures DigestText(s) <==> Sha256Text(s)
  {
    var t := WithoutBreak(s);
    assert s == t || s == t + "\n";
    if DigestText(s) {
      DigestSplits(t);
      assert HexDigits(t[7..], 64);
    }
    hide Digest;
    forall hex | HexDigits(hex, 64)
      ensures DigestText("sha256:" + hex) && DigestText("sha256:" + hex + "\n")
    {
      DigestOf(hex);
      var d := "sha256:" + hex;
      assert d[|d| - 1] == hex[63];
      assert WithoutBreak(d) == d && WithoutBreak(d + "\n") == d;
    }
  }

  lemma SidecarIs(repository: string, hex: string, suffix: string)
    ensures |"sha256:" + hex| >= 7 && Sidecar(repository, "sha256:" + hex, suffix) == Beside(repository, hex, suffix)
  {
    assert ("sha256:" + hex)[7..] == hex;
  }

  lemma StatusErrorsAre(e: Evidence, repository: string, hex: string, exceptions: seq<Exception>, today: int)
    requires DistinctKeys(exceptions) && !Miscounted(e.scan)
    ensures StatusErrors(e, repository, Beside(repository, hex, "sig"), exceptions, today) == {} <==>
            || (e.status == Approved && ApprovedEntry(e, repository, hex, exceptions, today))
            || (e.status == BlockedImage && BlockedEntry(e))
            || (e.status == Revoked && Filled(e.revocationReason))
            || e.status == OtherStatus
  {
    hide KeyErrors, Beside, DistinctKeys, KeyOf;
    KeyErrorsAre(exceptions, e.scan.exceptionsUsed, today);
    FilledIs(e.revocationReason);
    hide Trim, Filled;
    if e.status == Approved && e.signature.Some? {
      assert e.signature == Some(Signature(e.signature.value.reference, e.signature.value.dockerReference));
    }
  }

  /** The check finds nothing wrong with an entry exactly when it is accepted. */
  lemma EntryAccepted(e: Evidence, exceptions: seq<Exception>, today: int)
    requires DistinctKeys(exceptions)
    ensures EntryErrors(e, exceptions, today) == {} <==> AcceptedEntry(e, exceptions, today)
  {
    ParsedIs(e.image);
    if ParseImage(e.image).Some? {
      var repository, hex :| Reads(e.image, repository, hex);
      assert forall other, h | Reads(e.image, other, h) :: other == repository && h == hex by {
        SameHex(e.image, repository, hex);
      }
      ReadEntry(e, repository, hex, exceptions, today);
    }
    hide Reads, ParseImage;
  }

  lemma SameHex(image: string, repository: string, hex: string)
    requires Reads(image, repository, hex)
    ensures forall other, h | Reads(image, other, h) :: other == repository && h == hex
  {
    ParsedIs(image);
    hide Reads, ParseImage;
    forall other, h | Reads(image, other, h)
      ensures other == repository && h == hex
    {
      assert ("sha256:" + h)[7..] == h && ("sha256:" + hex)[7..] == hex;
    }
  }

  lemma ReadEntry(e: Evidence, repository: string, hex: string, exceptions: seq<Exception>, today: int)
    requires DistinctKeys(exceptions) && Reads(e.image, repository, hex)
    requires ParseImage(e.image) == Some((repository, "sha256:" + hex))
    ensures EntryErrors(e, exceptions, today) == {} <==> AcceptedAs(e, repository, hex, exceptions, today)
  {
    RevisionIs(e.revision);
    DigestTextIs(e.sbomSha);
    DigestTextIs(e.scan.sha);
    SidecarIs(repository, hex, "att");
    SidecarIs(repository, hex, "sig");
    hide Revision, DigestText, HexText, Sha256Text, Sidecar, Beside, Reads, ParseImage, StatusErrors, ApprovedEntry,
      BlockedEntry, DistinctKeys;
    if !Miscounted(e.scan) {
      StatusErrorsAre(e, repository, hex, exceptions, today);
    }
  }

  // ------------------------------------------------------------------ evaluating a report

  /**
    A report is evaluated exactly for a readable image, a full revision, accepted exceptions and a valid scan;
    the predicate names them and carries the judged findings with the policy's decision.
   */
  lemma EvaluatesExactly(
    findings: seq<Finding>, sbom: string, validation: Validation, scannerValid: bool, image: string,
    revision: string, today: int)
    ensures var p := Evaluate(findings, sbom, validation, scannerValid, image, revision, today);
            && (p.Some? <==>
                  && (exists repository, hex :: Reads(image, repository, hex)) && HexText(revision, 40)
                  && validation.Valid? && scannerValid)
            && (forall repository, hex | p.Some? && Reads(image, repository, hex) ::
                  && p.value.image == image && p.value.repository == repository && p.value.digest == "sha256:" + hex
                  && p.value.revision == revision && p.value.sbom == sbom
                  && p.value.findings == JudgeAll(findings, repository, validation.entries, today)
                  && p.value.summary == Report(p.value.findings) && p.value.approved == p.value.summary.approved)
  {
    ParsedIs(image);
    RevisionIs(revision);
    hide Reads, ParseImage, Revision, HexText, Report, JudgeAll;
  }

  // ------------------------------------------------------------------ collecting an entry

  /** The run is of this image, and what it names is in the registry under full digests. */
  ghost predicate Attested(image: string, run: TaskRun, registry: Registry, sbom: string, vuln: string) {
    && (exists repository, hex :: Reads(image, repository, hex)) && run.image == image
    && run.sbomSha == Some(sbom) && run.vulnSha == Some(vuln) && Sha256Text(sbom) && Sha256Text(vuln)
    && sbom in registry.sboms && vuln in registry.predicates && registry.attestations
  }

  /** The predicate is about this image, revision and bill of materials, and says what the run and the policy say. */
  ghost predicate Agrees(
    p: Predicate, image: string, revision: string, sbom: string, run: TaskRun, exceptions: seq<Exception>, today: int) {
    && p.image == image && p.revision == revision && p.sbom == sbom && p.approved == run.approved
    && Reapply(p, exceptions, today).approved == p.approved
  }

  /** An approved image carries the approval's signature, and a blocked one no signature at all. */
  ghost predicate ProperlySigned(run: TaskRun, registry: Registry) {
    if run.approved then registry.approvalSignature else !registry.anySignature
  }

  ghost predicate Collectable(
    image: string, revision: string, run: TaskRun, registry: Registry, exceptions: seq<Exception>, today: int,
    sbom: string, vuln: string) {
    && Attested(image, run, registry, sbom, vuln) && ProperlySigned(run, registry)
    && Agrees(registry.predicates[vuln], image, revision, sbom, run, exceptions, today)
  }

  /** The entry of an image in terms of the predicate: its parts, its decision, and what belongs to it. */
  ghost predicate EntryOf(e: Evidence, image: string, revision: string, sbom: string, vuln: string, p: Predicate) {
    && e.image == image && e.revision == revision && e.sbomSha == sbom && e.scan.sha == vuln
    && e.status == (if p.approved then Approved else BlockedImage)
    && e.scan.approved == p.approved && e.scan.blocking == Some(p.summary.blocking)
    && e.scan.exceptionsUsed == p.summary.exceptionsUsed
    && e.scan.blockingFindings == Some(BlockingFindings(p.findings))
    && forall repository, hex | Reads(image, repository, hex) ::
         && e.repository == repository && e.digest == "sha256:" + hex
         && e.attestations == Beside(repository, hex, "att")
         && e.signature == if p.approved then Some(Signature(Beside(repository, hex, "sig"), repository)) else None
  }

  /** An entry is collected exactly when everything agrees, and says what the predicate says. */
  lemma CollectsExactly(
    image: string, revision: string, run: TaskRun, registry: Registry, exceptions: seq<Exception>, today: int)
    ensures var collected := Collect(image, revision, run, registry, exceptions, today);
            && (collected.Some? <==>
                  exists sbom, vuln :: Collectable(image, revision, run, registry, exceptions, today, sbom, vuln))
            && (forall sbom, vuln |
                  Collectable(image, revision, run, registry, exceptions, today, sbom, vuln) && collected.Some? ::
                  EntryOf(collected.value, image, revision, sbom, vuln, registry.predicates[vuln]))
  {
    ParsedIs(image);
    if run.sbomSha.Some? && run.vulnSha.Some? {
      var sbom, vuln := run.sbomSha.value, run.vulnSha.value;
      DigestTextIs(sbom);
      DigestTextIs(vuln);
      if vuln in registry.predicates {
        CollectableIs(image, revision, run, registry, exceptions, today, sbom, vuln);
        if ParseImage(image).Some? {
          EnteredIs(image, revision, sbom, vuln, registry.predicates[vuln]);
        }
      }
    }
    hide Reads, ParseImage, DigestText, Sha256Text, Reapply, EntryOf, Entered, Collectable, Collect;
    forall sbom, vuln | Collectable(image, revision, run, registry, exceptions, today, sbom, vuln)
      ensures run.sbomSha == Some(sbom) && run.vulnSha == Some(vuln) && vuln in registry.predicates
    {
      CollectableNames(image, revision, run, registry, exceptions, today, sbom, vuln);
    }
    CollectNames(image, revision, run, registry, exceptions, today);
  }

  lemma CollectableNames(
    image: string, revision: string, run: TaskRun, registry: Registry, exceptions: seq<Exception>, today: int,
    sbom: string, vuln: string)
    requires Collectable(image, revision, run, registry, exceptions, today, sbom, vuln)
    ensures run.sbomSha == Some(sbom) && run.vulnSha == Some(vuln) && vuln in registry.predicates
  {
  }

  lemma CollectNames(
    image: string, revision: string, run: TaskRun, registry: Registry, exceptions: seq<Exception>, today: int)
    ensures Collect(image, revision, run, registry, exceptions, today).Some? ==>
              run.sbomSha.Some? && run.vulnSha.Some? && run.vulnSha.value in registry.predicates
              && ParseImage(image).Some?
  {
    hide ParseImage, DigestText, Reapply, Entered;
  }

  lemma CollectableIs(
    image: string, revision: string, run: TaskRun, registry: Registry, exceptions: seq<Exception>, today: int,
    sbom: string, vuln: string)
    requires run.sbomSha == Some(sbom) && run.vulnSha == Some(vuln) && vuln in registry.predicates
    ensures var collected := Collect(image, revision, run, registry, exceptions, today);
            && (collected.Some? <==> Collectable(image, revision, run, registry, exceptions, today, sbom, vuln))
            && (collected.Some? ==>
                  ParseImage(image).Some?
                  && collected.value == Entered(image, revision, sbom, vuln, registry.predicates[vuln]))
  {
    ParsedIs(image);
    DigestTextIs(sbom);
    DigestTextIs(vuln);
    hide Reads, ParseImage, DigestText, Sha256Text, Reapply, Entered;
  }

  lemma EnteredIs(image: string, revision: string, sbom: string, vuln: string, p: Predicate)
    requires ParseImage(image).Some?
    ensures EntryOf(Entered(image, revision, sbom, vuln, p), image, revision, sbom, vuln, p)
  {
    ParsedIs(image);
    ParsedParts(image);
    forall repository, hex | Reads(image, repository, hex)
      ensures ParseImage(image) == Some((repository, "sha256:" + hex))
      ensures Sidecar(repository, "sha256:" + hex, "att") == Beside(repository, hex, "att")
      ensures Sidecar(repository, "sha256:" + hex, "sig") == Beside(repository, hex, "sig")
    {
      SidecarIs(repository, hex, "att");
      SidecarIs(repository, hex, "sig");
    }
    hide Reads, ParseImage, Sidecar, Beside, BlockingFindings, Repository;
  }
}
