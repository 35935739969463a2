/** The vulnerability policy: one finding, a whole report, and the loop that judges it in place. */
module ImagePolicy {
  import opened Wrappers
  import opened PolicyExceptions

  datatype Severity = Critical | High | Medium | Low | Negligible | Unknown

  datatype Disposition = ContainNoFix | BelowThreshold | BlockedExceptionExpired | Excepted | Blocked

  datatype Finding = Finding(
    id: string, severity: Severity, package: string, version: string, fixState: string,
    disposition: Option<Disposition>, exception: Option<string>)

  const SEVERITIES: set<Severity> := {Critical, High, Medium, Low, Negligible, Unknown}
  const DISPOSITIONS: set<Disposition> := {ContainNoFix, BelowThreshold, BlockedExceptionExpired, Excepted, Blocked}

  // ------------------------------------------------------------------ one finding

  predicate Serious(f: Finding) {
    f.severity == Critical || f.severity == High
  }

  /** Serious, and a fix is available. */
  predicate Fixable(f: Finding) {
    Serious(f) && f.fixState == "fixed"
  }

  /** The first exception with this key decides. */
  function FirstMatch(exceptions: seq<Exception>, key: string, today: int): (d: Option<Disposition>)
    ensures d.Some? ==> d.value == BlockedExceptionExpired || d.value == Excepted
  {
    if exceptions == [] then None
    else if KeyOf(exceptions[0]) != key then FirstMatch(exceptions[1..], key, today)
    else Some(if exceptions[0].expires < today then BlockedExceptionExpired else Excepted)
  }

  function Classify(f: Finding, repository: string, exceptions: seq<Exception>, today: int)
    : (Disposition, Option<string>)
  {
    if !Fixable(f) then (if Serious(f) then ContainNoFix else BelowThreshold, None)
    else
      var key := Key(f.id, f.package, repository);
      match FirstMatch(exceptions, key, today)
      case None => (Blocked, None)
      case Some(disposition) => (disposition, Some(key))
  }

  /** A finding with its disposition and the key of the exception that was found for it. */
  function Judge(f: Finding, repository: string, exceptions: seq<Exception>, today: int): Finding {
    var verdict := Classify(f, repository, exceptions, today);
    f.(disposition := Some(verdict.0), exception := verdict.1)
  }

  function JudgeAll(fs: seq<Finding>, repository: string, exceptions: seq<Exception>, today: int)
    : (judged: seq<Finding>)
    ensures |judged| == |fs| && forall i | 0 <= i < |fs| :: judged[i] == Judge(fs[i], repository, exceptions, today)
  {
    seq(|fs|, i requires 0 <= i < |fs| => Judge(fs[i], repository, exceptions, today))
  }

  // ------------------------------------------------------------------ what the summary counts

  function SeverityCount(fs: seq<Finding>, severity: Severity): nat {
    if fs == [] then 0
    else SeverityCount(fs[..|fs| - 1], severity) + if fs[|fs| - 1].severity == severity then 1 else 0
  }

  function FixedCount(fs: seq<Finding>, severity: Severity): nat {
    if fs == [] then 0
    else
      var last := fs[|fs| - 1];
      FixedCount(fs[..|fs| - 1], severity) + if last.severity == severity && last.fixState == "fixed" then 1 else 0
  }

  function DispositionCount(fs: seq<Finding>, disposition: Disposition): nat {
    if fs == [] then 0
    else
      DispositionCount(fs[..|fs| - 1], disposition) + if fs[|fs| - 1].disposition == Some(disposition) then 1 else 0
  }

  function SeverityCounts(fs: seq<Finding>): map<Severity, nat> {
    map severity | severity in SEVERITIES :: SeverityCount(fs, severity)
  }

  function FixedCounts(fs: seq<Finding>): map<Severity, nat> {
    map severity | severity in SEVERITIES :: FixedCount(fs, severity)
  }

  function DispositionCounts(fs: seq<Finding>): map<Disposition, nat> {
    map disposition | disposition in DISPOSITIONS && DispositionCount(fs, disposition) > 0 ::
      DispositionCount(fs, disposition)
  }

  predicate Blocks(f: Finding) {
    f.disposition == Some(Blocked) || f.disposition == Some(BlockedExceptionExpired)
  }

  /** The findings that a blocked report lists. */
  function BlockingFindings(fs: seq<Finding>): seq<Finding> {
    if fs == [] then []
    else BlockingFindings(fs[..|fs| - 1]) + if Blocks(fs[|fs| - 1]) then [fs[|fs| - 1]] else []
  }

  function UsedKeys(fs: seq<Finding>): set<string> {
    set f | f in fs && f.disposition == Some(Excepted) && f.exception.Some? :: f.exception.value
  }

  datatype Outcome = Outcome(
    approved: bool,
    total: nat,
    unique: nat,
    bySeverity: map<Severity, nat>,
    fixable: map<Severity, nat>,
    dispositions: map<Disposition, nat>,
    blocking: nat,
    exceptionsUsed: set<string>)

  /** The report on a list of judged findings. */
  function Report(fs: seq<Finding>): Outcome {
    var blocking := DispositionCount(fs, Blocked) + DispositionCount(fs, BlockedExceptionExpired);
    Outcome(
      blocking == 0, |fs|, |set f | f in fs :: f.id|,
      SeverityCounts(fs), FixedCounts(fs), DispositionCounts(fs),
      blocking, UsedKeys(fs))
  }

  // ------------------------------------------------------------------ the loop

  /** Judges the findings in place and counts them on the way. */
  method ApplyPolicy(findings: array<Finding>, repository: string, exceptions: seq<Exception>, today: int)
    returns (outcome: Outcome)
    modifies findings
    ensures findings[..] == JudgeAll(old(findings[..]), repository, exceptions, today)
    ensures outcome == Report(findings[..])
  {
    hide Classify, Counted, Report;
    var bySeverity: map<Severity, nat> := map severity | severity in SEVERITIES :: 0;
    var fixable := bySeverity;
    var dispositions: map<Disposition, nat> := map[];
    var used: set<string> := {};
    var ids: set<string> := {};
    ghost var was := findings[..];
    ghost var judged: seq<Finding> := [];
    NothingCounted();
    for i := 0 to findings.Length
      invariant judged == findings[..i] && |was| == findings.Length
      invariant forall k | 0 <= k < i :: findings[k] == Judge(was[k], repository, exceptions, today)
      invariant forall k | i <= k < findings.Length :: findings[k] == was[k]
      invariant Counted(judged, bySeverity, fixable, dispositions, used, ids)
    {
      var finding := findings[i];
      var disposition, key := DispositionOf(finding, repository, exceptions, today);
      findings[i] := finding.(disposition := Some(disposition), exception := key);
      EveryKindIsListed(finding.severity, disposition);
      CountedStep(judged, findings[i], bySeverity, fixable, dispositions, used, ids);
      if key.Some? && disposition == Excepted {
        used := used + {key.value};
      }
      bySeverity := bySeverity[finding.severity := bySeverity[finding.severity] + 1];
      if finding.fixState == "fixed" {
        fixable := fixable[finding.severity := fixable[finding.severity] + 1];
      }
      dispositions := dispositions[disposition := Get(dispositions, disposition) + 1];
      ids := ids + {finding.id};
      judged := judged + [findings[i]];
    }
    assert judged == findings[..] == JudgeAll(was, repository, exceptions, today);
    var blocking := Get(dispositions, Blocked) + Get(dispositions, BlockedExceptionExpired);
    CountedIsReport(judged, bySeverity, fixable, dispositions, used, ids);
    outcome := Outcome(blocking == 0, findings.Length, |ids|, bySeverity, fixable, dispositions, blocking, used);
  }

  method DispositionOf(f: Finding, repository: string, exceptions: seq<Exception>, today: int)
    returns (disposition: Disposition, key: Option<string>)
    ensures (disposition, key) == Classify(f, repository, exceptions, today)
    ensures f.(disposition := Some(disposition), exception := key) == Judge(f, repository, exceptions, today)
  {
    var verdict := Classify(f, repository, exceptions, today);
    disposition, key := verdict.0, verdict.1;
  }

  function Get(counts: map<Disposition, nat>, disposition: Disposition): nat {
    if disposition in counts then counts[disposition] else 0
  }

  ghost predicate Counted(
    fs: seq<Finding>, bySeverity: map<Severity, nat>, fixable: map<Severity, nat>,
    dispositions: map<Disposition, nat>, used: set<string>, ids: set<string>) {
    && bySeverity == SeverityCounts(fs) && fixable == FixedCounts(fs) && dispositions == DispositionCounts(fs)
    && used == UsedKeys(fs)
    && ids == (set f | f in fs :: f.id)
  }

  lemma EveryKindIsListed(severity: Severity, disposition: Disposition)
    ensures severity in SEVERITIES && disposition in DISPOSITIONS
  {
    match severity case _ =>
    match disposition case _ =>
  }

  lemma NothingCounted()
    ensures var none := map severity | severity in SEVERITIES :: 0;
            Counted([], none, none, map[], {}, {})
  {
  }

  /** What one more finding adds to the sets. */
  lemma OneCollected(fs: seq<Finding>, f: Finding)
    ensures UsedKeys(fs + [f])
            == UsedKeys(fs) + if f.disposition == Some(Excepted) && f.exception.Some? then {f.exception.value} else {}
    ensures (set g | g in fs + [f] :: g.id) == (set g | g in fs :: g.id) + {f.id}
  {
    assert forall x :: x in fs + [f] <==> x in fs || x == f;
  }

  lemma CountedStep(
    fs: seq<Finding>, f: Finding, bySeverity: map<Severity, nat>, fixable: map<Severity, nat>,
    dispositions: map<Disposition, nat>, used: set<string>, ids: set<string>)
    requires Counted(fs, bySeverity, fixable, dispositions, used, ids) && f.disposition.Some?
    ensures f.severity in bySeverity && f.severity in fixable
    ensures Counted(
              fs + [f],
              bySeverity[f.severity := bySeverity[f.severity] + 1],
              if f.fixState == "fixed" then fixable[f.severity := fixable[f.severity] + 1] else fixable,
              dispositions[f.disposition.value := Get(dispositions, f.disposition.value) + 1],
              if f.exception.Some? && f.disposition.value == Excepted then used + {f.exception.value} else used,
              ids + {f.id})
  {
    EveryKindIsListed(f.severity, f.disposition.value);
    SeverityStep(fs, f, bySeverity);
    FixedStep(fs, f, fixable);
    DispositionStep(fs, f, dispositions);
    OneCollected(fs, f);
    hide SeverityCounts, FixedCounts, DispositionCounts, UsedKeys, Get;
  }

  lemma SeverityStep(fs: seq<Finding>, f: Finding, counts: map<Severity, nat>)
    requires f.severity in SEVERITIES && counts == SeverityCounts(fs)
    ensures f.severity in counts && counts[f.severity := counts[f.severity] + 1] == SeverityCounts(fs + [f])
  {
    assert (fs + [f])[..|fs + [f]| - 1] == fs;
  }

  lemma FixedStep(fs: seq<Finding>, f: Finding, counts: map<Severity, nat>)
    requires f.severity in SEVERITIES && counts == FixedCounts(fs)
    ensures f.severity in counts
            && (if f.fixState == "fixed" then counts[f.severity := counts[f.severity] + 1] else counts) ==
               FixedCounts(fs + [f])
  {
    assert (fs + [f])[..|fs + [f]| - 1] == fs;
  }

  lemma DispositionStep(fs: seq<Finding>, f: Finding, counts: map<Disposition, nat>)
    requires f.disposition.Some? && f.disposition.value in DISPOSITIONS
    requires counts == DispositionCounts(fs)
    ensures counts[f.disposition.value := Get(counts, f.disposition.value) + 1] == DispositionCounts(fs + [f])
  {
    assert (fs + [f])[..|fs + [f]| - 1] == fs;
  }

  lemma CountedIsReport(
    fs: seq<Finding>, bySeverity: map<Severity, nat>, fixable: map<Severity, nat>,
    dispositions: map<Disposition, nat>, used: set<string>, ids: set<string>)
    requires Counted(fs, bySeverity, fixable, dispositions, used, ids)
    ensures var blocking := Get(dispositions, Blocked) + Get(dispositions, BlockedExceptionExpired);
            Report(fs) == Outcome(blocking == 0, |fs|, |ids|, bySeverity, fixable, dispositions, blocking, used)
  {
    hide SeverityCount, FixedCount, DispositionCount, UsedKeys;
  }
}
