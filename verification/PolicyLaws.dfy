/** Laws of the vulnerability policy: conservation, exactness of approval, and monotonicity. */
module PolicyLaws {
  import opened Wrappers
  import opened Strings
  import opened ImageReference
  import opened PolicyExceptions
  import opened ImagePolicy

  // ------------------------------------------------------------------ conservation

  /** Every finding has been judged. */
  ghost predicate Judged(fs: seq<Finding>) {
    forall i | 0 <= i < |fs| :: fs[i].disposition.Some?
  }

  lemma {:induction false} CountsAddUp(fs: seq<Finding>)
    ensures SeverityCount(fs, Critical) + SeverityCount(fs, High) + SeverityCount(fs, Medium)
            + SeverityCount(fs, Low) + SeverityCount(fs, Negligible) + SeverityCount(fs, Unknown) == |fs|
    ensures Judged(fs) ==>
              DispositionCount(fs, ContainNoFix) + DispositionCount(fs, BelowThreshold) + DispositionCount(fs, Excepted)
              + DispositionCount(fs, Blocked) + DispositionCount(fs, BlockedExceptionExpired) == |fs|
    ensures |BlockingFindings(fs)| == DispositionCount(fs, Blocked) + DispositionCount(fs, BlockedExceptionExpired)
    decreases |fs|
  {
    if fs != [] {
      CountsAddUp(fs[..|fs| - 1]);
      var last := fs[|fs| - 1];
      if last.disposition.Some? {
        match last.disposition.value
        case ContainNoFix =>
        case BelowThreshold =>
        case BlockedExceptionExpired =>
        case Excepted =>
        case Blocked =>
      }
    }
  }

  lemma {:induction false} FixedWithin(fs: seq<Finding>, severity: Severity)
    ensures FixedCount(fs, severity) <= SeverityCount(fs, severity)
    decreases |fs|
  {
    if fs != [] {
      FixedWithin(fs[..|fs| - 1], severity);
    }
  }

  lemma {:induction false} BlockingHas(fs: seq<Finding>, f: Finding)
    ensures f in BlockingFindings(fs) <==> f in fs && Blocks(f)
    decreases |fs|
  {
    if fs != [] {
      BlockingHas(fs[..|fs| - 1], f);
      assert fs == fs[..|fs| - 1] + [fs[|fs| - 1]];
    }
  }

  function Sum(counts: map<Disposition, nat>): nat {
    Get(counts, ContainNoFix) + Get(counts, BelowThreshold) + Get(counts, Excepted)
    + Get(counts, Blocked) + Get(counts, BlockedExceptionExpired)
  }

  /** The severity counts and the disposition counts each account for every finding. */
  lemma ReportConserves(fs: seq<Finding>, repository: string, exceptions: seq<Exception>, today: int)
    ensures var judged := JudgeAll(fs, repository, exceptions, today);
            var r := Report(judged);
            && r.bySeverity.Keys == SEVERITIES == r.fixable.Keys
            && r.bySeverity[Critical] + r.bySeverity[High] + r.bySeverity[Medium]
               + r.bySeverity[Low] + r.bySeverity[Negligible] + r.bySeverity[Unknown] == r.total
            && (forall severity | severity in SEVERITIES :: r.fixable[severity] <= r.bySeverity[severity])
            && Sum(r.dispositions) == r.total == |fs|
            && r.blocking == |BlockingFindings(judged)|
            && (r.approved <==> BlockingFindings(judged) == [])
  {
    var judged := JudgeAll(fs, repository, exceptions, today);
    CountsAddUp(judged);
    forall severity | severity in SEVERITIES
      ensures FixedCount(judged, severity) <= SeverityCount(judged, severity)
    {
      FixedWithin(judged, severity);
    }
    hide SeverityCount, FixedCount, DispositionCount, Classify, UsedKeys;
  }

  /** The numbers below `n` with a property. */
  ghost function Below(n: nat, p: nat -> bool): set<nat> {
    set i: nat | i < n && p(i)
  }

  lemma OneMoreBelow(n: nat, p: nat -> bool)
    ensures |Below(n + 1, p)| == |Below(n, p)| + if p(n) then 1 else 0
  {
    if p(n) {
      assert Below(n + 1, p) == Below(n, p) + {n};
    } else {
      assert Below(n + 1, p) == Below(n, p);
    }
  }

  /** The positions of the findings with a severity, with a fix as well, or with a disposition. */
  ghost function SeverityPlaces(fs: seq<Finding>, severity: Severity): nat -> bool {
    (i: nat) => i < |fs| && fs[i].severity == severity
  }

  ghost function FixedPlaces(fs: seq<Finding>, severity: Severity): nat -> bool {
    (i: nat) => i < |fs| && fs[i].severity == severity && fs[i].fixState == "fixed"
  }

  ghost function DispositionPlaces(fs: seq<Finding>, disposition: Disposition): nat -> bool {
    (i: nat) => i < |fs| && fs[i].disposition == Some(disposition)
  }

  lemma {:induction false} CountsArePlaces(fs: seq<Finding>, k: nat, severity: Severity, disposition: Disposition)
    requires k <= |fs|
    ensures SeverityCount(fs[..k], severity) == |Below(k, SeverityPlaces(fs, severity))|
    ensures FixedCount(fs[..k], severity) == |Below(k, FixedPlaces(fs, severity))|
    ensures DispositionCount(fs[..k], disposition) == |Below(k, DispositionPlaces(fs, disposition))|
    decreases k
  {
    var p, q, r := SeverityPlaces(fs, severity), FixedPlaces(fs, severity), DispositionPlaces(fs, disposition);
    if k == 0 {
      assert Below(0, p) == {} && Below(0, q) == {} && Below(0, r) == {};
    } else {
      CountsArePlaces(fs, k - 1, severity, disposition);
      assert fs[..k][..k - 1] == fs[..k - 1];
      OneMoreBelow(k - 1, p);
      OneMoreBelow(k - 1, q);
      OneMoreBelow(k - 1, r);
      hide Below;
    }
  }

  /** Every number of the report counts positions in the list of findings. */
  lemma ReportCounts(fs: seq<Finding>, severity: Severity, disposition: Disposition)
    ensures var r := Report(fs);
            && r.total == |fs|
            && severity in r.bySeverity && r.bySeverity[severity] == |Below(|fs|, SeverityPlaces(fs, severity))|
            && severity in r.fixable && r.fixable[severity] == |Below(|fs|, FixedPlaces(fs, severity))|
            && (disposition in r.dispositions <==> Below(|fs|, DispositionPlaces(fs, disposition)) != {})
            && (disposition in r.dispositions ==>
                r.dispositions[disposition] == |Below(|fs|, DispositionPlaces(fs, disposition))|)
            && (r.approved <==>
                Below(|fs|, DispositionPlaces(fs, Blocked)) == {}
                && Below(|fs|, DispositionPlaces(fs, BlockedExceptionExpired)) == {})
  {
    CountsArePlaces(fs, |fs|, severity, disposition);
    CountsArePlaces(fs, |fs|, severity, Blocked);
    CountsArePlaces(fs, |fs|, severity, BlockedExceptionExpired);
    assert fs[..|fs|] == fs;
    EveryKindIsListed(severity, disposition);
    hide SeverityCount, FixedCount, DispositionCount, UsedKeys, SeverityPlaces, FixedPlaces, DispositionPlaces, Below;
  }

  // ------------------------------------------------------------------ one finding, exactly

  /** An exception for this key that has not expired. */
  ghost predicate Live(exceptions: seq<Exception>, key: string, today: int) {
    exists e :: e in exceptions && KeyOf(e) == key && today <= e.expires
  }

  ghost predicate Named(exceptions: seq<Exception>, key: string) {
    exists e :: e in exceptions && KeyOf(e) == key
  }

  lemma {:induction false} FirstMatchIs(exceptions: seq<Exception>, key: string, today: int)
    requires DistinctKeys(exceptions)
    ensures FirstMatch(exceptions, key, today).None? <==> !Named(exceptions, key)
    ensures FirstMatch(exceptions, key, today) == Some(Excepted) <==> Live(exceptions, key, today)
    decreases |exceptions|
  {
    hide KeyOf;
    if exceptions != [] {
      var first, rest := exceptions[0], exceptions[1..];
      assert exceptions == [first] + rest;
      if KeyOf(first) == key {
        assert first in exceptions;
        forall e | e in rest
          ensures KeyOf(e) != key
        {
          var i :| 0 <= i < |rest| && rest[i] == e;
          assert exceptions[0] == first && exceptions[i + 1] == e;
        }
      } else {
        FirstMatchIs(rest, key, today);
      }
    }
  }

  /** Critical or High, and a fixed version is out. */
  ghost predicate Pressing(f: Finding) {
    (f.severity == Critical || f.severity == High) && f.fixState == "fixed"
  }

  /** The disposition in terms of the exceptions as a set. */
  lemma ClassifyIs(f: Finding, repository: string, exceptions: seq<Exception>, today: int)
    requires DistinctKeys(exceptions)
    ensures var d, key := Classify(f, repository, exceptions, today), Key(f.id, f.package, repository);
            && (d.0 == ContainNoFix <==> (f.severity == Critical || f.severity == High) && f.fixState != "fixed")
            && (d.0 == BelowThreshold <==> f.severity != Critical && f.severity != High)
            && (d.0 == Excepted <==> Pressing(f) && Live(exceptions, key, today))
            && (d.0 == BlockedExceptionExpired <==>
                Pressing(f) && Named(exceptions, key) && !Live(exceptions, key, today))
            && (d.0 == Blocked <==> Pressing(f) && !Named(exceptions, key))
            && d.1 == (if Pressing(f) && Named(exceptions, key) then Some(key) else None)
            && key == f.id + "|" + f.package + "|" + repository
  {
    var key := Key(f.id, f.package, repository);
    FirstMatchIs(exceptions, key, today);
    if Live(exceptions, key, today) {
      assert Named(exceptions, key);
    }
    hide Key, KeyOf, Live, Named;
  }

  /** An unexpired exception for this very identifier, package and repository. */
  ghost predicate OwnCover(f: Finding, repository: string, exceptions: seq<Exception>, today: int) {
    exists e :: e in exceptions && IsFor(e, f.id, f.package, repository) && today <= e.expires
  }

  lemma OwnIsLive(f: Finding, repository: string, exceptions: seq<Exception>, today: int)
    requires OwnCover(f, repository, exceptions, today)
    ensures Live(exceptions, Key(f.id, f.package, repository), today)
  {
    var e :| e in exceptions && IsFor(e, f.id, f.package, repository) && today <= e.expires;
    assert KeyOf(e) == Key(f.id, f.package, repository);
  }

  /** Under an accepted document, a finding whose identifier cannot be split is covered by its own exceptions only. */
  lemma LiveIsForThisFinding(f: Finding, repository: string, entries: seq<Entry>, today: int)
    requires RepositoryName(repository) && Acceptable(entries) && !Ambiguous(f.id)
    ensures Live(ReadAll(entries), Key(f.id, f.package, repository), today) <==>
            OwnCover(f, repository, ReadAll(entries), today)
  {
    var exceptions, key := ReadAll(entries), Key(f.id, f.package, repository);
    ForeignKeyExactly(f.id, f.package, repository);
    hide Acceptable, ReadAll, Key, KeyOf, RepositoryName, Ambiguous, IsFor;
    if OwnCover(f, repository, exceptions, today) {
      OwnIsLive(f, repository, exceptions, today);
    }
    if Live(exceptions, key, today) {
      var e :| e in exceptions && KeyOf(e) == key && today <= e.expires;
      assert !ForeignIn(entries, e, f.id, f.package, repository);
    }
  }

  /** A finding is excepted on a day although no exception of the accepted document is for it. */
  ghost predicate ForeignCover(f: Finding, repository: string, entries: seq<Entry>, today: int) {
    && Acceptable(entries)
    && Classify(f, repository, ReadAll(entries), today).0 == Excepted
    && !OwnCover(f, repository, ReadAll(entries), today)
  }

  /**
    Some accepted document excepts a serious finding with a fix without an exception for it exactly
    when the finding's identifier can be split at a bar behind a vulnerability identifier.
   */
  lemma ForeignCoverExactly(f: Finding, repository: string)
    requires Pressing(f) && RepositoryName(repository)
    ensures (exists entries, today :: ForeignCover(f, repository, entries, today)) <==> Ambiguous(f.id)
  {
    if exists entries, today :: ForeignCover(f, repository, entries, today) {
      var entries, today :| ForeignCover(f, repository, entries, today);
      ClassifyIs(f, repository, ReadAll(entries), today);
      if !Ambiguous(f.id) {
        LiveIsForThisFinding(f, repository, entries, today);
      }
    }
    if Ambiguous(f.id) {
      var k :| 0 <= k < |f.id| && SplitsAt(f.id, k);
      CollisionCovers(f, repository, k);
    }
  }

  lemma CollisionCovers(f: Finding, repository: string, k: nat)
    requires Pressing(f) && RepositoryName(repository) && k < |f.id| && SplitsAt(f.id, k)
    ensures var entries := Colliding(f.id, k, f.package, repository);
            |ReadAll(entries)| == 1 && ForeignCover(f, repository, entries, ReadAll(entries)[0].expires)
  {
    hide Acceptable, ReadAll, KeyOf, Key, RepositoryName, SplitsAt, Colliding, Classify, IsFor;
    var entries := Colliding(f.id, k, f.package, repository);
    SplitIsForeign(f.id, k, f.package, repository);
    var exceptions := ReadAll(entries);
    var e := exceptions[0];
    assert exceptions == [e];
    AcceptableIsDistinct(entries);
    assert Live(exceptions, Key(f.id, f.package, repository), e.expires);
    ClassifyIs(f, repository, exceptions, e.expires);
  }

  lemma AcceptableIsDistinct(entries: seq<Entry>)
    requires Acceptable(entries)
    ensures DistinctKeys(ReadAll(entries))
  {
  }

  /** A finding under `CVE-1|a` in package `b` is excepted by an accepted exception for `CVE-1` in package `a|b`. */
  lemma KeysCollide()
    ensures exists f: Finding, repository, entries, today ::
              && f.id == "CVE-1|a" && f.package == "b" && ForeignCover(f, repository, entries, today)
  {
    var f := Finding("CVE-1|a", Critical, "b", "1", "fixed", None, None);
    var repository := "a/b";
    CollidingId();
    SomeRepository();
    hide SplitsAt, RepositoryName, ForeignCover, Colliding;
    CollisionCovers(f, repository, 5);
  }

  lemma CollidingId()
    ensures SplitsAt("CVE-1|a", 5)
  {
    var id := "CVE-1";
    assert "CVE-1|a"[..5] == id;
    assert id[0] == 'C' && id[1] == 'V' && id[2] == 'E' && id[3] == '-' && id[4] == '1';
    assert Find(id, 0, '-') == 3 && WithoutBreak(id) == id;
  }

  lemma SomeRepository()
    ensures RepositoryName("a/b")
  {
    hide Find;
    var s := "a/b";
    assert WithoutBreak(s) == s;
    assert s[1] == '/' && s[0] != '/' && Find(s, 0, '/') == 1;
    assert s[..1] == "a" && s[2..] == "b";
    assert Find("a", 0, ':') == 1 && Find("b", 0, '/') == 1;
    assert "a"[..1] == "a" && "b"[..1] == "b";
    assert Joined("a", ".-") && Joined("b", "._-");
  }

  /** Approved exactly when every serious finding with a fix has a live exception. */
  ghost predicate Covered(fs: seq<Finding>, repository: string, exceptions: seq<Exception>, today: int) {
    forall f | f in fs && Pressing(f) :: Live(exceptions, Key(f.id, f.package, repository), today)
  }

  lemma ApprovedIffCovered(fs: seq<Finding>, repository: string, exceptions: seq<Exception>, today: int)
    requires DistinctKeys(exceptions)
    ensures Report(JudgeAll(fs, repository, exceptions, today)).approved <==> Covered(fs, repository, exceptions, today)
  {
    var judged := JudgeAll(fs, repository, exceptions, today);
    ReportConserves(fs, repository, exceptions, today);
    hide Report, Classify, Live, Key, BlockingFindings, DistinctKeys;
    forall i | 0 <= i < |fs|
      ensures Blocks(judged[i]) <==>
              Pressing(fs[i]) && !Live(exceptions, Key(fs[i].id, fs[i].package, repository), today)
    {
      ClassifyIs(fs[i], repository, exceptions, today);
    }
    forall f | f in judged
      ensures f in BlockingFindings(judged) <==> Blocks(f)
    {
      BlockingHas(judged, f);
    }
    if BlockingFindings(judged) != [] {
      var f := BlockingFindings(judged)[0];
      BlockingHas(judged, f);
      var i :| 0 <= i < |judged| && judged[i] == f;
      assert fs[i] in fs;
    }
    forall f | f in fs && BlockingFindings(judged) == [] && Pressing(f)
      ensures Live(exceptions, Key(f.id, f.package, repository), today)
    {
      var i :| 0 <= i < |fs| && fs[i] == f;
      assert judged[i] in judged;
    }
  }

  /** The keys used are exactly those of the covered serious findings with a fix. */
  lemma UsedKeysAre(fs: seq<Finding>, repository: string, exceptions: seq<Exception>, today: int, key: string)
    requires DistinctKeys(exceptions)
    ensures key in Report(JudgeAll(fs, repository, exceptions, today)).exceptionsUsed <==>
            && Live(exceptions, key, today)
            && exists f :: f in fs && Pressing(f) && Key(f.id, f.package, repository) == key
  {
    var judged := JudgeAll(fs, repository, exceptions, today);
    hide Classify, Live, Named, Key, DistinctKeys;
    forall i | 0 <= i < |fs|
      ensures var k := Key(fs[i].id, fs[i].package, repository);
              judged[i].disposition == Some(Excepted) && judged[i].exception.Some? <==>
              Pressing(fs[i]) && Live(exceptions, k, today)
      ensures judged[i].exception.Some? ==> judged[i].exception.value == Key(fs[i].id, fs[i].package, repository)
    {
      ClassifyIs(fs[i], repository, exceptions, today);
      LiveIsNamed(exceptions, Key(fs[i].id, fs[i].package, repository), today);
    }
    assert forall i | 0 <= i < |fs| :: fs[i] in fs && judged[i] in judged;
    UsedHas(judged, key);
    hide Report;
    if key in UsedKeys(judged) {
      var i :| 0 <= i < |judged| && judged[i].disposition == Some(Excepted) && judged[i].exception == Some(key);
      assert fs[i] in fs;
    }
    forall f | f in fs && Pressing(f) && Key(f.id, f.package, repository) == key && Live(exceptions, key, today)
      ensures key in UsedKeys(judged)
    {
      var i :| 0 <= i < |fs| && fs[i] == f;
      assert judged[i].exception == Some(key);
    }
  }

  lemma LiveIsNamed(exceptions: seq<Exception>, key: string, today: int)
    ensures Live(exceptions, key, today) ==> Named(exceptions, key)
  {
  }

  lemma UsedHas(fs: seq<Finding>, key: string)
    ensures key in Report(fs).exceptionsUsed <==> key in UsedKeys(fs)
    ensures key in UsedKeys(fs) <==>
            exists i :: 0 <= i < |fs| && fs[i].disposition == Some(Excepted) && fs[i].exception == Some(key)
  {
    hide SeverityCount, FixedCount, DispositionCount;
    if key in UsedKeys(fs) {
      var f :| f in fs && f.disposition == Some(Excepted) && f.exception.Some? && f.exception.value == key;
      var i :| 0 <= i < |fs| && fs[i] == f;
    }
  }

  // ------------------------------------------------------------------ applying the policy again

  /** Judging reads neither a disposition nor an exception: a second application changes nothing. */
  lemma ReapplyReproduces(fs: seq<Finding>, repository: string, exceptions: seq<Exception>, today: int)
    ensures var judged := JudgeAll(fs, repository, exceptions, today);
            JudgeAll(judged, repository, exceptions, today) == judged
  {
    var judged := JudgeAll(fs, repository, exceptions, today);
    var again := JudgeAll(judged, repository, exceptions, today);
    forall i | 0 <= i < |fs|
      ensures again[i] == judged[i]
    {
      assert Classify(judged[i], repository, exceptions, today) == Classify(fs[i], repository, exceptions, today);
    }
  }

  // ------------------------------------------------------------------ the exceptions as a set

  /** With distinct keys, the order of the exceptions does not matter. */
  lemma OrderIsIrrelevant(
    fs: seq<Finding>, repository: string, exceptions: seq<Exception>, others: seq<Exception>, today: int)
    requires DistinctKeys(exceptions) && DistinctKeys(others) && multiset(exceptions) == multiset(others)
    ensures JudgeAll(fs, repository, exceptions, today) == JudgeAll(fs, repository, others, today)
  {
    SameMembers(exceptions, others);
    hide Classify, Live, Named, Key, KeyOf, DistinctKeys;
    forall i | 0 <= i < |fs|
      ensures Classify(fs[i], repository, exceptions, today) == Classify(fs[i], repository, others, today)
    {
      var key := Key(fs[i].id, fs[i].package, repository);
      ClassifyIs(fs[i], repository, exceptions, today);
      ClassifyIs(fs[i], repository, others, today);
      SameCover(exceptions, others, key, today);
    }
  }

  lemma SameMembers(exceptions: seq<Exception>, others: seq<Exception>)
    requires multiset(exceptions) == multiset(others)
    ensures forall e :: e in exceptions <==> e in others
  {
    assert forall e :: e in exceptions <==> e in multiset(exceptions);
    assert forall e :: e in others <==> e in multiset(others);
  }

  lemma SameCover(exceptions: seq<Exception>, others: seq<Exception>, key: string, today: int)
    requires forall e :: e in exceptions <==> e in others
    ensures Live(exceptions, key, today) == Live(others, key, today) && Named(exceptions, key) == Named(others, key)
  {
    hide KeyOf;
  }

  // ------------------------------------------------------------------ monotonicity

  lemma LiveEarlier(exceptions: seq<Exception>, key: string, day: int, today: int)
    requires Live(exceptions, key, today) && day <= today
    ensures Live(exceptions, key, day)
  {
    hide KeyOf;
    var e :| e in exceptions && KeyOf(e) == key && today <= e.expires;
    assert day <= e.expires;
  }

  lemma EarlierDaysApprove(fs: seq<Finding>, repository: string, exceptions: seq<Exception>, day: int, today: int)
    requires DistinctKeys(exceptions) && day <= today
    requires Report(JudgeAll(fs, repository, exceptions, today)).approved
    ensures Report(JudgeAll(fs, repository, exceptions, day)).approved
  {
    hide Report, Live, Key, DistinctKeys;
    ApprovedIffCovered(fs, repository, exceptions, today);
    ApprovedIffCovered(fs, repository, exceptions, day);
    forall f | f in fs && Pressing(f)
      ensures Live(exceptions, Key(f.id, f.package, repository), day)
    {
      LiveEarlier(exceptions, Key(f.id, f.package, repository), day, today);
    }
  }

  /** An approval holds on another day exactly when every exception it used is still live on that day. */
  lemma ApprovalLasts(fs: seq<Finding>, repository: string, exceptions: seq<Exception>, today: int,
        others: seq<Exception>, day: int)
    requires DistinctKeys(exceptions) && DistinctKeys(others)
    requires Report(JudgeAll(fs, repository, exceptions, today)).approved
    ensures Report(JudgeAll(fs, repository, others, day)).approved <==>
            forall key | key in Report(JudgeAll(fs, repository, exceptions, today)).exceptionsUsed ::
              Live(others, key, day)
  {
    ApprovedIffCovered(fs, repository, exceptions, today);
    ApprovedIffCovered(fs, repository, others, day);
    var used := Report(JudgeAll(fs, repository, exceptions, today)).exceptionsUsed;
    hide Report, Live, Key, DistinctKeys;
    forall key
      ensures key in used <==> exists f :: f in fs && Pressing(f) && Key(f.id, f.package, repository) == key
    {
      UsedKeysAre(fs, repository, exceptions, today, key);
    }
  }

  /** Adding exceptions, in any place, never turns an approval into a block. */
  lemma MoreExceptionsApprove(
    fs: seq<Finding>, repository: string, exceptions: seq<Exception>, more: seq<Exception>, today: int)
    requires DistinctKeys(exceptions) && DistinctKeys(more) && forall e | e in exceptions :: e in more
    requires Report(JudgeAll(fs, repository, exceptions, today)).approved
    ensures Report(JudgeAll(fs, repository, more, today)).approved
  {
    hide Report, Key, DistinctKeys, KeyOf;
    ApprovedIffCovered(fs, repository, exceptions, today);
    ApprovedIffCovered(fs, repository, more, today);
  }
}
