/** Which entries of the exceptions file are accepted, in the texts of their fields. */
module PolicyEntries {
  import opened Wrappers
  import opened Strings
  import opened Trimming
  import opened ImageReference
  import opened ImageGrammar
  import opened PolicyExceptions
  import opened PolicyDates

  // ------------------------------------------------------------------ identifiers and names

  ghost predicate IdParts(s: string, head: string, tail: string) {
    && s == head + "-" + tail && |head| >= 1 && |tail| >= 1
    && 'A' <= head[0] <= 'Z' && (forall k | 0 <= k < |head| :: 'A' <= head[k] <= 'Z' || '0' <= head[k] <= '9')
    && tail[0] != '-'
    && forall k | 0 <= k < |tail| ::
         'A' <= tail[k] <= 'Z' || 'a' <= tail[k] <= 'z' || '0' <= tail[k] <= '9' || tail[k] == '-'
  }

  /** Capitals and digits, a dash, and letters, digits and dashes, in front of at most one line break. */
  ghost predicate IdText(s: string) {
    exists t, head, tail :: (s == t || s == t + "\n") && IdParts(t, head, tail)
  }

  lemma IdPartsFound(s: string, head: string, tail: string)
    requires IdParts(s, head, tail)
    ensures Identifier(s) && WithoutBreak(s) == s && WithoutBreak(s + "\n") == s
  {
    FindIs(head, '-', tail);
    assert s[0] == head[0] && s[|s| - 1] == tail[|tail| - 1] && s[|head| + 1] == tail[0];
    assert forall k | 0 <= k < |head| :: s[k] == head[k];
    assert forall k | |head| < k < |s| :: s[k] == tail[k - |head| - 1];
  }

  lemma IdIs(s: string)
    ensures VulnerabilityId(s) <==> IdText(s)
  {
    var t := WithoutBreak(s);
    assert s == t || s == t + "\n";
    if VulnerabilityId(s) {
      var dash := Find(t, 0, '-');
      assert t == t[..dash] + "-" + t[dash + 1..];
      assert IdParts(t, t[..dash], t[dash + 1..]);
    }
    if u, head, tail :| (s == u || s == u + "\n") && IdParts(u, head, tail) {
      IdPartsFound(u, head, tail);
      hide Identifier, IdParts;
    }
  }

  ghost predicate NameText(s: string) {
    exists t :: (s == t || s == t + "\n") && RepositoryText(t)
  }

  lemma RepositoryEnds(s: string)
    requires Repository(s)
    ensures WithoutBreak(s) == s && WithoutBreak(s + "\n") == s
  {
    RepositoryWithout(s, '\n');
    assert s != "";
    hide Repository;
    assert s[|s| - 1] in s;
  }

  lemma NameIs(s: string)
    ensures RepositoryName(s) <==> NameText(s)
  {
    var t := WithoutBreak(s);
    assert s == t || s == t + "\n";
    RepositoryIs(t);
    hide Repository, RepositoryText;
    if u :| (s == u || s == u + "\n") && RepositoryText(u) {
      RepositoryIs(u);
      RepositoryEnds(u);
    }
  }

  /** The same text but for the case of its letters. */
  ghost predicate SameLetters(a: string, b: string) {
    |a| == |b| && forall k | 0 <= k < |a| ::
      a[k] == b[k] || ('A' <= a[k] <= 'Z' && b[k] as int == a[k] as int + 32)
      || ('A' <= b[k] <= 'Z' && a[k] as int == b[k] as int + 32)
  }

  lemma LowerIs(a: string, b: string)
    ensures Lower(a) == Lower(b) <==> SameLetters(a, b)
  {
    if Lower(a) == Lower(b) {
      forall k | 0 <= k < |a|
        ensures a[k] == b[k] || ('A' <= a[k] <= 'Z' && b[k] as int == a[k] as int + 32)
                || ('A' <= b[k] <= 'Z' && a[k] as int == b[k] as int + 32)
      {
        assert Lower(a)[k] == Lower(b)[k];
      }
    }
    if SameLetters(a, b) {
      forall k | 0 <= k < |a|
        ensures Lower(a)[k] == Lower(b)[k]
      {
      }
    }
  }

  // ------------------------------------------------------------------ one entry

  ghost predicate Reviewed(owner: string, reviewer: string) {
    exists o, r :: Trimmed(owner, o) && Trimmed(reviewer, r) && o != "" && r != "" && !SameLetters(o, r)
  }

  ghost predicate Reasoned(reason: string) {
    exists r :: Trimmed(reason, r) && |r| >= 20
  }

  const EIGHT_FIELDS: set<string> :=
    {"id", "package", "repository", "owner", "reviewer", "reason", "created", "expires"}

  /** The entry has these eight fields and no other, and each is a text that says something. */
  ghost predicate Complete(entry: Entry) {
    && entry.Object? && entry.fields.Keys == EIGHT_FIELDS
    && forall name | name in entry.fields :: entry.fields[name].Text? && Filled(entry.fields[name].text)
  }

  /** What the texts of an accepted entry are. */
  ghost predicate Sensible(
    id: string, repository: string, owner: string, reviewer: string, reason: string, created: string, expires: string) {
    && IdText(id) && NameText(repository) && Reviewed(owner, reviewer) && Reasoned(reason) && Lasting(created, expires)
  }

  ghost predicate AcceptedEntry(entry: Entry) {
    && Complete(entry)
    && var f := entry.fields;
       Sensible(f["id"].text, f["repository"].text, f["owner"].text, f["reviewer"].text, f["reason"].text,
                f["created"].text, f["expires"].text)
  }

  lemma ReasonedIs(s: string)
    ensures Reasoned(s) <==> |Trim(s)| >= 20
  {
    TrimIs(s);
    hide Trimmed, Trim;
    forall r | Trimmed(s, r)
      ensures r == Trim(s)
    {
      TrimmedOnce(s, r, Trim(s));
    }
  }

  lemma ReviewedIs(owner: string, reviewer: string)
    ensures Reviewed(owner, reviewer) <==>
              Trim(owner) != "" && Trim(reviewer) != "" && Lower(Trim(owner)) != Lower(Trim(reviewer))
  {
    TrimIs(owner);
    TrimIs(reviewer);
    LowerIs(Trim(owner), Trim(reviewer));
    hide Trimmed, Trim, Lower, SameLetters;
    forall o | Trimmed(owner, o)
      ensures o == Trim(owner)
    {
      TrimmedOnce(owner, o, Trim(owner));
    }
    forall r | Trimmed(reviewer, r)
      ensures r == Trim(reviewer)
    {
      TrimmedOnce(reviewer, r, Trim(reviewer));
    }
  }

  lemma FieldsAre()
    ensures (set name | name in FIELDS) == EIGHT_FIELDS
  {
    forall name
      ensures name in FIELDS <==> name in EIGHT_FIELDS
    {
      EightFields(name);
    }
  }

  lemma FieldIs(fields: map<string, Field>, name: string)
    ensures Given(fields, name) <==> name in fields && fields[name].Text? && Filled(fields[name].text)
    ensures name in fields && fields[name].Text? ==> At(fields, name) == fields[name].text
  {
    if name in fields && fields[name].Text? {
      FilledIs(fields[name].text);
    }
    hide Filled, Trim;
  }

  lemma CompleteIs(entry: Entry)
    requires entry.Object?
    ensures Complete(entry) <==>
            && entry.fields.Keys == (set name | name in FIELDS)
            && forall name | name in FIELDS :: Given(entry.fields, name)
  {
    FieldsAre();
    hide EIGHT_FIELDS, FIELDS, Given, Filled, At;
    forall name: string
      ensures Given(entry.fields, name) <==>
              name in entry.fields && entry.fields[name].Text? && Filled(entry.fields[name].text)
    {
      FieldIs(entry.fields, name);
    }
  }

  lemma SensibleIs(
    id: string, repository: string, owner: string, reviewer: string, reason: string, created: string, expires: string)
    requires Trim(owner) != "" && Trim(reviewer) != ""
    ensures Sensible(id, repository, owner, reviewer, reason, created, expires) <==>
              VulnerabilityId(id) && RepositoryName(repository)
              && Lower(Trim(owner)) != Lower(Trim(reviewer)) && |Trim(reason)| >= 20
              && Lasts(ParseDate(created), ParseDate(expires))
  {
    IdIs(id);
    NameIs(repository);
    ReviewedIs(owner, reviewer);
    ReasonedIs(reason);
    LastsIs(created, expires);
    hide VulnerabilityId, IdText, RepositoryName, NameText, Lower, Trim, Reviewed, Reasoned, Lasting, Lasts, ParseDate;
  }

  /** The checks find no problem with an entry exactly when it is complete and its texts are sensible. */
  lemma EntryIs(entry: Entry)
    ensures EntryProblem(entry).None? <==> AcceptedEntry(entry)
  {
    EntrySound(entry);
    hide EntryProblem;
    if entry.Object? {
      CompleteIs(entry);
      if Complete(entry) {
        CompleteEntry(entry);
      }
    }
    hide Complete, Sensible, Given, VulnerabilityId, RepositoryName, Lower, Trim, Lasts, ParseDate, At;
  }

  lemma CompleteEntry(entry: Entry)
    requires Complete(entry)
    ensures WellFormed(entry) <==> AcceptedEntry(entry)
  {
    var f := entry.fields;
    CompleteIs(entry);
    FieldIs(f, "id");
    FieldIs(f, "repository");
    FieldIs(f, "owner");
    FieldIs(f, "reviewer");
    FieldIs(f, "reason");
    FieldIs(f, "created");
    FieldIs(f, "expires");
    FilledIs(f["owner"].text);
    FilledIs(f["reviewer"].text);
    SensibleIs(f["id"].text, f["repository"].text, f["owner"].text, f["reviewer"].text, f["reason"].text,
               f["created"].text, f["expires"].text);
    hide Sensible, Given, VulnerabilityId, RepositoryName, Lower, Trim, Lasts, ParseDate, At, Filled;
  }

  /** The exception is read from the texts; it lasts to the number of its written day. */
  lemma ReadIs(entry: Entry)
    requires AcceptedEntry(entry)
    ensures var f, e := entry.fields, Read(entry);
            && e.id == f["id"].text && e.package == f["package"].text && e.repository == f["repository"].text
            && exists d :: Written(f["expires"].text, d) && IsDay(d) && e.expires == NumberOf(d)
  {
    var f := entry.fields;
    FieldIs(f, "id");
    FieldIs(f, "package");
    FieldIs(f, "repository");
    FieldIs(f, "expires");
    LastsIs(f["created"].text, f["expires"].text);
    ParseDateIs(f["expires"].text);
    hide At, Filled, Given, ParseDate, Written, IsDay, NumberOf, IdText, NameText, Reviewed, Reasoned, Lasting;
  }
}
