/** The reviewed exceptions file: what is accepted, and what identifies an exception. */
module PolicyExceptions {
  import opened Wrappers
  import opened Strings
  import opened Trimming
  import opened ImageReference

  datatype Field = Text(text: string) | NotText

  datatype Entry = NotAnObject | Object(fields: map<string, Field>)

  /** A document that is no object counts as one of another version. */
  datatype Document = Document(versionOne: bool, exceptions: Option<seq<Entry>>)

  /** What the policy reads from an accepted entry; `expires` is a day number. */
  datatype Exception = Exception(id: string, package: string, repository: string, expires: int)

  const FIELDS: seq<string> := ["id", "package", "repository", "owner", "reviewer", "reason", "created", "expires"]

  const MAX_DAYS: nat := 90

  // ------------------------------------------------------------------ dates

  predicate Leap(year: int) {
    year % 4 == 0 && (year % 100 != 0 || year % 400 == 0)
  }

  function DaysInMonth(year: int, month: int): int {
    if month == 2 then if Leap(year) then 29 else 28
    else if month == 4 || month == 6 || month == 9 || month == 11 then 30 else 31
  }

  function DaysBefore(year: int, month: nat): int {
    if month <= 1 then 0 else DaysBefore(year, month - 1) + DaysInMonth(year, month - 1)
  }

  function Ordinal(year: int, month: nat, day: int): int {
    365 * (year - 1) + (year - 1) / 4 - (year - 1) / 100 + (year - 1) / 400 + DaysBefore(year, month) + day
  }

  function Number(s: string): nat
    requires Digits(s)
  {
    (if |s| == 1 then 0 else 10 * Number(s[..|s| - 1])) + (s[|s| - 1] as nat - '0' as nat)
  }

  function ParseDate(s: string): Option<int> {
    if |s| != 10 || s[4] != '-' || s[7] != '-' || !Digits(s[..4]) || !Digits(s[5..7]) || !Digits(s[8..]) then None
    else
      var year, month, day := Number(s[..4]), Number(s[5..7]), Number(s[8..]);
      if year >= 1 && 1 <= month <= 12 && 1 <= day <= DaysInMonth(year, month)
      then Some(Ordinal(year, month, day)) else None
  }

  // ------------------------------------------------------------------ identifiers

  predicate Upper(c: char) {
    'A' <= c <= 'Z'
  }

  predicate Alnum(c: char) {
    Upper(c) || 'a' <= c <= 'z' || IsDigit(c)
  }

  predicate Identifier(s: string) {
    var dash := Find(s, 0, '-');
    && 0 < dash < |s| - 1
    && Upper(s[0]) && (forall k | 0 < k < dash :: Upper(s[k]) || IsDigit(s[k]))
    && Alnum(s[dash + 1]) && (forall k | dash + 1 < k < |s| :: Alnum(s[k]) || s[k] == '-')
  }

  predicate VulnerabilityId(s: string) {
    Identifier(WithoutBreak(s))
  }

  function Lower(s: string): string {
    seq(|s|, i requires 0 <= i < |s| => if Upper(s[i]) then (s[i] as int + 32) as char else s[i])
  }

  // ------------------------------------------------------------------ one entry

  datatype Problem =
    | NoObject | FieldRequired(field: string) | UnsupportedFields | BadId | BadRepository | OwnReviewer
    | ReasonTooShort | BadCreated | BadExpires | ExpiresFirst | LastsTooLong | Duplicate

  predicate Given(fields: map<string, Field>, name: string) {
    name in fields && fields[name].Text? && Trim(fields[name].text) != ""
  }

  function FirstMissing(fields: map<string, Field>, names: seq<string>): Option<string> {
    if names == [] then None
    else if !Given(fields, names[0]) then Some(names[0])
    else FirstMissing(fields, names[1..])
  }

  lemma {:induction false} NothingMissing(fields: map<string, Field>, names: seq<string>)
    ensures FirstMissing(fields, names).None? <==> forall name | name in names :: Given(fields, name)
    decreases |names|
  {
    if names != [] {
      NothingMissing(fields, names[1..]);
      assert names == [names[0]] + names[1..];
    }
  }

  /** The text of a field; the empty text where there is none. */
  function At(fields: map<string, Field>, name: string): string {
    if name in fields && fields[name].Text? then fields[name].text else ""
  }

  function EntryProblem(entry: Entry): Option<Problem> {
    if entry.NotAnObject? then Some(NoObject)
    else
      var missing := FirstMissing(entry.fields, FIELDS);
      if missing.Some? then Some(FieldRequired(missing.value))
      else if exists name | name in entry.fields.Keys :: name !in FIELDS then Some(UnsupportedFields)
      else ContentProblem(entry.fields)
  }

  function ContentProblem(fields: map<string, Field>): Option<Problem> {
    var created, expires := ParseDate(At(fields, "created")), ParseDate(At(fields, "expires"));
    if !VulnerabilityId(At(fields, "id")) then Some(BadId)
    else if !RepositoryName(At(fields, "repository")) then Some(BadRepository)
    else if Lower(Trim(At(fields, "owner"))) == Lower(Trim(At(fields, "reviewer"))) then Some(OwnReviewer)
    else if |Trim(At(fields, "reason"))| < 20 then Some(ReasonTooShort)
    else if created.None? then Some(BadCreated)
    else if expires.None? then Some(BadExpires)
    else if expires.value <= created.value then Some(ExpiresFirst)
    else if expires.value - created.value > MAX_DAYS then Some(LastsTooLong)
    else None
  }

  /** What an accepted entry says. */
  predicate WellFormed(entry: Entry) {
    && entry.Object? && entry.fields.Keys == (set name | name in FIELDS)
    && (forall name | name in FIELDS :: Given(entry.fields, name))
    && VulnerabilityId(At(entry.fields, "id")) && RepositoryName(At(entry.fields, "repository"))
    && Lower(Trim(At(entry.fields, "owner"))) != Lower(Trim(At(entry.fields, "reviewer")))
    && |Trim(At(entry.fields, "reason"))| >= 20
    && Lasts(ParseDate(At(entry.fields, "created")), ParseDate(At(entry.fields, "expires")))
  }

  predicate Lasts(created: Option<int>, expires: Option<int>) {
    created.Some? && expires.Some? && 1 <= expires.value - created.value <= MAX_DAYS
  }

  lemma EntrySound(entry: Entry)
    ensures EntryProblem(entry).None? <==> WellFormed(entry)
  {
    hide FirstMissing, ParseDate, VulnerabilityId, RepositoryName, Lower, Trim, At, Given;
    if entry.Object? {
      NothingMissing(entry.fields, FIELDS);
      var names := set name | name in FIELDS;
      if forall name | name in FIELDS :: Given(entry.fields, name) {
        GivenIsThere(entry.fields);
        assert entry.fields.Keys == names <==> forall name | name in entry.fields.Keys :: name in FIELDS;
      }
    }
  }

  lemma GivenIsThere(fields: map<string, Field>)
    ensures forall name | Given(fields, name) :: name in fields
  {
  }

  function Day(date: Option<int>): int {
    if date.Some? then date.value else 0
  }

  function Read(entry: Entry): Exception {
    if entry.NotAnObject? then Exception("", "", "", 0)
    else
      Exception(At(entry.fields, "id"), At(entry.fields, "package"), At(entry.fields, "repository"),
                Day(ParseDate(At(entry.fields, "expires"))))
  }

  // ------------------------------------------------------------------ keys

  function Key(id: string, package: string, repository: string): string {
    id + "|" + package + "|" + repository
  }

  function KeyOf(e: Exception): string {
    Key(e.id, e.package, e.repository)
  }

  lemma IdWithoutBar(id: string)
    requires VulnerabilityId(id)
    ensures '|' !in id
  {
    var t := WithoutBreak(id);
    var dash := Find(t, 0, '-');
    forall k | 0 <= k < |t|
      ensures t[k] != '|'
    {
    }
    forall k | 0 <= k < |id|
      ensures id[k] != '|'
    {
      assert k < |t| ==> id[k] == t[k];
    }
  }

  lemma FirstBar(a: string, rest: string, b: string, tail: string)
    requires '|' !in a && '|' !in b && a + "|" + rest == b + "|" + tail
    ensures a == b && rest == tail
  {
    var s := a + "|" + rest;
    assert s[|a|] == '|' && s[|b|] == '|';
    assert forall k | 0 <= k < |a| :: s[k] == a[k] && a[k] in a;
    assert forall k | 0 <= k < |b| :: s[k] == b[k] && b[k] in b;
    assert a == s[..|a|] && b == s[..|a|];
    assert rest == s[|a| + 1..] && tail == s[|a| + 1..];
  }

  lemma NoBarAfter(a: string, x: string, j: nat)
    requires '|' !in x && j < |a + "|" + x| && (a + "|" + x)[j] == '|'
    ensures j <= |a|
  {
    var s := a + "|" + x;
    assert forall k | |a| < k < |s| :: s[k] == x[k - |a| - 1] && x[k - |a| - 1] in x;
  }

  lemma LastBar(a: string, x: string, b: string, y: string)
    requires '|' !in x && '|' !in y && a + "|" + x == b + "|" + y
    ensures a == b && x == y
  {
    var s := a + "|" + x;
    NoBarAfter(a, x, |b|);
    NoBarAfter(b, y, |a|);
    assert a == s[..|a|] && b == s[..|a|];
    assert x == s[|a| + 1..] && y == s[|a| + 1..];
  }

  /** Without a bar in the identifier and in the repository, a key names one triple. */
  lemma KeyNamesTriple(id: string, package: string, repository: string, id': string, package': string,
        repository': string)
    requires '|' !in id && '|' !in id' && '|' !in repository && '|' !in repository'
    ensures Key(id, package, repository) == Key(id', package', repository') <==>
            id == id' && package == package' && repository == repository'
  {
    if Key(id, package, repository) == Key(id', package', repository') {
      LastBar(id + "|" + package, repository, id' + "|" + package', repository');
      FirstBar(id, package, id', package');
    }
  }

  /** Some prefix of the identifier, up to a bar, is itself a vulnerability identifier. */
  ghost predicate Ambiguous(id: string) {
    exists k :: 0 <= k < |id| && SplitsAt(id, k)
  }

  predicate SplitsAt(id: string, k: nat)
    requires k < |id|
  {
    id[k] == '|' && VulnerabilityId(id[..k])
  }

  predicate IsFor(e: Exception, id: string, package: string, repository: string) {
    e.id == id && e.package == package && e.repository == repository
  }

  /** An exception for something else carries this key only if the identifier can be split. */
  lemma ForeignKeySplits(e: Exception, id: string, package: string, repository: string)
    requires Sound(e) && '|' !in repository && KeyOf(e) == Key(id, package, repository)
    ensures IsFor(e, id, package, repository) || Ambiguous(id)
  {
    var left, right := e.id + "|" + e.package, id + "|" + package;
    LastBar(left, e.repository, right, repository);
    var n := |e.id|;
    assert left[n] == '|' && left[..n] == e.id;
    assert forall k | 0 <= k < n :: left[k] == e.id[k] && e.id[k] in e.id;
    assert right[|id|] == '|' && forall k | 0 <= k < |id| :: right[k] == id[k];
    if n < |id| {
      assert id[..n] == right[..n] == e.id;
      assert SplitsAt(id, n);
    } else {
      assert n == |id|;
      assert e.id == right[..n] == id;
      assert e.package == left[n + 1..] && package == right[n + 1..];
    }
  }

  lemma SplitKey(id: string, k: nat, package: string, repository: string)
    requires k < |id| && id[k] == '|'
    ensures Key(id[..k], id[k + 1..] + "|" + package, repository) == Key(id, package, repository)
  {
    assert id == id[..k] + "|" + id[k + 1..];
  }

  // ------------------------------------------------------------------ the whole file

  datatype Validation =
    | Valid(entries: seq<Exception>)
    | BadDocument
    | NoList
    | Rejected(index: nat, problem: Problem)

  ghost predicate AllWellFormed(entries: seq<Entry>) {
    forall i | 0 <= i < |entries| :: WellFormed(entries[i])
  }

  function ReadAll(entries: seq<Entry>): (read: seq<Exception>)
    ensures |read| == |entries| && forall i | 0 <= i < |entries| :: read[i] == Read(entries[i])
  {
    if entries == [] then [] else ReadAll(entries[..|entries| - 1]) + [Read(entries[|entries| - 1])]
  }

  predicate DistinctKeys(exceptions: seq<Exception>) {
    forall i, j | 0 <= i < j < |exceptions| :: KeyOf(exceptions[i]) != KeyOf(exceptions[j])
  }

  ghost predicate Acceptable(entries: seq<Entry>) {
    AllWellFormed(entries) && DistinctKeys(ReadAll(entries))
  }

  ghost predicate Repeats(entries: seq<Entry>, index: nat)
    requires index < |entries|
  {
    exists k | 0 <= k < index :: KeyOf(Read(entries[k])) == KeyOf(Read(entries[index]))
  }

  /** Accepts exactly the documents of well-formed entries with distinct keys, and names the first offender. */
  method ValidateExceptions(document: Document) returns (r: Validation)
    ensures r == BadDocument <==> !document.versionOne
    ensures r == NoList <==> document.versionOne && document.exceptions.None?
    ensures r.Valid? <==> document.versionOne && document.exceptions.Some? && Acceptable(document.exceptions.value)
    ensures r.Valid? ==> r.entries == ReadAll(document.exceptions.value)
    ensures r.Rejected? ==>
              && document.exceptions.Some? && r.index < |document.exceptions.value|
              && Acceptable(document.exceptions.value[..r.index])
              && if r.problem == Duplicate
                 then WellFormed(document.exceptions.value[r.index]) && Repeats(document.exceptions.value, r.index)
                 else EntryProblem(document.exceptions.value[r.index]) == Some(r.problem)
  {
    if !document.versionOne {
      return BadDocument;
    }
    if document.exceptions.None? {
      return NoList;
    }
    hide WellFormed, EntryProblem, Read, KeyOf, ReadAll, Acceptable, Repeats, KeySet;
    var entries := document.exceptions.value;
    var read: seq<Exception>, seen: set<string> := [], {};
    NothingRead(entries);
    for index := 0 to |entries|
      invariant Acceptable(entries[..index]) && read == ReadAll(entries[..index])
      invariant seen == KeySet(read)
    {
      var problem := EntryProblem(entries[index]);
      EntrySound(entries[index]);
      ProblemIsNotDuplicate(entries[index]);
      OneMore(entries, index);
      if problem.Some? {
        return Rejected(index, problem.value);
      }
      var key := KeyOf(Read(entries[index]));
      if key in seen {
        SeenBefore(entries, index, seen, key);
        return Rejected(index, Duplicate);
      }
      NotSeenBefore(entries, index, seen, key);
      KeySetGrows(read, Read(entries[index]));
      seen := seen + {key};
      read := read + [Read(entries[index])];
    }
    assert entries[..|entries|] == entries;
    r := Valid(read);
  }

  lemma NothingRead(entries: seq<Entry>)
    ensures Acceptable(entries[..0]) && ReadAll(entries[..0]) == [] && KeySet([]) == {}
  {
  }

  /** One more entry is acceptable exactly when it is well-formed and repeats no earlier key. */
  lemma OneMore(entries: seq<Entry>, index: nat)
    requires index < |entries| && Acceptable(entries[..index])
    ensures ReadAll(entries[..index + 1]) == ReadAll(entries[..index]) + [Read(entries[index])]
    ensures Acceptable(entries[..index + 1]) <==> WellFormed(entries[index]) && !Repeats(entries, index)
    ensures !WellFormed(entries[index]) || Repeats(entries, index) ==> !Acceptable(entries)
  {
    hide WellFormed, Read, KeyOf;
    assert entries[..index + 1][..index] == entries[..index];
    var all := ReadAll(entries);
    var more := ReadAll(entries[..index + 1]);
    assert forall k | 0 <= k <= index :: all[k] == Read(entries[k]) == more[k];
    assert entries[..index + 1][index] == entries[index];
  }

  lemma SeenBefore(entries: seq<Entry>, index: nat, seen: set<string>, key: string)
    requires index < |entries| && key == KeyOf(Read(entries[index])) && key in seen
    requires seen == KeySet(ReadAll(entries[..index]))
    ensures Repeats(entries, index)
  {
    hide Read, KeyOf;
    var read := ReadAll(entries[..index]);
    var e :| e in read && KeyOf(e) == key;
    var j :| 0 <= j < index && read[j] == e;
    assert ReadAll(entries[..index])[j] == Read(entries[j]);
  }

  lemma NotSeenBefore(entries: seq<Entry>, index: nat, seen: set<string>, key: string)
    requires index < |entries| && key == KeyOf(Read(entries[index])) && key !in seen
    requires seen == KeySet(ReadAll(entries[..index]))
    ensures !Repeats(entries, index)
  {
    hide Read, KeyOf;
    forall j | 0 <= j < index
      ensures KeyOf(Read(entries[j])) != key
    {
      assert ReadAll(entries[..index])[j] == Read(entries[j]);
      assert ReadAll(entries[..index])[j] in ReadAll(entries[..index]);
    }
  }

  function KeySet(exceptions: seq<Exception>): set<string> {
    set e | e in exceptions :: KeyOf(e)
  }

  lemma KeySetGrows(exceptions: seq<Exception>, e: Exception)
    ensures KeySet(exceptions + [e]) == KeySet(exceptions) + {KeyOf(e)}
  {
    hide KeyOf;
    assert forall x :: x in exceptions + [e] <==> x in exceptions || x == e;
  }

  lemma ProblemIsNotDuplicate(entry: Entry)
    ensures EntryProblem(entry) != Some(Duplicate)
  {
    hide FirstMissing, ParseDate, VulnerabilityId, RepositoryName, Lower, Trim, At;
  }

  /** What acceptance says about each exception. */
  predicate Sound(e: Exception) {
    VulnerabilityId(e.id) && RepositoryName(e.repository) && '|' !in e.id && '|' !in e.repository
  }

  lemma RepositoryNameWithoutBar(repository: string)
    requires RepositoryName(repository)
    ensures '|' !in repository
  {
    RepositoryWithout(WithoutBreak(repository), '|');
    hide Repository;
    forall k | 0 <= k < |repository|
      ensures repository[k] != '|'
    {
      if k < |WithoutBreak(repository)| {
        assert repository[k] == WithoutBreak(repository)[k];
      }
    }
  }

  lemma ReadIsSound(entry: Entry)
    requires WellFormed(entry)
    ensures Sound(Read(entry))
  {
    hide VulnerabilityId, RepositoryName, ParseDate, Trim, Lower, At, Given, Day, Lasts;
    IdWithoutBar(At(entry.fields, "id"));
    RepositoryNameWithoutBar(At(entry.fields, "repository"));
  }

  lemma AcceptedAreSound(entries: seq<Entry>)
    requires AllWellFormed(entries)
    ensures forall e | e in ReadAll(entries) :: Sound(e)
  {
    hide WellFormed, Read, Sound;
    forall e | e in ReadAll(entries)
      ensures Sound(e)
    {
      var i :| 0 <= i < |entries| && ReadAll(entries)[i] == e;
      ReadIsSound(entries[i]);
    }
  }

  // ------------------------------------------------------------------ a document for any triple

  /** An entry that is accepted for any identifier, package and repository of the right form. */
  function EntryFor(id: string, package: string, repository: string): (entry: Entry)
    ensures entry.Object?
  {
    Object(map["id" := Text(id), "package" := Text(package), "repository" := Text(repository),
               "owner" := Text("a"), "reviewer" := Text("b"), "reason" := Text("accepted until fixed"),
               "created" := Text("2026-01-01"), "expires" := Text("2026-01-02")])
  }

  lemma YearNumber()
    ensures Digits("2026") && Number("2026") == 2026
  {
    assert "2026"[..3] == "202" && "202"[..2] == "20" && "20"[..1] == "2";
    assert Number("2") == 2 && Number("20") == 20 && Number("202") == 202;
  }

  lemma DateParses(day: string, n: nat)
    requires |day| == 2 && day[0] == '0' && '1' <= day[1] <= '9' && n == day[1] as nat - '0' as nat
    ensures ParseDate("2026-01-" + day) == Some(Ordinal(2026, 1, n))
  {
    var s := "2026-01-" + day;
    assert s[..4] == "2026" && s[5..7] == "01" && s[8..] == day && s[4] == '-' && s[7] == '-';
    YearNumber();
    assert "01"[..1] == "0" && Number("0") == 0 && Number("01") == 1;
    assert day[..1] == "0" && Number(day) == n;
  }

  lemma DatesLast()
    ensures Lasts(ParseDate("2026-01-01"), ParseDate("2026-01-02"))
  {
    assert "2026-01-01" == "2026-01-" + "01" && "2026-01-02" == "2026-01-" + "02";
    DateParses("01", 1);
    DateParses("02", 2);
    hide ParseDate;
  }

  lemma IdNotBlank(id: string)
    requires VulnerabilityId(id)
    ensures Trim(id) != ""
  {
    var t := WithoutBreak(id);
    assert id[0] == t[0] && Upper(t[0]);
    NotBlank(id, 0);
  }

  lemma RepositoryNotBlank(repository: string)
    requires RepositoryName(repository)
    ensures Trim(repository) != ""
  {
    var t := WithoutBreak(repository);
    var slash := Find(t, 0, '/');
    var host := t[..slash];
    assert host[..Find(host, 0, ':')][0] == t[0] == repository[0];
    NotBlank(repository, 0);
  }

  lemma FixedTextsNotBlank()
    ensures Trim("a") == "a" && Trim("b") == "b" && |Trim("accepted until fixed")| == 20
    ensures Trim("2026-01-01") != "" && Trim("2026-01-02") != "" && Lower("a") != Lower("b")
  {
    TrimNothing("a");
    TrimNothing("b");
    TrimNothing("accepted until fixed");
    TrimNothing("2026-01-01");
    TrimNothing("2026-01-02");
    assert Lower("a")[0] == 'a' && Lower("b")[0] == 'b';
  }

  lemma EightFields(name: string)
    ensures name in FIELDS <==> name == "id" || name == "package" || name == "repository" || name == "owner"
                                || name == "reviewer" || name == "reason" || name == "created" || name == "expires"
  {
    assert FIELDS[0] == "id" && FIELDS[1] == "package" && FIELDS[2] == "repository" && FIELDS[3] == "owner";
    assert FIELDS[4] == "reviewer" && FIELDS[5] == "reason" && FIELDS[6] == "created" && FIELDS[7] == "expires";
  }

  lemma EntryForTexts(id: string, package: string, repository: string)
    ensures var fields := EntryFor(id, package, repository).fields;
            && At(fields, "id") == id && At(fields, "package") == package && At(fields, "repository") == repository
            && At(fields, "owner") == "a" && At(fields, "reviewer") == "b"
            && At(fields, "reason") == "accepted until fixed"
            && At(fields, "created") == "2026-01-01" && At(fields, "expires") == "2026-01-02"
  {
  }

  lemma EntryForFields(id: string, package: string, repository: string)
    ensures var fields := EntryFor(id, package, repository).fields;
            && fields.Keys == (set name | name in FIELDS)
            && forall name | name in FIELDS :: name in fields && fields[name] == Text(At(fields, name))
  {
    var fields := EntryFor(id, package, repository).fields;
    assert forall name | name in fields :: fields[name].Text?;
    assert fields.Keys == {"id", "package", "repository", "owner", "reviewer", "reason", "created", "expires"};
    hide EntryFor;
    forall name
      ensures name in fields.Keys <==> name in FIELDS
    {
      EightFields(name);
    }
  }

  lemma EntryForIsAccepted(id: string, package: string, repository: string)
    requires VulnerabilityId(id) && RepositoryName(repository) && Trim(package) != ""
    ensures WellFormed(EntryFor(id, package, repository))
    ensures IsFor(Read(EntryFor(id, package, repository)), id, package, repository)
  {
    EntryForFields(id, package, repository);
    EntryForTexts(id, package, repository);
    hide EntryFor, At, VulnerabilityId, RepositoryName, ParseDate, Trim, Lower;
    IdNotBlank(id);
    RepositoryNotBlank(repository);
    FixedTextsNotBlank();
    DatesLast();
    var fields := EntryFor(id, package, repository).fields;
    forall name | name in FIELDS
      ensures Given(fields, name)
    {
      EightFields(name);
      assert fields[name] == Text(At(fields, name));
    }
    hide Given;
  }

  lemma OneEntryIsAcceptable(entry: Entry)
    requires WellFormed(entry)
    ensures Acceptable([entry]) && ReadAll([entry]) == [Read(entry)]
  {
    hide WellFormed, Read, KeyOf;
    assert ReadAll([entry])[0] == Read([entry][0]);
  }

  /** The key of a triple is carried by some accepted exception for something else. */
  ghost predicate ForeignKey(id: string, package: string, repository: string) {
    exists entries, e :: ForeignIn(entries, e, id, package, repository)
  }

  ghost predicate ForeignIn(entries: seq<Entry>, e: Exception, id: string, package: string, repository: string) {
    Acceptable(entries) && e in ReadAll(entries)
    && KeyOf(e) == Key(id, package, repository) && !IsFor(e, id, package, repository)
  }

  /**
    An accepted document may hold an exception for something else under the key of a finding exactly
    when the finding's identifier can be split at a bar behind a vulnerability identifier.
   */
  lemma ForeignKeyExactly(id: string, package: string, repository: string)
    requires RepositoryName(repository)
    ensures ForeignKey(id, package, repository) <==> Ambiguous(id)
  {
    RepositoryNameWithoutBar(repository);
    hide Acceptable, Sound, KeyOf, RepositoryName, VulnerabilityId;
    if ForeignKey(id, package, repository) {
      var entries, e :| ForeignIn(entries, e, id, package, repository);
      AcceptableIsSound(entries, e);
      ForeignKeySplits(e, id, package, repository);
    }
    if Ambiguous(id) {
      var k :| 0 <= k < |id| && SplitsAt(id, k);
      SplitIsForeign(id, k, package, repository);
    }
  }

  lemma AcceptableIsSound(entries: seq<Entry>, e: Exception)
    requires Acceptable(entries) && e in ReadAll(entries)
    ensures Sound(e)
  {
    AcceptedAreSound(entries);
    hide Sound, ReadAll, DistinctKeys;
  }

  /** The document whose one exception collides with a finding at this bar. */
  function Colliding(id: string, k: nat, package: string, repository: string): seq<Entry>
    requires k < |id|
  {
    [EntryFor(id[..k], id[k + 1..] + "|" + package, repository)]
  }

  lemma SplitIsForeign(id: string, k: nat, package: string, repository: string)
    requires k < |id| && SplitsAt(id, k) && RepositoryName(repository)
    ensures var entries := Colliding(id, k, package, repository);
            |ReadAll(entries)| == 1 && ForeignIn(entries, ReadAll(entries)[0], id, package, repository)
  {
    var rest := id[k + 1..] + "|" + package;
    NotBlank(rest, |id[k + 1..]|);
    SplitKey(id, k, package, repository);
    hide VulnerabilityId, RepositoryName, EntryFor, WellFormed, Read, Acceptable, Trim, Key;
    EntryForIsAccepted(id[..k], rest, repository);
    OneEntryIsAcceptable(EntryFor(id[..k], rest, repository));
  }
}
