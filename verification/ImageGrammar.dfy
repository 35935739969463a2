/** The texts that the gate's patterns for image references describe, put together from their parts. */
module ImageGrammar {
  import opened Wrappers
  import opened Strings
  import opened ImageReference

  /** At least one small letter or digit, and nothing else. */
  ghost predicate Word(s: string) {
    |s| >= 1 && forall k | 0 <= k < |s| :: 'a' <= s[k] <= 'z' || '0' <= s[k] <= '9'
  }

  /** Words with one separator between each two. */
  ghost function Weave(words: seq<string>, marks: string): string
    requires |words| == |marks| + 1
  {
    if marks == "" then words[0] else words[0] + [marks[0]] + Weave(words[1..], marks[1..])
  }

  ghost predicate WovenFrom(s: string, separators: string, words: seq<string>, marks: string) {
    && |words| == |marks| + 1 && s == Weave(words, marks)
    && (forall i | 0 <= i < |words| :: Word(words[i])) && (forall i | 0 <= i < |marks| :: marks[i] in separators)
  }

  ghost predicate Woven(s: string, separators: string) {
    exists words, marks :: WovenFrom(s, separators, words, marks)
  }

  ghost predicate Port(s: string) {
    |s| >= 1 && forall k | 0 <= k < |s| :: '0' <= s[k] <= '9'
  }

  ghost predicate HostText(s: string) {
    Woven(s, ".-") || exists name, port :: s == name + ":" + port && Woven(name, ".-") && Port(port)
  }

  /** Components, each in front of it a slash. */
  ghost function Slashed(parts: seq<string>): string {
    if parts == [] then "" else "/" + parts[0] + Slashed(parts[1..])
  }

  ghost predicate PathParts(parts: seq<string>) {
    |parts| >= 1 && forall i | 0 <= i < |parts| :: Woven(parts[i], "._-")
  }

  ghost predicate RepositoryFrom(s: string, host: string, parts: seq<string>) {
    HostText(host) && PathParts(parts) && s == host + Slashed(parts)
  }

  /** A host, perhaps a port, and one or more path components. */
  ghost predicate RepositoryText(s: string) {
    exists host, parts :: RepositoryFrom(s, host, parts)
  }

  ghost predicate ReferenceFrom(s: string, repository: string, hex: string) {
    && RepositoryText(repository) && s == repository + "@" + ("sha256:" + hex) && |hex| == 64
    && forall k | 0 <= k < |hex| :: '0' <= hex[k] <= '9' || 'a' <= hex[k] <= 'f'
  }

  /** A repository and a SHA-256 digest of 64 small hexadecimal digits. */
  ghost predicate ReferenceText(s: string) {
    exists repository, hex :: ReferenceFrom(s, repository, hex)
  }

  // ------------------------------------------------------------------ words and separators

  predicate Apart(separators: string) {
    forall c | c in separators :: !LowerAlnum(c)
  }

  function WordEnd(s: string, i: nat): (k: nat)
    requires i <= |s|
    ensures i <= k <= |s| && (k < |s| ==> !LowerAlnum(s[k])) && forall j | i <= j < k :: LowerAlnum(s[j])
    decreases |s| - i
  {
    if i == |s| || !LowerAlnum(s[i]) then i else WordEnd(s, i + 1)
  }

  lemma {:induction false} JoinedWeaves(s: string, separators: string)
    requires Joined(s, separators)
    ensures Woven(s, separators)
    decreases |s|
  {
    var k := WordEnd(s, 0);
    if k == |s| {
      assert WovenFrom(s, separators, [s], "");
    } else {
      var rest := s[k + 1..];
      assert LowerAlnum(s[k + 1]);
      forall j | 0 < j < |rest|
        ensures LowerAlnum(rest[j - 1]) || LowerAlnum(rest[j])
      {
        assert rest[j - 1] == s[k + j] && rest[j] == s[k + 1 + j];
      }
      JoinedWeaves(rest, separators);
      var words, marks :| WovenFrom(rest, separators, words, marks);
      assert s == s[..k] + [s[k]] + rest;
      assert ([s[..k]] + words)[1..] == words && ([s[k]] + marks)[1..] == marks;
      assert WovenFrom(s, separators, [s[..k]] + words, [s[k]] + marks);
    }
  }

  lemma {:induction false} WeaveIsJoined(words: seq<string>, marks: string, separators: string)
    requires |words| == |marks| + 1 && (forall i | 0 <= i < |words| :: Word(words[i]))
    requires forall i | 0 <= i < |marks| :: marks[i] in separators
    ensures Joined(Weave(words, marks), separators)
    decreases |marks|
  {
    if marks != "" {
      WeaveIsJoined(words[1..], marks[1..], separators);
      var rest := Weave(words[1..], marks[1..]);
      JoinedAfterWord(words[0], marks[0], rest, separators);
    }
  }

  lemma JoinedAfterWord(word: string, mark: char, rest: string, separators: string)
    requires Word(word) && mark in separators && Joined(rest, separators)
    ensures Joined(word + [mark] + rest, separators)
  {
    var s := word + [mark] + rest;
    var n := |word|;
    assert forall k | 0 <= k < n :: s[k] == word[k];
    assert s[n] == mark && forall k | 0 <= k < |rest| :: s[n + 1 + k] == rest[k];
    assert s[|s| - 1] == rest[|rest| - 1];
    forall k | 0 < k < |s|
      ensures LowerAlnum(s[k - 1]) || LowerAlnum(s[k])
    {
      if k > n + 1 {
        assert s[k] == rest[k - n - 1] && s[k - 1] == rest[k - n - 2];
      }
    }
    forall k | 0 <= k < |s|
      ensures LowerAlnum(s[k]) || s[k] in separators
    {
      if k > n {
        assert s[k] == rest[k - n - 1];
      }
    }
  }

  lemma JoinedIs(s: string, separators: string)
    ensures Joined(s, separators) <==> Woven(s, separators)
  {
    hide Joined, Weave;
    if Joined(s, separators) {
      JoinedWeaves(s, separators);
    }
    if words, marks :| WovenFrom(s, separators, words, marks) {
      WeaveIsJoined(words, marks, separators);
    }
  }

  // ------------------------------------------------------------------ hosts and paths

  lemma FindIs(a: string, c: char, b: string)
    requires c !in a
    ensures Find(a + [c] + b, 0, c) == |a|
    ensures (a + [c] + b)[..|a|] == a && (a + [c] + b)[|a| + 1..] == b
  {
    var s := a + [c] + b;
    assert s[|a|] == c && forall k | 0 <= k < |a| :: s[k] == a[k] && a[k] in a;
  }

  lemma FindNone(s: string, c: char)
    requires c !in s
    ensures Find(s, 0, c) == |s|
  {
  }

  lemma HostIs(s: string)
    ensures Host(s) <==> HostText(s)
  {
    hide Joined, Woven;
    var colon := Find(s, 0, ':');
    JoinedIs(s[..colon], ".-");
    if Host(s) {
      if colon == |s| {
        assert s[..colon] == s;
      } else {
        assert s == s[..colon] + ":" + s[colon + 1..];
        assert Port(s[colon + 1..]);
      }
    }
    if Woven(s, ".-") {
      JoinedIs(s, ".-");
      JoinedWithout(s, ".-", ':');
      FindNone(s, ':');
      assert s[..|s|] == s;
    }
    if name, port :| s == name + ":" + port && Woven(name, ".-") && Port(port) {
      JoinedIs(name, ".-");
      JoinedWithout(name, ".-", ':');
      FindIs(name, ':', port);
    }
  }

  lemma {:induction false} PathIs(s: string, parts: seq<string>)
    requires PathParts(parts) && "/" + s == Slashed(parts)
    ensures Path(s)
    decreases |parts|
  {
    hide Joined, Woven;
    var rest := Slashed(parts[1..]);
    assert s == parts[0] + rest by {
      assert ("/" + s)[1..] == s && (("/" + parts[0]) + rest)[1..] == parts[0] + rest;
    }
    JoinedIs(parts[0], "._-");
    JoinedWithout(parts[0], "._-", '/');
    if |parts| == 1 {
      assert s == parts[0] && s[..|s|] == s;
      FindNone(s, '/');
    } else {
      var next := rest[1..];
      assert rest[0] == '/' && rest == "/" + next;
      assert s == parts[0] + ['/'] + next;
      FindIs(parts[0], '/', next);
      assert PathParts(parts[1..]);
      PathIs(next, parts[1..]);
    }
  }

  lemma {:induction false} PathSplits(s: string) returns (parts: seq<string>)
    requires Path(s)
    ensures PathParts(parts) && "/" + s == Slashed(parts)
    decreases |s|
  {
    hide Joined, Woven;
    var slash := Find(s, 0, '/');
    JoinedIs(s[..slash], "._-");
    if slash == |s| {
      parts := [s];
      assert s[..slash] == s && parts[1..] == [];
      assert Slashed(parts) == "/" + s + "";
    } else {
      var more := PathSplits(s[slash + 1..]);
      parts := [s[..slash]] + more;
      assert parts[1..] == more;
      assert s == s[..slash] + ("/" + s[slash + 1..]);
      assert "/" + s == "/" + s[..slash] + ("/" + s[slash + 1..]);
    }
  }

  lemma HostWithoutSlash(s: string)
    requires Host(s)
    ensures '/' !in s
  {
    hide Joined;
    var colon := Find(s, 0, ':');
    JoinedWithout(s[..colon], ".-", '/');
    forall k | 0 <= k < |s|
      ensures s[k] != '/'
    {
      if k < colon {
        assert s[k] == s[..colon][k];
      } else if k > colon {
        assert s[k] == s[colon + 1..][k - colon - 1];
      }
    }
  }

  /** The pattern for repositories admits exactly the texts put together like this. */
  lemma RepositoryIs(s: string)
    ensures Repository(s) <==> RepositoryText(s)
  {
    hide Host, Path, HostText, PathParts;
    var slash := Find(s, 0, '/');
    if Repository(s) {
      HostIs(s[..slash]);
      var parts := PathSplits(s[slash + 1..]);
      assert s == s[..slash] + ("/" + s[slash + 1..]);
      assert RepositoryFrom(s, s[..slash], parts);
    }
    if host, parts :| RepositoryFrom(s, host, parts) {
      RepositoryReads(s, host, parts);
    }
  }

  lemma RepositoryReads(s: string, host: string, parts: seq<string>)
    requires RepositoryFrom(s, host, parts)
    ensures Repository(s)
  {
    assert |parts| >= 1;
    hide Host, Path, HostText;
    HostIs(host);
    HostWithoutSlash(host);
    var path := Slashed(parts)[1..];
    assert Slashed(parts)[0] == '/' && Slashed(parts) == "/" + path;
    assert s == host + ['/'] + path;
    FindIs(host, '/', path);
    PathIs(path, parts);
  }

  // ------------------------------------------------------------------ references

  lemma DigestOf(hex: string)
    requires |hex| == 64 && forall k | 0 <= k < |hex| :: '0' <= hex[k] <= '9' || 'a' <= hex[k] <= 'f'
    ensures Digest("sha256:" + hex)
  {
    assert ("sha256:" + hex)[..7] == "sha256:" && ("sha256:" + hex)[7..] == hex;
  }

  lemma ReferenceReads(s: string, repository: string, hex: string)
    requires ReferenceFrom(s, repository, hex)
    ensures Immutable(s) && WithoutBreak(s) == s && ParseImage(s) == Some((repository, "sha256:" + hex))
  {
    RepositoryIs(repository);
    DigestOf(hex);
    assert s[|s| - 1] == hex[63];
    hide Repository, RepositoryText, Digest;
    ImageParts(repository, "sha256:" + hex);
  }

  lemma ReferenceJoins(repository: string, digest: string)
    requires Repository(repository) && Digest(digest)
    ensures |digest| >= 7 && ReferenceFrom(repository + "@" + digest, repository, digest[7..])
  {
    RepositoryIs(repository);
    DigestSplits(digest);
    hide Repository, RepositoryText, Digest;
  }

  lemma CutAtSign(s: string)
    requires Immutable(s)
    ensures var at := Find(s, 0, '@'); at < |s| && s[at] == '@' && Repository(s[..at]) && Digest(s[at + 1..])
  {
    hide Repository, Digest, Find;
  }

  lemma CutAt(s: string, at: nat)
    requires at < |s| && s[at] == '@'
    ensures s == s[..at] + "@" + s[at + 1..]
  {
  }

  lemma ReferenceSplits(s: string)
    requires Immutable(s)
    ensures exists repository, hex :: ReferenceFrom(s, repository, hex)
  {
    CutAtSign(s);
    hide *;
    var at := Find(s, 0, '@');
    CutAt(s, at);
    ReferenceJoins(s[..at], s[at + 1..]);
  }

  lemma DigestSplits(digest: string)
    requires Digest(digest)
    ensures |digest| == 71 && digest == "sha256:" + digest[7..]
    ensures forall k | 0 <= k < 64 :: '0' <= digest[7..][k] <= '9' || 'a' <= digest[7..][k] <= 'f'
  {
    assert digest == digest[..7] + digest[7..];
  }

  /** The pattern of the admission policy matches exactly the immutable references. */
  lemma ImmutableIs(s: string)
    ensures Immutable(s) <==> ReferenceText(s)
  {
    if Immutable(s) {
      ReferenceSplits(s);
    }
    hide Immutable, ReferenceFrom;
    if repository, hex :| ReferenceFrom(s, repository, hex) {
      ReferenceReads(s, repository, hex);
    }
  }

  /** The text is such a reference, in front of at most one line break. */
  ghost predicate Reads(s: string, repository: string, hex: string) {
    ReferenceFrom(s, repository, hex) || exists t :: s == t + "\n" && ReferenceFrom(t, repository, hex)
  }

  /** What the scripts read are the parts of such a text, and of no other. */
  lemma ParsedIs(s: string)
    ensures ParseImage(s).Some? <==> exists repository, hex :: Reads(s, repository, hex)
    ensures forall repository, hex | Reads(s, repository, hex) ::
              ParseImage(s) == Some((repository, "sha256:" + hex))
  {
    var t := WithoutBreak(s);
    assert s == t || s == t + "\n";
    if ParseImage(s).Some? {
      ReferenceSplits(t);
      var repository, hex :| ReferenceFrom(t, repository, hex);
      assert Reads(s, repository, hex);
    }
    hide *;
    forall repository, hex | Reads(s, repository, hex)
      ensures ParseImage(s) == Some((repository, "sha256:" + hex))
    {
      ReadsParsed(s, repository, hex);
    }
  }

  lemma ReadsParsed(s: string, repository: string, hex: string)
    requires Reads(s, repository, hex)
    ensures ParseImage(s) == Some((repository, "sha256:" + hex))
  {
    hide Immutable, ReferenceFrom, Find;
    if ReferenceFrom(s, repository, hex) {
      ReferenceReads(s, repository, hex);
    } else {
      var u :| s == u + "\n" && ReferenceFrom(u, repository, hex);
      ReferenceReads(u, repository, hex);
      assert WithoutBreak(s) == u;
    }
  }
}
