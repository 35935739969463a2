/** Immutable image references and repository names, as the gate's patterns admit them. */
module ImageReference {
  import opened Wrappers
  import opened Strings

  predicate LowerAlnum(c: char) {
    'a' <= c <= 'z' || IsDigit(c)
  }

  /** Runs of lower-case letters and digits joined by single separators. */
  predicate Joined(s: string, separators: string) {
    && s != ""
    && (forall k | 0 <= k < |s| :: LowerAlnum(s[k]) || s[k] in separators)
    && LowerAlnum(s[0]) && LowerAlnum(s[|s| - 1])
    && (forall k | 0 < k < |s| :: LowerAlnum(s[k - 1]) || LowerAlnum(s[k]))
  }

  predicate Host(s: string) {
    var colon := Find(s, 0, ':');
    Joined(s[..colon], ".-") && (colon == |s| || Digits(s[colon + 1..]))
  }

  /** One or more path components. */
  predicate Path(s: string)
    decreases |s|
  {
    var slash := Find(s, 0, '/');
    Joined(s[..slash], "._-") && (slash == |s| || Path(s[slash + 1..]))
  }

  predicate Repository(s: string) {
    var slash := Find(s, 0, '/');
    slash < |s| && Host(s[..slash]) && Path(s[slash + 1..])
  }

  predicate Hex(s: string) {
    forall k | 0 <= k < |s| :: IsLowerHex(s[k])
  }

  predicate Digest(s: string) {
    |s| == 71 && s[..7] == "sha256:" && Hex(s[7..])
  }

  /** The text that the rendered admission policy matches; it ends where the text ends. */
  predicate Immutable(s: string) {
    var at := Find(s, 0, '@');
    at < |s| && Repository(s[..at]) && Digest(s[at + 1..])
  }

  function WithoutBreak(s: string): string {
    if s != "" && s[|s| - 1] == '\n' then s[..|s| - 1] else s
  }

  /** The scripts' patterns also match in front of one final line break. */
  function ParseImage(s: string): Option<(string, string)> {
    var t := WithoutBreak(s);
    if Immutable(t) then Some((t[..Find(t, 0, '@')], t[Find(t, 0, '@') + 1..])) else None
  }

  predicate RepositoryName(s: string) {
    Repository(WithoutBreak(s))
  }

  // ------------------------------------------------------------------ what the patterns exclude

  lemma JoinedWithout(s: string, separators: string, c: char)
    requires Joined(s, separators) && !LowerAlnum(c) && c !in separators
    ensures c !in s
  {
    forall k | 0 <= k < |s|
      ensures s[k] != c
    {
    }
  }

  lemma {:induction false} PathWithout(s: string, c: char)
    requires Path(s) && !LowerAlnum(c) && c !in "._-/"
    ensures c !in s
    decreases |s|
  {
    var slash := Find(s, 0, '/');
    JoinedWithout(s[..slash], "._-", c);
    if slash < |s| {
      PathWithout(s[slash + 1..], c);
      assert s == s[..slash] + ['/'] + s[slash + 1..];
    } else {
      assert s == s[..slash];
    }
  }

  /** A repository holds no separator of an exception key. */
  lemma RepositoryWithout(s: string, c: char)
    requires Repository(s) && !LowerAlnum(c) && c !in "._-/:"
    ensures c !in s
  {
    var slash := Find(s, 0, '/');
    var host := s[..slash];
    var colon := Find(host, 0, ':');
    JoinedWithout(host[..colon], ".-", c);
    PathWithout(s[slash + 1..], c);
    assert s == host + ['/'] + s[slash + 1..];
    if colon < |host| {
      assert host == host[..colon] + [':'] + host[colon + 1..];
    } else {
      assert host == host[..colon];
    }
  }

  /** A reference is read back as the repository and the digest it was put together from. */
  lemma ImageParts(repository: string, digest: string)
    requires Repository(repository) && Digest(digest)
    ensures Immutable(repository + "@" + digest)
    ensures ParseImage(repository + "@" + digest) == Some((repository, digest))
  {
    var s := repository + "@" + digest;
    RepositoryWithout(repository, '@');
    var at := |repository|;
    assert s[at] == '@' && forall k | 0 <= k < at :: s[k] == repository[k] && repository[k] in repository;
    assert Find(s, 0, '@') == at;
    assert s[..at] == repository && s[at + 1..] == digest;
    assert s[|s| - 1] == digest[|digest| - 1] == digest[7..][63];
    hide Repository, Find;
  }
}
