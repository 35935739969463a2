/** Texts without the spaces at their ends. */
module Trimming {
  import opened Strings

  ghost predicate Spaces(s: string) {
    forall k | 0 <= k < |s| :: IsSpace(s[k])
  }

  ghost predicate Surrounds(s: string, before: string, r: string, after: string) {
    s == before + r + after && Spaces(before) && Spaces(after)
  }

  /** The text between the spaces at either end. */
  ghost predicate Trimmed(s: string, r: string) {
    && (r != "" ==> !IsSpace(r[0]) && !IsSpace(r[|r| - 1]))
    && exists before, after :: Surrounds(s, before, r, after)
  }

  lemma {:induction false} LeftIs(s: string) returns (before: string)
    ensures s == before + TrimLeft(s) && Spaces(before)
    decreases |s|
  {
    if s != "" && IsSpace(s[0]) {
      var rest := LeftIs(s[1..]);
      before := [s[0]] + rest;
      assert s == [s[0]] + s[1..];
    } else {
      before := "";
    }
  }

  lemma {:induction false} RightIs(s: string) returns (after: string)
    ensures s == TrimRight(s) + after && Spaces(after)
    decreases |s|
  {
    if s != "" && IsSpace(s[|s| - 1]) {
      var rest := RightIs(s[..|s| - 1]);
      after := rest + [s[|s| - 1]];
      assert s == s[..|s| - 1] + [s[|s| - 1]];
    } else {
      after := "";
    }
  }

  lemma TrimIs(s: string)
    ensures Trimmed(s, Trim(s))
  {
    var before := LeftIs(s);
    var after := RightIs(TrimLeft(s));
    assert Surrounds(s, before, Trim(s), after);
    hide TrimLeft, TrimRight;
    if Trim(s) != "" {
      assert Trim(s)[0] == TrimLeft(s)[0];
    }
  }

  lemma TrimmedOnce(s: string, r: string, t: string)
    requires Trimmed(s, r) && Trimmed(s, t)
    ensures r == t
  {
    var b, a :| Surrounds(s, b, r, a);
    var c, d :| Surrounds(s, c, t, d);
    if r == "" {
      SpacesOnly(s, b, a, c, t, d);
    } else if t == "" {
      SpacesOnly(s, c, d, b, r, a);
    } else {
      FirstPlaces(s, b, r, a, c, t, d);
      LastPlaces(s, b, r, a, c, t, d);
      assert r == s[|b|..|s| - |a|] == t;
    }
  }

  lemma SpacesOnly(s: string, b: string, a: string, c: string, t: string, d: string)
    requires Surrounds(s, b, "", a) && Surrounds(s, c, t, d) && (t != "" ==> !IsSpace(t[0]))
    ensures t == ""
  {
    assert forall k | 0 <= k < |t| :: s[|c| + k] == t[k];
    assert forall k | 0 <= k < |s| :: s[k] == if k < |b| then b[k] else a[k - |b|];
  }

  lemma FirstPlaces(s: string, b: string, r: string, a: string, c: string, t: string, d: string)
    requires Surrounds(s, b, r, a) && Surrounds(s, c, t, d) && r != "" && t != "" && !IsSpace(r[0]) && !IsSpace(t[0])
    ensures |b| == |c|
  {
    assert s[|b|] == r[0] && s[|c|] == t[0];
    assert forall k | 0 <= k < |c| :: s[k] == c[k];
    assert forall k | 0 <= k < |b| :: s[k] == b[k];
  }

  lemma LastPlaces(s: string, b: string, r: string, a: string, c: string, t: string, d: string)
    requires Surrounds(s, b, r, a) && Surrounds(s, c, t, d) && r != "" && t != ""
    requires !IsSpace(r[|r| - 1]) && !IsSpace(t[|t| - 1])
    ensures |a| == |d|
  {
    var i, j := |s| - |a| - 1, |s| - |d| - 1;
    assert s[i] == r[|r| - 1] && s[j] == t[|t| - 1];
    assert forall k | i < k < |s| :: s[k] == a[k - i - 1];
    assert forall k | j < k < |s| :: s[k] == d[k - j - 1];
  }

  /** Something is left of the text without the spaces at its ends. */
  ghost predicate Filled(s: string) {
    exists r :: Trimmed(s, r) && r != ""
  }

  lemma FilledIs(s: string)
    ensures Filled(s) <==> Trim(s) != ""
  {
    TrimIs(s);
    hide Trimmed, Trim;
    forall r | Trimmed(s, r)
      ensures r == Trim(s)
    {
      TrimmedOnce(s, r, Trim(s));
    }
  }

  // ------------------------------------------------------------------ blank texts

  lemma {:induction false} NotBlank(s: string, k: nat)
    requires k < |s| && !IsSpace(s[k])
    ensures Trim(s) != ""
  {
    LeftKeeps(s, k);
    var t := TrimLeft(s);
    if t != "" {
      RightKeeps(t, 0);
    }
  }

  lemma {:induction false} LeftKeeps(s: string, k: nat)
    requires k < |s| && !IsSpace(s[k])
    ensures TrimLeft(s) != ""
    decreases |s|
  {
    if IsSpace(s[0]) {
      LeftKeeps(s[1..], k - 1);
    }
  }

  lemma {:induction false} RightKeeps(s: string, k: nat)
    requires k < |s| && !IsSpace(s[k])
    ensures TrimRight(s) != ""
    decreases |s|
  {
    if IsSpace(s[|s| - 1]) {
      RightKeeps(s[..|s| - 1], k);
    }
  }
}
