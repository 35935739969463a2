/** Which application module an imported path belongs to. */
module ImportResolution {
  import opened Wrappers
  import opened UseTree
  import opened UseTreePrinting

  predicate Heads(path: Path, word: string) {
    path != [] && path[0] == word
  }

  function Supers(path: Path): (n: nat)
    ensures n <= |path| && !Heads(path[n..], "super")
  {
    if Heads(path, "super") then 1 + Supers(path[1..]) else 0
  }

  function Parent(path: Path): Path {
    if path == [] then [] else path[..|path| - 1]
  }

  function Ancestor(path: Path, n: nat): Path {
    if |path| <= n then [] else path[..|path| - n]
  }

  /** What is left of a path after its leading `super` segments and one `self`. */
  function Remaining(imported: Path): Path {
    var rest := imported[Supers(imported)..];
    if Heads(rest, "self") then rest[1..] else rest
  }

  /** The module path that is looked up, if any. */
  function Candidate(current: Path, imported: Path): Option<Path> {
    if Heads(imported, "crate") then
      if |imported| >= 2 && imported[1] == "app" then Some(imported[2..]) else None
    else if imported != [] && imported[0] != "super" && imported[0] != "self" then None
    else Some(Ancestor(current, Supers(imported)) + Remaining(imported))
  }

  /** The longest prefix that names a known module. */
  ghost predicate LongestKnown(candidate: Path, known: set<string>, r: Option<string>) {
    match r
    case None => forall n | 1 <= n <= |candidate| :: Join(candidate[..n]) !in known
    case Some(name) =>
      exists n :: 1 <= n <= |candidate| && Join(candidate[..n]) == name && name in known
        && forall m | n < m <= |candidate| :: Join(candidate[..m]) !in known
  }

  method LongestKnownName(candidate: Path, known: set<string>) returns (r: Option<string>)
    ensures LongestKnown(candidate, known, r)
  {
    hide Join;
    var length := |candidate|;
    while length > 0
      invariant 0 <= length <= |candidate|
      invariant forall m | length < m <= |candidate| :: Join(candidate[..m]) !in known
    {
      var name := Join(candidate[..length]);
      if name in known {
        return Some(name);
      }
      length := length - 1;
    }
    r := None;
  }

  /** Takes the leading `super` segments off, going up one module for each. */
  method ClimbSupers(current: Path, imported: Path) returns (base: Path, rest: Path)
    ensures base == Ancestor(current, Supers(imported)) && rest == imported[Supers(imported)..]
  {
    base, rest := current, imported;
    ghost var n := 0;
    assert imported[0..] == imported && Ancestor(current, 0) == current;
    while Heads(rest, "super")
      invariant n <= |imported| && rest == imported[n..]
      invariant Supers(imported) == n + Supers(rest)
      invariant base == Ancestor(current, n)
      decreases |rest|
    {
      assert Parent(base) == Ancestor(current, n + 1);
      base := Parent(base);
      rest := rest[1..];
      n := n + 1;
    }
  }

  /**
    A path below the application is looked up there, any other path of a crate and any plain name
    nowhere, an empty path in the module itself, and a relative path as its candidate says.
   */
  method ResolveImport(current: Path, imported: Path, known: set<string>) returns (r: Option<string>)
    ensures Candidate(current, imported).None? ==> r == None
    ensures Candidate(current, imported).Some? ==> LongestKnown(Candidate(current, imported).value, known, r)
    ensures ["crate", "app"] <= imported ==> LongestKnown(imported[2..], known, r)
    ensures ["crate"] <= imported && !(["crate", "app"] <= imported) ==> r == None
    ensures imported != [] && imported[0] !in {"crate", "self", "super"} ==> r == None
    ensures imported == [] ==> LongestKnown(current, known, r)
    ensures (Heads(imported, "self") || Heads(imported, "super")) && Walk(current, imported).Some?
            && !Heads(Remaining(imported), "self") && !Heads(Remaining(imported), "super") ==>
              LongestKnown(Walk(current, imported).value, known, r)
  {
    hide LongestKnown, Ancestor, Walk;
    CandidateIs(current, imported);
    if (Heads(imported, "self") || Heads(imported, "super")) && Walk(current, imported).Some? {
      RelativeImportsAreMeant(current, imported);
    }
    if |imported| >= 2 && imported[0] == "crate" && imported[1] == "app" {
      assert imported[2..] == [] + imported[2..];
      r := LongestKnownName(imported[2..], known);
      return;
    }
    if Heads(imported, "crate") {
      return None;
    }
    var base, rest := ClimbSupers(current, imported);
    if Heads(rest, "self") {
      rest := rest[1..];
    } else if imported != [] && imported[0] != "super" && imported[0] != "self" {
      return None;
    }
    r := LongestKnownName(base + rest, known);
  }

  lemma CandidateIs(current: Path, imported: Path)
    ensures ["crate", "app"] <= imported ==> Candidate(current, imported) == Some(imported[2..])
    ensures ["crate"] <= imported && !(["crate", "app"] <= imported) ==> Candidate(current, imported) == None
    ensures imported != [] && imported[0] !in {"crate", "self", "super"} ==> Candidate(current, imported) == None
    ensures imported == [] ==> Candidate(current, imported) == Some(current)
  {
    if imported == [] {
      assert Supers(imported) == 0 && imported[0..] == [] && current[..|current| - 0] == current;
      assert Ancestor(current, 0) == current;
      assert current + [] == current;
    } else if Heads(imported, "crate") {
      assert ["crate"] <= imported;
      assert ["crate", "app"] <= imported <==> |imported| >= 2 && imported[1] == "app";
    } else {
      assert !(["crate"] <= imported) && !(["crate", "app"] <= imported);
    }
  }

  // ------------------------------------------------------------------ what the path means

  /** The module a relative path leads to: every `self` stays, every `super` goes up while it can. */
  function Walk(base: Path, path: Path): Option<Path>
    decreases |path|
  {
    if Heads(path, "self") then Walk(base, path[1..])
    else if Heads(path, "super") then if base == [] then None else Walk(Parent(base), path[1..])
    else Some(base + path)
  }

  lemma {:induction false} WalkUp(base: Path, path: Path)
    ensures var n := Supers(path);
            Walk(base, path) == if |base| < n then None else Walk(base[..|base| - n], path[n..])
    decreases |path|
  {
    var n := Supers(path);
    if Heads(path, "super") {
      assert n == 1 + Supers(path[1..]) && path[1..][n - 1..] == path[n..];
      if base != [] {
        var up := base[..|base| - 1];
        assert Walk(base, path) == Walk(up, path[1..]);
        WalkUp(up, path[1..]);
        hide Walk, Supers;
        if |base| >= n {
          assert up[..|up| - (n - 1)] == base[..|base| - n];
        }
      }
    } else {
      assert base[..|base|] == base && path[0..] == path;
    }
  }

  lemma {:induction false} WalkShortens(base: Path, path: Path)
    requires Walk(base, path).Some?
    ensures |Walk(base, path).value| <= |base| + |path|
    ensures Heads(path, "self") || Heads(path, "super") ==> |Walk(base, path).value| < |base| + |path|
    decreases |path|
  {
    if Heads(path, "self") {
      WalkShortens(base, path[1..]);
    } else if Heads(path, "super") {
      WalkShortens(Parent(base), path[1..]);
    }
  }

  lemma WalksByNames(base: Path, path: Path)
    requires Walk(base, path).Some?
    ensures Walk(base, path) == Some(base + path) <==> !Heads(path, "self") && !Heads(path, "super")
  {
    WalkShortens(base, path);
  }

  lemma ClimbsFirst(current: Path, imported: Path)
    requires Heads(imported, "self") || Heads(imported, "super")
    requires Walk(current, imported).Some?
    ensures var base := Ancestor(current, Supers(imported));
            && Candidate(current, imported) == Some(base + Remaining(imported))
            && Walk(current, imported) == Walk(base, Remaining(imported))
  {
    WalkUp(current, imported);
    hide Supers;
    assert Ancestor(current, Supers(imported)) == current[..|current| - Supers(imported)];
  }

  /**
    A relative import that leads to a module is looked up there exactly when nothing but `super`
    segments, and then at most one `self`, stands in front of the names.
   */
  lemma RelativeImportsAreMeant(current: Path, imported: Path)
    requires Heads(imported, "self") || Heads(imported, "super")
    requires Walk(current, imported).Some?
    ensures Candidate(current, imported) == Walk(current, imported) <==>
            !Heads(Remaining(imported), "self") && !Heads(Remaining(imported), "super")
  {
    hide *;
    ClimbsFirst(current, imported);
    WalksByNames(Ancestor(current, Supers(imported)), Remaining(imported));
  }

  /**
    An import that climbs above the root leads to no module below it; it is looked up from the root, as
    though the climb had ended there.
   */
  lemma AboveTheRootIsTakenFromTheRoot(current: Path, imported: Path)
    requires |current| < Supers(imported)
    ensures Walk(current, imported) == None
    ensures Candidate(current, imported) == Some(Remaining(imported))
  {
    WalkUp(current, imported);
    assert [] + Remaining(imported) == Remaining(imported);
  }

  /** After a leading `self`, a `super` is taken for a name: the import is not looked up in the parent. */
  lemma SelfThenSuperIsMissed()
    ensures exists current: Path, imported: Path ::
              Walk(current, imported) == Some(["a", "c"])
                && Candidate(current, imported) == Some(["a", "b", "super", "c"])
  {
    var current: Path, imported: Path := ["a", "b"], ["self", "super", "c"];
    assert imported[1..] == ["super", "c"] && imported[1..][1..] == ["c"];
    assert ["a"] + ["c"] == ["a", "c"] && ["a", "b"] + ["super", "c"] == ["a", "b", "super", "c"];
    assert Parent(current) == ["a"] && Walk(["a"], ["c"]) == Some(["a", "c"]);
    assert Walk(current, ["super", "c"]) == Walk(["a"], ["c"]);
    assert Supers(imported) == 0 && imported[0..] == imported && Remaining(imported) == ["super", "c"];
    assert Ancestor(current, 0) == current;
    assert Candidate(current, imported) == Some(["a", "b"] + ["super", "c"]);
  }
}
