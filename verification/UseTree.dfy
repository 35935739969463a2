/** Expansion of a Rust use tree into the paths it imports. */
module UseTree {
  import opened Strings

  type Path = seq<string>

  datatype Expansion = Paths(paths: seq<Path>) | Unbalanced

  // ------------------------------------------------------------------ splitting on "::"

  predicate ColonsAt(s: string, i: nat) {
    i + 1 < |s| && s[i] == ':' && s[i + 1] == ':'
  }

  /** The pieces of `s[start..]` between `::` separators, with no separator starting before `i`. */
  function SplitFrom(s: string, start: nat, i: nat): (parts: seq<string>)
    requires start <= i <= |s|
    ensures |parts| > 0
    decreases |s| - i
  {
    if i == |s| then [s[start..]]
    else if ColonsAt(s, i) then [s[start..i]] + SplitFrom(s, i + 2, i + 2)
    else SplitFrom(s, start, i + 1)
  }

  function Segments(s: string): seq<string> {
    SplitFrom(s, 0, 0)
  }

  function NonEmpty(parts: seq<string>): (r: seq<string>)
  {
    if parts == [] then []
    else (if parts[0] != "" then [parts[0]] else []) + NonEmpty(parts[1..])
  }

  function WithoutSelf(parts: seq<string>): (r: seq<string>)
    ensures "self" !in r
    ensures "self" !in parts ==> r == parts
  {
    if parts == [] then []
    else (if parts[0] != "self" then [parts[0]] else []) + WithoutSelf(parts[1..])
  }

  // ------------------------------------------------------------------ the rename suffix

  predicate IdentStart(c: char) {
    c == '_' || 'A' <= c <= 'Z' || 'a' <= c <= 'z'
  }

  predicate IdentChar(c: char) {
    IdentStart(c) || IsDigit(c)
  }

  predicate IsName(s: string) {
    s != "" && IdentStart(s[0]) && forall k | 0 < k < |s| :: IdentChar(s[k])
  }

  function Spaces(s: string, i: nat): (k: nat)
    requires i <= |s|
    ensures i <= k <= |s| && (k < |s| ==> !IsSpace(s[k]))
    ensures forall j | i <= j < k :: IsSpace(s[j])
    decreases |s| - i
  {
    if i < |s| && IsSpace(s[i]) then Spaces(s, i + 1) else i
  }

  /** From `i` to the end the text reads: white space, `as`, white space, a name. */
  predicate RenameAt(s: string, i: nat)
    requires i <= |s|
  {
    var a := Spaces(s, i);
    && i < a && a + 2 <= |s| && s[a] == 'a' && s[a + 1] == 's'
    && (var b := Spaces(s, a + 2); a + 2 < b && IsName(s[b..]))
  }

  function DropRename(s: string, i: nat): string
    requires i <= |s|
    decreases |s| - i
  {
    if i == |s| then s else if RenameAt(s, i) then s[..i] else DropRename(s, i + 1)
  }

  // ------------------------------------------------------------------ braces and commas

  /** The closing brace that brings the depth to zero, reading from `i`. */
  function CloseFrom(s: string, i: nat, depth: int): (k: nat)
    requires i <= |s|
    ensures i <= k <= |s| && (k < |s| ==> s[k] == '}')
    decreases |s| - i
  {
    if i == |s| then i
    else if s[i] == '{' then CloseFrom(s, i + 1, depth + 1)
    else if s[i] == '}' then
      if depth - 1 == 0 then i else CloseFrom(s, i + 1, depth - 1)
    else CloseFrom(s, i + 1, depth)
  }

  /** The texts between the commas outside every brace; `start` is where the current one began. */
  function CommaPieces(s: string, start: nat, i: nat, depth: int): (pieces: seq<string>)
    requires start <= i <= |s|
    ensures forall p | p in pieces :: |p| <= |s|
    decreases |s| - i
  {
    if i == |s| then [s[start..]]
    else if s[i] == '{' then CommaPieces(s, start, i + 1, depth + 1)
    else if s[i] == '}' then CommaPieces(s, start, i + 1, depth - 1)
    else if s[i] == ',' && depth == 0 then [s[start..i]] + CommaPieces(s, i + 1, i + 1, depth)
    else CommaPieces(s, start, i + 1, depth)
  }

  function Trimmed(pieces: seq<string>): (items: seq<string>)
    ensures "" !in items
  {
    if pieces == [] then []
    else (if Trim(pieces[0]) != "" then [Trim(pieces[0])] else []) + Trimmed(pieces[1..])
  }

  lemma TrimmedShort(pieces: seq<string>, n: nat)
    requires forall p | p in pieces :: |p| <= n
    ensures forall p | p in Trimmed(pieces) :: |p| <= n
  {
    if pieces != [] {
      TrimmedShort(pieces[1..], n);
    }
  }

  function TopLevel(s: string): (items: seq<string>)
    ensures forall p | p in items :: |p| <= |s|
  {
    TrimmedShort(CommaPieces(s, 0, 0, 0), |s|);
    Trimmed(CommaPieces(s, 0, 0, 0))
  }

  // ------------------------------------------------------------------ expansion

  function HeadOf(text: string): string {
    var t := TrimRight(text);
    if |t| >= 2 && ColonsAt(t, |t| - 2) then t[..|t| - 2] else t
  }

  function Expand(text: string, prefix: Path): Expansion
    decreases |text|, 0
  {
    var value := Trim(text);
    var brace := Find(value, 0, '{');
    if brace == |value| then
      Paths([prefix + WithoutSelf(NonEmpty(Segments(DropRename(value, 0))))])
    else
      var close := CloseFrom(value, brace, 0);
      if close == |value| then Unbalanced
      else ExpandItems(TopLevel(value[brace + 1..close]), prefix + NonEmpty(Segments(HeadOf(value[..brace]))),
                       |text| - 1)
  }

  function ExpandItems(items: seq<string>, prefix: Path, bound: nat): Expansion
    requires forall item | item in items :: |item| <= bound
    decreases bound, 1 + |items|
  {
    if items == [] then Paths([])
    else
      var first := if items[0] == "self" then Paths([prefix]) else Expand(items[0], prefix);
      match first
      case Unbalanced => Unbalanced
      case Paths(ps) =>
        match ExpandItems(items[1..], prefix, bound)
        case Unbalanced => Unbalanced
        case Paths(qs) => Paths(ps + qs)
  }

  // ------------------------------------------------------------------ the loops as written

  method SplitTopLevel(value: string) returns (items: seq<string>)
    ensures items == TopLevel(value)
  {
    var pieces: seq<string>, depth, start := [], 0, 0;
    for index := 0 to |value|
      invariant start <= index
      invariant CommaPieces(value, 0, 0, 0) == pieces + CommaPieces(value, start, index, depth)
    {
      if value[index] == '{' {
        depth := depth + 1;
      } else if value[index] == '}' {
        depth := depth - 1;
      } else if value[index] == ',' && depth == 0 {
        pieces := pieces + [value[start..index]];
        start := index + 1;
      }
    }
    pieces := pieces + [value[start..]];
    items := Trimmed(pieces);
  }

  method FindClose(value: string, brace: nat) returns (close: nat)
    requires brace <= |value|
    ensures close == CloseFrom(value, brace, 0)
  {
    var depth := 0;
    for index := brace to |value|
      invariant CloseFrom(value, brace, 0) == CloseFrom(value, index, depth)
    {
      if value[index] == '{' {
        depth := depth + 1;
      } else if value[index] == '}' {
        depth := depth - 1;
        if depth == 0 {
          return index;
        }
      }
    }
    close := |value|;
  }

  function Before(paths: seq<Path>, rest: Expansion): Expansion {
    match rest
    case Unbalanced => Unbalanced
    case Paths(more) => Paths(paths + more)
  }

  lemma ItemStep(items: seq<string>, k: nat, prefix: Path, bound: nat, done: seq<Path>, first: Expansion)
    requires k < |items| && forall item | item in items :: |item| <= bound
    requires first == if items[k] == "self" then Paths([prefix]) else Expand(items[k], prefix)
    ensures Before(done, ExpandItems(items[k..], prefix, bound)) ==
            if first.Unbalanced? then Unbalanced
            else Before(done + first.paths, ExpandItems(items[k + 1..], prefix, bound))
  {
    hide Expand;
    assert items[k..][1..] == items[k + 1..];
    var rest := ExpandItems(items[k + 1..], prefix, bound);
    if first.Paths? && rest.Paths? {
      assert done + (first.paths + rest.paths) == done + first.paths + rest.paths;
    }
  }

  lemma ItemsDone(items: seq<string>, prefix: Path, bound: nat, done: seq<Path>)
    requires forall item | item in items :: |item| <= bound
    ensures items[..0] == [] && Before(done, ExpandItems(items[|items|..], prefix, bound)) == Paths(done)
    ensures Before([], ExpandItems(items[0..], prefix, bound)) == ExpandItems(items, prefix, bound)
  {
    assert items[0..] == items && done + [] == done;
    var all := ExpandItems(items, prefix, bound);
    if all.Paths? {
      assert [] + all.paths == all.paths;
    }
  }

  method ExpandUseTree(text: string, prefix: Path) returns (expansion: Expansion)
    ensures expansion == Expand(text, prefix)
    decreases |text|, 0
  {
    hide Find, CloseFrom, TopLevel, Segments, NonEmpty, WithoutSelf, DropRename, HeadOf, Trim, ExpandItems;
    var value := Trim(text);
    var brace := Find(value, 0, '{');
    if brace == |value| {
      return Paths([prefix + WithoutSelf(NonEmpty(Segments(DropRename(value, 0))))]);
    }
    var close := FindClose(value, brace);
    if close == |value| {
      return Unbalanced;
    }
    var head := prefix + NonEmpty(Segments(HeadOf(value[..brace])));
    var items := SplitTopLevel(value[brace + 1..close]);
    expansion := ExpandEach(items, head, |text| - 1);
  }

  method ExpandEach(items: seq<string>, head: Path, ghost bound: nat) returns (expansion: Expansion)
    requires forall item | item in items :: |item| <= bound
    ensures expansion == ExpandItems(items, head, bound)
    decreases bound, 1
  {
    hide Expand, ExpandItems, Before;
    var expanded: seq<Path> := [];
    ItemsDone(items, head, bound, []);
    for k := 0 to |items|
      invariant ExpandItems(items, head, bound) == Before(expanded, ExpandItems(items[k..], head, bound))
    {
      var first := Paths([head]);
      if items[k] != "self" {
        first := ExpandUseTree(items[k], head);
      }
      ItemStep(items, k, head, bound, expanded, first);
      if first.Unbalanced? {
        return Unbalanced;
      }
      expanded := expanded + first.paths;
    }
    ItemsDone(items, head, bound, expanded);
    expansion := Paths(expanded);
  }
}
