/** Use trees as Rust writes them, and the theorem that expansion lists exactly their leaves. */
module UseTreePrinting {
  import opened Strings
  import opened UseTree

  datatype Rename = NoRename | As(name: string)

  datatype Tree = Leaf(path: seq<string>, rename: Rename) | Group(head: seq<string>, items: Forest)

  datatype Forest = Nil | Cons(tree: Tree, rest: Forest)

  predicate PlainChar(c: char) {
    c != '{' && c != '}' && c != ','
  }

  /** A path segment: an identifier, `self`, `super`, `*`, ... */
  ghost predicate Segment(s: string) {
    s != "" && forall k | 0 <= k < |s| :: PlainChar(s[k]) && s[k] != ':' && !IsSpace(s[k])
  }

  ghost predicate Written(t: Tree) {
    match t
    case Leaf(path, rename) =>
      && path != [] && (forall k | 0 <= k < |path| :: Segment(path[k]))
      && (rename.As? ==> IsName(rename.name))
    case Group(head, items) =>
      (forall k | 0 <= k < |head| :: Segment(head[k])) && AllWritten(items)
  }

  ghost predicate AllWritten(f: Forest) {
    match f
    case Nil => true
    case Cons(t, rest) => Written(t) && AllWritten(rest)
  }

  function Join(path: seq<string>): string {
    if path == [] then "" else if |path| == 1 then path[0] else path[0] + "::" + Join(path[1..])
  }

  function HeadText(head: seq<string>): string {
    if head == [] then "" else Join(head) + "::"
  }

  function Print(t: Tree): string {
    match t
    case Leaf(path, NoRename) => Join(path)
    case Leaf(path, As(name)) => Join(path) + (" as " + name)
    case Group(head, items) => HeadText(head) + ("{" + (PrintAll(items) + "}"))
  }

  function PrintAll(f: Forest): string {
    match f
    case Nil => ""
    case Cons(t, Nil) => Print(t)
    case Cons(t, rest) => Print(t) + (", " + PrintAll(rest))
  }

  function Prints(f: Forest): seq<string> {
    match f
    case Nil => []
    case Cons(t, rest) => [Print(t)] + Prints(rest)
  }

  /** The leaf paths in order; a leaf loses its `self` segments, a group head keeps them. */
  function Leaves(t: Tree, prefix: Path): seq<Path> {
    match t
    case Leaf(path, _) => [prefix + WithoutSelf(path)]
    case Group(head, items) => AllLeaves(items, prefix + head)
  }

  function AllLeaves(f: Forest, prefix: Path): seq<Path> {
    match f
    case Nil => []
    case Cons(t, rest) => Leaves(t, prefix) + AllLeaves(rest, prefix)
  }

  // ------------------------------------------------------------------ paths

  ghost predicate Solid(s: string) {
    s != "" && forall k | 0 <= k < |s| :: PlainChar(s[k]) && !IsSpace(s[k])
  }

  lemma {:induction false} JoinSolid(path: seq<string>)
    requires path != [] && forall k | 0 <= k < |path| :: Segment(path[k])
    ensures Solid(Join(path)) && Join(path)[|Join(path)| - 1] != ':'
    decreases |path|
  {
    if |path| > 1 {
      JoinSolid(path[1..]);
    }
  }

  lemma SplitSkips(s: string, start: nat, i: nat, seg: string)
    requires start <= i <= start + |seg| && Occurs(s, start, seg)
    requires forall k | 0 <= k < |seg| :: seg[k] != ':'
    ensures SplitFrom(s, start, i) == SplitFrom(s, start, start + |seg|)
    decreases start + |seg| - i
  {
    if i < start + |seg| {
      OccursAt(s, start, seg, i - start);
      SplitSkips(s, start, i + 1, seg);
    }
  }

  lemma {:induction false} SplitOfJoin(s: string, start: nat, path: seq<string>)
    requires path != [] && forall k | 0 <= k < |path| :: Segment(path[k])
    requires start <= |s| && s[start..] == Join(path)
    ensures SplitFrom(s, start, start) == path
    decreases |path|
  {
    var seg := path[0];
    if |path| == 1 {
      SplitSkips(s, start, start, seg);
    } else {
      assert Occurs(s, start, seg + ("::" + Join(path[1..]))) by {
        assert seg + "::" + Join(path[1..]) == seg + ("::" + Join(path[1..]));
      }
      OccursSplit(s, start, seg, "::" + Join(path[1..]));
      OccursSplit(s, start + |seg|, "::", Join(path[1..]));
      OccursAt(s, start + |seg|, "::", 0);
      OccursAt(s, start + |seg|, "::", 1);
      SplitSkips(s, start, start, seg);
      SplitOfJoin(s, start + |seg| + 2, path[1..]);
    }
  }

  lemma NonEmptySegments(path: seq<string>)
    requires forall k | 0 <= k < |path| :: Segment(path[k])
    ensures NonEmpty(path) == path
  {
    if path != [] {
      NonEmptySegments(path[1..]);
    }
  }

  lemma SegmentsOfHead(head: seq<string>)
    requires forall k | 0 <= k < |head| :: Segment(head[k])
    ensures NonEmpty(Segments(HeadOf(HeadText(head)))) == head
  {
    if head != [] {
      JoinSolid(head);
      var t := HeadText(head);
      assert TrimRight(t) == t && t[|t| - 1] == ':' && t[|t| - 2] == ':';
      assert t[..|t| - 2] == Join(head);
      SplitOfJoin(Join(head), 0, head);
      NonEmptySegments(head);
    }
  }

  // ------------------------------------------------------------------ renames

  lemma SpacelessKeeps(s: string, i: nat, n: nat)
    requires i <= n <= |s| && forall k | 0 <= k < n :: !IsSpace(s[k])
    ensures DropRename(s, i) == DropRename(s, n)
    decreases n - i
  {
    if i < n {
      SpacelessKeeps(s, i + 1, n);
    }
  }

  lemma SuffixChars(s: string, n: nat, name: string)
    requires n <= |s| && s[n..] == " as " + name && name != ""
    ensures n + 4 < |s| && s[n] == ' ' && s[n + 1] == 'a' && s[n + 2] == 's' && s[n + 3] == ' '
    ensures s[n + 4] == name[0] && s[n + 4..] == name
  {
    var tail := s[n..];
    assert s[n] == tail[0] && s[n + 1] == tail[1] && s[n + 2] == tail[2] && s[n + 3] == tail[3];
    assert s[n + 4..] == tail[4..];
  }

  lemma RenameDropped(path: seq<string>, rename: Rename)
    requires Written(Leaf(path, rename))
    ensures DropRename(Print(Leaf(path, rename)), 0) == Join(path)
  {
    hide Join;
    var p, s := Join(path), Print(Leaf(path, rename));
    JoinSolid(path);
    SpacelessKeeps(s, 0, |p|);
    if rename.As? {
      var n := |p|;
      assert s[n..] == " as " + rename.name;
      SuffixChars(s, n, rename.name);
      assert Spaces(s, n) == n + 1 && Spaces(s, n + 3) == n + 4;
      assert RenameAt(s, n);
      assert s[..n] == p;
    }
  }

  // ------------------------------------------------------------------ scanning printed trees

  ghost predicate Braceless(s: string) {
    forall k | 0 <= k < |s| :: PlainChar(s[k])
  }

  lemma LeafText(path: seq<string>, rename: Rename)
    requires Written(Leaf(path, rename))
    ensures var s := Print(Leaf(path, rename));
            Braceless(s) && s != "" && !IsSpace(s[0]) && !IsSpace(s[|s| - 1])
  {
    JoinSolid(path);
    var s := Print(Leaf(path, rename));
    if rename.As? {
      assert s[|s| - 1] == rename.name[|rename.name| - 1];
    }
  }

  lemma HeadBraceless(head: seq<string>)
    requires forall k | 0 <= k < |head| :: Segment(head[k])
    ensures Braceless(HeadText(head)) && (head != [] ==> HeadText(head) != "" && !IsSpace(HeadText(head)[0]))
  {
    if head != [] {
      JoinSolid(head);
    }
  }

  lemma PrintEnds(t: Tree)
    requires Written(t)
    ensures var s := Print(t); s != "" && !IsSpace(s[0]) && !IsSpace(s[|s| - 1])
  {
    match t
    case Leaf(path, rename) =>
      LeafText(path, rename);
    case Group(head, items) =>
      HeadBraceless(head);
      var s := Print(t);
      assert s[|s| - 1] == '}';
  }

  lemma ClosePlain(s: string, i: nat, t: string, depth: int)
    requires Occurs(s, i, t) && Braceless(t)
    ensures CloseFrom(s, i, depth) == CloseFrom(s, i + |t|, depth)
    decreases |t|
  {
    if t != "" {
      OccursAt(s, i, t, 0);
      assert t == [t[0]] + t[1..];
      OccursSplit(s, i, [t[0]], t[1..]);
      ClosePlain(s, i + 1, t[1..], depth);
    }
  }

  lemma GroupText(head: seq<string>, items: Forest)
    ensures Print(Group(head, items)) == HeadText(head) + ("{" + (PrintAll(items) + "}"))
  {
  }

  lemma GroupParts(s: string, i: nat, head: seq<string>, items: Forest)
    requires Occurs(s, i, Print(Group(head, items)))
    ensures var j, n := i + |HeadText(head)|, |PrintAll(items)|;
            && j + n + 2 <= |s|
            && Occurs(s, i, HeadText(head)) && s[j] == '{'
            && Occurs(s, j + 1, PrintAll(items)) && s[j + 1 + n] == '}'
            && |Print(Group(head, items))| == |HeadText(head)| + n + 2
  {
    var j := i + |HeadText(head)|;
    GroupText(head, items);
    hide Print, PrintAll, HeadText;
    OccursSplit(s, i, HeadText(head), "{" + (PrintAll(items) + "}"));
    OccursSplit(s, j, "{", PrintAll(items) + "}");
    OccursSplit(s, j + 1, PrintAll(items), "}");
    OccursAt(s, j, "{", 0);
    OccursAt(s, j + 1 + |PrintAll(items)|, "}", 0);
  }

  lemma ForestParts(s: string, i: nat, t: Tree, rest: Forest)
    requires rest.Cons? && Occurs(s, i, PrintAll(Cons(t, rest)))
    ensures var e := i + |Print(t)|;
            && e + 2 <= |s|
            && Occurs(s, i, Print(t)) && s[e] == ',' && s[e + 1] == ' ' && Occurs(s, e + 2, PrintAll(rest))
            && |PrintAll(Cons(t, rest))| == |Print(t)| + 2 + |PrintAll(rest)|
  {
    assert PrintAll(Cons(t, rest)) == Print(t) + (", " + PrintAll(rest));
    OccursSplit(s, i, Print(t), ", " + PrintAll(rest));
    OccursSplit(s, i + |Print(t)|, ", ", PrintAll(rest));
    OccursAt(s, i + |Print(t)|, ", ", 0);
    OccursAt(s, i + |Print(t)|, ", ", 1);
  }

  lemma ShortForests(t: Tree)
    ensures PrintAll(Nil) == "" && PrintAll(Cons(t, Nil)) == Print(t)
  {
  }

  lemma {:induction false} CloseOverTree(s: string, i: nat, t: Tree, depth: int)
    requires Written(t) && Occurs(s, i, Print(t)) && depth >= 1
    ensures CloseFrom(s, i, depth) == CloseFrom(s, i + |Print(t)|, depth)
    decreases t
  {
    hide Print, PrintAll, Occurs, HeadText;
    match t
    case Leaf(path, rename) =>
      LeafText(path, rename);
      ClosePlain(s, i, Print(t), depth);
    case Group(head, items) =>
      var j := i + |HeadText(head)|;
      HeadBraceless(head);
      GroupParts(s, i, head, items);
      ClosePlain(s, i, HeadText(head), depth);
      CloseOverForest(s, j + 1, items, depth + 1);
  }

  lemma {:induction false} CloseOverForest(s: string, i: nat, f: Forest, depth: int)
    requires AllWritten(f) && Occurs(s, i, PrintAll(f)) && depth >= 1
    ensures CloseFrom(s, i, depth) == CloseFrom(s, i + |PrintAll(f)|, depth)
    decreases f
  {
    hide Print, PrintAll, Occurs, HeadText;
    match f
    case Nil =>
      ShortForests(Leaf([], NoRename));
    case Cons(t, Nil) =>
      ShortForests(t);
      CloseOverTree(s, i, t, depth);
    case Cons(t, rest) =>
      ForestParts(s, i, t, rest);
      CloseOverTree(s, i, t, depth);
      CloseOverForest(s, i + |Print(t)| + 2, rest, depth);
  }

  lemma PiecesPlain(s: string, start: nat, i: nat, t: string, depth: int)
    requires start <= i && Occurs(s, i, t) && Braceless(t)
    ensures CommaPieces(s, start, i, depth) == CommaPieces(s, start, i + |t|, depth)
    decreases |t|
  {
    if t != "" {
      OccursAt(s, i, t, 0);
      assert t == [t[0]] + t[1..];
      OccursSplit(s, i, [t[0]], t[1..]);
      PiecesPlain(s, start, i + 1, t[1..], depth);
    }
  }

  lemma {:induction false} PiecesOverTree(s: string, start: nat, i: nat, t: Tree, depth: int)
    requires start <= i && Written(t) && Occurs(s, i, Print(t)) && depth >= 0
    ensures CommaPieces(s, start, i, depth) == CommaPieces(s, start, i + |Print(t)|, depth)
    decreases t
  {
    hide Print, PrintAll, Occurs, HeadText;
    match t
    case Leaf(path, rename) =>
      LeafText(path, rename);
      PiecesPlain(s, start, i, Print(t), depth);
    case Group(head, items) =>
      var j := i + |HeadText(head)|;
      HeadBraceless(head);
      GroupParts(s, i, head, items);
      PiecesPlain(s, start, i, HeadText(head), depth);
      PiecesOverForest(s, start, j + 1, items, depth + 1);
  }

  lemma {:induction false} PiecesOverForest(s: string, start: nat, i: nat, f: Forest, depth: int)
    requires start <= i && AllWritten(f) && Occurs(s, i, PrintAll(f)) && depth >= 1
    ensures CommaPieces(s, start, i, depth) == CommaPieces(s, start, i + |PrintAll(f)|, depth)
    decreases f
  {
    hide Print, PrintAll, Occurs, HeadText;
    match f
    case Nil =>
      ShortForests(Leaf([], NoRename));
    case Cons(t, Nil) =>
      ShortForests(t);
      PiecesOverTree(s, start, i, t, depth);
    case Cons(t, rest) =>
      ForestParts(s, i, t, rest);
      PiecesOverTree(s, start, i, t, depth);
      PiecesOverForest(s, start, i + |Print(t)| + 2, rest, depth);
  }

  // ------------------------------------------------------------------ items

  lemma TrimPadded(pad: string, text: string)
    requires text != "" && !IsSpace(text[0]) && !IsSpace(text[|text| - 1])
    requires pad == "" || pad == " "
    ensures Trim(pad + text) == text
  {
    assert TrimLeft(text) == text && TrimRight(text) == text;
    if pad == " " {
      assert (pad + text)[1..] == text;
    } else {
      assert pad + text == text;
    }
  }

  lemma TrimmedCons(piece: string, pieces: seq<string>)
    requires Trim(piece) != ""
    ensures Trimmed([piece] + pieces) == [Trim(piece)] + Trimmed(pieces)
  {
    assert ([piece] + pieces)[1..] == pieces;
  }

  lemma PiecesAtComma(s: string, start: nat, e: nat)
    requires start <= e && e + 2 <= |s| && s[e] == ',' && s[e + 1] == ' '
    ensures CommaPieces(s, start, e, 0) == [s[start..e]] + CommaPieces(s, e + 1, e + 2, 0)
  {
  }

  lemma PiecesAtEnd(s: string, start: nat)
    requires start <= |s|
    ensures CommaPieces(s, start, |s|, 0) == [s[start..]]
  {
  }

  lemma PiecesOfOne(s: string, start: nat, pad: string, t: Tree)
    requires Written(t) && (pad == "" || pad == " ")
    requires Occurs(s, start, pad + Print(t)) && start + |pad| + |Print(t)| == |s|
    ensures Trimmed(CommaPieces(s, start, start + |pad|, 0)) == [Print(t)]
  {
    hide Print, Trimmed, Trim, CommaPieces;
    OccursSplit(s, start, pad, Print(t));
    PrintEnds(t);
    TrimPadded(pad, Print(t));
    PiecesOverTree(s, start, start + |pad|, t, 0);
    PiecesAtEnd(s, start);
    assert s[start..] == s[start..start + |pad + Print(t)|] == pad + Print(t);
    TrimmedCons(pad + Print(t), []);
    TrimmedNone();
    assert [pad + Print(t)] + [] == [pad + Print(t)];
  }

  lemma FirstPiece(s: string, start: nat, pad: string, text: string)
    requires Occurs(s, start, pad) && Occurs(s, start + |pad|, text)
    ensures s[start..start + |pad| + |text|] == pad + text
  {
    OccursJoin(s, start, pad, text);
  }

  lemma PiecesOfMore(s: string, start: nat, pad: string, t: Tree, rest: Forest, others: seq<string>)
    requires Written(t) && (pad == "" || pad == " ")
    requires rest.Cons? && Occurs(s, start, pad + PrintAll(Cons(t, rest)))
    requires var e := start + |pad| + |Print(t)|;
             e + 2 <= |s| ==> Trimmed(CommaPieces(s, e + 1, e + 2, 0)) == others
    ensures Trimmed(CommaPieces(s, start, start + |pad|, 0)) == [Print(t)] + others
  {
    hide *;
    var i := start + |pad|;
    var e := i + |Print(t)|;
    OccursSplit(s, start, pad, PrintAll(Cons(t, rest)));
    ForestParts(s, i, t, rest);
    PrintEnds(t);
    TrimPadded(pad, Print(t));
    PiecesOverTree(s, start, i, t, 0);
    FirstPiece(s, start, pad, Print(t));
    PieceThenMore(s, start, e, pad + Print(t), others);
  }

  lemma PieceThenMore(s: string, start: nat, e: nat, piece: string, others: seq<string>)
    requires start <= e && e + 2 <= |s| && s[e] == ',' && s[e + 1] == ' ' && s[start..e] == piece && Trim(piece) != ""
    requires Trimmed(CommaPieces(s, e + 1, e + 2, 0)) == others
    ensures Trimmed(CommaPieces(s, start, e, 0)) == [Trim(piece)] + others
  {
    hide *;
    PiecesAtComma(s, start, e);
    TrimmedCons(piece, CommaPieces(s, e + 1, e + 2, 0));
  }

  lemma NextPiece(s: string, start: nat, pad: string, t: Tree, rest: Forest)
    requires rest.Cons? && Occurs(s, start, pad + PrintAll(Cons(t, rest)))
    ensures Occurs(s, start + |pad| + |Print(t)| + 1, " " + PrintAll(rest))
  {
    hide Print, PrintAll;
    var e := start + |pad| + |Print(t)|;
    OccursSplit(s, start, pad, PrintAll(Cons(t, rest)));
    ForestParts(s, start + |pad|, t, rest);
    assert s[e + 1..e + 2] == " ";
    OccursJoin(s, e + 1, " ", PrintAll(rest));
  }

  /** The comma pieces of a printed list, trimmed, are its members as printed. */
  lemma {:induction false} PiecesOfForest(s: string, start: nat, pad: string, f: Forest)
    requires AllWritten(f) && f.Cons? && (pad == "" || pad == " ")
    requires Occurs(s, start, pad + PrintAll(f)) && start + |pad| + |PrintAll(f)| == |s|
    ensures Trimmed(CommaPieces(s, start, start + |pad|, 0)) == Prints(f)
    decreases f
  {
    hide Print, PrintAll, Trimmed, CommaPieces, Occurs;
    var t, rest := f.tree, f.rest;
    ShortForests(t);
    if rest.Nil? {
      PiecesOfOne(s, start, pad, t);
    } else {
      NextPiece(s, start, pad, t, rest);
      OccursSplit(s, start, pad, PrintAll(f));
      ForestParts(s, start + |pad|, t, rest);
      PiecesOfForest(s, start + |pad| + |Print(t)| + 1, " ", rest);
      PiecesOfMore(s, start, pad, t, rest, Prints(rest));
    }
  }

  lemma TrimmedNone()
    ensures Trimmed([]) == [] && Trimmed([""]) == []
  {
  }

  lemma TopLevelOfForest(f: Forest)
    requires AllWritten(f)
    ensures TopLevel(PrintAll(f)) == Prints(f)
  {
    if f.Cons? {
      assert "" + PrintAll(f) == PrintAll(f);
      PiecesOfForest(PrintAll(f), 0, "", f);
    } else {
      TrimmedNone();
    }
  }

  // ------------------------------------------------------------------ the theorem

  lemma FindBrace(s: string, i: nat, t: string)
    requires Occurs(s, i, t) && Braceless(t)
    requires i + |t| == |s| || s[i + |t|] == '{'
    ensures Find(s, i, '{') == i + |t|
    decreases |t|
  {
    if t != "" {
      OccursAt(s, i, t, 0);
      assert t == [t[0]] + t[1..];
      OccursSplit(s, i, [t[0]], t[1..]);
      FindBrace(s, i + 1, t[1..]);
    }
  }

  lemma ExpandLeaf(path: seq<string>, rename: Rename, prefix: Path)
    requires Written(Leaf(path, rename))
    ensures Expand(Print(Leaf(path, rename)), prefix) == Paths([prefix + WithoutSelf(path)])
  {
    hide Print, TrimLeft, TrimRight, Trim, DropRename, Occurs;
    var s := Print(Leaf(path, rename));
    LeafText(path, rename);
    TrimNothing(s);
    WholeText(s);
    FindBrace(s, 0, s);
    RenameDropped(path, rename);
    SplitOfJoin(Join(path), 0, path);
    NonEmptySegments(path);
  }

  lemma WholeText(s: string)
    ensures Occurs(s, 0, s)
  {
    assert s[0..|s|] == s;
  }

  lemma OccursIs(s: string, i: nat, t: string)
    requires Occurs(s, i, t)
    ensures i + |t| <= |s| && s[i..i + |t|] == t
  {
  }

  lemma GroupBraces(head: seq<string>, items: Forest)
    requires Written(Group(head, items))
    ensures var s, b := Print(Group(head, items)), |HeadText(head)|;
            var c := b + 1 + |PrintAll(items)|;
            && Find(s, 0, '{') == b < c == CloseFrom(s, b, 0) == |s| - 1
            && s[..b] == HeadText(head) && s[b + 1..c] == PrintAll(items)
  {
    hide Print, PrintAll, Occurs, HeadText;
    var s, b := Print(Group(head, items)), |HeadText(head)|;
    WholeText(s);
    GroupParts(s, 0, head, items);
    HeadBraceless(head);
    FindBrace(s, 0, HeadText(head));
    CloseOverForest(s, b + 1, items, 1);
    OccursIs(s, 0, HeadText(head));
    OccursIs(s, b + 1, PrintAll(items));
  }

  lemma SelfIsLeaf(t: Tree)
    requires Written(t)
    ensures Print(t) == "self" ==> t.Leaf? && t.rename.NoRename?
  {
    match t
    case Leaf(path, NoRename) =>
    case Leaf(path, As(name)) =>
      assert Print(t)[|Join(path)|] == ' ';
    case Group(head, items) =>
      assert Print(t)[|Print(t)| - 1] == '}';
  }

  /** The item spelled `self` stands for the group itself, just as expanding it would. */
  lemma SelfAlone(t: Tree, prefix: Path)
    requires Written(t) && Print(t) == "self"
    ensures Leaves(t, prefix) == [prefix]
  {
    SelfIsLeaf(t);
    assert "self"[0..] == "self";
    SplitOfJoin("self", 0, t.path);
    SplitOfJoin("self", 0, ["self"]);
    assert t.path == ["self"] && WithoutSelf(["self"]) == [] && prefix + [] == prefix;
  }

  lemma ExpandGroup(s: string, prefix: Path)
    requires Trim(s) == s && Find(s, 0, '{') < |s| && CloseFrom(s, Find(s, 0, '{'), 0) < |s|
    ensures var b := Find(s, 0, '{');
            Expand(s, prefix) == ExpandItems(
              TopLevel(s[b + 1..CloseFrom(s, b, 0)]), prefix + NonEmpty(Segments(HeadOf(s[..b]))), |s| - 1)
  {
  }

  lemma ExpandToItems(head: seq<string>, items: Forest, prefix: Path)
    requires Written(Group(head, items))
    ensures |Print(Group(head, items))| > 0
    ensures forall p | p in Prints(items) :: |p| <= |Print(Group(head, items))| - 1
    ensures Expand(Print(Group(head, items)), prefix) ==
            ExpandItems(Prints(items), prefix + head, |Print(Group(head, items))| - 1)
  {
    hide Print, PrintAll, Prints, Expand, ExpandItems, TrimLeft, TrimRight, Trim, TopLevel, CloseFrom, Find, HeadOf;
    var s := Print(Group(head, items));
    GroupBraces(head, items);
    TopLevelOfForest(items);
    SegmentsOfHead(head);
    PrintEnds(Group(head, items));
    TrimNothing(s);
    ExpandGroup(s, prefix);
    assert forall p | p in TopLevel(PrintAll(items)) :: |p| <= |PrintAll(items)|;
  }

  /** Expanding a printed use tree lists its leaf paths in order. */
  lemma {:induction false} ExpandPrinted(t: Tree, prefix: Path)
    requires Written(t)
    ensures Expand(Print(t), prefix) == Paths(Leaves(t, prefix))
    decreases t
  {
    hide Print, Expand, ExpandItems, Prints;
    match t
    case Leaf(path, rename) =>
      ExpandLeaf(path, rename, prefix);
    case Group(head, items) =>
      ExpandToItems(head, items, prefix);
      ExpandPrintedAll(items, prefix + head, |Print(t)| - 1);
  }

  lemma ExpandStep(t: Tree, rest: Forest, prefix: Path, bound: nat)
    requires forall p | p in Prints(Cons(t, rest)) :: |p| <= bound
    requires ExpandItems(Prints(rest), prefix, bound) == Paths(AllLeaves(rest, prefix))
    requires (if Print(t) == "self" then Paths([prefix]) else Expand(Print(t), prefix)) == Paths(Leaves(t, prefix))
    ensures ExpandItems(Prints(Cons(t, rest)), prefix, bound) == Paths(AllLeaves(Cons(t, rest), prefix))
  {
    hide Expand, Print, Leaves;
    var items := Prints(Cons(t, rest));
    assert items[0] == Print(t) && items[1..] == Prints(rest);
  }

  lemma {:induction false} ExpandPrintedAll(f: Forest, prefix: Path, bound: nat)
    requires AllWritten(f) && forall p | p in Prints(f) :: |p| <= bound
    ensures ExpandItems(Prints(f), prefix, bound) == Paths(AllLeaves(f, prefix))
    decreases f
  {
    hide Expand, Print, Leaves;
    if f.Cons? {
      assert forall p | p in Prints(f.rest) :: p in Prints(f);
      ExpandPrinted(f.tree, prefix);
      ExpandPrintedAll(f.rest, prefix, bound);
      if Print(f.tree) == "self" {
        SelfAlone(f.tree, prefix);
      }
      ExpandStep(f.tree, f.rest, prefix, bound);
    }
  }

  // ------------------------------------------------------------------ where `self` is lost

  /** The paths a reader of the tree would list: `self` on its own stands for what encloses it. */
  function Meant(t: Tree, prefix: Path): seq<Path> {
    match t
    case Leaf(path, _) => [if path == ["self"] then prefix else prefix + path]
    case Group(head, items) => AllMeant(items, prefix + head)
  }

  function AllMeant(f: Forest, prefix: Path): seq<Path> {
    match f
    case Nil => []
    case Cons(t, rest) => Meant(t, prefix) + AllMeant(rest, prefix)
  }

  /** No bare leaf mixes `self` with other segments. */
  predicate NoBareSelf(t: Tree) {
    match t
    case Leaf(path, _) => path == ["self"] || "self" !in path
    case Group(head, items) => NoBareSelfIn(items)
  }

  predicate NoBareSelfIn(f: Forest) {
    match f
    case Nil => true
    case Cons(t, rest) => NoBareSelf(t) && NoBareSelfIn(rest)
  }

  lemma {:induction false} SelfShortens(path: seq<string>)
    ensures |WithoutSelf(path)| <= |path|
    ensures "self" in path ==> |WithoutSelf(path)| < |path|
  {
    if path != [] {
      SelfShortens(path[1..]);
    }
  }

  lemma {:induction false} CountsAgree(f: Forest, prefix: Path)
    ensures |AllLeaves(f, prefix)| == |AllMeant(f, prefix)|
    decreases f
  {
    match f
    case Nil =>
    case Cons(t, rest) =>
      CountAgrees(t, prefix);
      CountsAgree(rest, prefix);
  }

  lemma {:induction false} CountAgrees(t: Tree, prefix: Path)
    ensures |Leaves(t, prefix)| == |Meant(t, prefix)|
    decreases t
  {
    match t
    case Leaf(_, _) =>
    case Group(head, items) =>
      CountsAgree(items, prefix + head);
  }

  lemma {:induction false} MeantExactly(t: Tree, prefix: Path)
    ensures Leaves(t, prefix) == Meant(t, prefix) <==> NoBareSelf(t)
    decreases t
  {
    match t
    case Leaf(path, _) =>
      SelfShortens(path);
      assert prefix + [] == prefix;
      if path != ["self"] && "self" in path {
        assert |Leaves(t, prefix)[0]| < |Meant(t, prefix)[0]|;
      }
    case Group(head, items) =>
      MeantExactlyAll(items, prefix + head);
  }

  lemma {:induction false} MeantExactlyAll(f: Forest, prefix: Path)
    ensures AllLeaves(f, prefix) == AllMeant(f, prefix) <==> NoBareSelfIn(f)
    decreases f
  {
    match f
    case Nil =>
    case Cons(t, rest) =>
      MeantExactly(t, prefix);
      MeantExactlyAll(rest, prefix);
      CountAgrees(t, prefix);
      var n := |Leaves(t, prefix)|;
      assert AllLeaves(f, prefix)[..n] == Leaves(t, prefix) && AllLeaves(f, prefix)[n..] == AllLeaves(rest, prefix);
      assert AllMeant(f, prefix)[..n] == Meant(t, prefix) && AllMeant(f, prefix)[n..] == AllMeant(rest, prefix);
  }

  /** Expansion yields the paths meant exactly when no bare leaf mixes `self` with other segments. */
  lemma ExpandsAsMeant(t: Tree, prefix: Path)
    requires Written(t)
    ensures Expand(Print(t), prefix) == Paths(Meant(t, prefix)) <==> NoBareSelf(t)
  {
    ExpandPrinted(t, prefix);
    MeantExactly(t, prefix);
  }

  const BARE: Tree := Leaf(["self", "a"], NoRename)

  const BRACED: Tree := Group(["self"], Cons(Leaf(["a"], NoRename), Nil))

  lemma BareExample()
    ensures Written(BARE) && Print(BARE) == "self::a" && Leaves(BARE, []) == [["a"]]
  {
    assert Segment("self") && Segment("a");
    assert ["self", "a"][1..] == ["a"];
    assert Join(["self", "a"]) == "self" + "::" + Join(["a"]);
    assert WithoutSelf(["a"]) == ["a"];
    assert WithoutSelf(["self", "a"]) == WithoutSelf(["self", "a"][1..]);
    assert [] + ["a"] == ["a"];
  }

  lemma BracedExample()
    ensures Written(BRACED) && Print(BRACED) == "self::{a}" && Leaves(BRACED, []) == [["self", "a"]]
  {
    assert Segment("self") && Segment("a");
    assert WithoutSelf(["a"]) == ["a"];
    assert [] + ["self"] == ["self"] && ["self"] + ["a"] == ["self", "a"];
    assert Written(Leaf(["a"], NoRename));
    assert Leaves(Leaf(["a"], NoRename), ["self"]) == [["self"] + ["a"]];
    assert AllLeaves(Cons(Leaf(["a"], NoRename), Nil), ["self"]) == [["self", "a"]] + AllLeaves(Nil, ["self"]);
  }

  /** `self::a` loses its `self`; `self::{a}` keeps it. */
  lemma BareSelfIsLost()
    ensures Expand("self::a", []) == Paths([["a"]])
    ensures Expand("self::{a}", []) == Paths([["self", "a"]])
  {
    hide Expand, Print, Leaves, Written;
    BareExample();
    BracedExample();
    ExpandPrinted(BARE, []);
    ExpandPrinted(BRACED, []);
  }
}
