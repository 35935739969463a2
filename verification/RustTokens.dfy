/** The grammar of nested comments and quoted strings, against which the filter's scanners are exact. */
module RustTokens {
  import opened Wrappers
  import opened RustFilter
  import opened Strings

  // ------------------------------------------------------------------ nested block comments

  /** What may stand after an opening delimiter, up to and including its closing one. */
  datatype Body = End | Char(c: char, rest: Body) | Nested(inner: Body, rest: Body)

  function Text(b: Body): (t: string)
    ensures |t| >= 2
  {
    match b
    case End => "*/"
    case Char(c, rest) => [c] + Text(rest)
    case Nested(inner, rest) => "/*" + Text(inner) + Text(rest)
  }

  /** No delimiter appears by accident between a character and what follows it. */
  predicate WellFormed(b: Body) {
    match b
    case End => true
    case Char(c, rest) =>
      && WellFormed(rest)
      && !(c == '/' && Text(rest)[0] == '*')
      && !(c == '*' && Text(rest)[0] == '/')
    case Nested(inner, rest) => WellFormed(inner) && WellFormed(rest)
  }

  lemma {:induction false} BodyIsScanned(s: string, i: nat, depth: nat, b: Body)
    requires WellFormed(b) && Occurs(s, i, Text(b)) && depth > 0
    ensures BlockEnd(s, i, depth) == BlockEnd(s, i + |Text(b)|, depth - 1)
    decreases b
  {
    var t := Text(b);
    OccursAt(s, i, t, 0);
    OccursAt(s, i, t, 1);
    match b
    case End =>
    case Char(c, rest) =>
      OccursSplit(s, i, [c], Text(rest));
      hide Occurs;
      BodyIsScanned(s, i + 1, depth, rest);
    case Nested(inner, rest) =>
      NestedIsScanned(s, i, depth, inner, rest);
  }

  lemma NestedParts(s: string, i: nat, inner: Body, rest: Body)
    requires Occurs(s, i, Text(Nested(inner, rest)))
    ensures Occurs(s, i + 2, Text(inner)) && Occurs(s, i + 2 + |Text(inner)|, Text(rest))
    ensures |Text(Nested(inner, rest))| == 2 + |Text(inner)| + |Text(rest)|
  {
    hide Occurs;
    OccursSplit(s, i, "/*" + Text(inner), Text(rest));
    OccursSplit(s, i, "/*", Text(inner));
  }

  lemma {:induction false} NestedIsScanned(s: string, i: nat, depth: nat, inner: Body, rest: Body)
    requires WellFormed(inner) && WellFormed(rest) && depth > 0
    requires Occurs(s, i, Text(Nested(inner, rest))) && Pair(s, i, '/', '*')
    ensures BlockEnd(s, i, depth) == BlockEnd(s, i + |Text(Nested(inner, rest))|, depth - 1)
    decreases Nested(inner, rest), 0
  {
    NestedParts(s, i, inner, rest);
    hide Text, Occurs, WellFormed;
    BodyIsScanned(s, i + 2, depth + 1, inner);
    BodyIsScanned(s, i + 2 + |Text(inner)|, depth, rest);
  }

  function Texts(bs: seq<Body>): string {
    if bs == [] then "" else Text(bs[0]) + Texts(bs[1..])
  }

  ghost predicate AllWellFormed(bs: seq<Body>) {
    forall b | b in bs :: WellFormed(b)
  }

  lemma NoTexts()
    ensures Texts([]) == ""
  {
  }

  lemma TextsCons(b: Body, bs: seq<Body>)
    ensures Texts([b] + bs) == Text(b) + Texts(bs)
  {
    assert ([b] + bs)[1..] == bs;
  }

  lemma Regroup(a: string, b: string, c: string, d: string)
    ensures a + b + c + d == a + (b + (c + d))
  {
  }

  lemma FoldNested(a: Body, b: Body, bs: seq<Body>)
    ensures Texts([Nested(a, b)] + bs) == "/*" + Texts([a, b] + bs)
  {
    hide Texts;
    TextsCons(Nested(a, b), bs);
    TextsCons(a, [b] + bs);
    TextsCons(b, bs);
    assert Text(Nested(a, b)) == "/*" + Text(a) + Text(b);
    assert [a, b] + bs == [a] + ([b] + bs);
    hide Text;
    Regroup("/*", Text(a), Text(b), Texts(bs));
  }

  lemma FoldEnd(cs: seq<Body>)
    ensures Texts([End] + cs) == "*/" + Texts(cs)
  {
    assert ([End] + cs)[1..] == cs;
  }

  lemma FoldChar(c: char, cs: seq<Body>)
    requires |cs| >= 1
    ensures Texts([Char(c, cs[0])] + cs[1..]) == [c] + Texts(cs)
  {
    assert ([Char(c, cs[0])] + cs[1..])[1..] == cs[1..];
  }

  /** Reads back the `depth` bodies that the scanner passes over. */
  lemma {:induction false} ScannedBodies(s: string, i: nat, depth: nat) returns (bs: seq<Body>)
    requires i <= |s| && BlockEnd(s, i, depth).Some?
    ensures |bs| == depth && AllWellFormed(bs)
    ensures s[i..BlockEnd(s, i, depth).value] == Texts(bs)
    decreases |s| - i
  {
    hide Texts, Text;
    var e := BlockEnd(s, i, depth).value;
    if depth == 0 {
      bs := [];
      NoTexts();
    } else if Pair(s, i, '/', '*') {
      var cs := ScannedBodies(s, i + 2, depth + 1);
      bs := [Nested(cs[0], cs[1])] + cs[2..];
      FoldNested(cs[0], cs[1], cs[2..]);
      assert cs[0] in cs && cs[1] in cs && WellFormed(bs[0]);
      assert cs == [cs[0], cs[1]] + cs[2..];
      assert s[i..e] == "/*" + s[i + 2..e];
    } else if Pair(s, i, '*', '/') {
      var cs := ScannedBodies(s, i + 2, depth - 1);
      bs := [End] + cs;
      FoldEnd(cs);
      assert s[i..e] == "*/" + s[i + 2..e];
    } else {
      var cs := ScannedBodies(s, i + 1, depth);
      bs := [Char(s[i], cs[0])] + cs[1..];
      FoldChar(s[i], cs);
      FirstOfTexts(cs);
      assert cs[0] in cs;
      assert s[i..e] == [s[i]] + s[i + 1..e];
      assert s[i + 1] == s[i + 1..e][0] == Text(cs[0])[0];
      assert WellFormed(bs[0]);
    }
  }

  lemma FirstOfTexts(cs: seq<Body>)
    requires |cs| >= 1
    ensures |Texts(cs)| > 0 && Texts(cs)[0] == Text(cs[0])[0]
  {
  }

  /** A block comment ends exactly where a well-nested body ends. */
  lemma BlockCommentExact(s: string, i: nat, e: nat)
    requires i <= |s|
    ensures BlockEnd(s, i, 1) == Some(e) <==>
            i <= e <= |s| && exists b :: WellFormed(b) && s[i..e] == Text(b)
  {
    if BlockEnd(s, i, 1) == Some(e) {
      var bs := ScannedBodies(s, i, 1);
      assert Texts(bs) == Text(bs[0]) + Texts(bs[1..]) && bs[1..] == [];
      assert WellFormed(bs[0]) && s[i..e] == Text(bs[0]);
    }
    if i <= e <= |s| && exists b :: WellFormed(b) && s[i..e] == Text(b) {
      var b :| WellFormed(b) && s[i..e] == Text(b);
      assert Occurs(s, i, Text(b));
      BodyIsScanned(s, i, 1, b);
    }
  }

  // ------------------------------------------------------------------ quoted strings

  /** What may stand after an opening quote, up to and including the closing one. */
  datatype Quoted = Close | Plain(c: char, rest: Quoted) | Escaped(c: char, rest: Quoted)

  function Spelling(q: Quoted): string {
    match q
    case Close => "\""
    case Plain(c, rest) => [c] + Spelling(rest)
    case Escaped(c, rest) => ['\\', c] + Spelling(rest)
  }

  predicate Spelled(q: Quoted) {
    match q
    case Close => true
    case Plain(c, rest) => c != '"' && c != '\\' && Spelled(rest)
    case Escaped(_, rest) => Spelled(rest)
  }

  lemma {:induction false} SpellingIsScanned(s: string, i: nat, q: Quoted)
    requires Spelled(q) && Occurs(s, i, Spelling(q))
    ensures StringEnd(s, i) == Some(i + |Spelling(q)|)
    decreases q
  {
    match q
    case Close =>
      assert s[i] == Spelling(q)[0];
    case Plain(c, rest) =>
      OccursSplit(s, i, [c], Spelling(rest));
      assert s[i] == [c][0];
      SpellingIsScanned(s, i + 1, rest);
    case Escaped(c, rest) =>
      OccursSplit(s, i, ['\\', c], Spelling(rest));
      assert s[i] == ['\\', c][0];
      SpellingIsScanned(s, i + 2, rest);
  }

  lemma {:induction false} ScannedSpelling(s: string, i: nat) returns (q: Quoted)
    requires StringEnd(s, i).Some?
    ensures Spelled(q) && s[i..StringEnd(s, i).value] == Spelling(q)
    decreases |s| + 2 - i
  {
    var e := StringEnd(s, i).value;
    if s[i] == '\\' {
      var rest := ScannedSpelling(s, i + 2);
      q := Escaped(s[i + 1], rest);
      assert s[i..e] == ['\\', s[i + 1]] + s[i + 2..e];
    } else if s[i] == '"' {
      q := Close;
      assert s[i..e] == [s[i]];
    } else {
      var rest := ScannedSpelling(s, i + 1);
      q := Plain(s[i], rest);
      assert s[i..e] == [s[i]] + s[i + 1..e];
    }
  }

  /** A string literal ends exactly at its first quote that no backslash escapes. */
  lemma StringExact(s: string, i: nat, e: nat)
    ensures StringEnd(s, i) == Some(e) <==>
            i <= e <= |s| && exists q :: Spelled(q) && s[i..e] == Spelling(q)
  {
    if StringEnd(s, i) == Some(e) {
      var q := ScannedSpelling(s, i);
      assert Spelled(q) && s[i..e] == Spelling(q);
    }
    if i <= e <= |s| && exists q :: Spelled(q) && s[i..e] == Spelling(q) {
      var q :| Spelled(q) && s[i..e] == Spelling(q);
      assert Occurs(s, i, Spelling(q));
      SpellingIsScanned(s, i, q);
    }
  }
}
