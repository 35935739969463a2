/** The grammar of all comments and literals, and the filter as a cut of the source into tokens and code. */
module RustLiterals {
  import opened Wrappers
  import opened RustFilter
  import opened RustTokens
  import opened Strings

  // ------------------------------------------------------------------ character literals

  ghost predicate HexDigit(c: char) {
    '0' <= c <= '9' || 'a' <= c <= 'f' || 'A' <= c <= 'F'
  }

  /** Between braces: hexadecimal digits and underscores. */
  ghost predicate CodePoint(digits: string) {
    |digits| >= 1 && forall k | 0 <= k < |digits| :: HexDigit(digits[k]) || digits[k] == '_'
  }

  ghost predicate UnicodeText(t: string, digits: string) {
    CodePoint(digits) && t == ['\'', '\\', 'u', '{'] + digits + ['}', '\'']
  }

  /** One character, one escaped character, two hexadecimal digits, or a code point, between apostrophes. */
  ghost predicate CharText(t: string) {
    || (|t| == 3 && t[0] == '\'' && t[1] != '\'' && t[1] != '\\' && t[1] != '\n' && t[2] == '\'')
    || (|t| == 4 && t[0] == '\'' && t[1] == '\\' && t[2] != '\n' && t[3] == '\'')
    || (|t| == 6 && t[0] == '\'' && t[1] == '\\' && t[2] == 'x' && HexDigit(t[3]) && HexDigit(t[4]) && t[5] == '\'')
    || exists digits :: UnicodeText(t, digits)
  }

  lemma {:induction false} HexRunIs(s: string, i: nat, n: nat)
    requires i + n < |s| && !IsHex(s[i + n]) && s[i + n] != '_'
    requires forall k | i <= k < i + n :: IsHex(s[k]) || s[k] == '_'
    ensures HexRun(s, i) == n
    decreases n
  {
    if n > 0 {
      HexRunIs(s, i + 1, n - 1);
    }
  }

  lemma UnicodeFound(s: string, i: nat)
    requires Has(s, i, '\'') && Has(s, i + 1, '\\') && UnicodeLiteral(s, i)
    ensures var e := i + 6 + HexRun(s, i + 4); e <= |s| && UnicodeText(s[i..e], s[i + 4..e - 2])
  {
    var e := i + 6 + HexRun(s, i + 4);
    assert s[i..e] == ['\'', '\\', 'u', '{'] + s[i + 4..e - 2] + ['}', '\''];
  }

  lemma UnicodeRead(s: string, i: nat, e: nat, digits: string)
    requires i <= e <= |s| && UnicodeText(s[i..e], digits)
    ensures Has(s, i + 1, '\\') && UnicodeLiteral(s, i) && e == i + 6 + HexRun(s, i + 4)
  {
    var n, t := |digits|, s[i..e];
    assert t[1] == s[i + 1] && t[2] == s[i + 2] && t[3] == s[i + 3];
    assert t[4 + n] == s[i + 4 + n] && t[5 + n] == s[i + 5 + n];
    forall k | i + 4 <= k < i + 4 + n
      ensures IsHex(s[k]) || s[k] == '_'
    {
      assert s[k] == t[k - i] == digits[k - i - 4];
    }
    HexRunIs(s, i + 4, n);
  }

  lemma UnicodeIs(s: string, i: nat, e: nat)
    requires Has(s, i, '\'') && i <= e <= |s|
    ensures (Has(s, i + 1, '\\') && UnicodeLiteral(s, i) && e == i + 6 + HexRun(s, i + 4)) <==>
              exists digits :: UnicodeText(s[i..e], digits)
  {
    if Has(s, i + 1, '\\') && UnicodeLiteral(s, i) {
      UnicodeFound(s, i);
    }
    hide UnicodeLiteral, HexRun, UnicodeText;
    if digits :| UnicodeText(s[i..e], digits) {
      UnicodeRead(s, i, e, digits);
    }
  }

  /** A character literal is found exactly where one is spelled. */
  lemma CharExact(s: string, i: nat, e: nat)
    requires Has(s, i, '\'')
    ensures CharEnd(s, i) == Some(e) <==> i <= e <= |s| && CharText(s[i..e])
  {
    if i <= e <= |s| {
      UnicodeIs(s, i, e);
    }
  }

  // ------------------------------------------------------------------ raw strings

  ghost predicate OnlyHashes(h: string) {
    forall k | 0 <= k < |h| :: h[k] == '#'
  }

  /** A prefix, at most 255 hashes, and a quote. */
  ghost predicate Opening(t: string, prefix: string, h: string) {
    prefix in {"r", "br", "cr"} && OnlyHashes(h) && |h| <= 255 && t == prefix + h + "\""
  }

  /** A quote followed by the same hashes. */
  ghost function Fence(h: string): string {
    "\"" + h
  }

  /** The content ends at the first quote that is followed by the hashes of the opening. */
  ghost predicate RawFrom(t: string, prefix: string, h: string, content: string) {
    && Opening(prefix + h + "\"", prefix, h) && t == prefix + h + "\"" + content + Fence(h)
    && forall k | 0 <= k < |content| :: !Occurs(content + Fence(h), k, Fence(h))
  }

  ghost predicate RawText(t: string) {
    exists prefix, h, content :: RawFrom(t, prefix, h, content)
  }

  ghost predicate RawBegins(s: string, i: nat) {
    exists prefix, h :: Opening(prefix + h + "\"", prefix, h) && Occurs(s, i, prefix + h + "\"")
  }

  lemma {:induction false} HashesAre(s: string, j: nat, n: nat)
    requires forall k | j <= k < j + n :: Has(s, k, '#')
    requires !Has(s, j + n, '#')
    ensures Hashes(s, j) == n
    decreases n
  {
    if n > 0 {
      HashesAre(s, j + 1, n - 1);
    }
  }

  lemma PrefixIs(s: string, i: nat, prefix: string)
    requires prefix in {"r", "br", "cr"} && Occurs(s, i, prefix)
    ensures RawPrefix(s, i) == Some(i + |prefix|)
  {
    assert s[i] == prefix[0];
    if |prefix| == 2 {
      assert s[i + 1] == prefix[1];
    }
  }

  lemma PrefixFound(s: string, i: nat)
    requires RawPrefix(s, i).Some?
    ensures var j := RawPrefix(s, i).value; i <= j <= |s| && s[i..j] in {"r", "br", "cr"}
  {
    var j := RawPrefix(s, i).value;
    if Pair(s, i, 'b', 'r') {
      assert s[i..j] == "br";
    } else if Pair(s, i, 'c', 'r') {
      assert s[i..j] == "cr";
    } else {
      assert s[i..j] == "r";
    }
  }

  lemma OpeningRead(s: string, i: nat, prefix: string, h: string)
    requires Opening(prefix + h + "\"", prefix, h) && Occurs(s, i, prefix + h + "\"")
    ensures RawOpen(s, i) == Some((i + |prefix| + |h| + 1, |h|))
  {
    var j := i + |prefix|;
    OccursSplit(s, i, prefix + h, "\"");
    OccursSplit(s, i, prefix, h);
    PrefixIs(s, i, prefix);
    assert s[j + |h|] == '"';
    forall k | j <= k < j + |h|
      ensures Has(s, k, '#')
    {
      OccursAt(s, j, h, k - j);
    }
    HashesAre(s, j, |h|);
    hide RawPrefix;
  }

  lemma OpeningFound(s: string, i: nat) returns (prefix: string, h: string)
    requires RawOpen(s, i).Some?
    ensures Opening(prefix + h + "\"", prefix, h) && Occurs(s, i, prefix + h + "\"")
    ensures RawOpen(s, i) == Some((i + |prefix| + |h| + 1, |h|))
  {
    PrefixFound(s, i);
    var j := RawPrefix(s, i).value;
    var n := Hashes(s, j);
    assert Has(s, j + n, '"');
    prefix, h := s[i..j], s[j..j + n];
    assert forall k | 0 <= k < n :: h[k] == s[j + k] && Has(s, j + k, '#');
    assert s[i..j + n + 1] == prefix + h + "\"";
    hide RawPrefix;
  }

  lemma ClosesIs(s: string, k: nat, h: string)
    requires OnlyHashes(h)
    ensures Closes(s, k, |h|) <==> Occurs(s, k, Fence(h))
  {
    var n := |h|;
    if Closes(s, k, n) {
      assert s[k..k + n + 1] == Fence(h);
    }
    if Occurs(s, k, Fence(h)) {
      assert s[k] == s[k..k + n + 1][0];
      forall j | k < j <= k + n
        ensures s[j] == '#'
      {
        assert s[j] == s[k..k + n + 1][j - k] == Fence(h)[j - k] == h[j - k - 1];
      }
    }
  }

  lemma OccursWithin(s: string, a: nat, b: nat, k: nat, t: string)
    requires a <= b <= |s| && k + |t| <= b - a
    ensures Occurs(s[a..b], k, t) <==> Occurs(s, a + k, t)
  {
    var n := |t|;
    var inside, outside := s[a..b][k..k + n], s[a + k..a + k + n];
    forall m | 0 <= m < n
      ensures inside[m] == outside[m]
    {
    }
    assert inside == outside;
  }

  /** The scanner's closing position is the first one that the fence occurs at. */
  lemma CloseIs(s: string, body: nat, h: string, c: nat)
    requires OnlyHashes(h) && body <= c
    ensures RawClose(s, body, |h|) == Some(c) <==>
              Occurs(s, c, Fence(h)) && forall k | body <= k < c :: !Occurs(s, k, Fence(h))
  {
    hide Closes, Fence, Occurs;
    forall k: nat
      ensures Closes(s, k, |h|) <==> Occurs(s, k, Fence(h))
    {
      ClosesIs(s, k, h);
    }
  }

  lemma RawPieces(s: string, i: nat, e: nat, open: string, content: string, fence: string)
    requires i <= e <= |s| && s[i..e] == open + content + fence
    ensures Occurs(s, i, open) && Occurs(s, i + |open| + |content|, fence)
    ensures i + |open| <= e && s[i + |open|..e] == content + fence
  {
    assert open + content + fence == open + (content + fence);
    assert Occurs(s, i, open + (content + fence));
    OccursSplit(s, i, open, content + fence);
    OccursSplit(s, i + |open|, content, fence);
  }

  lemma NoneBefore(s: string, body: nat, e: nat, fence: string, n: nat)
    requires body <= e <= |s| && body + n + |fence| == e
    requires forall k | 0 <= k < n :: !Occurs(s[body..e], k, fence)
    ensures forall k | body <= k < body + n :: !Occurs(s, k, fence)
  {
    forall k | body <= k < body + n
      ensures !Occurs(s, k, fence)
    {
      OccursWithin(s, body, e, k - body, fence);
      hide Occurs;
    }
  }

  lemma RawParts(t: string, prefix: string, h: string, content: string)
    requires RawFrom(t, prefix, h, content)
    ensures Opening(prefix + h + "\"", prefix, h) && OnlyHashes(h)
    ensures t == prefix + h + "\"" + content + Fence(h)
    ensures |prefix + h + "\""| == |prefix| + |h| + 1 && |Fence(h)| == |h| + 1
    ensures |t| == |prefix| + |h| + 1 + |content| + |h| + 1
    ensures forall k | 0 <= k < |content| :: !Occurs(content + Fence(h), k, Fence(h))
  {
    hide Occurs;
  }

  lemma RawRead(s: string, i: nat, e: nat, prefix: string, h: string, content: string)
    requires i <= e <= |s| && RawFrom(s[i..e], prefix, h, content)
    ensures RawOpen(s, i) == Some((i + |prefix| + |h| + 1, |h|))
    ensures RawClose(s, i + |prefix| + |h| + 1, |h|) == Some(e - |h| - 1)
  {
    hide *;
    RawParts(s[i..e], prefix, h, content);
    var open, fence := prefix + h + "\"", Fence(h);
    var body := i + |open|;
    RawPieces(s, i, e, open, content, fence);
    OpeningRead(s, i, prefix, h);
    NoneBefore(s, body, e, fence, |content|);
    CloseIs(s, body, h, body + |content|);
  }

  lemma Together(s: string, i: nat, body: nat, c: nat, open: string, fence: string)
    requires i <= body <= c && Occurs(s, i, open) && body == i + |open| && Occurs(s, c, fence)
    ensures var e := c + |fence|;
            && s[body..e] == s[body..c] + fence && s[i..e] == open + s[body..c] + fence
  {
    var e := c + |fence|;
    assert s[body..e] == s[body..c] + s[c..e];
    assert s[i..e] == s[i..body] + s[body..c] + s[c..e];
  }

  lemma RawFound(s: string, i: nat) returns (prefix: string, h: string, content: string)
    requires RawOpen(s, i).Some? && RawClose(s, RawOpen(s, i).value.0, RawOpen(s, i).value.1).Some?
    ensures var (body, n) := RawOpen(s, i).value;
            var e := RawClose(s, body, n).value + n + 1;
            i <= e <= |s| && RawFrom(s[i..e], prefix, h, content)
  {
    prefix, h := OpeningFound(s, i);
    var open := prefix + h + "\"";
    var body, n := i + |open|, |h|;
    var c := RawClose(s, body, n).value;
    hide RawOpen, RawClose, Closes;
    content := s[body..c];
    CloseIs(s, body, h, c);
    Together(s, i, body, c, open, Fence(h));
    forall k | 0 <= k < |content|
      ensures !Occurs(content + Fence(h), k, Fence(h))
    {
      OccursWithin(s, body, c + n + 1, k, Fence(h));
    }
    hide Occurs;
  }

  /** A raw string is found exactly where one is spelled: it ends at the first fence. */
  lemma RawExact(s: string, i: nat, e: nat)
    requires i <= e <= |s|
    ensures RawText(s[i..e]) <==>
              RawOpen(s, i).Some?
              && var (body, n) := RawOpen(s, i).value;
                 RawClose(s, body, n).Some? && e == RawClose(s, body, n).value + n + 1
  {
    if prefix, h, content :| RawFrom(s[i..e], prefix, h, content) {
      RawRead(s, i, e, prefix, h, content);
    }
    if RawOpen(s, i).Some? {
      var (body, n) := RawOpen(s, i).value;
      if RawClose(s, body, n).Some? && e == RawClose(s, body, n).value + n + 1 {
        var prefix, h, content := RawFound(s, i);
      }
    }
    hide RawOpen, RawClose, RawFrom;
  }

  lemma RawBeginsIs(s: string, i: nat)
    ensures RawBegins(s, i) <==> RawOpen(s, i).Some?
  {
    if prefix, h :| Opening(prefix + h + "\"", prefix, h) && Occurs(s, i, prefix + h + "\"") {
      OpeningRead(s, i, prefix, h);
    }
    if RawOpen(s, i).Some? {
      var prefix, h := OpeningFound(s, i);
    }
  }

  // ------------------------------------------------------------------ tokens

  /** Two slashes and the rest of the line. */
  ghost predicate LineComment(s: string, i: nat, e: nat)
    requires i <= e <= |s|
  {
    && e >= i + 2 && s[i] == '/' && s[i + 1] == '/' && (forall k | i + 2 <= k < e :: s[k] != '\n')
    && (e < |s| ==> s[e] == '\n')
  }

  ghost predicate BlockComment(t: string) {
    |t| >= 2 && t[0] == '/' && t[1] == '*' && exists b :: WellFormed(b) && t[2..] == Text(b)
  }

  ghost predicate StringText(t: string) {
    |t| >= 1 && t[0] == '"' && exists q :: Spelled(q) && t[1..] == Spelling(q)
  }

  /** No identifier runs up to the position. */
  ghost predicate AtWordStart(s: string, i: nat, isWord: char -> bool)
    requires i <= |s|
  {
    i >= 1 ==> !isWord(s[i - 1])
  }

  /** The text from `i` to `e` is a comment or a literal. */
  ghost predicate IsToken(s: string, i: nat, e: nat, isWord: char -> bool) {
    && i <= e <= |s|
    && (LineComment(s, i, e) || BlockComment(s[i..e]) || StringText(s[i..e]) || CharText(s[i..e])
        || (AtWordStart(s, i, isWord) && RawText(s[i..e])))
  }

  /** A comment or a literal begins at `i`, whether or not it ends. */
  ghost predicate Begins(s: string, i: nat, isWord: char -> bool)
    requires i < |s|
  {
    || Pair(s, i, '/', '/') || Pair(s, i, '/', '*') || s[i] == '"'
    || (exists e :: i <= e <= |s| && CharText(s[i..e]))
    || (AtWordStart(s, i, isWord) && RawBegins(s, i))
  }

  lemma LineIs(s: string, i: nat, e: nat)
    requires Pair(s, i, '/', '/') && i <= e <= |s|
    ensures LineComment(s, i, e) <==> e == LineEnd(s, i + 2)
  {
  }

  lemma BlockIs(s: string, i: nat, e: nat)
    requires Pair(s, i, '/', '*') && i <= e <= |s|
    ensures BlockComment(s[i..e]) <==> BlockEnd(s, i + 2, 1) == Some(e)
  {
    var t := s[i..e];
    BlockCommentExact(s, i + 2, e);
    hide BlockEnd, Text, WellFormed;
    if BlockComment(t) {
      var b :| WellFormed(b) && t[2..] == Text(b);
      assert t[2..] == s[i + 2..e];
      assert exists b :: WellFormed(b) && s[i + 2..e] == Text(b);
    }
    if BlockEnd(s, i + 2, 1) == Some(e) {
      assert t[2..] == s[i + 2..e] && t[0] == s[i] && t[1] == s[i + 1];
    }
  }

  lemma StringIs(s: string, i: nat, e: nat)
    requires Has(s, i, '"') && i <= e <= |s|
    ensures StringText(s[i..e]) <==> StringEnd(s, i + 1) == Some(e)
  {
    var t := s[i..e];
    StringExact(s, i + 1, e);
    hide StringEnd, Spelling, Spelled;
    if StringText(t) {
      var q :| Spelled(q) && t[1..] == Spelling(q);
      assert t[1..] == s[i + 1..e];
      assert exists q :: Spelled(q) && s[i + 1..e] == Spelling(q);
    }
    if StringEnd(s, i + 1) == Some(e) {
      assert t[1..] == s[i + 1..e] && t[0] == s[i];
    }
  }

  /** The first characters tell the kinds of tokens apart. */
  lemma FirstChars(s: string, i: nat, e: nat)
    requires i <= e <= |s|
    ensures LineComment(s, i, e) ==> Pair(s, i, '/', '/')
    ensures BlockComment(s[i..e]) ==> Pair(s, i, '/', '*')
    ensures StringText(s[i..e]) ==> Has(s, i, '"')
    ensures CharText(s[i..e]) ==> Has(s, i, '\'')
    ensures RawText(s[i..e]) ==> Has(s, i, 'r') || Pair(s, i, 'b', 'r') || Pair(s, i, 'c', 'r')
  {
    RawExact(s, i, e);
    hide RawText, Hashes, RawClose;
    if StringText(s[i..e]) {
      assert s[i] == s[i..e][0];
    }
    if BlockComment(s[i..e]) {
      assert s[i] == s[i..e][0] && s[i + 1] == s[i..e][1];
    }
    hide StringText, BlockComment;
    if CharText(s[i..e]) {
      assert s[i] == s[i..e][0];
    }
  }

  lemma RawStart(s: string, i: nat)
    ensures RawOpen(s, i).Some? ==> Has(s, i, 'r') || Pair(s, i, 'b', 'r') || Pair(s, i, 'c', 'r')
  {
  }

  /** The decision at a position ends exactly the token that is spelled there. */
  lemma TokenExact(s: string, i: nat, e: nat, isWord: char -> bool)
    requires i < |s|
    ensures TokenAt(s, i, isWord) == Skip(e) <==> IsToken(s, i, e, isWord)
  {
    RawStart(s, i);
    if i <= e <= |s| {
      FirstChars(s, i, e);
      RawExact(s, i, e);
      if Pair(s, i, '/', '/') {
        LineIs(s, i, e);
      } else if Pair(s, i, '/', '*') {
        BlockIs(s, i, e);
      } else if s[i] == '"' {
        StringIs(s, i, e);
      } else if s[i] == '\'' {
        CharExact(s, i, e);
      }
    }
    hide LineComment, BlockComment, StringText, CharText, RawText, LineEnd, BlockEnd, StringEnd, RawOpen, RawClose,
      CharEnd;
  }

  /** A position is kept exactly when nothing begins there. */
  lemma KeepExact(s: string, i: nat, isWord: char -> bool)
    requires i < |s|
    ensures TokenAt(s, i, isWord) == Keep <==> !Begins(s, i, isWord)
  {
    RawStart(s, i);
    RawBeginsIs(s, i);
    forall e: nat | e <= |s|
      ensures i <= e <= |s| && CharText(s[i..e]) <==> Has(s, i, '\'') && CharEnd(s, i) == Some(e)
    {
      if i <= e {
        FirstChars(s, i, e);
      }
      if Has(s, i, '\'') {
        CharExact(s, i, e);
      }
    }
    hide CharText, RawBegins, LineEnd, BlockEnd, StringEnd, RawOpen, RawClose, CharEnd;
    if s[i] == '\'' && CharEnd(s, i).Some? {
      var e := CharEnd(s, i).value;
      assert i <= e <= |s| && CharText(s[i..e]);
    }
  }

  // ------------------------------------------------------------------ the whole text

  /** From one cut to the next: one comment or literal, or one character where nothing begins. */
  ghost predicate Piece(s: string, a: nat, b: nat, isWord: char -> bool) {
    a < |s| && (IsToken(s, a, b, isWord) || (b == a + 1 && !Begins(s, a, isWord)))
  }

  /** Cuts the text from `i` up to `end` into pieces. */
  ghost predicate Cuts(s: string, i: nat, end: nat, cuts: seq<nat>, isWord: char -> bool) {
    && |cuts| >= 1 && cuts[0] == i && cuts[|cuts| - 1] == end
    && forall j | 0 <= j < |cuts| - 1 :: Piece(s, cuts[j], cuts[j + 1], isWord)
  }

  /** The k-th character belongs to a comment or literal of the cut. */
  ghost predicate InToken(s: string, cuts: seq<nat>, k: nat, isWord: char -> bool) {
    exists j :: 0 <= j < |cuts| - 1 && Covers(s, cuts[j], cuts[j + 1], k, isWord)
  }

  ghost predicate Covers(s: string, a: nat, b: nat, k: nat, isWord: char -> bool) {
    a <= k < b && IsToken(s, a, b, isWord)
  }

  /** The text with everything in comments and literals blanked, except for line breaks. */
  ghost predicate Blanked(s: string, cuts: seq<nat>, r: string, isWord: char -> bool) {
    |r| == |s| && forall k | 0 <= k < |s| ::
      r[k] == if InToken(s, cuts, k, isWord) && s[k] != '\n' then ' ' else s[k]
  }

  lemma PieceIs(s: string, a: nat, isWord: char -> bool)
    requires a < |s|
    ensures forall b: nat | Piece(s, a, b, isWord) :: a < b <= |s|
    ensures forall b :: Piece(s, a, b, isWord) && IsToken(s, a, b, isWord) <==> TokenAt(s, a, isWord) == Skip(b)
    ensures forall b :: Piece(s, a, b, isWord) && !IsToken(s, a, b, isWord) <==>
                        TokenAt(s, a, isWord) == Keep && b == a + 1
  {
    KeepExact(s, a, isWord);
    forall b: nat
      ensures TokenAt(s, a, isWord) == Skip(b) <==> IsToken(s, a, b, isWord)
    {
      TokenExact(s, a, b, isWord);
    }
    hide TokenAt, IsToken, Begins;
    TokenGoesOn(s, a, isWord);
  }

  lemma TokenGoesOn(s: string, a: nat, isWord: char -> bool)
    requires a < |s|
    ensures TokenAt(s, a, isWord).Skip? ==> a < TokenAt(s, a, isWord).end <= |s|
  {
    hide TokenAt;
  }

  lemma {:induction false} CutsGoOn(s: string, i: nat, end: nat, cuts: seq<nat>, isWord: char -> bool, j: nat)
    requires Cuts(s, i, end, cuts, isWord) && j < |cuts|
    ensures i <= cuts[j]
    decreases j
  {
    hide Piece;
    if j > 0 {
      CutsGoOn(s, i, end, cuts, isWord, j - 1);
      assert Piece(s, cuts[j - 1], cuts[j], isWord);
      PieceLonger(s, cuts[j - 1], cuts[j], isWord);
    }
  }

  lemma PieceLonger(s: string, a: nat, b: nat, isWord: char -> bool)
    requires Piece(s, a, b, isWord)
    ensures a < b <= |s|
  {
    PieceIs(s, a, isWord);
    hide Piece;
  }

  lemma FirstPiece(s: string, i: nat, end: nat, cuts: seq<nat>, isWord: char -> bool)
    requires Cuts(s, i, end, cuts, isWord) && |cuts| >= 2
    ensures Piece(s, i, cuts[1], isWord) && Cuts(s, cuts[1], end, cuts[1..], isWord)
    ensures forall k: nat :: InToken(s, cuts, k, isWord) <==>
              Covers(s, i, cuts[1], k, isWord) || InToken(s, cuts[1..], k, isWord)
    ensures forall k: nat | k < cuts[1] :: !InToken(s, cuts[1..], k, isWord)
  {
    hide Piece, IsToken;
    var rest := cuts[1..];
    assert Piece(s, cuts[0], cuts[1], isWord);
    forall j | 0 <= j < |rest| - 1
      ensures Piece(s, rest[j], rest[j + 1], isWord)
    {
      assert Piece(s, cuts[j + 1], cuts[j + 2], isWord);
    }
    forall k: nat
      ensures InToken(s, cuts, k, isWord) <==> Covers(s, i, cuts[1], k, isWord) || InToken(s, rest, k, isWord)
    {
      hide Covers;
      if InToken(s, rest, k, isWord) {
        var j :| 0 <= j < |rest| - 1 && Covers(s, rest[j], rest[j + 1], k, isWord);
        assert Covers(s, cuts[j + 1], cuts[j + 2], k, isWord);
      }
      if j :| 0 <= j < |cuts| - 1 && Covers(s, cuts[j], cuts[j + 1], k, isWord) {
        assert j > 0 ==> rest[j - 1] == cuts[j] && rest[j] == cuts[j + 1];
      }
    }
    forall j | 0 <= j < |rest|
      ensures cuts[1] <= rest[j]
    {
      CutsGoOn(s, cuts[1], end, rest, isWord, j);
    }
  }

  /** Marking and cutting agree, character by character. */
  lemma {:induction false} CutsAreMarks(s: string, i: nat, cuts: seq<nat>, isWord: char -> bool)
    requires i <= |s| && Cuts(s, i, |s|, cuts, isWord)
    ensures Marks(s, i, isWord).Ok?
    ensures forall k | i <= k < |s| :: Marks(s, i, isWord).value[k - i] <==> InToken(s, cuts, k, isWord)
    decreases |cuts|
  {
    hide TokenAt, Piece, IsToken;
    if |cuts| == 1 {
      assert i == |s|;
    } else {
      FirstPiece(s, i, |s|, cuts, isWord);
      PieceLonger(s, i, cuts[1], isWord);
      PieceIs(s, i, isWord);
      CutsAreMarks(s, cuts[1], cuts[1..], isWord);
      hide InToken, Cuts;
    }
  }

  lemma {:induction false} MarksAreCuts(s: string, i: nat, isWord: char -> bool) returns (cuts: seq<nat>)
    requires i <= |s| && Marks(s, i, isWord).Ok?
    ensures Cuts(s, i, |s|, cuts, isWord)
    decreases |s| - i
  {
    hide TokenAt, Piece, IsToken;
    if i == |s| {
      cuts := [i];
    } else {
      PieceIs(s, i, isWord);
      var e := if TokenAt(s, i, isWord).Keep? then i + 1 else TokenAt(s, i, isWord).end;
      TokenGoesOn(s, i, isWord);
      var rest := MarksAreCuts(s, e, isWord);
      cuts := [i] + rest;
      forall j | 0 <= j < |cuts| - 1
        ensures Piece(s, cuts[j], cuts[j + 1], isWord)
      {
        if j > 0 {
          assert Piece(s, rest[j - 1], rest[j], isWord);
        }
      }
    }
  }

  /**
    The filter succeeds with a text exactly when the source can be cut into comments, literals and single
    characters where neither begins, and the text is the source with the comments and literals blanked.
   */
  lemma FilteredExactly(s: string, isWord: char -> bool, r: string)
    ensures Filtered(s, isWord) == Ok(r) <==>
              exists cuts :: Cuts(s, 0, |s|, cuts, isWord) && Blanked(s, cuts, r, isWord)
  {
    hide Marks, Cuts, InToken;
    if Filtered(s, isWord).Ok? {
      var cuts := MarksAreCuts(s, 0, isWord);
      CutsAreMarks(s, 0, cuts, isWord);
    }
    forall cuts | Cuts(s, 0, |s|, cuts, isWord) && Blanked(s, cuts, r, isWord)
      ensures Filtered(s, isWord) == Ok(r)
    {
      CutsAreMarks(s, 0, cuts, isWord);
      assert Render(s, Marks(s, 0, isWord).value) == r;
    }
  }

  // ------------------------------------------------------------------ refusals

  /** At the end of the cut something begins that no comment or literal completes. */
  ghost predicate BreaksOff(s: string, i: nat, at: nat, cuts: seq<nat>, isWord: char -> bool) {
    && Cuts(s, i, at, cuts, isWord) && at < |s| && Begins(s, at, isWord)
    && forall e :: !IsToken(s, at, e, isWord)
  }

  ghost predicate BrokenAs(s: string, at: nat, error: Error) {
    && at < |s|
    && (error == UnterminatedComment <==> s[at] == '/')
    && (error == UnterminatedString <==> s[at] == '"')
  }

  lemma BrokenIs(s: string, a: nat, isWord: char -> bool)
    requires a < |s|
    ensures TokenAt(s, a, isWord).Broken? <==>
              Begins(s, a, isWord) && forall e :: !IsToken(s, a, e, isWord)
    ensures TokenAt(s, a, isWord).Broken? ==> BrokenAs(s, a, TokenAt(s, a, isWord).error)
  {
    KeepExact(s, a, isWord);
    forall e: nat
      ensures TokenAt(s, a, isWord) == Skip(e) <==> IsToken(s, a, e, isWord)
    {
      TokenExact(s, a, e, isWord);
    }
    RawStart(s, a);
    hide IsToken, Begins, LineEnd, BlockEnd, StringEnd, RawOpen, RawClose, CharEnd;
  }

  lemma {:induction false} RefusalIsFound(s: string, i: nat, isWord: char -> bool) returns (at: nat, cuts: seq<nat>)
    requires i <= |s| && Marks(s, i, isWord).Err?
    ensures BreaksOff(s, i, at, cuts, isWord) && BrokenAs(s, at, Marks(s, i, isWord).error)
    decreases |s| - i
  {
    hide TokenAt, Piece, IsToken, Begins, BrokenAs;
    BrokenIs(s, i, isWord);
    PieceIs(s, i, isWord);
    TokenGoesOn(s, i, isWord);
    if TokenAt(s, i, isWord).Broken? {
      at, cuts := i, [i];
    } else {
      var e := if TokenAt(s, i, isWord).Keep? then i + 1 else TokenAt(s, i, isWord).end;
      var rest;
      at, rest := RefusalIsFound(s, e, isWord);
      cuts := [i] + rest;
      forall j | 0 <= j < |cuts| - 1
        ensures Piece(s, cuts[j], cuts[j + 1], isWord)
      {
        if j > 0 {
          assert Piece(s, rest[j - 1], rest[j], isWord);
        }
      }
    }
  }

  lemma {:induction false} BreakIsRefused(s: string, i: nat, at: nat, cuts: seq<nat>, isWord: char -> bool)
    requires i <= |s| && BreaksOff(s, i, at, cuts, isWord)
    ensures Marks(s, i, isWord).Err?
    decreases |cuts|
  {
    hide TokenAt, Piece, IsToken, Begins;
    if |cuts| == 1 {
      BrokenIs(s, i, isWord);
    } else {
      FirstPiece(s, i, at, cuts, isWord);
      PieceLonger(s, i, cuts[1], isWord);
      PieceIs(s, i, isWord);
      BreakIsRefused(s, cuts[1], at, cuts[1..], isWord);
    }
  }

  /** The filter refuses exactly the texts in which a comment or a literal begins and never ends, and says which. */
  lemma RefusedExactly(s: string, isWord: char -> bool)
    ensures Filtered(s, isWord).Err? <==> exists at, cuts :: BreaksOff(s, 0, at, cuts, isWord)
    ensures Filtered(s, isWord).Err? ==>
              exists at, cuts :: BreaksOff(s, 0, at, cuts, isWord) && BrokenAs(s, at, Filtered(s, isWord).error)
  {
    hide Marks, BreaksOff, BrokenAs;
    if Filtered(s, isWord).Err? {
      var at, cuts := RefusalIsFound(s, 0, isWord);
    }
    if at, cuts :| BreaksOff(s, 0, at, cuts, isWord) {
      BreakIsRefused(s, 0, at, cuts, isWord);
    }
  }
}
