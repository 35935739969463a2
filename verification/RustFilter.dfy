/**
  The lexical filter that blanks comments and literals in a Rust source while keeping every
  position and every line break.
 */
module RustFilter {
  import opened Wrappers
  import opened Strings

  datatype Error = UnterminatedComment | UnterminatedRawString | UnterminatedString

  datatype Result<T> = Ok(value: T) | Err(error: Error)

  /** What begins at a position: an ordinary character, a token ending before `end`, or a broken token. */
  datatype Token = Keep | Skip(end: nat) | Broken(error: Error)

  const MAX_HASHES: nat := 255

  // ------------------------------------------------------------------ characters and patterns

  predicate Has(s: string, i: nat, c: char) {
    i < |s| && s[i] == c
  }

  predicate Pair(s: string, i: nat, a: char, b: char) {
    Has(s, i, a) && Has(s, i + 1, b)
  }

  predicate IsHex(c: char) {
    IsLowerHex(c) || 'A' <= c <= 'F'
  }

  predicate HexAt(s: string, i: nat) {
    i < |s| && IsHex(s[i])
  }

  /** Length of the run of `#` that starts at `i`. */
  function Hashes(s: string, i: nat): (n: nat)
    ensures forall k | i <= k < i + n :: Has(s, k, '#')
    ensures !Has(s, i + n, '#')
    decreases |s| - i
  {
    if Has(s, i, '#') then 1 + Hashes(s, i + 1) else 0
  }

  /** Length of the run of hexadecimal digits and underscores that starts at `i`. */
  function HexRun(s: string, i: nat): (n: nat)
    ensures n == 0 || i + n <= |s|
    ensures forall k | i <= k < i + n :: IsHex(s[k]) || s[k] == '_'
    ensures i + n < |s| ==> !IsHex(s[i + n]) && s[i + n] != '_'
    decreases |s| - i
  {
    if i < |s| && (IsHex(s[i]) || s[i] == '_') then 1 + HexRun(s, i + 1) else 0
  }

  /** A closing quote followed by `n` hashes. */
  predicate Closes(s: string, i: nat, n: nat) {
    && i + n < |s|
    && s[i] == '"'
    && (forall k | i < k <= i + n :: s[k] == '#')
  }

  // ------------------------------------------------------------------ ends of tokens

  function LineEnd(s: string, i: nat): (e: nat)
    requires i <= |s|
    ensures i <= e <= |s|
    ensures e < |s| ==> s[e] == '\n'
    ensures forall k | i <= k < e :: s[k] != '\n'
    decreases |s| - i
  {
    if i == |s| || s[i] == '\n' then i else LineEnd(s, i + 1)
  }

  /** The end of the block comment with `depth` comments open at `i`. */
  function BlockEnd(s: string, i: nat, depth: nat): (e: Option<nat>)
    requires i <= |s|
    ensures e.Some? ==> i <= e.value <= |s|
    decreases |s| - i
  {
    if depth == 0 then Some(i)
    else if i >= |s| then None
    else if Pair(s, i, '/', '*') then BlockEnd(s, i + 2, depth + 1)
    else if Pair(s, i, '*', '/') then BlockEnd(s, i + 2, depth - 1)
    else BlockEnd(s, i + 1, depth)
  }

  /** The end of the string whose body continues at `i`; an escape may step past the source. */
  function StringEnd(s: string, i: nat): (e: Option<nat>)
    ensures e.Some? ==> i < e.value <= |s|
    decreases |s| + 2 - i
  {
    if i >= |s| then None
    else if s[i] == '\\' then StringEnd(s, i + 2)
    else if s[i] == '"' then Some(i + 1)
    else StringEnd(s, i + 1)
  }

  /** The first closing delimiter of a raw string at or after `i`. */
  function RawClose(s: string, i: nat, n: nat): (e: Option<nat>)
    ensures e.Some? ==> i <= e.value && e.value + n < |s| && Closes(s, e.value, n)
    ensures e.Some? ==> forall k | i <= k < e.value :: !Closes(s, k, n)
    ensures e.None? ==> forall k | i <= k :: !Closes(s, k, n)
    decreases |s| - i
  {
    if i >= |s| then None
    else if Closes(s, i, n) then Some(i)
    else RawClose(s, i + 1, n)
  }

  /** Where the hashes of a raw string prefix (`br`, `cr` or `r`) begin. */
  function RawPrefix(s: string, i: nat): Option<nat> {
    if Pair(s, i, 'b', 'r') || Pair(s, i, 'c', 'r') then Some(i + 2)
    else if Has(s, i, 'r') then Some(i + 1)
    else None
  }

  /** The body of the raw string opened at `i`, and the number of its hashes. */
  function RawOpen(s: string, i: nat): Option<(nat, nat)> {
    match RawPrefix(s, i)
    case None => None
    case Some(j) =>
      var n := Hashes(s, j);
      if n <= MAX_HASHES && Has(s, j + n, '"') then Some((j + n + 1, n)) else None
  }

  /** `'\u{...}'` with `HexRun(s, i + 4)` digits. */
  predicate UnicodeLiteral(s: string, i: nat) {
    var n := HexRun(s, i + 4);
    Pair(s, i + 2, 'u', '{') && n > 0 && Pair(s, i + 4 + n, '}', '\'')
  }

  predicate ByteLiteral(s: string, i: nat) {
    Has(s, i + 2, 'x') && HexAt(s, i + 3) && HexAt(s, i + 4) && Has(s, i + 5, '\'')
  }

  predicate EscapeLiteral(s: string, i: nat) {
    i + 2 < |s| && s[i + 2] != '\n' && Has(s, i + 3, '\'')
  }

  predicate PlainLiteral(s: string, i: nat) {
    i + 1 < |s| && s[i + 1] != '\'' && s[i + 1] != '\n' && s[i + 1] != '\\' && Has(s, i + 2, '\'')
  }

  /** The end of the character literal opened by the apostrophe at `i`, if it is one. */
  function CharEnd(s: string, i: nat): (e: Option<nat>)
    ensures e.Some? ==> i + 3 <= e.value <= |s|
  {
    if Has(s, i + 1, '\\') then
      if UnicodeLiteral(s, i) then Some(i + 6 + HexRun(s, i + 4))
      else if ByteLiteral(s, i) then Some(i + 6)
      else if EscapeLiteral(s, i) then Some(i + 4)
      else None
    else if PlainLiteral(s, i) then Some(i + 3)
    else None
  }

  /** The decision taken at position `i`; `isWord` says which characters may continue an identifier. */
  function TokenAt(s: string, i: nat, isWord: char -> bool): (t: Token)
    requires i < |s|
    ensures t.Skip? ==> i + 2 <= t.end <= |s|
  {
    if Pair(s, i, '/', '/') then Skip(LineEnd(s, i + 2))
    else if Pair(s, i, '/', '*') then
      match BlockEnd(s, i + 2, 1)
      case Some(e) => Skip(e)
      case None => Broken(UnterminatedComment)
    else if (i == 0 || !isWord(s[i - 1])) && RawOpen(s, i).Some? then
      var (body, n) := RawOpen(s, i).value;
      match RawClose(s, body, n)
      case Some(e) => Skip(e + n + 1)
      case None => Broken(UnterminatedRawString)
    else if s[i] == '"' then
      match StringEnd(s, i + 1)
      case Some(e) => Skip(e)
      case None => Broken(UnterminatedString)
    else if s[i] == '\'' && CharEnd(s, i).Some? then Skip(CharEnd(s, i).value)
    else Keep
  }

  // ------------------------------------------------------------------ the filter

  /** From position `i` on: which characters belong to comments and literals. */
  function Marks(s: string, i: nat, isWord: char -> bool): (m: Result<seq<bool>>)
    requires i <= |s|
    ensures m.Ok? ==> |m.value| == |s| - i
    decreases |s| - i
  {
    if i == |s| then Ok([])
    else
      match TokenAt(s, i, isWord)
      case Keep => Prepend([false], Marks(s, i + 1, isWord))
      case Skip(e) => Prepend(Repeat(true, e - i), Marks(s, e, isWord))
      case Broken(error) => Err(error)
  }

  function Repeat(b: bool, n: nat): (r: seq<bool>)
    ensures |r| == n && forall k | 0 <= k < n :: r[k] == b
  {
    seq(n, _ => b)
  }

  function Prepend<T>(head: seq<T>, tail: Result<seq<T>>): Result<seq<T>> {
    match tail
    case Ok(rest) => Ok(head + rest)
    case Err(error) => Err(error)
  }

  function Blank(c: char): char {
    if c == '\n' then c else ' '
  }

  function Render(s: string, marks: seq<bool>): (r: string)
    requires |marks| == |s|
    ensures |r| == |s|
    ensures forall k | 0 <= k < |s| :: r[k] == if marks[k] then Blank(s[k]) else s[k]
  {
    seq(|s|, k requires 0 <= k < |s| => if marks[k] then Blank(s[k]) else s[k])
  }

  function Filtered(s: string, isWord: char -> bool): Result<string> {
    match Marks(s, 0, isWord)
    case Ok(marks) => Ok(Render(s, marks))
    case Err(error) => Err(error)
  }

  // ------------------------------------------------------------------ what survives

  /** Nothing in the text begins a comment or a literal. */
  ghost predicate Clean(s: string) {
    && (forall k | 0 <= k < |s| :: s[k] != '"')
    && (forall k: nat :: !Pair(s, k, '/', '/') && !Pair(s, k, '/', '*'))
    && (forall k: nat | Has(s, k, '\'') :: CharEnd(s, k).None?)
  }

  /** Unmarked positions were read as code, and no marked stretch is a single character. */
  ghost predicate WellMarked(s: string, i: nat, m: seq<bool>, isWord: char -> bool)
    requires i <= |s| && |m| == |s| - i
  {
    && (forall k | 0 <= k < |m| && !m[k] :: TokenAt(s, i + k, isWord) == Keep)
    && (forall k :: !LoneMark(m, k))
  }

  /** A marked position at the start of a stretch that is not followed by another. */
  ghost predicate LoneMark(m: seq<bool>, k: int) {
    && 0 <= k < |m| && m[k]
    && (k > 0 ==> !m[k - 1])
    && (k + 1 < |m| ==> !m[k + 1])
  }

  lemma {:induction false} MarksAreWell(s: string, i: nat, isWord: char -> bool)
    requires i <= |s| && Marks(s, i, isWord).Ok?
    ensures WellMarked(s, i, Marks(s, i, isWord).value, isWord)
    decreases |s| - i
  {
    if i < |s| {
      var m := Marks(s, i, isWord).value;
      var e := if TokenAt(s, i, isWord).Keep? then i + 1 else TokenAt(s, i, isWord).end;
      MarksAreWell(s, e, isWord);
      var rest := Marks(s, e, isWord).value;
      forall k | 0 <= k < |m| && !m[k]
        ensures TokenAt(s, i + k, isWord) == Keep
      {
        if k >= e - i {
          assert !rest[k - (e - i)];
        }
      }
      forall k
        ensures !LoneMark(m, k)
      {
        assert !LoneMark(rest, k - (e - i));
      }
    }
  }

  lemma {:induction false} SameHexRun(r: string, s: string, i: nat, n: nat)
    requires |r| == |s| && i + n < |s|
    requires forall k | i <= k <= i + n :: r[k] == s[k]
    requires HexRun(r, i) == n
    ensures HexRun(s, i) == n
    decreases n
  {
    if n > 0 {
      SameHexRun(r, s, i + 1, n - 1);
    }
  }

  lemma UnicodeSurvives(s: string, m: seq<bool>, k: nat)
    requires |m| == |s| && UnicodeLiteral(Render(s, m), k)
    ensures UnicodeLiteral(s, k)
  {
    var r := Render(s, m);
    var n := HexRun(r, k + 4);
    forall j | k + 2 <= j <= k + 5 + n
      ensures r[j] == s[j]
    {
      assert j < k + 4 + n ==> j == k + 2 || j == k + 3 || IsHex(r[j]) || r[j] == '_';
    }
    SameHexRun(r, s, k + 4, n);
  }

  lemma OutputHasNoCharLiteral(s: string, m: seq<bool>, isWord: char -> bool, k: nat)
    requires |m| == |s| && WellMarked(s, 0, m, isWord)
    requires Has(Render(s, m), k, '\'')
    ensures CharEnd(Render(s, m), k).None?
  {
    var r := Render(s, m);
    assert CharEnd(s, k).None? by {
      assert !m[k] && TokenAt(s, 0 + k, isWord) == Keep;
    }
    if UnicodeLiteral(r, k) {
      UnicodeSurvives(s, m, k);
    }
    assert !LoneMark(m, k + 1) && !LoneMark(m, k + 2);
  }

  lemma OutputIsClean(s: string, isWord: char -> bool)
    requires Filtered(s, isWord).Ok?
    ensures Clean(Filtered(s, isWord).value)
  {
    var m := Marks(s, 0, isWord).value;
    var r := Render(s, m);
    MarksAreWell(s, 0, isWord);
    forall k: nat | Has(r, k, '\'')
      ensures CharEnd(r, k).None?
    {
      OutputHasNoCharLiteral(s, m, isWord, k);
    }
    forall k | 0 <= k < |r|
      ensures r[k] != '"' && !Pair(r, k, '/', '/') && !Pair(r, k, '/', '*')
    {
      if !m[k] {
        assert TokenAt(s, k, isWord) == Keep;
      }
    }
  }

  lemma CleanKeeps(s: string, isWord: char -> bool, i: nat)
    requires Clean(s) && i < |s|
    ensures TokenAt(s, i, isWord) == Keep
  {
    var _ := Pair(s, i, '/', '/');
    assert RawOpen(s, i).None?;
  }

  lemma {:induction false} CleanMarks(s: string, isWord: char -> bool, i: nat)
    requires Clean(s) && i <= |s|
    ensures Marks(s, i, isWord) == Ok(Repeat(false, |s| - i))
    decreases |s| - i
  {
    if i < |s| {
      CleanKeeps(s, isWord, i);
      CleanMarks(s, isWord, i + 1);
      assert [false] + Repeat(false, |s| - i - 1) == Repeat(false, |s| - i);
    }
  }

  /** The texts the filter leaves alone are exactly those in which no comment or literal begins. */
  lemma FixedIffClean(s: string, isWord: char -> bool)
    ensures Filtered(s, isWord) == Ok(s) <==> Clean(s)
  {
    if Clean(s) {
      CleanMarks(s, isWord, 0);
      assert Render(s, Repeat(false, |s|)) == s;
    }
    if Filtered(s, isWord) == Ok(s) {
      OutputIsClean(s, isWord);
    }
  }

  /** Filtering keeps positions and line breaks, only blanks, removes every delimiter, and is idempotent. */
  lemma FilterTheorem(s: string, isWord: char -> bool)
    requires Filtered(s, isWord).Ok?
    ensures var r := Filtered(s, isWord).value;
            && |r| == |s|
            && (forall k | 0 <= k < |s| :: r[k] == s[k] || r[k] == ' ')
            && (forall k | 0 <= k < |s| :: r[k] == '\n' <==> s[k] == '\n')
            && Clean(r)
            && Filtered(r, isWord) == Ok(r)
  {
    OutputIsClean(s, isWord);
    FixedIffClean(Filtered(s, isWord).value, isWord);
  }

  // ------------------------------------------------------------------ the loop

  method MaskRange(source: string, masked: array<char>, start: nat, end: nat)
    requires start <= end <= |source| == masked.Length
    modifies masked
    ensures forall k | 0 <= k < masked.Length ::
              masked[k] == if start <= k < end && source[k] != '\n' then ' ' else old(masked[k])
  {
    for position := start to end
      invariant forall k | 0 <= k < masked.Length ::
          masked[k] == if start <= k < position && source[k] != '\n' then ' ' else old(masked[k])
    {
      if source[position] != '\n' {
        masked[position] := ' ';
      }
    }
  }

  method SkipBlock(source: string, start: nat) returns (index: nat, open: bool)
    requires start <= |source|
    ensures BlockEnd(source, start, 1) == if open then None else Some(index)
  {
    var depth := 1;
    index := start;
    while index < |source| && depth > 0
      invariant index <= |source| && BlockEnd(source, index, depth) == BlockEnd(source, start, 1)
      decreases |source| - index
    {
      if Pair(source, index, '/', '*') {
        depth := depth + 1;
        index := index + 2;
      } else if Pair(source, index, '*', '/') {
        depth := depth - 1;
        index := index + 2;
      } else {
        index := index + 1;
      }
    }
    open := depth > 0;
  }

  method SkipString(source: string, start: nat) returns (index: nat, open: bool)
    ensures StringEnd(source, start) == if open then None else Some(index)
  {
    index := start;
    while index < |source|
      invariant StringEnd(source, index) == StringEnd(source, start)
      decreases |source| + 2 - index
    {
      if source[index] == '\\' {
        index := index + 2;
      } else if source[index] == '"' {
        return index + 1, false;
      } else {
        index := index + 1;
      }
    }
    open := true;
  }

  /** The branch taken at `index`: where its token ends, or that it does not. */
  method NextToken(source: string, index: nat, isWord: char -> bool) returns (token: Token)
    requires index < |source|
    ensures token == TokenAt(source, index, isWord)
  {
    if Pair(source, index, '/', '/') {
      return Skip(LineEnd(source, index + 2));
    } else if Pair(source, index, '/', '*') {
      var end, open := SkipBlock(source, index + 2);
      return if open then Broken(UnterminatedComment) else Skip(end);
    } else if (index == 0 || !isWord(source[index - 1])) && RawOpen(source, index).Some? {
      var (body, n) := RawOpen(source, index).value;
      var end := RawClose(source, body, n);
      return if end.None? then Broken(UnterminatedRawString) else Skip(end.value + n + 1);
    } else if source[index] == '"' {
      var end, open := SkipString(source, index + 1);
      return if open then Broken(UnterminatedString) else Skip(end);
    } else if source[index] == '\'' && CharEnd(source, index).Some? {
      return Skip(CharEnd(source, index).value);
    }
    return Keep;
  }

  /** The filter as written: a copy of the source is overwritten in place under a moving index. */
  method RustCode(source: string, isWord: char -> bool) returns (result: Result<string>)
    ensures result == Filtered(source, isWord)
  {
    hide TokenAt;
    var masked := new char[|source|](k requires 0 <= k < |source| => source[k]);
    var index := 0;
    ghost var done: seq<bool> := [];
    PrependNothing(Marks(source, 0, isWord));
    while index < |source|
      invariant index <= |source| && |done| == index
      invariant Marks(source, 0, isWord) == Prepend(done, Marks(source, index, isWord))
      invariant forall k | 0 <= k < |source| ::
          masked[k] == if k < index && done[k] then Blank(source[k]) else source[k]
      decreases |source| - index
    {
      var token := NextToken(source, index, isWord);
      match token
      case Broken(error) =>
        return Err(error);
      case Keep =>
        PrependTwice(done, [false], Marks(source, index + 1, isWord));
        done := done + [false];
        index := index + 1;
      case Skip(end) =>
        PrependTwice(done, Repeat(true, end - index), Marks(source, end, isWord));
        done := done + Repeat(true, end - index);
        MaskRange(source, masked, index, end);
        index := end;
    }
    assert done + [] == done;
    result := Ok(masked[..]);
    assert masked[..] == Render(source, done);
  }

  lemma PrependTwice<T>(a: seq<T>, b: seq<T>, tail: Result<seq<T>>)
    ensures Prepend(a, Prepend(b, tail)) == Prepend(a + b, tail)
  {
    if tail.Ok? {
      assert a + (b + tail.value) == a + b + tail.value;
    }
  }

  lemma PrependNothing<T>(tail: Result<seq<T>>)
    ensures Prepend([], tail) == tail
  {
    if tail.Ok? {
      assert [] + tail.value == tail.value;
    }
  }
}
