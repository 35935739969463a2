/**
  A reader for the printed subset of YAML 1.2.2: block mappings and sequences, the compact form of
  a collection after a dash, double-quoted scalars, and literal blocks that strip their last break.
 */
module YamlReader {
  import opened Wrappers
  import opened Strings
  import opened Yaml

  /** What was read, and the lines that follow it. */
  datatype Parsed<T> = Bad | Good(value: T, rest: seq<string>)

  // ------------------------------------------------------------------ characters (section 5)

  /**
    Line feeds and what a line may hold: the printable characters without the byte order mark. A
    carriage return would be a line break and is not read.
   */
  predicate Printable(c: char) {
    || c == '\t' || c == '\n' || ' ' <= c <= '~' || c == '\U{0085}' || '\U{00A0}' <= c <= '\U{D7FF}'
    || ('\U{E000}' <= c <= '\U{FFFD}' && c != '\U{FEFF}') || '\U{10000}' <= c <= '\U{10FFFF}'
  }

  predicate Letter(c: char) {
    'A' <= c <= 'Z' || 'a' <= c <= 'z'
  }

  predicate KeyChar(c: char) {
    Letter(c) || IsDigit(c) || c == '.' || c == '_' || c == '/' || c == '-'
  }

  /** Words that the core schema (section 10.3.2) does not read as strings. */
  predicate Reserved(word: string) {
    word in ["true", "True", "TRUE", "false", "False", "FALSE", "null", "Null", "NULL"]
  }

  function Indent(line: string): (n: nat)
    ensures n <= |line| && (forall k | 0 <= k < n :: line[k] == ' ') && (n < |line| ==> line[n] != ' ')
  {
    if line != "" && line[0] == ' ' then 1 + Indent(line[1..]) else 0
  }

  function KeyRun(line: string, i: nat): (n: nat)
    requires i <= |line|
    ensures i + n <= |line|
    ensures forall k | i <= k < i + n :: KeyChar(line[k])
    ensures i + n < |line| ==> !KeyChar(line[i + n])
    decreases |line| - i
  {
    if i < |line| && KeyChar(line[i]) then 1 + KeyRun(line, i + 1) else 0
  }

  // ------------------------------------------------------------------ scalars

  function DigitValue(c: char): Option<nat> {
    if IsDigit(c) then Some(c as nat - '0' as nat) else None
  }

  function ReadDecimal(s: string): Option<nat> {
    if s == "" then None
    else
      match DigitValue(s[|s| - 1])
      case None => None
      case Some(d) =>
        if |s| == 1 then Some(d)
        else
          match ReadDecimal(s[..|s| - 1])
          case None => None
          case Some(n) => Some(10 * n + d)
  }

  function HexValue(c: char): Option<nat> {
    if IsDigit(c) then Some(c as nat - '0' as nat)
    else if 'a' <= c <= 'f' then Some(c as nat - 'a' as nat + 10)
    else None
  }

  function ReadHex(s: string, i: nat, count: nat, n: nat): Option<nat>
    decreases count
  {
    if count == 0 then Some(n)
    else if i >= |s| then None
    else
      match HexValue(s[i])
      case None => None
      case Some(d) => ReadHex(s, i + 1, count - 1, 16 * n + d)
  }

  function Attach(c: char, rest: Option<string>): Option<string> {
    match rest
    case None => None
    case Some(s) => Some([c] + s)
  }

  function SimpleEscape(c: char): Option<char> {
    if c == '"' then Some('"')
    else if c == '\\' then Some('\\')
    else if c == 'n' then Some('\n')
    else if c == 'r' then Some('\r')
    else if c == 't' then Some('\t')
    else if c == 'b' then Some('\U{0008}')
    else if c == 'f' then Some('\U{000C}')
    else None
  }

  /** The body of a double-quoted scalar, which must close at the end of the text. */
  function Unescape(s: string, i: nat): Option<string>
    decreases |s| - i
  {
    if i >= |s| then None
    else if s[i] == '"' then if i + 1 == |s| then Some("") else None
    else if s[i] != '\\' then Attach(s[i], Unescape(s, i + 1))
    else if i + 1 == |s| then None
    else if s[i + 1] == 'u' then
      match ReadHex(s, i + 2, 4, 0)
      // An escaped 16-bit value is a character by itself; half of a surrogate pair is not one.
      case Some(n) => if n < 0xD800 || 0xE000 <= n < 0x10000 then Attach(n as char, Unescape(s, i + 6)) else None
      case None => None
    else
      match SimpleEscape(s[i + 1])
      case Some(c) => Attach(c, Unescape(s, i + 2))
      case None => None
  }

  function ReadScalar(text: string): Option<Value> {
    if text == "true" then Some(Bool(true))
    else if text == "false" then Some(Bool(false))
    else if text == "null" then Some(Null)
    else if text != "" && text[0] == '"' then
      match Unescape(text, 1)
      case Some(s) => Some(Str(s))
      case None => None
    else if text != "" && text[0] == '-' then
      match ReadDecimal(text[1..])
      case Some(n) => Some(Int(0 - n as int))
      case None => None
    else
      match ReadDecimal(text)
      case Some(n) => Some(Int(n))
      case None => None
  }

  // ------------------------------------------------------------------ literal blocks (section 8.1)

  function LeadingEmpty(lines: seq<string>): (n: nat)
    ensures n <= |lines| && (n < |lines| ==> lines[n] != "")
    ensures forall k | 0 <= k < n :: lines[k] == ""
  {
    if lines != [] && lines[0] == "" then 1 + LeadingEmpty(lines[1..]) else 0
  }

  /** How many lines are empty or indented by at least `m`. */
  function BlockRun(lines: seq<string>, m: nat): (n: nat)
    ensures n <= |lines|
    ensures forall k | 0 <= k < n :: lines[k] == "" || Indent(lines[k]) >= m
    ensures n < |lines| ==> lines[n] != "" && Indent(lines[n]) < m
  {
    if lines != [] && (lines[0] == "" || Indent(lines[0]) >= m) then 1 + BlockRun(lines[1..], m) else 0
  }

  function Unindent(lines: seq<string>, m: nat): (r: seq<string>)
    requires forall k | 0 <= k < |lines| :: lines[k] == "" || |lines[k]| >= m
    ensures |r| == |lines|
    ensures forall k | 0 <= k < |r| :: r[k] == if lines[k] == "" then "" else lines[k][m..]
  {
    if lines == [] then [] else [if lines[0] == "" then "" else lines[0][m..]] + Unindent(lines[1..], m)
  }

  function DropLastEmpty(lines: seq<string>): (r: seq<string>)
    ensures r <= lines
    ensures r != [] ==> r[|r| - 1] != ""
  {
    if lines != [] && lines[|lines| - 1] == "" then DropLastEmpty(lines[..|lines| - 1]) else lines
  }

  /** The literal below an entry at indent `n`: its indentation is that of its first nonempty line. */
  function ReadLiteral(lines: seq<string>, n: nat): (p: Parsed<string>)
    ensures p.Good? ==> |p.rest| <= |lines|
  {
    var k := LeadingEmpty(lines);
    if k == |lines| || Indent(lines[k]) <= n then Good("", lines[k..])
    else
      var m := Indent(lines[k]);
      var r := BlockRun(lines, m);
      Good(JoinLines(DropLastEmpty(Unindent(lines[..r], m))), lines[r..])
  }

  // ------------------------------------------------------------------ collections (section 8.2)

  predicate DashAt(line: string, n: nat) {
    n + 2 <= |line| && line[n] == '-' && line[n + 1] == ' '
  }

  /** An entry begins at `n`: a plain key and a colon, then a space or the end of the line. */
  predicate EntryAt(line: string, n: nat) {
    && n < |line| && Letter(line[n])
    && var e := n + KeyRun(line, n);
       e < |line| && line[e] == ':' && (e + 1 == |line| || line[e + 1] == ' ')
  }

  function Content(lines: seq<string>): nat {
    if lines == [] then 0 else |lines[0]| - Indent(lines[0])
  }

  function ReadNode(lines: seq<string>): (p: Parsed<Value>)
    ensures p.Good? ==> |p.rest| < |lines|
    decreases |lines|, Content(lines), 2
  {
    if lines == [] then Bad
    else
      var line, n := lines[0], Indent(lines[0]);
      if DashAt(line, n) then
        match ReadItems(lines, n)
        case Bad => Bad
        case Good(items, rest) => Good(List(items), rest)
      else if EntryAt(line, n) then
        match ReadEntries(lines, n)
        case Bad => Bad
        case Good(entries, rest) => Good(Dict(entries), rest)
      else
        match ReadScalar(line[n..])
        case None => Bad
        case Some(v) => Good(v, lines[1..])
  }

  lemma IndentOfPadded(n: nat, text: string)
    ensures Indent(Spaces(n) + text) == n + Indent(text)
  {
    if n == 0 {
      assert Spaces(n) + text == text;
    } else {
      assert (Spaces(n) + text)[1..] == Spaces(n - 1) + text;
      IndentOfPadded(n - 1, text);
    }
  }

  /** The dash gives way to spaces, so that what follows it keeps its column. */
  function Undashed(lines: seq<string>, n: nat): (r: seq<string>)
    requires lines != [] && Indent(lines[0]) == n && DashAt(lines[0], n)
    ensures |r| == |lines| && Content(r) < Content(lines)
  {
    IndentOfPadded(n + 2, lines[0][n + 2..]);
    [Spaces(n + 2) + lines[0][n + 2..]] + lines[1..]
  }

  function ReadItems(lines: seq<string>, n: nat): (p: Parsed<Items>)
    requires lines != [] && Indent(lines[0]) == n && DashAt(lines[0], n)
    ensures p.Good? ==> |p.rest| < |lines|
    decreases |lines|, Content(lines), 1
  {
    match ReadNode(Undashed(lines, n))
    case Bad => Bad
    case Good(v, rest) =>
      if rest != [] && Indent(rest[0]) == n && DashAt(rest[0], n) then
        match ReadItems(rest, n)
        case Bad => Bad
        case Good(items, rest') => Good(Item(v, items), rest')
      else Good(Item(v, NoItem), rest)
  }

  /** The value of an entry: the rest of its line, or the lines below it. */
  function ReadValue(after: string, lines: seq<string>, n: nat): (p: Parsed<Value>)
    ensures p.Good? ==> |p.rest| <= |lines|
    decreases |lines|, Content(lines), 3
  {
    if after == "" then
      if lines != [] && lines[0] != "" && Indent(lines[0]) > n then ReadNode(lines) else Bad
    else if after == " |-" then
      match ReadLiteral(lines, n)
      case Bad => Bad
      case Good(s, rest) => Good(Str(s), rest)
    else if after == " {}" then Good(Dict(NoEntry), lines)
    else if after == " []" then Good(List(NoItem), lines)
    else
      match ReadScalar(after[1..])
      case None => Bad
      case Some(v) => Good(v, lines)
  }

  function ReadEntries(lines: seq<string>, n: nat): (p: Parsed<Entries>)
    requires lines != [] && EntryAt(lines[0], n)
    ensures p.Good? ==> |p.rest| < |lines|
    decreases |lines|, Content(lines), 1
  {
    var e := n + KeyRun(lines[0], n);
    var key := lines[0][n..e];
    if Reserved(key) then Bad
    else
      match ReadValue(lines[0][e + 1..], lines[1..], n)
      case Bad => Bad
      case Good(v, rest) =>
        if rest != [] && Indent(rest[0]) == n && EntryAt(rest[0], n) then
          match ReadEntries(rest, n)
          case Bad => Bad
          case Good(entries, rest') => Good(Entry(key, v, entries), rest')
        else Good(Entry(key, v, NoEntry), rest)
  }

  /** A whole document. */
  function ReadYaml(text: string): Option<Value> {
    if exists c | c in text :: !Printable(c) then None
    else
      match ReadNode(SplitLines(text))
      case Bad => None
      case Good(v, rest) => if rest == [] then Some(v) else None
  }
}
