/** The YAML subset that the manifests are written in: values, scalars and the lines of the printer. */
module Yaml {
  import opened Strings

  /** A dictionary keeps its insertion order; floats do not occur. */
  datatype Value =
    | Null
    | Bool(b: bool)
    | Int(i: int)
    | Str(s: string)
    | Dict(entries: Entries)
    | List(items: Items)

  datatype Entries = NoEntry | Entry(key: string, value: Value, rest: Entries)

  datatype Items = NoItem | Item(value: Value, rest: Items)

  // ------------------------------------------------------------------ scalars

  function Digit(d: nat): char
    requires d < 10
  {
    "0123456789"[d]
  }

  function Decimal(n: nat): (s: string)
    ensures s != ""
  {
    if n < 10 then [Digit(n)] else Decimal(n / 10) + [Digit(n % 10)]
  }

  function IntText(i: int): string {
    if i < 0 then "-" + Decimal(-i) else Decimal(i)
  }

  function HexDigit(d: nat): char
    requires d < 16
  {
    "0123456789abcdef"[d]
  }

  function Unit(n: nat): (s: string)
    requires n < 0x10000
  {
    ['\\', 'u', HexDigit(n / 4096), HexDigit(n / 256 % 16), HexDigit(n / 16 % 16), HexDigit(n % 16)]
  }

  /** One character of a JSON string literal restricted to ASCII. */
  function Escape(c: char): (s: string)
    ensures s != ""
  {
    if c == '"' then "\\\""
    else if c == '\\' then "\\\\"
    else if c == '\n' then "\\n"
    else if c == '\r' then "\\r"
    else if c == '\t' then "\\t"
    else if c == '\U{0008}' then "\\b"
    else if c == '\U{000C}' then "\\f"
    else if ' ' <= c <= '~' then [c]
    else if c as int < 0x10000 then Unit(c as int)
    else
      var n := c as int - 0x10000;
      Unit(0xD800 + n / 0x400) + Unit(0xDC00 + n % 0x400)
  }

  function EscapeAll(s: string): string {
    if s == "" then "" else Escape(s[0]) + EscapeAll(s[1..])
  }

  function Quote(s: string): string {
    ['"'] + (EscapeAll(s) + ['"'])
  }

  function ScalarText(v: Value): string {
    match v
    case Bool(b) => if b then "true" else "false"
    case Null => "null"
    case Int(i) => IntText(i)
    case Str(s) => Quote(s)
    // Anything else is converted to its text first; only empty containers get here.
    case Dict(_) => Quote("{}")
    case List(_) => Quote("[]")
  }

  // ------------------------------------------------------------------ lines

  function Spaces(n: nat): (s: string)
    ensures |s| == n && forall k | 0 <= k < n :: s[k] == ' '
  {
    if n == 0 then "" else [' '] + Spaces(n - 1)
  }

  function JoinLines(lines: seq<string>): string {
    if lines == [] then "" else if |lines| == 1 then lines[0] else lines[0] + (['\n'] + JoinLines(lines[1..]))
  }

  function SplitLines(s: string): (lines: seq<string>)
    ensures lines != []
  {
    var k := Find(s, 0, '\n');
    if k == |s| then [s] else [s[..k]] + SplitLines(s[k + 1..])
  }

  predicate IsCollection(v: Value) {
    (v.Dict? && v.entries.Entry?) || (v.List? && v.items.Item?)
  }

  predicate IsBlockText(v: Value) {
    v.Str? && '\n' in v.s
  }

  /** The body of a literal block: every nonempty line is indented, an empty line stays empty. */
  function BlockLines(lines: seq<string>, pad: string): (r: seq<string>)
    ensures |r| == |lines|
    ensures forall k | 0 <= k < |r| :: r[k] == if lines[k] == "" then "" else pad + lines[k]
  {
    if lines == [] then []
    else [if lines[0] == "" then "" else pad + lines[0]] + BlockLines(lines[1..], pad)
  }

  function Lines(v: Value, indent: nat): (lines: seq<string>)
    ensures IsCollection(v) ==> lines != []
    decreases v, 0
  {
    match v
    case Dict(entries) => EntryLines(entries, indent)
    case List(items) => ItemLines(items, indent)
    case _ => [Spaces(indent) + ScalarText(v)]
  }

  function OneEntry(key: string, v: Value, indent: nat): (lines: seq<string>)
    ensures lines != []
    decreases v, 1
  {
    var pad := Spaces(indent) + key;
    if IsBlockText(v) then [pad + ": |-"] + BlockLines(SplitLines(v.s), Spaces(indent + 2))
    else if IsCollection(v) then [pad + ":"] + Lines(v, indent + 2)
    else if v.Dict? then [pad + ": {}"]
    else if v.List? then [pad + ": []"]
    else [pad + (": " + ScalarText(v))]
  }

  function EntryLines(entries: Entries, indent: nat): (lines: seq<string>)
    ensures entries.Entry? ==> lines != []
    decreases entries
  {
    match entries
    case NoEntry => []
    case Entry(key, value, rest) => OneEntry(key, value, indent) + EntryLines(rest, indent)
  }

  /** A nested collection shares its first line with the dash. */
  function OneItem(v: Value, indent: nat): (lines: seq<string>)
    ensures lines != []
    decreases v, 1
  {
    if IsCollection(v) then
      var nested := Lines(v, indent + 2);
      [Spaces(indent) + ("- " + TrimLeft(nested[0]))] + nested[1..]
    else [Spaces(indent) + ("- " + ScalarText(v))]
  }

  function ItemLines(items: Items, indent: nat): (lines: seq<string>)
    ensures items.Item? ==> lines != []
    decreases items
  {
    match items
    case NoItem => []
    case Item(value, rest) => OneItem(value, indent) + ItemLines(rest, indent)
  }

  // ------------------------------------------------------------------ the printer as written

  /** The printed text; nested texts are joined whole under a key and split again under a dash. */
  function ToYaml(v: Value, indent: nat): string
    decreases v, 0
  {
    match v
    case Dict(entries) => JoinLines(EntryTexts(entries, indent))
    case List(items) => JoinLines(ItemTexts(items, indent))
    case _ => Spaces(indent) + ScalarText(v)
  }

  function EntryText(key: string, v: Value, indent: nat): seq<string>
    decreases v, 1
  {
    var pad := Spaces(indent) + key;
    if IsBlockText(v) then [pad + ": |-"] + BlockLines(SplitLines(v.s), Spaces(indent + 2))
    else if IsCollection(v) then [pad + ":", ToYaml(v, indent + 2)]
    else if v.Dict? then [pad + ": {}"]
    else if v.List? then [pad + ": []"]
    else [pad + (": " + ScalarText(v))]
  }

  function EntryTexts(entries: Entries, indent: nat): seq<string>
    decreases entries
  {
    match entries
    case NoEntry => []
    case Entry(key, value, rest) => EntryText(key, value, indent) + EntryTexts(rest, indent)
  }

  function ItemText(v: Value, indent: nat): seq<string>
    decreases v, 1
  {
    if IsCollection(v) then
      var nested := SplitLines(ToYaml(v, indent + 2));
      [Spaces(indent) + ("- " + TrimLeft(nested[0]))] + nested[1..]
    else [Spaces(indent) + ("- " + ScalarText(v))]
  }

  function ItemTexts(items: Items, indent: nat): seq<string>
    decreases items
  {
    match items
    case NoItem => []
    case Item(value, rest) => ItemText(value, indent) + ItemTexts(rest, indent)
  }

  method PrintYaml(value: Value, indent: nat) returns (text: string)
    ensures text == ToYaml(value, indent)
    decreases value, 1
  {
    match value
    case Dict(entries) =>
      var lines := PrintEntries(entries, indent);
      text := JoinLines(lines);
    case List(items) =>
      var lines := PrintItems(items, indent);
      text := JoinLines(lines);
    case _ =>
      text := Spaces(indent) + ScalarText(value);
  }

  method PrintEntries(entries: Entries, indent: nat) returns (lines: seq<string>)
    ensures lines == EntryTexts(entries, indent)
    decreases entries, 0
  {
    hide EntryTexts, EntryText;
    lines := [];
    var e := entries;
    while e.Entry?
      invariant e == entries || e < entries
      invariant EntryTexts(entries, indent) == lines + EntryTexts(e, indent)
      decreases e
    {
      var more := PrintEntry(e.key, e.value, indent);
      EntryStep(lines, e, indent);
      lines := lines + more;
      e := e.rest;
    }
    NoTexts(indent);
  }

  method PrintEntry(key: string, item: Value, indent: nat) returns (lines: seq<string>)
    ensures lines == EntryText(key, item, indent)
    decreases item, 2
  {
    var pad := Spaces(indent) + key;
    if IsBlockText(item) {
      lines := [pad + ": |-"] + BlockLines(SplitLines(item.s), Spaces(indent + 2));
    } else if IsCollection(item) {
      var nested := PrintYaml(item, indent + 2);
      lines := [pad + ":", nested];
    } else if item.Dict? {
      lines := [pad + ": {}"];
    } else if item.List? {
      lines := [pad + ": []"];
    } else {
      lines := [pad + (": " + ScalarText(item))];
    }
  }

  method PrintItems(items: Items, indent: nat) returns (lines: seq<string>)
    ensures lines == ItemTexts(items, indent)
    decreases items, 0
  {
    hide ItemTexts, ItemText;
    lines := [];
    var i := items;
    while i.Item?
      invariant i == items || i < items
      invariant ItemTexts(items, indent) == lines + ItemTexts(i, indent)
      decreases i
    {
      var more := PrintItem(i.value, indent);
      ItemStep(lines, i, indent);
      lines := lines + more;
      i := i.rest;
    }
    NoTexts(indent);
  }

  method PrintItem(item: Value, indent: nat) returns (lines: seq<string>)
    ensures lines == ItemText(item, indent)
    decreases item, 2
  {
    if IsCollection(item) {
      var text := PrintYaml(item, indent + 2);
      var nested := SplitLines(text);
      lines := [Spaces(indent) + ("- " + TrimLeft(nested[0]))] + nested[1..];
    } else {
      lines := [Spaces(indent) + ("- " + ScalarText(item))];
    }
  }

  lemma NoTexts(indent: nat)
    ensures EntryTexts(NoEntry, indent) == [] && ItemTexts(NoItem, indent) == []
  {
  }

  lemma EntryStep(before: seq<string>, e: Entries, indent: nat)
    requires e.Entry?
    ensures before + EntryTexts(e, indent) == before + EntryText(e.key, e.value, indent) + EntryTexts(e.rest, indent)
  {
  }

  lemma ItemStep(before: seq<string>, i: Items, indent: nat)
    requires i.Item?
    ensures before + ItemTexts(i, indent) == before + ItemText(i.value, indent) + ItemTexts(i.rest, indent)
  {
  }
}
