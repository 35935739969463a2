/** Exactly which values come back from their printed text. */
module YamlExact {
  import opened Wrappers
  import opened Strings
  import opened Yaml
  import opened YamlReader
  import opened YamlScalars
  import opened YamlLiterals
  import opened YamlRoundTrip
  import opened YamlTheorem

  // ------------------------------------------------------------------ scalars

  lemma {:induction false} WideLost(t: string, i: nat, s: string)
    requires !Narrow(s) && Occurs(t, i, EscapeAll(s) + ['"'])
    ensures Unescape(t, i) == None
    decreases |s|
  {
    var e := Escape(s[0]);
    assert EscapeAll(s) + ['"'] == e + (EscapeAll(s[1..]) + ['"']);
    OccursSplit(t, i, e, EscapeAll(s[1..]) + ['"']);
    if s[0] as int < 0x10000 {
      EscapeBack(t, i, s[0]);
      assert !Narrow(s[1..]);
      WideLost(t, i + |e|, s[1..]);
    } else {
      SurrogateLost(t, i, s[0]);
    }
  }

  lemma SurrogateLost(t: string, i: nat, c: char)
    requires c as int >= 0x10000 && Occurs(t, i, Escape(c))
    ensures Unescape(t, i) == None
  {
    hide ReadHex, Unit;
    var n := c as int - 0x10000;
    var high := Unit(0xD800 + n / 0x400);
    OccursSplit(t, i, high, Unit(0xDC00 + n % 0x400));
    UnitStarts(0xD800 + n / 0x400);
    OccursAt(t, i, high, 0);
    OccursAt(t, i, high, 1);
    UnitBack(t, i, 0xD800 + n / 0x400);
  }

  lemma UnitStarts(n: nat)
    requires n < 0x10000
    ensures |Unit(n)| == 6 && Unit(n)[0] == '\\' && Unit(n)[1] == 'u'
  {
  }

  /** A quoted string comes back exactly when each of its characters fits one 16-bit escape. */
  lemma QuotedExact(s: string)
    ensures ReadScalar(Quote(s)) == Some(Str(s)) <==> Narrow(s)
  {
    hide Unescape, EscapeAll;
    if Narrow(s) {
      QuoteBack(s);
    } else {
      var t := Quote(s);
      assert t[1..] == EscapeAll(s) + ['"'] && t[0] == '"';
      WideLost(t, 1, s);
      assert "true"[0] != t[0] && "false"[0] != t[0] && "null"[0] != t[0];
    }
  }

  lemma ScalarExact(v: Value)
    requires Scalar(v)
    ensures ReadScalar(ScalarText(v)) == Some(v) <==> Simple(v)
  {
    hide ReadScalar, Quote, IntText;
    if Simple(v) {
      ScalarBack(v);
    } else {
      QuotedExact(v.s);
    }
  }

  // ------------------------------------------------------------------ what the reader can return

  /** Keys are plain, and below a dash or at the top there is a scalar or a collection that is not empty. */
  lemma {:induction false} NodeIsPlain(lines: seq<string>)
    requires ReadNode(lines).Good?
    ensures var v := ReadNode(lines).value; Plain(v) && (IsCollection(v) || Scalar(v))
    decreases |lines|, Content(lines), 2
  {
    hide Indent, ReadScalar, ReadItems, ReadEntries, DashAt, EntryAt;
    var line, n := lines[0], Indent(lines[0]);
    if DashAt(line, n) {
      ItemsArePlain(lines, n);
    } else if EntryAt(line, n) {
      EntriesArePlain(lines, n);
    } else {
      ScalarRead(line[n..]);
    }
  }

  lemma ScalarRead(text: string)
    ensures ReadScalar(text).Some? ==> Scalar(ReadScalar(text).value)
  {
  }

  lemma {:induction false} ItemsArePlain(lines: seq<string>, n: nat)
    requires lines != [] && Indent(lines[0]) == n && DashAt(lines[0], n) && ReadItems(lines, n).Good?
    ensures var items := ReadItems(lines, n).value; items.Item? && PlainItems(items)
    decreases |lines|, Content(lines), 1
  {
    hide Indent, DashAt, ReadNode, Undashed;
    NodeIsPlain(Undashed(lines, n));
    var rest := ReadNode(Undashed(lines, n)).rest;
    if rest != [] && Indent(rest[0]) == n && DashAt(rest[0], n) {
      ItemsArePlain(rest, n);
    }
  }

  lemma {:induction false} EntriesArePlain(lines: seq<string>, n: nat)
    requires lines != [] && EntryAt(lines[0], n) && ReadEntries(lines, n).Good?
    ensures var entries := ReadEntries(lines, n).value; entries.Entry? && PlainEntries(entries)
    decreases |lines|, Content(lines), 1
  {
    hide Indent, EntryAt, ReadValue, KeyRun, Reserved, PlainKey;
    var e := n + KeyRun(lines[0], n);
    KeyIsPlain(lines[0], n);
    ValueIsPlain(lines[0][e + 1..], lines[1..], n);
    var rest := ReadValue(lines[0][e + 1..], lines[1..], n).rest;
    if rest != [] && Indent(rest[0]) == n && EntryAt(rest[0], n) {
      EntriesArePlain(rest, n);
    }
  }

  lemma KeyIsPlain(line: string, n: nat)
    requires EntryAt(line, n)
    ensures n + KeyRun(line, n) < |line|
    ensures var key := line[n..n + KeyRun(line, n)]; !Reserved(key) ==> PlainKey(key)
  {
    hide Reserved;
    assert KeyChar(line[n]);
  }

  lemma {:induction false} ValueIsPlain(after: string, lines: seq<string>, n: nat)
    requires ReadValue(after, lines, n).Good?
    ensures Plain(ReadValue(after, lines, n).value)
    decreases |lines|, Content(lines), 3
  {
    hide Indent, ReadNode, ReadLiteral, ReadScalar;
    if after == "" {
      NodeIsPlain(lines);
    } else if after != " |-" && after != " {}" && after != " []" {
      ScalarRead(after[1..]);
    }
  }

  // ------------------------------------------------------------------ what comes back is readable

  lemma BlockLinesClean(lines: seq<string>, m: nat)
    requires CleanLines(BlockLines(lines, Spaces(m)))
    ensures CleanLines(lines)
  {
    var bl := BlockLines(lines, Spaces(m));
    hide CleanText, BlockLines, Spaces;
    forall k | 0 <= k < |lines|
      ensures CleanText(lines[k])
    {
      assert CleanText(bl[k]);
      if lines[k] != "" {
        TailClean(m, lines[k]);
      }
    }
  }

  /** The printed lines of a block are printable only if the text is. */
  lemma BlockPrintable(s: string, m: nat)
    requires CleanLines(BlockLines(SplitLines(s), Spaces(m)))
    ensures forall c | c in s :: Printable(c)
  {
    hide *;
    BlockLinesClean(SplitLines(s), m);
    JoinPrintable(SplitLines(s));
    JoinSplit(s);
  }

  lemma BlockExact(s: string, n: nat, more: seq<string>)
    requires '\n' in s && CleanLines(BlockLines(SplitLines(s), Spaces(n + 2)) + more)
    requires Returns(ReadLiteral(BlockLines(SplitLines(s), Spaces(n + 2)) + more, n), s)
    ensures BlockSafe(s)
  {
    hide ReadLiteral, BlockLines, SplitLines, BlockSafe, Spaces, Printable;
    var bl := BlockLines(SplitLines(s), Spaces(n + 2));
    CleanParts(bl, more);
    BlockPrintable(s, n + 2);
    Cleaned(more);
    if !BlockSafe(s) {
      UnsafeLiteralLost(s, n, more);
    }
  }

  lemma CleanParts(a: seq<string>, b: seq<string>)
    requires CleanLines(a + b)
    ensures CleanLines(a) && CleanLines(b)
  {
    hide CleanText;
    assert forall k | 0 <= k < |a| :: a[k] == (a + b)[k];
    assert forall k | 0 <= k < |b| :: b[k] == (a + b)[|a| + k];
  }

  ghost predicate Returns<T>(p: Parsed<T>, v: T) {
    p.Good? && p.value == v
  }

  lemma {:induction false} ValueExact(v: Value, n: nat, more: seq<string>)
    requires Plain(v) && CleanLines(Below(v, n) + more)
    requires Returns(ReadValue(After(v), Below(v, n) + more, n), v)
    ensures ReadableAsEntry(v)
    decreases v, 1
  {
    hide Lines, BlockSafe, ReadNode, ReadLiteral, Indent, BlockLines, SplitLines, Spaces, CleanLines;
    if IsBlockText(v) {
      BlockExact(v.s, n, more);
    } else if IsCollection(v) {
      CollectionExact(v, n + 2, more);
    } else if Scalar(v) {
      ScalarAfter(v);
      ScalarExact(v);
    }
  }

  lemma {:induction false} CollectionExact(v: Value, n: nat, tail: seq<string>)
    requires IsCollection(v) && Plain(v) && CleanLines(Lines(v, n) + tail)
    requires Returns(ReadNode(Lines(v, n) + tail), v)
    ensures Readable(v)
    decreases v, 0
  {
    hide ReadEntries, ReadItems, EntryLines, ItemLines, Indent, CleanLines;
    assert v.Dict? ==> PlainEntries(v.entries);
    var c := FirstLine(v, n);
    assert (Lines(v, n) + tail)[0] == Lines(v, n)[0];
    match v
    case Dict(entries) =>
      EntriesExact(entries, n, tail);
    case List(items) =>
      ItemsExact(items, n, tail);
  }

  ghost predicate ReadsEntries(lines: seq<string>, n: nat, entries: Entries) {
    lines != [] && Indent(lines[0]) == n && EntryAt(lines[0], n) && Returns(ReadEntries(lines, n), entries)
  }

  ghost predicate ReadsItems(lines: seq<string>, n: nat, items: Items) {
    lines != [] && Indent(lines[0]) == n && DashAt(lines[0], n) && Returns(ReadItems(lines, n), items)
  }

  lemma EntryRead(lines: seq<string>, n: nat, entries: Entries)
    requires ReadsEntries(lines, n, entries) && entries.Entry?
    ensures var e := n + KeyRun(lines[0], n);
            && e < |lines[0]|
            && var p := ReadValue(lines[0][e + 1..], lines[1..], n);
               Returns(p, entries.value) && (entries.rest.Entry? ==> ReadsEntries(p.rest, n, entries.rest))
  {
    hide ReadValue, KeyRun, Indent, Reserved, Letter;
  }

  /** What an entry read from its line says about the rest of the reading. */
  lemma EntryStepExact(line: string, below: seq<string>, n: nat, key: string, after: string, entries: Entries)
    requires ReadsEntries([line] + below, n, entries) && entries.Entry?
    requires KeyRun(line, n) == |key| && n + |key| < |line| && line[n + |key| + 1..] == after
    ensures var p := ReadValue(after, below, n);
            Returns(p, entries.value) && (entries.rest.Entry? ==> ReadsEntries(p.rest, n, entries.rest))
  {
    hide *;
    var lines := [line] + below;
    assert lines[0] == line && lines[1..] == below;
    EntryRead(lines, n, entries);
  }

  lemma {:induction false} EntriesExact(entries: Entries, n: nat, tail: seq<string>)
    requires entries.Entry? && PlainEntries(entries) && CleanLines(EntryLines(entries, n) + tail)
    requires ReadsEntries(EntryLines(entries, n) + tail, n, entries)
    ensures ReadableEntries(entries)
    decreases entries
  {
    hide ReadValue, Below, After, Indent, KeyRun, EntryLines, EntryLine, EntryAt, ReadEntries, ReadsEntries, CleanLines;
    var key, v, rest := entries.key, entries.value, entries.rest;
    var more := EntryLines(rest, n) + tail;
    var line := EntryLine(key, After(v), n);
    EntriesShape(entries, n, tail);
    AfterSpaced(v);
    EntryLineRead(key, After(v), n);
    EntryLong(key, After(v), n);
    EntryStepExact(line, Below(v, n) + more, n, key, After(v), entries);
    CleanParts([line], Below(v, n) + more);
    CleanParts(Below(v, n), more);
    ValueExact(v, n, more);
    if rest.Entry? {
      EntriesFirst(rest, n);
      assert more[0] == EntryLines(rest, n)[0];
      LineNotEmpty(more[0], n);
      ValueBack(v, n, more);
      EntriesExact(rest, n, tail);
    }
  }

  lemma EntryLong(key: string, after: string, n: nat)
    ensures n + |key| < |EntryLine(key, after, n)|
  {
  }

  lemma ItemStepExact(lines: seq<string>, n: nat, items: Items)
    requires ReadsItems(lines, n, items) && items.Item?
    ensures var p := ReadNode(Undashed(lines, n));
            Returns(p, items.value) && (items.rest.Item? ==> ReadsItems(p.rest, n, items.rest))
  {
    hide Indent, DashAt, ReadNode, Undashed;
  }

  lemma {:induction false} ItemExact(v: Value, n: nat, more: seq<string>)
    requires Plain(v) && (IsCollection(v) || Scalar(v)) && CleanLines(Lines(v, n) + more)
    requires Returns(ReadNode(Lines(v, n) + more), v)
    ensures Readable(v) && (IsCollection(v) || Simple(v))
    decreases v, 1
  {
    hide Indent, ReadNode, ScalarText, CleanLines, DashAt, EntryAt;
    if IsCollection(v) {
      CollectionExact(v, n, more);
    } else {
      ScalarNodeExact(v, n, more);
    }
  }

  lemma ScalarNodeExact(v: Value, n: nat, more: seq<string>)
    requires Scalar(v) && Returns(ReadNode([Spaces(n) + ScalarText(v)] + more), v)
    ensures Simple(v)
  {
    hide Indent, ScalarText, DashAt, EntryAt, ReadScalar;
    ScalarLine(v, n);
    ScalarExact(v);
    var line := Spaces(n) + ScalarText(v);
    assert ([line] + more)[0] == line;
  }

  lemma {:induction false} ItemsExact(items: Items, n: nat, tail: seq<string>)
    requires items.Item? && PlainItems(items) && CleanLines(ItemLines(items, n) + tail)
    requires ReadsItems(ItemLines(items, n) + tail, n, items)
    ensures ReadableItems(items)
    decreases items
  {
    hide Indent, OneItem, ReadNode, DashAt, ReadsItems, CleanLines, Lines, Undashed;
    var v, rest := items.value, items.rest;
    var more := ItemLines(rest, n) + tail;
    assert ItemLines(items, n) + tail == OneItem(v, n) + more;
    assert v.Dict? ==> PlainEntries(v.entries);
    ItemUndashed(v, n, more);
    ItemStepExact(OneItem(v, n) + more, n, items);
    CleanParts(OneItem(v, n), more);
    ItemLinesClean(v, n, more);
    ItemExact(v, n + 2, more);
    if rest.Item? {
      var c := ItemsFirst(rest, n);
      assert more[0] == ItemLines(rest, n)[0];
      LineNotEmpty(more[0], n);
      ItemBack(v, n, more);
      ItemsExact(rest, n, tail);
    }
  }

  /** The lines of an item are as clean without its dash. */
  lemma ItemLinesClean(v: Value, n: nat, more: seq<string>)
    requires (IsCollection(v) && (v.Dict? ==> PlainKey(v.entries.key))) || Scalar(v)
    requires CleanLines(OneItem(v, n) + more)
    ensures CleanLines(Lines(v, n + 2) + more)
  {
    hide Lines, OneItem, Printable, ScalarText;
    var c := ItemShape(v, n);
    var nested, line := Lines(v, n + 2), Spaces(n) + ("- " + c);
    assert (OneItem(v, n) + more)[0] == line;
    assert forall k | 0 <= k < |c| :: c[k] == line[n + 2 + k];
    SpacesClean(n + 2, c);
    var lines := nested + more;
    assert forall k | 1 <= k < |lines| :: lines[k] == (OneItem(v, n) + more)[k];
  }

  // ------------------------------------------------------------------ the whole value

  lemma CleanSplit(s: string)
    requires forall k | 0 <= k < |s| :: Printable(s[k])
    ensures CleanLines(SplitLines(s))
  {
    hide Printable, SplitLines;
    LinesPrintable(s);
    JoinSplit(s);
    forall j, k | 0 <= j < |SplitLines(s)| && 0 <= k < |SplitLines(s)[j]|
      ensures SplitLines(s)[j][k] != '\n'
    {
      assert OneLine(SplitLines(s)[j]);
    }
  }

  /** A value printed from the left margin comes back whole exactly when it is readable. */
  lemma ReadsBackExactly(v: Value)
    ensures ReadYaml(ToYaml(v, 0)) == Some(v) <==> Readable(v) && (IsCollection(v) || Simple(v))
  {
    hide ToYaml, Lines, ReadNode, Printable, CleanLines, JoinLines, SplitLines, Readable;
    if Readable(v) && (IsCollection(v) || Simple(v)) {
      ReadsBack(v);
    } else if ReadYaml(ToYaml(v, 0)) == Some(v) {
      PrintedLines(v);
      ItemExact(v, 0, []);
    }
  }

  lemma PrintedLines(v: Value)
    requires ReadYaml(ToYaml(v, 0)) == Some(v)
    ensures Plain(v) && (IsCollection(v) || Scalar(v))
    ensures CleanLines(Lines(v, 0) + []) && Returns(ReadNode(Lines(v, 0) + []), v)
  {
    hide ToYaml, Lines, ReadNode, Printable, CleanLines, JoinLines, SplitLines, ScalarText;
    var text, lines := ToYaml(v, 0), Lines(v, 0);
    NodeIsPlain(SplitLines(text));
    TextIsLines(v, 0);
    LinesOneLine(v);
    SplitJoin(lines);
    CleanSplit(text);
    assert lines + [] == lines;
  }

  lemma LinesOneLine(v: Value)
    requires Plain(v) && (IsCollection(v) || Scalar(v))
    ensures Lines(v, 0) != [] && AllOneLine(Lines(v, 0))
  {
    hide ScalarText, Printable;
    if IsCollection(v) {
      LinesClean(v, 0, false);
    } else {
      ScalarClean(v);
      SpacesClean(0, ScalarText(v));
    }
  }

  // ------------------------------------------------------------------ what this says about the printer

  function Single(key: string, s: string): Value {
    Dict(Entry(key, Str(s), NoEntry))
  }

  /** A text with line breaks below a plain key comes back exactly when a literal block can carry it. */
  lemma BlockTextExact(key: string, s: string)
    requires PlainKey(key) && '\n' in s
    ensures ReadYaml(ToYaml(Single(key, s), 0)) == Some(Single(key, s)) <==> BlockSafe(s)
  {
    hide ToYaml, ReadYaml, BlockSafe, PlainKey;
    ReadsBackExactly(Single(key, s));
    assert ReadableEntries(NoEntry) && (ReadableAsEntry(Str(s)) <==> BlockSafe(s));
  }

  /** An empty container inside a list prints as a string, so no reader can tell the two apart. */
  lemma EmptyContainerPrintsAsText(rest: Items, n: nat)
    ensures ToYaml(List(Item(Dict(NoEntry), rest)), n) == ToYaml(List(Item(Str("{}"), rest)), n)
    ensures ToYaml(List(Item(List(NoItem), rest)), n) == ToYaml(List(Item(Str("[]"), rest)), n)
  {
    assert ItemTexts(Item(Dict(NoEntry), rest), n) == ItemTexts(Item(Str("{}"), rest), n);
    assert ItemTexts(Item(List(NoItem), rest), n) == ItemTexts(Item(Str("[]"), rest), n);
  }
}
