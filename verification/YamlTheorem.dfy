/** The printer as written, read back by the reader: what returns, and what does not. */
module YamlTheorem {
  import opened Wrappers
  import opened Strings
  import opened Yaml
  import opened YamlReader
  import opened YamlScalars
  import opened YamlLiterals
  import opened YamlRoundTrip

  // ------------------------------------------------------------------ every line is clean

  ghost predicate CleanText(s: string) {
    forall k | 0 <= k < |s| :: s[k] != '\n' && Printable(s[k])
  }

  ghost predicate CleanLines(lines: seq<string>) {
    forall k | 0 <= k < |lines| :: CleanText(lines[k])
  }

  lemma HexClean(d: nat)
    requires d < 16
    ensures '0' <= HexDigit(d) <= 'f'
  {
  }

  lemma UnitClean(n: nat)
    requires n < 0x10000
    ensures CleanText(Unit(n))
  {
    HexClean(n / 4096);
    HexClean(n / 256 % 16);
    HexClean(n / 16 % 16);
    HexClean(n % 16);
  }

  lemma WideClean(c: char)
    requires c as int >= 0x10000
    ensures CleanText(Escape(c))
  {
    hide Printable, Unit;
    var n := c as int - 0x10000;
    UnitClean(0xD800 + n / 0x400);
    UnitClean(0xDC00 + n % 0x400);
    CleanJoin(Unit(0xD800 + n / 0x400), Unit(0xDC00 + n % 0x400));
  }

  lemma CleanJoin(a: string, b: string)
    requires CleanText(a) && CleanText(b)
    ensures CleanText(a + b)
  {
    hide Printable;
  }

  lemma EscapeClean(c: char)
    ensures CleanText(Escape(c))
  {
    if c as int >= 0x10000 {
      WideClean(c);
    } else if |Escape(c)| > 2 {
      UnitClean(c as int);
    }
  }

  lemma {:induction false} EscapesClean(s: string)
    ensures CleanText(EscapeAll(s))
    decreases |s|
  {
    if s != "" {
      EscapeClean(s[0]);
      EscapesClean(s[1..]);
    }
  }

  lemma ScalarClean(v: Value)
    requires Scalar(v)
    ensures CleanText(ScalarText(v))
  {
    match v
    case Str(s) =>
      EscapesClean(s);
    case Int(i) =>
      DecimalBack(if i < 0 then -i else i);
    case _ =>
  }

  lemma SpacesClean(n: nat, text: string)
    requires CleanText(text)
    ensures CleanText(Spaces(n) + text)
  {
  }

  lemma EntryLineClean(key: string, v: Value, n: nat)
    requires PlainKey(key)
    ensures CleanText(EntryLine(key, After(v), n))
  {
    hide ScalarText;
    if !IsBlockText(v) && !v.Dict? && !v.List? {
      ScalarClean(v);
    }
    assert CleanText(key + (":" + After(v)));
    SpacesClean(n, key + (":" + After(v)));
  }

  lemma BlockClean(s: string, n: nat)
    requires BlockSafe(s)
    ensures CleanLines(BlockLines(SplitLines(s), Spaces(n)))
  {
    JoinSplit(s);
    LinesPrintable(s);
    var ls := SplitLines(s);
    forall k | 0 <= k < |ls| && ls[k] != ""
      ensures CleanText(Spaces(n) + ls[k])
    {
      assert OneLine(ls[k]);
      SpacesClean(n, ls[k]);
    }
  }

  lemma {:induction false} LinesPrintable(s: string)
    requires forall k | 0 <= k < |s| :: Printable(s[k])
    ensures forall j, k | 0 <= j < |SplitLines(s)| && 0 <= k < |SplitLines(s)[j]| :: Printable(SplitLines(s)[j][k])
    decreases |s|
  {
    hide Printable;
    var e := Find(s, 0, '\n');
    if e < |s| {
      LinesPrintable(s[e + 1..]);
      assert SplitLines(s)[1..] == SplitLines(s[e + 1..]);
      forall j, k | 0 <= j < |SplitLines(s)| && 0 <= k < |SplitLines(s)[j]|
        ensures Printable(SplitLines(s)[j][k])
      {
        if j > 0 {
          assert SplitLines(s)[j] == SplitLines(s[e + 1..])[j - 1];
        }
      }
    }
  }

  /** Printed lines hold no line break, and only printable characters when the literal blocks are safe. */
  ghost predicate Legible(lines: seq<string>, safe: bool) {
    if safe then CleanLines(lines) else AllOneLine(lines)
  }

  lemma LegibleJoin(a: seq<string>, b: seq<string>, safe: bool)
    requires Legible(a, safe) && Legible(b, safe)
    ensures Legible(a + b, safe)
  {
    hide Printable;
  }

  lemma CleanIsLegible(line: string, safe: bool)
    requires CleanText(line)
    ensures Legible([line], safe)
  {
    hide Printable;
  }

  lemma {:induction false} LinesClean(v: Value, n: nat, safe: bool)
    requires Plain(v) && IsCollection(v) && (safe ==> Readable(v))
    ensures Legible(Lines(v, n), safe)
    decreases v, 0
  {
    match v
    case Dict(entries) => EntriesClean(entries, n, safe);
    case List(items) => ItemsClean(items, n, safe);
  }

  lemma BelowLegible(v: Value, n: nat, safe: bool)
    requires IsBlockText(v) && (safe ==> BlockSafe(v.s))
    ensures Legible(Below(v, n), safe)
  {
    if safe {
      BlockClean(v.s, n + 2);
    } else {
      JoinSplit(v.s);
      OneLineBlock(SplitLines(v.s), n + 2);
    }
  }

  lemma {:induction false} EntriesClean(entries: Entries, n: nat, safe: bool)
    requires PlainEntries(entries) && (safe ==> ReadableEntries(entries))
    ensures Legible(EntryLines(entries, n), safe)
    decreases entries
  {
    hide Lines, After, EntryLine, BlockSafe, CleanText, OneEntry, Legible;
    if entries.Entry? {
      var v := entries.value;
      EntryShape(entries.key, v, n);
      EntryLineClean(entries.key, v, n);
      CleanIsLegible(EntryLine(entries.key, After(v), n), safe);
      if IsBlockText(v) {
        BelowLegible(v, n, safe);
      } else if IsCollection(v) {
        LinesClean(v, n + 2, safe);
      } else {
        NothingLegible(safe);
      }
      EntriesClean(entries.rest, n, safe);
      LegibleJoin([EntryLine(entries.key, After(v), n)], Below(v, n), safe);
      LegibleJoin(OneEntry(entries.key, v, n), EntryLines(entries.rest, n), safe);
    } else {
      NothingLegible(safe);
    }
  }

  lemma NothingLegible(safe: bool)
    ensures Legible([], safe)
  {
  }

  lemma {:induction false} ItemsClean(items: Items, n: nat, safe: bool)
    requires PlainItems(items) && (safe ==> ReadableItems(items))
    ensures Legible(ItemLines(items, n), safe)
    decreases items
  {
    hide Lines, CleanText, ScalarText, Legible, OneItem, TrimLeft;
    if items.Item? {
      var v := items.value;
      if IsCollection(v) {
        LinesClean(v, n + 2, safe);
      }
      ItemClean(v, n, safe);
      ItemsClean(items.rest, n, safe);
      LegibleJoin(OneItem(v, n), ItemLines(items.rest, n), safe);
    } else {
      NothingLegible(safe);
    }
  }

  lemma ItemClean(v: Value, n: nat, safe: bool)
    requires (IsCollection(v) && Plain(v) && Legible(Lines(v, n + 2), safe)) || Scalar(v)
    ensures Legible(OneItem(v, n), safe)
  {
    hide ScalarText, Lines, TrimLeft, Printable;
    if IsCollection(v) {
      assert v.Dict? ==> PlainEntries(v.entries);
      var c := FirstLine(v, n + 2);
      TrimPad(n + 2, c);
      DashLegible(n, c, Lines(v, n + 2)[1..], safe);
    } else {
      ScalarClean(v);
      DashClean(n, ScalarText(v));
      CleanIsLegible(Spaces(n) + ("- " + ScalarText(v)), safe);
    }
  }

  lemma DashLegible(n: nat, c: string, rest: seq<string>, safe: bool)
    requires Legible([Spaces(n + 2) + c] + rest, safe)
    ensures Legible([Spaces(n) + ("- " + c)] + rest, safe)
  {
    hide Printable;
    var line, lines := Spaces(n + 2) + c, [Spaces(n + 2) + c] + rest;
    assert lines[0] == line;
    assert forall k | 0 <= k < |rest| :: rest[k] == lines[k + 1];
    assert forall k | 0 <= k < |c| :: c[k] == line[n + 2 + k];
    if safe {
      TailClean(n + 2, c);
      DashClean(n, c);
    }
  }

  lemma TailClean(n: nat, c: string)
    requires CleanText(Spaces(n) + c)
    ensures CleanText(c)
  {
    assert forall k | 0 <= k < |c| :: c[k] == (Spaces(n) + c)[n + k];
  }

  lemma DashClean(n: nat, c: string)
    requires CleanText(c)
    ensures CleanText(Spaces(n) + ("- " + c))
  {
    assert CleanText("- " + c);
    SpacesClean(n, "- " + c);
  }

  // ------------------------------------------------------------------ texts and lines

  lemma {:induction false} JoinTwo(a: seq<string>, b: seq<string>)
    requires a != [] && b != []
    ensures JoinLines(a + b) == JoinLines(a) + (['\n'] + JoinLines(b))
    decreases |a|
  {
    assert (a + b)[1..] == a[1..] + b;
    if |a| > 1 {
      JoinTwo(a[1..], b);
    }
  }

  lemma Cleaned(lines: seq<string>)
    requires CleanLines(lines)
    ensures AllOneLine(lines)
  {
  }

  /** The printed text is its lines joined, whether a nested text was joined or split on the way. */
  lemma {:induction false} TextIsLines(v: Value, n: nat)
    requires Plain(v)
    ensures ToYaml(v, n) == JoinLines(Lines(v, n))
    decreases v, 0
  {
    hide EntryTexts, EntryLines, ItemTexts, ItemLines;
    match v
    case Dict(entries) =>
      EntryTextsAreLines(entries, n);
    case List(items) =>
      ItemTextsAreLines(items, n);
    case _ =>
  }

  lemma {:induction false} EntryTextIsLines(key: string, v: Value, n: nat)
    requires Plain(v)
    ensures JoinLines(EntryText(key, v, n)) == JoinLines(OneEntry(key, v, n))
    decreases v, 1
  {
    hide ToYaml, Lines, BlockSafe;
    if !IsBlockText(v) && IsCollection(v) {
      TextIsLines(v, n + 2);
      var first := Spaces(n) + key + ":";
      assert [first, ToYaml(v, n + 2)] == [first] + [ToYaml(v, n + 2)];
      JoinTwo([first], [ToYaml(v, n + 2)]);
      JoinTwo([first], Lines(v, n + 2));
    }
  }

  lemma {:induction false} EntryTextsAreLines(entries: Entries, n: nat)
    requires PlainEntries(entries)
    ensures JoinLines(EntryTexts(entries, n)) == JoinLines(EntryLines(entries, n))
    ensures entries.Entry? ==> EntryTexts(entries, n) != []
    decreases entries
  {
    hide EntryText, OneEntry, JoinLines;
    if entries.Entry? {
      var key, v, rest := entries.key, entries.value, entries.rest;
      EntryTextIsLines(key, v, n);
      EntryTextsAreLines(rest, n);
      SomeText(key, v, n);
      if rest.Entry? {
        JoinTwo(EntryText(key, v, n), EntryTexts(rest, n));
        JoinTwo(OneEntry(key, v, n), EntryLines(rest, n));
      } else {
        assert EntryTexts(entries, n) == EntryText(key, v, n) && EntryLines(entries, n) == OneEntry(key, v, n);
      }
    }
  }

  lemma SomeText(key: string, v: Value, n: nat)
    ensures EntryText(key, v, n) != []
  {
  }

  lemma {:induction false} ItemTextsAreLines(items: Items, n: nat)
    requires PlainItems(items)
    ensures ItemTexts(items, n) == ItemLines(items, n)
    decreases items
  {
    hide ToYaml, Lines, ScalarText, TrimLeft, SplitLines, JoinLines;
    if items.Item? {
      var v := items.value;
      if IsCollection(v) {
        TextIsLines(v, n + 2);
        LinesClean(v, n + 2, false);
        SplitJoin(Lines(v, n + 2));
      }
      ItemTextsAreLines(items.rest, n);
    }
  }

  // ------------------------------------------------------------------ the theorem

  lemma {:induction false} JoinPrintable(lines: seq<string>)
    requires CleanLines(lines)
    ensures forall c | c in JoinLines(lines) :: Printable(c)
    decreases |lines|
  {
    if |lines| > 1 {
      JoinPrintable(lines[1..]);
    }
  }

  lemma LinesReadBack(v: Value)
    requires Readable(v) && (IsCollection(v) || Simple(v))
    ensures CleanLines(Lines(v, 0)) && ReadNode(Lines(v, 0)) == Good(v, [])
  {
    hide ReadNode, Printable, CleanText, ScalarText, Spaces;
    var lines := Lines(v, 0);
    assert lines + [] == lines;
    if IsCollection(v) {
      ReadableIsPlain(v);
      LinesClean(v, 0, true);
      CollectionBack(v, 0, []);
    } else {
      ScalarClean(v);
      SpacesClean(0, ScalarText(v));
      ReadScalarNode(v, 0, []);
    }
  }

  /** A readable value printed from the left margin is read back whole. */
  lemma ReadsBack(v: Value)
    requires Readable(v) && (IsCollection(v) || Simple(v))
    ensures ReadYaml(ToYaml(v, 0)) == Some(v)
  {
    hide ToYaml, Lines, ReadNode, Printable, CleanText, JoinLines, SplitLines;
    LinesReadBack(v);
    ReadableIsPlain(v);
    TextIsLines(v, 0);
    Cleaned(Lines(v, 0));
    SomeLines(v);
    SplitJoin(Lines(v, 0));
    JoinPrintable(Lines(v, 0));
  }

  lemma SomeLines(v: Value)
    requires IsCollection(v) || Simple(v)
    ensures Lines(v, 0) != []
  {
  }

  // ------------------------------------------------------------------ indentation only shifts

  lemma SpacesAdd(a: nat, b: nat)
    ensures Spaces(a) + Spaces(b) == Spaces(a + b)
  {
  }

  lemma ShiftJoin(a: seq<string>, b: seq<string>, pad: string)
    ensures BlockLines(a + b, pad) == BlockLines(a, pad) + BlockLines(b, pad)
  {
  }

  lemma ShiftOne(n: nat, k: nat, text: string)
    requires text != ""
    ensures BlockLines([Spaces(n) + text], Spaces(k)) == [Spaces(n + k) + text]
  {
    SpacesAdd(k, n);
    assert Spaces(k) + (Spaces(n) + text) == Spaces(k) + Spaces(n) + text;
  }

  lemma ShiftBlock(lines: seq<string>, n: nat, k: nat)
    ensures BlockLines(BlockLines(lines, Spaces(n)), Spaces(k)) == BlockLines(lines, Spaces(n + k))
  {
    SpacesAdd(k, n);
    forall j | 0 <= j < |lines| && lines[j] != ""
      ensures Spaces(k) + (Spaces(n) + lines[j]) == Spaces(n + k) + lines[j]
    {
      assert Spaces(k) + (Spaces(n) + lines[j]) == Spaces(k) + Spaces(n) + lines[j];
    }
  }

  /** The lines at a deeper indent are the same lines moved right; empty lines stay empty. */
  lemma {:induction false} Shift(v: Value, n: nat, k: nat)
    ensures Lines(v, n + k) == BlockLines(Lines(v, n), Spaces(k))
    decreases v, 0
  {
    hide EntryLines, ItemLines, BlockLines, ScalarText;
    match v
    case Dict(entries) => ShiftEntries(entries, n, k);
    case List(items) => ShiftItems(items, n, k);
    case _ =>
      SomeScalarText(v);
      ShiftOne(n, k, ScalarText(v));
  }

  lemma SomeScalarText(v: Value)
    ensures ScalarText(v) != ""
  {
  }

  lemma {:induction false} ShiftEntries(entries: Entries, n: nat, k: nat)
    ensures EntryLines(entries, n + k) == BlockLines(EntryLines(entries, n), Spaces(k))
    decreases entries
  {
    hide Lines, After, BlockSafe, OneEntry, BlockLines;
    if entries.Entry? {
      var key, v, rest := entries.key, entries.value, entries.rest;
      ShiftEntry(key, v, n, k);
      ShiftEntries(rest, n, k);
      ShiftJoin(OneEntry(key, v, n), EntryLines(rest, n), Spaces(k));
    } else {
      ShiftNone(Spaces(k));
    }
  }

  lemma ShiftNone(pad: string)
    ensures BlockLines([], pad) == []
  {
  }

  lemma ShiftEntryLine(key: string, after: string, n: nat, k: nat)
    ensures BlockLines([EntryLine(key, after, n)], Spaces(k)) == [EntryLine(key, after, n + k)]
  {
    ShiftOne(n, k, key + (":" + after));
  }

  lemma {:induction false} ShiftBelow(v: Value, n: nat, k: nat)
    ensures Below(v, n + k) == BlockLines(Below(v, n), Spaces(k))
    decreases v, 1
  {
    hide Lines, BlockSafe, BlockLines, SplitLines, Spaces;
    if IsBlockText(v) {
      ShiftBlock(SplitLines(v.s), n + 2, k);
    } else if IsCollection(v) {
      Shift(v, n + 2, k);
    } else {
      ShiftNone(Spaces(k));
    }
  }

  lemma {:induction false} ShiftEntry(key: string, v: Value, n: nat, k: nat)
    ensures OneEntry(key, v, n + k) == BlockLines(OneEntry(key, v, n), Spaces(k))
    decreases v, 2
  {
    hide After, OneEntry, BlockLines, Spaces, EntryLine, Below, Reserved, ReadableAsEntry;
    EntryShape(key, v, n);
    EntryShape(key, v, n + k);
    ShiftEntryLine(key, After(v), n, k);
    ShiftBelow(v, n, k);
    ShiftJoin([EntryLine(key, After(v), n)], Below(v, n), Spaces(k));
  }

  lemma TrimPadded(n: nat, c: string)
    ensures TrimLeft(Spaces(n) + c) == TrimLeft(c)
  {
    if n == 0 {
      assert Spaces(n) + c == c;
    } else {
      assert (Spaces(n) + c)[1..] == Spaces(n - 1) + c;
      TrimPadded(n - 1, c);
    }
  }

  /** The first line of a collection is padded text, whatever its keys are. */
  lemma FirstPadded(v: Value, n: nat) returns (c: string)
    requires IsCollection(v)
    ensures Lines(v, n)[0] == Spaces(n) + c && c != ""
  {
    match v
    case Dict(entries) =>
      EntryShape(entries.key, entries.value, n);
      c := entries.key + (":" + After(entries.value));
    case List(items) =>
      c := ItemsFirst(items, n);
  }

  lemma ShiftDashed(nested: seq<string>, moved: seq<string>, c: string, n: nat, k: nat)
    requires nested != [] && nested[0] == Spaces(n + 2) + c && c != ""
    requires moved == BlockLines(nested, Spaces(k))
    ensures [Spaces(n + k) + ("- " + TrimLeft(moved[0]))] + moved[1..] ==
            BlockLines([Spaces(n) + ("- " + TrimLeft(nested[0]))] + nested[1..], Spaces(k))
  {
    var trimmed := TrimLeft(c);
    TrimPadded(n + 2, c);
    TrimPadded(n + k + 2, c);
    ShiftOne(n, k, "- " + trimmed);
    ShiftOne(n + 2, k, c);
    ShiftJoin([Spaces(n) + ("- " + trimmed)], nested[1..], Spaces(k));
    ShiftJoin([nested[0]], nested[1..], Spaces(k));
    assert nested == [nested[0]] + nested[1..];
  }

  lemma {:induction false} ShiftItem(v: Value, n: nat, k: nat)
    ensures OneItem(v, n + k) == BlockLines(OneItem(v, n), Spaces(k))
    decreases v, 1
  {
    hide Lines, BlockLines, Spaces, TrimLeft, ScalarText;
    if IsCollection(v) {
      var c := FirstPadded(v, n + 2);
      Shift(v, n + 2, k);
      ShiftDashed(Lines(v, n + 2), Lines(v, n + k + 2), c, n, k);
    } else {
      ShiftOne(n, k, "- " + ScalarText(v));
    }
  }

  lemma {:induction false} ShiftItems(items: Items, n: nat, k: nat)
    ensures ItemLines(items, n + k) == BlockLines(ItemLines(items, n), Spaces(k))
    decreases items
  {
    hide OneItem, BlockLines;
    if items.Item? {
      ShiftItem(items.value, n, k);
      ShiftItems(items.rest, n, k);
      ShiftJoin(OneItem(items.value, n), ItemLines(items.rest, n), Spaces(k));
    } else {
      ShiftNone(Spaces(k));
    }
  }
}
