/** Printed values are read back whole. */
module YamlRoundTrip {
  import opened Strings
  import opened Yaml
  import opened YamlReader
  import opened YamlScalars
  import opened YamlLiterals

  ghost predicate PlainKey(key: string) {
    key != "" && Letter(key[0]) && (forall k | 0 <= k < |key| :: KeyChar(key[k])) && !Reserved(key)
  }

  /** The values the printer is meant for: plain keys, safe blocks, no empty container inside a list. */
  ghost predicate Readable(v: Value)
    decreases v, 0
  {
    match v
    case Dict(entries) => ReadableEntries(entries)
    case List(items) => ReadableItems(items)
    case _ => Simple(v)
  }

  ghost predicate ReadableEntries(entries: Entries)
    decreases entries, 0
  {
    match entries
    case NoEntry => true
    case Entry(key, v, rest) => PlainKey(key) && ReadableAsEntry(v) && ReadableEntries(rest)
  }

  ghost predicate ReadableAsEntry(v: Value)
    decreases v, 1
  {
    if IsBlockText(v) then BlockSafe(v.s) else Readable(v)
  }

  ghost predicate ReadableItems(items: Items)
    decreases items, 0
  {
    match items
    case NoItem => true
    case Item(v, rest) => Readable(v) && (IsCollection(v) || Simple(v)) && ReadableItems(rest)
  }

  /** The keys are plain and no list holds an empty container; strings are any. */
  ghost predicate Plain(v: Value)
    decreases v, 0
  {
    match v
    case Dict(entries) => PlainEntries(entries)
    case List(items) => PlainItems(items)
    case _ => true
  }

  ghost predicate PlainEntries(entries: Entries)
    decreases entries, 0
  {
    match entries
    case NoEntry => true
    case Entry(key, v, rest) => PlainKey(key) && Plain(v) && PlainEntries(rest)
  }

  ghost predicate PlainItems(items: Items)
    decreases items, 0
  {
    match items
    case NoItem => true
    case Item(v, rest) => Plain(v) && (IsCollection(v) || Scalar(v)) && PlainItems(rest)
  }

  lemma {:induction false} ReadableIsPlain(v: Value)
    requires Readable(v)
    ensures Plain(v)
    decreases v, 0
  {
    match v
    case Dict(entries) => ReadableEntriesArePlain(entries);
    case List(items) => ReadableItemsArePlain(items);
    case _ =>
  }

  lemma {:induction false} ReadableEntriesArePlain(entries: Entries)
    requires ReadableEntries(entries)
    ensures PlainEntries(entries)
    decreases entries
  {
    if entries.Entry? {
      if !IsBlockText(entries.value) {
        ReadableIsPlain(entries.value);
      }
      ReadableEntriesArePlain(entries.rest);
    }
  }

  lemma {:induction false} ReadableItemsArePlain(items: Items)
    requires ReadableItems(items)
    ensures PlainItems(items)
    decreases items
  {
    if items.Item? {
      ReadableIsPlain(items.value);
      ReadableItemsArePlain(items.rest);
    }
  }

  // ------------------------------------------------------------------ the shape of printed lines

  function After(v: Value): string {
    if IsBlockText(v) then " |-"
    else if IsCollection(v) then ""
    else if v.Dict? then " {}"
    else if v.List? then " []"
    else " " + ScalarText(v)
  }

  function Below(v: Value, n: nat): seq<string> {
    if IsBlockText(v) then BlockLines(SplitLines(v.s), Spaces(n + 2))
    else if IsCollection(v) then Lines(v, n + 2)
    else []
  }

  function EntryLine(key: string, after: string, n: nat): string {
    Spaces(n) + (key + (":" + after))
  }

  lemma EntryShape(key: string, v: Value, n: nat)
    ensures OneEntry(key, v, n) == [EntryLine(key, After(v), n)] + Below(v, n)
  {
    hide Lines, BlockLines, SplitLines, ScalarText;
    assert Spaces(n) + key + ": |-" == EntryLine(key, " |-", n);
    assert Spaces(n) + key + ":" == EntryLine(key, "", n);
    assert Spaces(n) + key + ": {}" == EntryLine(key, " {}", n);
    assert Spaces(n) + key + ": []" == EntryLine(key, " []", n);
    assert Spaces(n) + key + (": " + ScalarText(v)) == EntryLine(key, " " + ScalarText(v), n);
  }

  lemma KeyRunStops(line: string, i: nat, e: nat)
    requires i <= e < |line| && (forall k | i <= k < e :: KeyChar(line[k])) && !KeyChar(line[e])
    ensures KeyRun(line, i) == e - i
    decreases e - i
  {
  }

  lemma EntryLineRead(key: string, after: string, n: nat)
    requires PlainKey(key) && (after == "" || after[0] == ' ')
    ensures var line, e := EntryLine(key, after, n), n + |key|;
            && Indent(line) == n && !DashAt(line, n) && EntryAt(line, n)
            && KeyRun(line, n) == |key| && line[n..e] == key && line[e + 1..] == after
            && OneLine(key)
  {
    hide KeyRun, Indent, Reserved;
    var line, e := EntryLine(key, after, n), n + |key|;
    IndentOfPadded(n, key + (":" + after));
    NoIndent(key + (":" + after));
    forall k | n <= k < e
      ensures line[k] == key[k - n]
    {
    }
    assert line[e] == ':';
    assert after != "" ==> line[e + 1] == after[0];
    KeyRunStops(line, n, e);
  }

  lemma TrimPad(n: nat, c: string)
    requires c != "" && !IsSpace(c[0])
    ensures TrimLeft(Spaces(n) + c) == c
  {
    if n == 0 {
      assert Spaces(n) + c == c;
    } else {
      assert (Spaces(n) + c)[1..] == Spaces(n - 1) + c;
      TrimPad(n - 1, c);
    }
  }

  /** The first line of a collection: `n` spaces, then a dash or a key. */
  lemma FirstLine(v: Value, n: nat) returns (c: string)
    requires IsCollection(v) && (v.Dict? ==> PlainKey(v.entries.key))
    ensures Lines(v, n)[0] == Spaces(n) + c && c != "" && !IsSpace(c[0])
    ensures Indent(Lines(v, n)[0]) == n
    ensures v.List? ==> DashAt(Lines(v, n)[0], n)
    ensures v.Dict? ==> !DashAt(Lines(v, n)[0], n) && EntryAt(Lines(v, n)[0], n)
  {
    match v
    case Dict(entries) =>
      EntriesFirst(entries, n);
      c := entries.key + (":" + After(entries.value));
    case List(items) =>
      c := ItemsFirst(items, n);
  }

  lemma AfterSpaced(v: Value)
    ensures After(v) == "" || After(v)[0] == ' '
  {
  }

  lemma EntriesFirst(entries: Entries, n: nat)
    requires entries.Entry? && PlainKey(entries.key)
    ensures var line := EntryLines(entries, n)[0];
            && line == EntryLine(entries.key, After(entries.value), n)
            && Indent(line) == n && !DashAt(line, n) && EntryAt(line, n)
  {
    hide Lines, After, Below;
    EntryShape(entries.key, entries.value, n);
    AfterSpaced(entries.value);
    EntryLineRead(entries.key, After(entries.value), n);
  }

  lemma ItemsFirst(items: Items, n: nat) returns (c: string)
    requires items.Item?
    ensures var line := ItemLines(items, n)[0];
            && line == Spaces(n) + c && c != "" && !IsSpace(c[0])
            && Indent(line) == n && DashAt(line, n)
  {
    var one := OneItem(items.value, n);
    c := one[0][n..];
    assert one[0] == Spaces(n) + c && c[0] == '-' && c[1] == ' ';
    IndentOfPadded(n, c);
    NoIndent(c);
  }

  // ------------------------------------------------------------------ reading the lines back

  lemma ScalarAfter(v: Value)
    requires Scalar(v) && !IsBlockText(v)
    ensures var a := After(v);
            a != "" && a != " |-" && a != " {}" && a != " []" && a[1..] == ScalarText(v)
  {
    hide EscapeAll, Decimal;
    var t := ScalarText(v);
    assert t != "" && t[0] != '|' && t[0] != '{' && t[0] != '[' by {
      if v.Int? {
        IntBack(v.i);
        if v.i >= 0 {
          DecimalBack(v.i);
        }
      }
    }
    assert (" " + t)[1..] == t && (" " + t)[1] == t[0];
    assert " |-"[1] == '|' && " {}"[1] == '{' && " []"[1] == '[';
  }

  lemma {:induction false} ValueBack(v: Value, n: nat, tail: seq<string>)
    requires ReadableAsEntry(v) && Stops(tail, n + 2)
    ensures ReadValue(After(v), Below(v, n) + tail, n) == Good(v, tail)
    decreases v, 1
  {
    hide Lines, BlockSafe, ReadNode, ReadLiteral, Indent, BlockLines, SplitLines, Spaces;
    if IsBlockText(v) {
      LiteralBack(v.s, n, tail);
    } else if IsCollection(v) {
      assert v.Dict? ==> ReadableEntries(v.entries);
      var c := FirstLine(v, n + 2);
      CollectionBack(v, n + 2, tail);
      assert (Below(v, n) + tail)[0] == Lines(v, n + 2)[0];
    } else if v.Dict? || v.List? {
      assert Below(v, n) + tail == tail;
    } else {
      ScalarAfter(v);
      ScalarBack(v);
      assert Below(v, n) + tail == tail;
    }
  }

  lemma {:induction false} CollectionBack(v: Value, n: nat, tail: seq<string>)
    requires IsCollection(v) && Readable(v) && Stops(tail, n)
    ensures ReadNode(Lines(v, n) + tail) == Good(v, tail)
    decreases v, 0
  {
    hide ReadEntries, ReadItems, EntryLines, ItemLines, Indent;
    var c := FirstLine(v, n);
    assert (Lines(v, n) + tail)[0] == Lines(v, n)[0];
    match v
    case Dict(entries) =>
      EntriesBack(entries, n, tail);
    case List(items) =>
      ItemsBack(items, n, tail);
  }

  lemma EntriesShape(entries: Entries, n: nat, tail: seq<string>)
    requires entries.Entry?
    ensures EntryLines(entries, n) + tail ==
            [EntryLine(entries.key, After(entries.value), n)] +
            (Below(entries.value, n) + (EntryLines(entries.rest, n) + tail))
  {
    hide Below, After, EntryLine, OneEntry;
    EntryShape(entries.key, entries.value, n);
  }

  lemma {:induction false} EntriesBack(entries: Entries, n: nat, tail: seq<string>)
    requires entries.Entry? && ReadableEntries(entries) && Stops(tail, n)
    ensures EntryLines(entries, n) != [] && EntryAt(EntryLines(entries, n)[0], n)
    ensures (EntryLines(entries, n) + tail)[0] == EntryLines(entries, n)[0]
    ensures ReadEntries(EntryLines(entries, n) + tail, n) == Good(entries, tail)
    decreases entries
  {
    hide ReadValue, Below, After, Indent, KeyRun, EntryLines, EntryLine, EntryAt, ReadEntries;
    var key, v, rest := entries.key, entries.value, entries.rest;
    var more := EntryLines(rest, n) + tail;
    var line := EntryLine(key, After(v), n);
    EntriesFirst(entries, n);
    EntriesShape(entries, n, tail);
    AfterSpaced(v);
    EntryLineRead(key, After(v), n);
    if rest.Entry? {
      EntriesFirst(rest, n);
      assert more[0] == EntryLines(rest, n)[0];
      LineNotEmpty(more[0], n);
      EntriesBack(rest, n, tail);
    } else {
      NoLines(n);
      assert more == tail;
    }
    ValueBack(v, n, more);
    EntryStepBack(key, v, rest, n, line, Below(v, n) + more, more, tail);
  }

  lemma NoLines(n: nat)
    ensures EntryLines(NoEntry, n) == [] && ItemLines(NoItem, n) == []
  {
  }

  lemma LineNotEmpty(line: string, n: nat)
    requires EntryAt(line, n) || DashAt(line, n)
    ensures line != ""
  {
  }

  /** One entry of a mapping: read it, then go on if another follows at the same column. */
  lemma EntryStepBack(
    key: string, v: Value, rest: Entries, n: nat, line: string, below: seq<string>, more: seq<string>,
    tail: seq<string>)
    requires EntryAt(line, n) && !Reserved(key)
    requires var e := n + KeyRun(line, n);
             line[n..e] == key && ReadValue(line[e + 1..], below, n) == Good(v, more)
    requires rest.NoEntry? ==> more == tail && (tail == [] || Indent(tail[0]) < n)
    requires rest.Entry? ==> more != [] && Indent(more[0]) == n && EntryAt(more[0], n) &&
                             ReadEntries(more, n) == Good(rest, tail)
    ensures ReadEntries([line] + below, n) == Good(Entry(key, v, rest), tail)
  {
    hide ReadValue, KeyRun, Indent, EntryAt, Reserved;
    assert ([line] + below)[0] == line && ([line] + below)[1..] == below;
  }

  lemma DashedLine(line: string, rest: seq<string>, n: nat, c: string)
    requires line == Spaces(n) + ("- " + c)
    ensures Indent(line) == n && DashAt(line, n)
    ensures Undashed([line] + rest, n) == [Spaces(n + 2) + c] + rest
  {
    hide Indent, DashAt;
    DashLine(n, c);
    assert ([line] + rest)[0] == line && ([line] + rest)[1..] == rest;
  }

  lemma ItemShape(v: Value, n: nat) returns (c: string)
    requires (IsCollection(v) && (v.Dict? ==> PlainKey(v.entries.key))) || Scalar(v)
    ensures Lines(v, n + 2) != []
    ensures OneItem(v, n) == [Spaces(n) + ("- " + c)] + Lines(v, n + 2)[1..]
    ensures Lines(v, n + 2)[0] == Spaces(n + 2) + c
  {
    hide Indent, ScalarText, DashAt, TrimLeft;
    if IsCollection(v) {
      hide Lines;
      c := FirstLine(v, n + 2);
      TrimPad(n + 2, c);
    } else {
      c := ScalarText(v);
    }
  }

  lemma SplitFirst(line: string, rest: seq<string>, more: seq<string>)
    ensures [line] + rest + more == [line] + (rest + more)
  {
  }

  /** Without its dash, an item is the value printed two columns further right. */
  lemma ItemUndashed(v: Value, n: nat, more: seq<string>)
    requires (IsCollection(v) && (v.Dict? ==> PlainKey(v.entries.key))) || Scalar(v)
    ensures var lines := OneItem(v, n) + more;
            && Indent(lines[0]) == n && DashAt(lines[0], n)
            && Undashed(lines, n) == Lines(v, n + 2) + more
  {
    var c := ItemShape(v, n);
    hide *;
    var line, nested := Spaces(n) + ("- " + c), Lines(v, n + 2);
    SplitFirst(line, nested[1..], more);
    SplitFirst(nested[0], nested[1..], more);
    assert nested == [nested[0]] + nested[1..];
    DashedLine(line, nested[1..] + more, n, c);
  }

  lemma {:induction false} ItemBack(v: Value, n: nat, more: seq<string>)
    requires Readable(v) && (IsCollection(v) || Simple(v)) && Stops(more, n + 2)
    ensures var lines := OneItem(v, n) + more;
            && Indent(lines[0]) == n && DashAt(lines[0], n)
            && ReadNode(Undashed(lines, n)) == Good(v, more)
    decreases v, 1
  {
    hide Indent, ReadNode, ScalarText, OneItem, Undashed;
    ItemUndashed(v, n, more);
    if IsCollection(v) {
      CollectionBack(v, n + 2, more);
    } else {
      ReadScalarNode(v, n + 2, more);
    }
  }

  lemma DashLine(n: nat, c: string)
    ensures var line := Spaces(n) + ("- " + c);
            Indent(line) == n && DashAt(line, n) && line[n + 2..] == c
  {
    var line := Spaces(n) + ("- " + c);
    IndentOfPadded(n, "- " + c);
    NoIndent("- " + c);
    assert line[n] == '-' && line[n + 1] == ' ';
  }

  lemma ReadScalarNode(v: Value, n: nat, more: seq<string>)
    requires Simple(v)
    ensures ReadNode([Spaces(n) + ScalarText(v)] + more) == Good(v, more)
  {
    hide Indent, ScalarText, DashAt, EntryAt, ReadScalar;
    ScalarLine(v, n);
    ScalarBack(v);
    var line := Spaces(n) + ScalarText(v);
    assert ([line] + more)[0] == line && ([line] + more)[1..] == more;
  }

  lemma {:induction false} ItemsBack(items: Items, n: nat, tail: seq<string>)
    requires items.Item? && ReadableItems(items) && Stops(tail, n)
    ensures var lines := ItemLines(items, n) + tail;
            && Indent(lines[0]) == n && DashAt(lines[0], n)
            && ReadItems(lines, n) == Good(items, tail)
    decreases items
  {
    hide Indent, OneItem, ReadNode, DashAt;
    var v, rest := items.value, items.rest;
    var more := ItemLines(rest, n) + tail;
    assert ItemLines(items, n) + tail == OneItem(v, n) + more;
    if rest.Item? {
      ItemsBack(rest, n, tail);
      var c := ItemsFirst(rest, n);
      assert more[0] == ItemLines(rest, n)[0];
      ItemBack(v, n, more);
    } else {
      assert more == tail;
      ItemBack(v, n, more);
    }
  }
}
