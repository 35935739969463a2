/** Scalars read back: decimals, and strings through the JSON escapes. */
module YamlScalars {
  import opened Wrappers
  import opened Strings
  import opened Yaml
  import opened YamlReader

  /** Every character fits one 16-bit escape. */
  predicate Narrow(s: string) {
    forall k | 0 <= k < |s| :: s[k] as int < 0x10000
  }

  predicate Scalar(v: Value) {
    v.Null? || v.Bool? || v.Int? || v.Str?
  }

  predicate Simple(v: Value) {
    v.Null? || v.Bool? || v.Int? || (v.Str? && Narrow(v.s))
  }

  lemma {:induction false} DecimalBack(n: nat)
    ensures ReadDecimal(Decimal(n)) == Some(n)
    ensures forall k | 0 <= k < |Decimal(n)| :: IsDigit(Decimal(n)[k])
    decreases n
  {
    if n >= 10 {
      DecimalBack(n / 10);
      var s := Decimal(n);
      assert s[..|s| - 1] == Decimal(n / 10) && s[|s| - 1] == Digit(n % 10);
    }
  }

  lemma HexBack(d: nat)
    requires d < 16
    ensures HexValue(HexDigit(d)) == Some(d)
  {
  }

  lemma HexSplit(n: nat)
    requires n < 0x10000
    ensures n / 4096 < 16 && n == 16 * (16 * (16 * (n / 4096) + n / 256 % 16) + n / 16 % 16) + n % 16
  {
    assert n / 16 == 16 * (n / 256) + n / 16 % 16;
    assert n / 256 == 16 * (n / 4096) + n / 256 % 16;
  }

  lemma ReadFour(t: string, i: nat, a: nat, b: nat, c: nat, d: nat)
    requires a < 16 && b < 16 && c < 16 && d < 16 && i + 4 <= |t|
    requires t[i] == HexDigit(a) && t[i + 1] == HexDigit(b) && t[i + 2] == HexDigit(c) && t[i + 3] == HexDigit(d)
    ensures ReadHex(t, i, 4, 0) == Some(16 * (16 * (16 * a + b) + c) + d)
  {
    HexBack(a);
    HexBack(b);
    HexBack(c);
    HexBack(d);
    assert ReadHex(t, i + 3, 1, 16 * (16 * a + b) + c) == ReadHex(t, i + 4, 0, 16 * (16 * (16 * a + b) + c) + d);
    assert ReadHex(t, i + 2, 2, 16 * a + b) == ReadHex(t, i + 3, 1, 16 * (16 * a + b) + c);
  }

  lemma UnitChars(t: string, i: nat, n: nat)
    requires n < 0x10000 && Occurs(t, i, Unit(n))
    ensures i + 6 <= |t| && n / 4096 < 16
    ensures t[i + 2] == HexDigit(n / 4096) && t[i + 3] == HexDigit(n / 256 % 16)
    ensures t[i + 4] == HexDigit(n / 16 % 16) && t[i + 5] == HexDigit(n % 16)
  {
    hide HexDigit;
    var u := Unit(n);
    OccursAt(t, i, u, 2);
    OccursAt(t, i, u, 3);
    OccursAt(t, i, u, 4);
    OccursAt(t, i, u, 5);
  }

  lemma UnitBack(t: string, i: nat, n: nat)
    requires n < 0x10000 && Occurs(t, i, Unit(n))
    ensures ReadHex(t, i + 2, 4, 0) == Some(n)
  {
    hide *;
    UnitChars(t, i, n);
    HexSplit(n);
    ReadFour(t, i + 2, n / 4096, n / 256 % 16, n / 16 % 16, n % 16);
  }

  lemma EscapeBack(t: string, i: nat, c: char)
    requires c as int < 0x10000 && Occurs(t, i, Escape(c)) && i + |Escape(c)| < |t|
    ensures Unescape(t, i) == Attach(c, Unescape(t, i + |Escape(c)|))
  {
    var e := Escape(c);
    OccursAt(t, i, e, 0);
    if |e| == 2 {
      OccursAt(t, i, e, 1);
    } else if |e| > 2 {
      OccursAt(t, i, e, 1);
      UnitBack(t, i, c as int);
      CharIsScalar(c);
    }
  }

  lemma CharIsScalar(c: char)
    ensures c as int < 0xD800 || 0xE000 <= c as int
  {
  }

  lemma QuoteEnds(t: string, i: nat)
    requires Occurs(t, i, ['"']) && i + 1 == |t|
    ensures Unescape(t, i) == Some("")
  {
    OccursAt(t, i, ['"'], 0);
  }

  lemma EscapeFirst(s: string)
    requires s != ""
    ensures EscapeAll(s) + ['"'] == Escape(s[0]) + (EscapeAll(s[1..]) + ['"'])
    ensures |EscapeAll(s)| == |Escape(s[0])| + |EscapeAll(s[1..])|
  {
    hide Escape;
  }

  lemma NarrowParts(s: string)
    requires Narrow(s) && s != ""
    ensures s[0] as int < 0x10000 && Narrow(s[1..])
  {
  }

  lemma AttachFirst(s: string)
    requires s != ""
    ensures Attach(s[0], Some(s[1..])) == Some(s)
  {
    assert [s[0]] + s[1..] == s;
  }

  /** One escaped character is read, and the rest of the literal follows it. */
  lemma EscapeStep(t: string, i: nat, e: string, c: char, rest: string)
    requires c as int < 0x10000 && e == Escape(c)
    requires Occurs(t, i, e + (rest + ['"'])) && i + |e| + |rest| + 1 == |t|
    ensures Occurs(t, i + |e|, rest + ['"'])
    ensures Unescape(t, i) == Attach(c, Unescape(t, i + |e|))
  {
    hide *;
    OccursSplit(t, i, e, rest + ['"']);
    EscapeBack(t, i, c);
  }

  lemma {:induction false} EscapesBack(t: string, i: nat, s: string)
    requires Narrow(s) && Occurs(t, i, EscapeAll(s) + ['"']) && i + |EscapeAll(s)| + 1 == |t|
    ensures Unescape(t, i) == Some(s)
    decreases |s|
  {
    if s == "" {
      QuoteEnds(t, i);
    } else {
      hide *;
      var e, rest := Escape(s[0]), EscapeAll(s[1..]);
      NarrowParts(s);
      EscapeFirst(s);
      EscapeStep(t, i, e, s[0], rest);
      EscapesBack(t, i + |e|, s[1..]);
      AttachFirst(s);
    }
  }

  lemma QuoteBack(s: string)
    requires Narrow(s)
    ensures ReadScalar(Quote(s)) == Some(Str(s))
  {
    hide Unescape, EscapeAll;
    var t := Quote(s);
    assert t[1..] == EscapeAll(s) + ['"'] && t[0] == '"';
    EscapesBack(t, 1, s);
    assert "true"[0] != t[0] && "false"[0] != t[0] && "null"[0] != t[0];
  }

  lemma IntBack(i: int)
    ensures ReadScalar(IntText(i)) == Some(Int(i))
    ensures IntText(i) != "" && IntText(i)[0] != ' ' && !Letter(IntText(i)[0])
    ensures IntText(i)[0] == '-' ==> |IntText(i)| > 1 && IntText(i)[1] != ' '
  {
    hide ReadDecimal, Decimal;
    var t := IntText(i);
    DecimalBack(if i < 0 then -i else i);
    assert "true"[0] == 't' && "false"[0] == 'f' && "null"[0] == 'n';
    if i < 0 {
      assert t[1..] == Decimal(-i) && t[1] == Decimal(-i)[0];
    }
  }

  lemma ScalarBack(v: Value)
    requires Simple(v)
    ensures ReadScalar(ScalarText(v)) == Some(v)
  {
    hide Quote, IntText;
    match v
    case Str(s) =>
      QuoteBack(s);
    case Int(i) =>
      IntBack(i);
    case _ =>
  }

  lemma KeyRunAll(line: string, i: nat)
    requires i <= |line| && forall k | i <= k < |line| :: KeyChar(line[k])
    ensures KeyRun(line, i) == |line| - i
    decreases |line| - i
  {
  }

  lemma WordLine(word: string, n: nat)
    requires word == "true" || word == "false" || word == "null"
    ensures !EntryAt(Spaces(n) + word, n) && word[0] != ' ' && word[0] != '-'
  {
    var line := Spaces(n) + word;
    forall k | n <= k < |line|
      ensures KeyChar(line[k])
    {
      assert line[k] == word[k - n];
    }
    KeyRunAll(line, n);
  }

  /** A printed scalar is taken neither for a dash nor for an entry, and begins with no space. */
  lemma ScalarLine(v: Value, n: nat)
    requires Scalar(v)
    ensures var line := Spaces(n) + ScalarText(v);
            Indent(line) == n && !DashAt(line, n) && !EntryAt(line, n) && line[n..] == ScalarText(v)
  {
    hide KeyRun, Decimal, EscapeAll, Indent;
    var text := ScalarText(v);
    var line := Spaces(n) + text;
    if v.Int? {
      IntBack(v.i);
    } else if v.Str? {
      assert text[0] == '"';
    } else {
      WordLine(text, n);
    }
    IndentOfPadded(n, text);
    NoIndent(text);
    assert line[n..] == text && line[n] == text[0];
    if |text| > 1 {
      assert line[n + 1] == text[1];
    }
  }

  lemma NoIndent(text: string)
    requires text != "" && text[0] != ' '
    ensures Indent(text) == 0
  {
  }
}
