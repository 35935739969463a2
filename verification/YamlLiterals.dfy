/** Lines and literal blocks: joining and splitting, and exactly which texts a literal block returns. */
module YamlLiterals {
  import opened Strings
  import opened Yaml
  import opened YamlReader

  ghost predicate OneLine(s: string) {
    forall k | 0 <= k < |s| :: s[k] != '\n'
  }

  ghost predicate AllOneLine(lines: seq<string>) {
    forall k | 0 <= k < |lines| :: OneLine(lines[k])
  }

  lemma {:induction false} JoinSplit(s: string)
    ensures JoinLines(SplitLines(s)) == s && AllOneLine(SplitLines(s))
    decreases |s|
  {
    var k := Find(s, 0, '\n');
    if k < |s| {
      JoinSplit(s[k + 1..]);
      assert s == s[..k] + (['\n'] + s[k + 1..]);
      assert SplitLines(s)[1..] == SplitLines(s[k + 1..]);
    }
  }

  lemma FindBreak(a: string, b: string)
    requires OneLine(a) && (b == "" || b[0] == '\n')
    ensures Find(a + b, 0, '\n') == |a|
  {
    assert b != "" ==> (a + b)[|a|] == '\n';
    assert forall j | 0 <= j < |a| :: (a + b)[j] == a[j];
  }

  lemma {:induction false} SplitJoin(lines: seq<string>)
    requires lines != [] && AllOneLine(lines)
    ensures SplitLines(JoinLines(lines)) == lines
    decreases |lines|
  {
    if |lines| == 1 {
      assert lines[0] + "" == lines[0];
      FindBreak(lines[0], "");
    } else {
      hide Find;
      var s, rest := JoinLines(lines), JoinLines(lines[1..]);
      SplitJoin(lines[1..]);
      assert s == lines[0] + (['\n'] + rest);
      FindBreak(lines[0], ['\n'] + rest);
      hide JoinLines;
      assert s[..|lines[0]|] == lines[0] && s[|lines[0]| + 1..] == rest;
      assert [lines[0]] + lines[1..] == lines;
    }
  }

  lemma {:induction false} LastLine(s: string)
    ensures SplitLines(s)[|SplitLines(s)| - 1] == "" <==> s == "" || s[|s| - 1] == '\n'
    decreases |s|
  {
    var k := Find(s, 0, '\n');
    if k < |s| {
      LastLine(s[k + 1..]);
    }
  }

  /** The texts that a literal block can carry. */
  ghost predicate BlockSafe(s: string) {
    && (forall k | 0 <= k < |s| :: Printable(s[k]))
    && s != "" && s[|s| - 1] != '\n'
    && (var lines := SplitLines(s);
        var k := LeadingEmpty(lines);
        k < |lines| && lines[k][0] != ' ')
  }

  ghost predicate Stops(tail: seq<string>, n: nat) {
    tail == [] || (tail[0] != "" && Indent(tail[0]) < n)
  }

  lemma {:induction false} EmptyPrefix(lines: seq<string>, others: seq<string>, k: nat)
    requires k < |lines| <= |others| && k == LeadingEmpty(lines)
    requires forall j | 0 <= j <= k :: others[j] == "" <==> lines[j] == ""
    ensures LeadingEmpty(others) == k
    decreases |lines|
  {
    if k > 0 {
      assert forall j | 0 <= j <= k - 1 :: others[1..][j] == others[j + 1] && lines[1..][j] == lines[j + 1];
      EmptyPrefix(lines[1..], others[1..], k - 1);
    }
  }

  lemma {:induction false} RunStops(lines: seq<string>, tail: seq<string>, m: nat)
    requires forall k | 0 <= k < |lines| :: lines[k] == "" || Indent(lines[k]) >= m
    requires Stops(tail, m)
    ensures BlockRun(lines + tail, m) == |lines|
    decreases |lines|
  {
    if lines == [] {
      assert lines + tail == tail;
    } else {
      assert (lines + tail)[1..] == lines[1..] + tail;
      RunStops(lines[1..], tail, m);
    }
  }

  lemma BlockIndents(lines: seq<string>, m: nat, k: nat)
    requires k < |lines| && lines[k] != ""
    ensures var bl := BlockLines(lines, Spaces(m));
            bl[k] != "" && Indent(bl[k]) == m + Indent(lines[k]) && bl[k][m..] == lines[k]
  {
    IndentOfPadded(m, lines[k]);
  }

  ghost predicate BlockOf(lines: seq<string>, m: nat, bl: seq<string>) {
    && |bl| == |lines|
    && (forall k | 0 <= k < |bl| :: bl[k] == "" <==> lines[k] == "")
    && (forall k | 0 <= k < |bl| :: bl[k] == "" || Indent(bl[k]) >= m)
    && Unindent(bl, m) == lines
  }

  lemma BlockShape(lines: seq<string>, m: nat)
    ensures BlockOf(lines, m, BlockLines(lines, Spaces(m)))
  {
    var bl := BlockLines(lines, Spaces(m));
    hide BlockLines, Spaces, Unindent, Indent;
    forall k | 0 <= k < |bl|
      ensures bl[k] == "" <==> lines[k] == ""
      ensures bl[k] == "" || (Indent(bl[k]) >= m && bl[k][m..] == lines[k])
    {
      if lines[k] != "" {
        BlockIndents(lines, m, k);
      }
    }
  }

  lemma ReadLiteralAs(lines: seq<string>, n: nat)
    requires LeadingEmpty(lines) < |lines| && Indent(lines[LeadingEmpty(lines)]) > n
    ensures var m := Indent(lines[LeadingEmpty(lines)]);
            var r := BlockRun(lines, m);
            ReadLiteral(lines, n) == Good(JoinLines(DropLastEmpty(Unindent(lines[..r], m))), lines[r..])
  {
    hide JoinLines, Unindent, DropLastEmpty, BlockRun;
  }

  lemma KeepsLast(lines: seq<string>)
    requires lines != [] && lines[|lines| - 1] != ""
    ensures DropLastEmpty(lines) == lines
  {
  }

  lemma ReadBlock(lines: seq<string>, bl: seq<string>, n: nat, tail: seq<string>)
    requires BlockOf(lines, n + 2, bl) && Stops(tail, n + 2)
    requires LeadingEmpty(lines) < |lines| && Indent(bl[LeadingEmpty(lines)]) == n + 2
    requires lines[|lines| - 1] != ""
    ensures ReadLiteral(bl + tail, n) == Good(JoinLines(lines), tail)
  {
    hide BlockRun, Indent, JoinLines, LeadingEmpty, Unindent, ReadLiteral, DropLastEmpty;
    var k := LeadingEmpty(lines);
    assert k == LeadingEmpty(bl + tail) by { EmptyPrefix(lines, bl + tail, k); }
    assert (bl + tail)[k] == bl[k];
    assert BlockRun(bl + tail, n + 2) == |bl| by { RunStops(bl, tail, n + 2); }
    assert (bl + tail)[..|bl|] == bl && (bl + tail)[|bl|..] == tail;
    ReadLiteralAs(bl + tail, n);
    KeepsLast(lines);
  }

  /** A safe text below an entry is read back, up to the first line indented less. */
  lemma LiteralBack(s: string, n: nat, tail: seq<string>)
    requires BlockSafe(s) && Stops(tail, n + 2)
    ensures ReadLiteral(BlockLines(SplitLines(s), Spaces(n + 2)) + tail, n) == Good(s, tail)
  {
    hide ReadLiteral, JoinLines, SplitLines, LeadingEmpty, Spaces, BlockLines, BlockOf;
    var ls := SplitLines(s);
    var k := LeadingEmpty(ls);
    BlockShape(ls, n + 2);
    BlockIndents(ls, n + 2, k);
    assert Indent(ls[k]) == 0;
    LastLine(s);
    JoinSplit(s);
    ReadBlock(ls, BlockLines(ls, Spaces(n + 2)), n, tail);
  }

  /** If the text came back, its own lines would be the unindented ones. */
  lemma ReturnedLines(s: string, un: seq<string>)
    requires s != "" && AllOneLine(un) && JoinLines(DropLastEmpty(un)) == s
    ensures DropLastEmpty(un) == SplitLines(s)
  {
    var d := DropLastEmpty(un);
    assert d != [];
    SplitJoin(d);
  }

  lemma OneLineBlock(lines: seq<string>, m: nat)
    requires AllOneLine(lines)
    ensures AllOneLine(BlockLines(lines, Spaces(m)))
  {
  }

  lemma NotReturned(ls: seq<string>, line: string, un: seq<string>, k: nat)
    requires k < |ls| && line != "" && (k < |un| ==> un[k] == line[Indent(line)..])
    requires ls[|ls| - 1] == "" || (ls[k] != "" && ls[k][0] == ' ')
    ensures DropLastEmpty(un) != ls
  {
    hide DropLastEmpty;
    var d := DropLastEmpty(un);
    assert d <= un && (d != [] ==> d[|d| - 1] != "");
    assert k < |d| ==> d[k] == un[k];
  }

  /** Whatever comes back from a printed block that is not safe, it is not the text. */
  lemma UnsafeLiteralLost(s: string, n: nat, more: seq<string>)
    requires '\n' in s && (forall k | 0 <= k < |s| :: Printable(s[k])) && !BlockSafe(s) && AllOneLine(more)
    ensures var p := ReadLiteral(BlockLines(SplitLines(s), Spaces(n + 2)) + more, n);
            p.Bad? || p.value != s
  {
    hide BlockRun, Indent, JoinLines, SplitLines, LeadingEmpty, Spaces, BlockLines, Printable, BlockOf, DropLastEmpty,
      ReadLiteral;
    var ls := SplitLines(s);
    BlockShape(ls, n + 2);
    LastLine(s);
    JoinSplit(s);
    OneLineBlock(ls, n + 2);
    UnsafeBlockLost(s, ls, BlockLines(ls, Spaces(n + 2)), more, n);
  }

  lemma UnsafeBlockLost(s: string, ls: seq<string>, bl: seq<string>, more: seq<string>, n: nat)
    requires ls == SplitLines(s) && BlockOf(ls, n + 2, bl) && AllOneLine(bl) && AllOneLine(more) && s != ""
    requires ls[|ls| - 1] == "" || (LeadingEmpty(ls) < |ls| && ls[LeadingEmpty(ls)][0] == ' ')
    ensures var p := ReadLiteral(bl + more, n);
            p.Bad? || p.value != s
  {
    hide *;
    var lines := bl + more;
    var k := LeadingEmpty(lines);
    if k < |lines| && Indent(lines[k]) > n {
      ReadLiteralAs(lines, n);
      var m := Indent(lines[k]);
      var un := Unindent(lines[..BlockRun(lines, m)], m);
      UnindentedDiffers(ls, bl, more, n);
      UnindentedOneLine(bl, more, BlockRun(lines, m), m);
      if JoinLines(DropLastEmpty(un)) == s {
        ReturnedLines(s, un);
      }
    } else {
      NoLiteral(lines, n);
    }
  }

  lemma NoLiteral(lines: seq<string>, n: nat)
    requires var k := LeadingEmpty(lines); k == |lines| || Indent(lines[k]) <= n
    ensures ReadLiteral(lines, n) == Good("", lines[LeadingEmpty(lines)..])
  {
  }

  lemma UnindentedOneLine(bl: seq<string>, more: seq<string>, r: nat, m: nat)
    requires AllOneLine(bl) && AllOneLine(more) && r <= |bl + more|
    requires forall k | 0 <= k < r :: (bl + more)[k] == "" || |(bl + more)[k]| >= m
    ensures AllOneLine(Unindent((bl + more)[..r], m))
  {
    hide Unindent;
  }

  lemma UnindentedDiffers(ls: seq<string>, bl: seq<string>, more: seq<string>, n: nat)
    requires ls != [] && BlockOf(ls, n + 2, bl) && LeadingEmpty(bl + more) < |bl + more|
    requires ls[|ls| - 1] == "" || (LeadingEmpty(ls) < |ls| && ls[LeadingEmpty(ls)][0] == ' ')
    ensures var lines := bl + more;
            var m := Indent(lines[LeadingEmpty(lines)]);
            DropLastEmpty(Unindent(lines[..BlockRun(lines, m)], m)) != ls
  {
    hide BlockRun, Indent, Unindent, DropLastEmpty, LeadingEmpty;
    var lines := bl + more;
    var k := LeadingEmpty(lines);
    var m := Indent(lines[k]);
    var un := Unindent(lines[..BlockRun(lines, m)], m);
    if LeadingEmpty(ls) < |ls| {
      EmptyPrefix(ls, lines, LeadingEmpty(ls));
      NotReturned(ls, lines[k], un, k);
    }
  }
}
