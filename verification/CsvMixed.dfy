/** The CSV reader on any text: which lines it reads, and rows whose cells mix quoted and
    plain runs as they like. */
module CsvMixed {
  import opened Csv

  // ------------------------------------------------------------------------- trimming

  ghost predicate AllSpace(s: string) {
    forall i :: 0 <= i < |s| ==> IsSpace(s[i])
  }

  /** Trimming takes the white space off both ends and nothing else. */
  lemma {:induction false} TrimExactly(s: string) returns (a: string, b: string)
    ensures s == a + (Trim(s) + b) && AllSpace(a) && AllSpace(b)
    ensures Trim(s) != "" ==> !IsSpace(Trim(s)[0]) && !IsSpace(Trim(s)[|Trim(s)| - 1])
  {
    hide IsSpace;
    a := LeftCut(s);
    b := RightCut(TrimLeft(s));
    if Trim(s) != "" { assert Trim(s)[0] == TrimLeft(s)[0]; }
  }

  lemma {:induction false} LeftCut(s: string) returns (a: string)
    ensures s == a + TrimLeft(s) && AllSpace(a) && (TrimLeft(s) != "" ==> !IsSpace(TrimLeft(s)[0]))
    decreases |s|
  {
    hide IsSpace;
    a := "";
    if s != "" && IsSpace(s[0]) {
      a := LeftCut(s[1..]);
      a := [s[0]] + a;
    }
  }

  lemma {:induction false} RightCut(s: string) returns (b: string)
    ensures s == TrimRight(s) + b && AllSpace(b) && (TrimRight(s) != "" ==> !IsSpace(TrimRight(s)[|TrimRight(s)| - 1]))
    decreases |s|
  {
    hide IsSpace;
    b := "";
    if s != "" && IsSpace(s[|s| - 1]) {
      b := RightCut(s[..|s| - 1]);
      b := b + [s[|s| - 1]];
    }
  }

  lemma {:induction false} TrimIgnoresLeft(c: char, s: string)
    requires IsSpace(c)
    ensures Trim([c] + s) == Trim(s)
  {
    hide IsSpace;
    assert ([c] + s)[1..] == s;
  }

  lemma {:induction false} TrimIgnoresRight(s: string, c: char)
    requires IsSpace(c)
    ensures Trim(s + [c]) == Trim(s)
    decreases |s|
  {
    hide IsSpace;
    if s != "" && IsSpace(s[0]) {
      TrimIgnoresRight(s[1..], c);
      assert (s + [c])[1..] == s[1..] + [c];
    } else if s != "" {
      assert (s + [c])[..|s|] == s;
    } else {
      assert ("" + [c])[1..] == "";
    }
  }

  // -------------------------------------------- white space around a row changes nothing

  lemma {:induction false} SpacesSeparateNothing(c: char)
    requires IsSpace(c)
    ensures c != '"' && c != ','
  {
  }

  lemma {:induction false} FieldsIgnoreBegun(line: string, c: char, current: string, inQuotes: bool)
    requires IsSpace(c)
    ensures Fields(line, [c] + current, inQuotes) == Fields(line, current, inQuotes)
    decreases |line|
  {
    hide IsSpace, Trim;
    TrimIgnoresLeft(c, current);
    if line != "" {
      var more := [line[0]];
      assert ([c] + current) + more == [c] + (current + more) && ([c] + current) + "\"" == [c] + (current + "\"");
      if line[0] == '"' && inQuotes && |line| > 1 && line[1] == '"' {
        FieldsIgnoreBegun(line[2..], c, current + "\"", inQuotes);
      } else if line[0] == '"' {
        FieldsIgnoreBegun(line[1..], c, current, !inQuotes);
      } else if line[0] != ',' || inQuotes {
        FieldsIgnoreBegun(line[1..], c, current + more, inQuotes);
      }
    }
  }

  lemma {:induction false} FieldsIgnoreLeft(c: char, line: string)
    requires IsSpace(c)
    ensures Fields([c] + line, "", false) == Fields(line, "", false)
  {
    hide IsSpace, Trim;
    SpacesSeparateNothing(c);
    assert ([c] + line)[1..] == line && "" + [c] == [c] + "";
    FieldsIgnoreBegun(line, c, "", false);
  }

  lemma {:induction false} FieldsIgnoreRight(line: string, c: char, current: string, inQuotes: bool)
    requires IsSpace(c)
    ensures Fields(line + [c], current, inQuotes) == Fields(line, current, inQuotes)
    decreases |line|
  {
    hide IsSpace, Trim;
    SpacesSeparateNothing(c);
    if line == "" {
      TrimIgnoresRight(current, c);
      assert (line + [c])[1..] == "";
    } else {
      assert (line + [c])[0] == line[0] && (line + [c])[1..] == line[1..] + [c];
      if |line| > 1 { assert (line + [c])[1] == line[1] && (line + [c])[2..] == line[2..] + [c]; }
      if line[0] == '"' && inQuotes && |line| > 1 && line[1] == '"' {
        FieldsIgnoreRight(line[2..], c, current + "\"", inQuotes);
      } else if line[0] == '"' {
        FieldsIgnoreRight(line[1..], c, current, !inQuotes);
      } else if line[0] == ',' && !inQuotes {
        FieldsIgnoreRight(line[1..], c, "", inQuotes);
      } else {
        FieldsIgnoreRight(line[1..], c, current + [line[0]], inQuotes);
      }
    }
  }

  /** Two lines that read alike. */
  ghost predicate ReadAlike(a: string, b: string) {
    Blank(a) == Blank(b) && Fields(a, "", false) == Fields(b, "", false)
  }

  lemma {:induction false} AlikeLeft(c: char, s: string)
    requires IsSpace(c)
    ensures ReadAlike([c] + s, s)
  {
    hide Trim, Fields, IsSpace;
    TrimIgnoresLeft(c, s);
    FieldsIgnoreLeft(c, s);
  }

  lemma {:induction false} AlikeRight(s: string, c: char)
    requires IsSpace(c)
    ensures ReadAlike(s + [c], s)
  {
    hide Trim, Fields, IsSpace;
    TrimIgnoresRight(s, c);
    FieldsIgnoreRight(s, c, "", false);
  }

  lemma {:induction false} AlikeDropped(s: string)
    ensures ReadAlike(DropReturn(s), s)
  {
    hide Trim, Fields;
    if s != "" && s[|s| - 1] == '\r' {
      AlikeRight(s[..|s| - 1], '\r');
      assert s == s[..|s| - 1] + ['\r'];
    }
  }

  lemma {:induction false} RowsAlike(a: string, b: string, ls: seq<string>)
    requires ReadAlike(a, b)
    ensures ParseRows([a] + ls) == ParseRows([b] + ls)
  {
    hide Blank, Fields;
    assert ([a] + ls)[1..] == ls && ([b] + ls)[1..] == ls;
  }

  // -------------------------------------------- nor does white space around the text

  /** The fields of every line that is not blank. */
  function LinesRead(s: string): seq<seq<string>> {
    ParseRows(SplitLines(s))
  }

  /** A first line and the rest of a text, read on. */
  lemma {:induction false} ReadOn(line: string, rest: string)
    requires '\n' !in line
    ensures LinesRead(line + (['\n'] + rest)) == ParseRows([line] + SplitLines(rest))
  {
    hide ParseRows, SplitLines, DropReturn;
    SplitStep(line, rest);
    AlikeDropped(line);
    RowsAlike(DropReturn(line), line, SplitLines(rest));
  }

  lemma {:induction false} ReadLast(line: string)
    requires '\n' !in line
    ensures LinesRead(line) == ParseRows([line])
  {
    hide ParseRows;
    assert FirstNewline(line) == |line|;
  }

  /** A text is one line, or a line and the rest. */
  lemma {:induction false} FirstLine(s: string) returns (line: string, rest: string)
    ensures '\n' !in line
    ensures if '\n' in s then s == line + (['\n'] + rest) && |rest| < |s| else s == line
  {
    var i := FirstNewline(s);
    line := s[..i];
    rest := if i < |s| then s[i + 1..] else "";
    if i == |s| { assert s[..i] == s; }
  }

  lemma {:induction false} BlankFirst(ls: seq<string>)
    ensures ParseRows([""] + ls) == ParseRows(ls)
  {
    assert ([""] + ls)[1..] == ls;
  }

  lemma {:induction false} ReadIgnoresLeft(c: char, s: string)
    requires IsSpace(c)
    ensures LinesRead([c] + s) == LinesRead(s)
  {
    hide IsSpace, LinesRead, SplitLines, ParseRows, ReadAlike;
    if c == '\n' {
      ReadOn("", s);
      assert [c] + s == "" + (['\n'] + s);
      BlankFirst(SplitLines(s));
      LinesAre(s);
    } else {
      var line, rest := FirstLine(s);
      AlikeLeft(c, line);
      if '\n' in s {
        assert [c] + s == ([c] + line) + (['\n'] + rest);
        ReadOn([c] + line, rest);
        ReadOn(line, rest);
        RowsAlike([c] + line, line, SplitLines(rest));
      } else {
        ReadLast([c] + line);
        ReadLast(line);
        RowsAlike([c] + line, line, []);
        assert [[c] + line] + [] == [[c] + line] && [line] + [] == [line];
      }
    }
  }

  lemma {:induction false} LinesAre(s: string)
    ensures LinesRead(s) == ParseRows(SplitLines(s))
  {
  }

  lemma {:induction false} ReadIgnoresRight(s: string, c: char)
    requires IsSpace(c)
    ensures LinesRead(s + [c]) == LinesRead(s)
    decreases |s|
  {
    hide IsSpace, LinesRead, SplitLines, ParseRows, ReadAlike;
    var line, rest := FirstLine(s);
    if '\n' in s {
      assert s + [c] == line + (['\n'] + (rest + [c]));
      ReadOn(line, rest + [c]);
      ReadOn(line, rest);
      ReadIgnoresRight(rest, c);
      SameAfter(line, SplitLines(rest + [c]), SplitLines(rest)) by { LinesAre(rest); LinesAre(rest + [c]); }
    } else if c == '\n' {
      assert s + [c] == line + (['\n'] + "");
      ReadOn(line, "");
      ReadLast(line);
      NoLineAfter(line);
    } else {
      AlikeRight(line, c);
      ReadLast(line + [c]);
      ReadLast(line);
      RowsAlike(line + [c], line, []);
      assert [line + [c]] + [] == [line + [c]] && [line] + [] == [line];
    }
  }

  lemma {:induction false} SameAfter(line: string, a: seq<string>, b: seq<string>)
    requires ParseRows(a) == ParseRows(b)
    ensures ParseRows([line] + a) == ParseRows([line] + b)
  {
    hide Blank, Fields;
    assert ([line] + a)[1..] == a && ([line] + b)[1..] == b;
  }

  lemma {:induction false} EmptyIsBlank()
    ensures Blank("")
  {
  }

  lemma {:induction false} NoLineAfter(line: string)
    ensures ParseRows([line] + SplitLines("")) == ParseRows([line])
  {
    hide Blank, Fields;
    assert SplitLines("") == [""];
    EmptyIsBlank();
    assert ParseRows([""]) == ParseRows([""][1..]) == [] == ParseRows([]);
    SameAfter(line, [""], []);
    assert [line] + [] == [line];
  }

  lemma {:induction false} ReadIgnoresSpaces(a: string, s: string, b: string)
    requires AllSpace(a) && AllSpace(b)
    ensures LinesRead(a + (s + b)) == LinesRead(s)
    decreases |a| + |b|
  {
    hide IsSpace, LinesRead;
    if a != "" {
      ReadIgnoresLeft(a[0], a[1..] + (s + b));
      assert a + (s + b) == [a[0]] + (a[1..] + (s + b));
      ReadIgnoresSpaces(a[1..], s, b);
    } else if b != "" {
      var n := |b| - 1;
      ReadIgnoresRight(s + b[..n], b[n]);
      assert a + (s + b) == (s + b[..n]) + [b[n]] && a + (s + b[..n]) == s + b[..n];
      ReadIgnoresSpaces(a, s, b[..n]);
    } else {
      assert a + (s + b) == s;
    }
  }

  /** Whatever the text: the table is its lines that are not blank, each read on its own,
      the first as the headers; a blank text has one empty header. */
  lemma {:induction false} TableIsLines(text: string)
    ensures Blank(text) ==> ParseCSV(text) == Table([""], [])
    ensures !Blank(text) ==> LinesRead(text) != [] && ParseCSV(text) == Table(LinesRead(text)[0], LinesRead(text)[1..])
  {
    if Blank(text) {
      BlankTable(text);
    } else {
      hide LinesRead, ParseRows, SplitLines, Fields, IsSpace;
      var a, b := TrimExactly(text);
      ReadIgnoresSpaces(a, Trim(text), b);
      HeadersFirst(Trim(text));
      LinesAre(Trim(text));
    }
  }

  lemma {:induction false} BlankTable(text: string)
    requires Blank(text)
    ensures ParseCSV(text) == Table([""], [])
  {
    assert SplitLines("") == [""] && Fields("", "", false) == [""];
  }

  lemma {:induction false} HeadersFirst(t: string)
    requires t != "" && !IsSpace(t[0])
    ensures ParseRows(SplitLines(t)) == [Fields(SplitLines(t)[0], "", false)] + ParseRows(SplitLines(t)[1..])
  {
    hide Fields, Blank, ParseRows, SplitLines;
    var line, rest := FirstLine(t);
    assert !IsSpace(DropReturn(line)[0]) && DropReturn(line) != "" && line[0] == t[0] && !IsSpace(line[0]) by { ReturnIsSpace(); }
    NotBlank(line);
    NotBlank(DropReturn(line));
    if '\n' in t {
      SplitStep(line, rest);
      OneWritten(DropReturn(line), SplitLines(rest));
    } else {
      OneWritten(line, []);
      LoneLine(line);
    }
  }

  lemma {:induction false} LoneLine(line: string)
    requires '\n' !in line
    ensures SplitLines(line) == [line] && [line] + [] == [line]
  {
    assert FirstNewline(line) == |line|;
  }

  lemma {:induction false} ReturnIsSpace()
    ensures IsSpace('\r') && IsSpace('\n')
  {
  }

  lemma {:induction false} OneWritten(line: string, ls: seq<string>)
    requires !Blank(line)
    ensures ParseRows([line] + ls) == [Fields(line, "", false)] + ParseRows(([line] + ls)[1..])
  {
    hide Blank, Fields;
  }

  // ------------------------------------------------------------- rows of mixed cells

  /** A run of a cell as it is written: plain, in quotes, or in quotes never closed. */
  datatype Run = Plain(text: string) | InQuotes(text: string) | Unclosed(text: string)

  type Cell = seq<Run>

  function RunText(r: Run): string {
    match r
    case Plain(s) => s
    case InQuotes(s) => ['"'] + (Doubled(s) + ['"'])
    case Unclosed(s) => ['"'] + Doubled(s)
  }

  predicate GoodRun(r: Run) {
    !r.Unclosed? && (r.Plain? ==> r.text != "" && '"' !in r.text && ',' !in r.text)
  }

  /** Plain runs hold neither quote nor comma, and two quoted runs do not meet. */
  predicate GoodCell(c: Cell) {
    && (forall r :: r in c ==> GoodRun(r))
    && forall i :: 0 < i < |c| ==> c[i].InQuotes? ==> !c[i - 1].InQuotes?
  }

  function CellText(c: Cell): string {
    if c == [] then "" else RunText(c[0]) + CellText(c[1..])
  }

  /** What the cell says. */
  function Meaning(c: Cell): string {
    if c == [] then "" else c[0].text + Meaning(c[1..])
  }

  function RowText(cells: seq<Cell>): string
    requires cells != []
  {
    if |cells| == 1 then CellText(cells[0]) else CellText(cells[0]) + ([','] + RowText(cells[1..]))
  }

  /** The cells, the last of which may end in quotes never closed. */
  predicate GoodRow(cells: seq<Cell>) {
    && cells != []
    && (forall i :: 0 <= i < |cells| - 1 ==> GoodCell(cells[i]))
    && GoodLast(cells[|cells| - 1])
  }

  predicate GoodLast(c: Cell) {
    if c != [] && c[|c| - 1].Unclosed? then GoodCell(c[..|c| - 1] + [InQuotes(c[|c| - 1].text)]) else GoodCell(c)
  }

  lemma {:induction false} ReadPlainRun(s: string, more: string, current: string)
    requires '"' !in s && ',' !in s
    ensures Fields(s + more, current, false) == Fields(more, current + s, false)
    decreases |s|
  {
    hide Trim;
    if s == "" {
      assert s + more == more && current + s == current;
    } else {
      assert (s + more)[0] == s[0] && (s + more)[1..] == s[1..] + more;
      assert (current + [s[0]]) + s[1..] == current + s;
      ReadPlainRun(s[1..], more, current + [s[0]]);
    }
  }

  lemma {:induction false} ReadQuotedRun(s: string, more: string, current: string)
    requires more == "" || more[0] != '"'
    ensures Fields(RunText(InQuotes(s)) + more, current, false) == Fields(more, current + s, false)
  {
    hide Trim;
    var line := RunText(InQuotes(s)) + more;
    assert line[0] == '"' && line[1..] == Doubled(s) + (['"'] + more);
    ReadDoubled(s, more, current);
    var tail := ['"'] + more;
    assert tail[0] == '"' && tail[1..] == more;
  }

  lemma {:induction false} ReadUnclosedRun(s: string, current: string)
    ensures Fields(RunText(Unclosed(s)), current, false) == [Trim(current + s)]
  {
    hide Trim;
    var line := RunText(Unclosed(s));
    assert line[0] == '"' && line[1..] == Doubled(s);
    ReadToEnd(s, current);
  }

  lemma {:induction false} ReadToEnd(s: string, current: string)
    ensures Fields(Doubled(s), current, true) == [Trim(current + s)]
    decreases |s|
  {
    hide Trim;
    if s == "" {
      assert current + s == current;
    } else {
      var more := Doubled(s[1..]);
      assert (current + [s[0]]) + s[1..] == current + s;
      ReadToEnd(s[1..], current + [s[0]]);
      if s[0] == '"' { ReadPair(more, current); } else { ReadPlain(s[0], more, current); }
    }
  }

  lemma {:induction false} CellStart(c: Cell, rest: string)
    requires GoodCell(c) && (rest == "" || rest[0] != '"') && (c == [] || !c[0].InQuotes?)
    ensures CellText(c) + rest == "" || (CellText(c) + rest)[0] != '"'
  {
    if c != [] { assert c[0] in c; }
  }

  lemma {:induction false} GoodRest(c: Cell)
    requires GoodCell(c) && c != []
    ensures GoodRun(c[0]) && GoodCell(c[1..]) && (c[0].InQuotes? ==> c[1..] == [] || !c[1..][0].InQuotes?)
  {
    assert c == [c[0]] + c[1..];
    forall i | 0 < i < |c[1..]| ensures c[1..][i].InQuotes? ==> !c[1..][i - 1].InQuotes? {
      assert c[1..][i] == c[i + 1] && c[1..][i - 1] == c[i];
    }
  }

  lemma {:induction false} ReadCell(c: Cell, rest: string, current: string)
    requires GoodCell(c) && (rest == "" || rest[0] != '"')
    ensures Fields(CellText(c) + rest, current, false) == Fields(rest, current + Meaning(c), false)
    decreases |c|
  {
    hide Fields, GoodCell, RunText;
    if c == [] {
      assert "" + rest == rest && current + "" == current;
    } else {
      GoodRest(c);
      var more := CellText(c[1..]) + rest;
      assert CellText(c) + rest == RunText(c[0]) + more;
      assert (current + c[0].text) + Meaning(c[1..]) == current + Meaning(c);
      ReadCell(c[1..], rest, current + c[0].text);
      if c[0].InQuotes? {
        CellStart(c[1..], rest);
        ReadQuotedRun(c[0].text, more, current);
      } else {
        assert RunText(c[0]) == c[0].text by { PlainText(c[0].text); }
        ReadPlainRun(c[0].text, more, current);
      }
    }
  }

  lemma {:induction false} PlainText(s: string)
    ensures RunText(Plain(s)) == s
  {
  }

  lemma {:induction false} ReadLastCell(c: Cell)
    requires GoodLast(c)
    ensures Fields(CellText(c), "", false) == [Trim(Meaning(c))]
  {
    hide Trim, RunText, Fields, CellText, Meaning, GoodCell;
    if c != [] && c[|c| - 1].Unclosed? {
      var init, s := c[..|c| - 1], c[|c| - 1].text;
      assert c == init + [Unclosed(s)];
      GoodInit(init, s);
      CellAppend(init, Unclosed(s));
      ReadBeforeUnclosed(init, s, "");
      assert "" + Meaning(c) == Meaning(c);
    } else {
      ReadCell(c, "", "");
      assert CellText(c) + "" == CellText(c) && "" + Meaning(c) == Meaning(c);
      NothingLeft(Meaning(c));
    }
  }

  lemma {:induction false} NothingLeft(current: string)
    ensures Fields("", current, false) == [Trim(current)]
  {
  }

  lemma {:induction false} GoodInit(init: Cell, s: string)
    requires GoodCell(init + [InQuotes(s)])
    ensures GoodCell(init) && (init != [] ==> init[|init| - 1].Plain?)
  {
    var all := init + [InQuotes(s)];
    assert forall i :: 0 <= i < |init| ==> all[i] == init[i];
    assert all[|init|].InQuotes?;
    if init != [] { assert all[|init| - 1] in all; }
    forall r | r in init ensures GoodRun(r) { assert r in all; }
  }

  lemma {:induction false} CellAppend(c: Cell, r: Run)
    ensures CellText(c + [r]) == CellText(c) + RunText(r) && Meaning(c + [r]) == Meaning(c) + r.text
    decreases |c|
  {
    hide RunText;
    if c == [] {
      assert (c + [r])[1..] == [] && RunText(r) + "" == RunText(r) && r.text + "" == r.text;
      assert "" + RunText(r) == RunText(r) && "" + r.text == r.text;
    } else {
      CellAppend(c[1..], r);
      assert (c + [r])[1..] == c[1..] + [r];
      var x, y, z := RunText(c[0]), CellText(c[1..]), RunText(r);
      assert x + (y + z) == (x + y) + z;
      assert c[0].text + (Meaning(c[1..]) + r.text) == (c[0].text + Meaning(c[1..])) + r.text;
    }
  }

  /** As `ReadCell`, up to an opening quote that a plain run or nothing comes before. */
  lemma {:induction false} ReadBeforeUnclosed(c: Cell, s: string, current: string)
    requires GoodCell(c) && (c != [] ==> c[|c| - 1].Plain?)
    ensures Fields(CellText(c) + RunText(Unclosed(s)), current, false) == [Trim(current + (Meaning(c) + s))]
    decreases |c|
  {
    hide Fields, GoodCell, RunText, Trim;
    var open := RunText(Unclosed(s));
    if c == [] {
      assert "" + open == open && current + ("" + s) == current + s;
      ReadUnclosedRun(s, current);
    } else {
      GoodRest(c);
      var more := CellText(c[1..]) + open;
      assert CellText(c) + open == RunText(c[0]) + more;
      assert (current + c[0].text) + (Meaning(c[1..]) + s) == current + (Meaning(c) + s);
      ReadBeforeUnclosed(c[1..], s, current + c[0].text);
      if c[0].InQuotes? {
        GoodRest(c[1..]);
        CellStartPlain(c[1..]);
        ReadQuotedRun(c[0].text, more, current);
      } else {
        assert RunText(c[0]) == c[0].text by { PlainText(c[0].text); }
        ReadPlainRun(c[0].text, more, current);
      }
    }
  }

  lemma {:induction false} CellStartPlain(c: Cell)
    requires c != [] && GoodCell(c) && c[0].Plain?
    ensures CellText(c) != "" && CellText(c)[0] != '"'
  {
    assert c[0] in c;
  }

  function Meanings(cells: seq<Cell>): (fs: seq<string>)
    ensures |fs| == |cells| && forall i :: 0 <= i < |fs| ==> fs[i] == Trim(Meaning(cells[i]))
  {
    if cells == [] then [] else [Trim(Meaning(cells[0]))] + Meanings(cells[1..])
  }

  /** A row of cells, each written in whatever runs, reads back as what its cells say,
      trimmed. */
  lemma {:induction false} MixedRowReadsBack(cells: seq<Cell>)
    requires GoodRow(cells)
    ensures Fields(RowText(cells), "", false) == Meanings(cells)
    decreases |cells|
  {
    hide Trim, Fields, CellText, Meaning, GoodCell, GoodLast;
    if |cells| == 1 {
      ReadLastCell(cells[0]);
    } else {
      var rest := [','] + RowText(cells[1..]);
      ReadCell(cells[0], rest, "");
      assert "" + Meaning(cells[0]) == Meaning(cells[0]);
      ReadComma(Meaning(cells[0]), RowText(cells[1..]));
      MixedRowReadsBack(cells[1..]);
    }
  }

  lemma {:induction false} ReadComma(current: string, more: string)
    ensures Fields([','] + more, current, false) == [Trim(current)] + Fields(more, "", false)
  {
    assert ([','] + more)[1..] == more;
  }

  // ------------------------------------------------------- every line is such a row

  /** The first cell starts with a quote. */
  predicate QuoteFirst(cells: seq<Cell>) {
    cells != [] && cells[0] != [] && !cells[0][0].Plain?
  }

  /** A run written before the first cell's. */
  function Prepend(r: Run, cells: seq<Cell>): seq<Cell>
    requires cells != []
  {
    [[r] + cells[0]] + cells[1..]
  }

  lemma {:induction false} PrependText(r: Run, cells: seq<Cell>)
    requires cells != []
    ensures RowText(Prepend(r, cells)) == RunText(r) + RowText(cells)
  {
    hide RunText;
    var c := [r] + cells[0];
    assert c[1..] == cells[0] && Prepend(r, cells)[1..] == cells[1..];
    if |cells| > 1 {
      var x, y, z := RunText(r), CellText(cells[0]), [','] + RowText(cells[1..]);
      assert x + (y + z) == (x + y) + z;
    }
  }

  lemma {:induction false} PrependCell(r: Run, c: Cell)
    requires GoodRun(r) && GoodCell(c) && (r.InQuotes? ==> c == [] || !c[0].InQuotes?)
    ensures GoodCell([r] + c)
  {
    hide GoodRun;
  }

  lemma {:induction false} PrependLast(r: Run, c: Cell)
    requires GoodRun(r) && GoodLast(c) && (r.InQuotes? ==> c == [] || c[0].Plain?)
    ensures GoodLast([r] + c)
  {
    hide GoodCell;
    if c != [] && c[|c| - 1].Unclosed? {
      var closed := c[..|c| - 1] + [InQuotes(c[|c| - 1].text)];
      PrependCell(r, closed);
      assert ([r] + c)[..|c|] + [InQuotes(c[|c| - 1].text)] == [r] + closed;
    } else {
      PrependCell(r, c);
    }
  }

  lemma {:induction false} PrependGood(r: Run, cells: seq<Cell>)
    requires GoodRun(r) && GoodRow(cells) && (r.InQuotes? ==> !QuoteFirst(cells))
    ensures GoodRow(Prepend(r, cells))
  {
    hide GoodRun, GoodCell, GoodLast;
    var all := Prepend(r, cells);
    if |cells| == 1 {
      PrependLast(r, cells[0]);
    } else {
      PrependCell(r, cells[0]);
      assert forall i :: 0 < i < |all| ==> all[i] == cells[i];
    }
  }

  lemma {:induction false} QuoteShows(cells: seq<Cell>)
    requires QuoteFirst(cells)
    ensures RowText(cells) != "" && RowText(cells)[0] == '"'
  {
  }

  /** What stands after an opening quote: the run up to its closing quote, or all. */
  lemma {:induction false} QuotedPart(line: string) returns (s: string, closed: bool, more: string)
    ensures closed ==> line == Doubled(s) + (['"'] + more) && |more| < |line| && (more == "" || more[0] != '"')
    ensures !closed ==> line == Doubled(s)
    decreases |line|
  {
    if line == "" {
      s, closed, more := "", false, "";
    } else if line[0] == '"' && (|line| == 1 || line[1] != '"') {
      s, closed, more := "", true, line[1..];
      assert line == Doubled("") + (['"'] + more);
    } else {
      var n := if line[0] == '"' then 2 else 1;
      var t;
      t, closed, more := QuotedPart(line[n..]);
      s := [line[0]] + t;
      assert s[1..] == t;
      assert line == line[..n] + line[n..];
      if closed { assert line[..n] + (Doubled(t) + (['"'] + more)) == (line[..n] + Doubled(t)) + (['"'] + more); }
    }
  }

  /** Every line there is, is a row of such cells. */
  lemma {:induction false} EveryLineIsARow(line: string) returns (cells: seq<Cell>)
    ensures GoodRow(cells) && RowText(cells) == line
    decreases |line|
  {
    hide RowText, GoodRow, Prepend, QuoteFirst, Doubled;
    if line == "" {
      cells := [[]];
      EmptyRow();
    } else if line[0] == ',' {
      var rest := EveryLineIsARow(line[1..]);
      cells := [[]] + rest;
      EmptyCellFirst(rest);
    } else if line[0] == '"' {
      var s, closed, more := QuotedPart(line[1..]);
      if closed {
        var rest := EveryLineIsARow(more);
        if QuoteFirst(rest) { QuoteShows(rest); }
        NotNone(rest);
        cells := Prepend(InQuotes(s), rest);
        PrependText(InQuotes(s), rest);
        PrependGood(InQuotes(s), rest);
        assert line == RunText(InQuotes(s)) + more;
      } else {
        cells := [[Unclosed(s)]];
        UnclosedRow(s);
      }
    } else {
      var rest := EveryLineIsARow(line[1..]);
      NotNone(rest);
      cells := Prepend(Plain([line[0]]), rest);
      PrependText(Plain([line[0]]), rest);
      PrependGood(Plain([line[0]]), rest);
    }
  }

  lemma {:induction false} NotNone(cells: seq<Cell>)
    requires GoodRow(cells)
    ensures cells != []
  {
  }

  lemma {:induction false} EmptyRow()
    ensures GoodRow([[]]) && RowText([[]]) == ""
  {
  }

  lemma {:induction false} EmptyCellFirst(cells: seq<Cell>)
    requires GoodRow(cells)
    ensures GoodRow([[]] + cells) && RowText([[]] + cells) == [','] + RowText(cells)
  {
    hide GoodLast;
    var all := [[]] + cells;
    assert GoodCell([]) && all[1..] == cells;
    assert forall i :: 0 < i < |all| ==> all[i] == cells[i - 1];
  }

  lemma {:induction false} UnclosedRow(s: string)
    ensures GoodRow([[Unclosed(s)]]) && RowText([[Unclosed(s)]]) == ['"'] + Doubled(s)
  {
    var c := [Unclosed(s)];
    assert c[..0] + [InQuotes(s)] == [InQuotes(s)];
    assert CellText(c) == RunText(c[0]) + CellText(c[1..]) && c[1..] == [];
    assert RunText(c[0]) + "" == RunText(c[0]);
  }

  // ------------------------------------------------------------------- whole tables

  function RowsText(rows: seq<seq<Cell>>, crlf: nat -> bool): string
    requires rows != [] && forall r :: r in rows ==> r != []
  {
    assert rows[0] in rows && forall r :: r in rows[1..] ==> r in rows;
    if |rows| == 1 then RowText(rows[0])
    else RowText(rows[0]) + (LineEnd(crlf(|rows|)) + RowsText(rows[1..], crlf))
  }

  function AllMeanings(rows: seq<seq<Cell>>): (ts: seq<seq<string>>)
    ensures |ts| == |rows| && forall i :: 0 <= i < |ts| ==> ts[i] == Meanings(rows[i])
  {
    if rows == [] then [] else [Meanings(rows[0])] + AllMeanings(rows[1..])
  }

  /** A row that takes one line and leaves something on it. */
  ghost predicate LineRow(cells: seq<Cell>) {
    GoodRow(cells) && '\n' !in RowText(cells) && !Blank(RowText(cells))
  }

  lemma {:induction false} RowsReadBack(rows: seq<seq<Cell>>, crlf: nat -> bool)
    requires rows != [] && forall r :: r in rows ==> r != [] && LineRow(r)
    ensures LinesRead(RowsText(rows, crlf)) == AllMeanings(rows)
    decreases |rows|
  {
    hide LinesRead, SplitLines, ParseRows, Fields, Blank, RowText, GoodRow, Meanings;
    assert rows[0] in rows;
    var t := RowText(rows[0]);
    MixedRowReadsBack(rows[0]);
    if |rows| == 1 {
      ReadLast(t);
      OneWritten(t, []);
      assert [t] + [] == [t] && ParseRows([]) == [] by { NoRows(); }
    } else {
      assert forall r :: r in rows[1..] ==> r in rows;
      var rest := RowsText(rows[1..], crlf);
      RowsReadBack(rows[1..], crlf);
      ReadLine(t, crlf(|rows|), rest);
      OneWritten(t, SplitLines(rest));
      LinesAre(rest);
      assert ([t] + SplitLines(rest))[1..] == SplitLines(rest);
    }
  }

  lemma {:induction false} NoRows()
    ensures ParseRows([]) == []
  {
  }

  lemma {:induction false} ReadLine(t: string, crlf: bool, rest: string)
    requires '\n' !in t
    ensures LinesRead(t + (LineEnd(crlf) + rest)) == ParseRows([t] + SplitLines(rest))
  {
    hide LinesRead, SplitLines, ParseRows, ReadAlike;
    var line := if crlf then t + ['\r'] else t;
    assert t + (LineEnd(crlf) + rest) == line + (['\n'] + rest);
    ReadOn(line, rest);
    if crlf {
      ReturnIsSpace();
      AlikeRight(t, '\r');
      RowsAlike(line, t, SplitLines(rest));
    }
  }

  /** A table whose cells mix quoted and plain runs, one row to a line with either line
      end, and white space and blank lines around it, reads back as what its cells say,
      trimmed. */
  lemma {:induction false} MixedTableReadsBack(rows: seq<seq<Cell>>, crlf: nat -> bool, before: string, after: string)
    requires rows != [] && AllSpace(before) && AllSpace(after)
    requires forall r :: r in rows ==> r != [] && LineRow(r)
    ensures ParseCSV(before + (RowsText(rows, crlf) + after)) == Table(Meanings(rows[0]), AllMeanings(rows[1..]))
  {
    hide LinesRead, ParseCSV, RowsText, Blank, LineRow, Meanings, IsSpace;
    var text := before + (RowsText(rows, crlf) + after);
    RowsReadBack(rows, crlf);
    ReadIgnoresSpaces(before, RowsText(rows, crlf), after);
    TableIsLines(text);
    if Blank(text) { BlankReads(text); }
  }

  lemma {:induction false} BlankReads(text: string)
    requires Blank(text)
    ensures LinesRead(text) == []
  {
    hide LinesRead, IsSpace;
    var a, b := TrimExactly(text);
    ReadIgnoresSpaces(a, "", b);
    assert LinesRead("") == [] by { NothingRead(); }
  }

  lemma {:induction false} NothingRead()
    ensures LinesRead("") == []
  {
    assert SplitLines("") == [""] && Blank("");
  }
}
