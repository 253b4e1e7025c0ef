/** The browser's CSV reader, against printing every field in quotes. */
module Csv {

  // ------------------------------------------------------------------- white space

  /** What JavaScript's `trim` removes. */
  predicate IsSpace(c: char) {
    var n := c as int;
    9 <= n <= 13 || n == 32 || n == 0xA0 || n == 0x1680 || 0x2000 <= n <= 0x200A ||
    n == 0x2028 || n == 0x2029 || n == 0x202F || n == 0x205F || n == 0x3000 || n == 0xFEFF
  }

  function TrimLeft(s: string): string {
    if s != "" && IsSpace(s[0]) then TrimLeft(s[1..]) else s
  }

  function TrimRight(s: string): string {
    if s != "" && IsSpace(s[|s| - 1]) then TrimRight(s[..|s| - 1]) else s
  }

  function Trim(s: string): string {
    TrimRight(TrimLeft(s))
  }

  predicate Blank(s: string) {
    Trim(s) == ""
  }

  // --------------------------------------------------------------------------- lines

  function FirstNewline(s: string): (i: nat)
    ensures i <= |s| && '\n' !in s[..i] && (i < |s| ==> s[i] == '\n')
  {
    if s == "" || s[0] == '\n' then 0
    else
      var i := FirstNewline(s[1..]);
      assert s[..i + 1] == [s[0]] + s[1..][..i];
      i + 1
  }

  function DropReturn(s: string): string {
    if s != "" && s[|s| - 1] == '\r' then s[..|s| - 1] else s
  }

  /** `s.split(/\r?\n/)` */
  function SplitLines(s: string): (ls: seq<string>)
    ensures ls != []
    decreases |s|
  {
    var i := FirstNewline(s);
    if i == |s| then [s] else [DropReturn(s[..i])] + SplitLines(s[i + 1..])
  }

  // ------------------------------------------------------------------------- one row

  /** The rest of a row, with a field begun and its quotes open or not. */
  function Fields(line: string, current: string, inQuotes: bool): (fs: seq<string>)
    ensures fs != []
    decreases |line|
  {
    if line == "" then [Trim(current)]
    else if line[0] == '"' && !inQuotes then Fields(line[1..], current, true)
    else if line[0] == '"' && |line| > 1 && line[1] == '"' then Fields(line[2..], current + "\"", inQuotes)
    else if line[0] == '"' then Fields(line[1..], current, false)
    else if line[0] == ',' && !inQuotes then [Trim(current)] + Fields(line[1..], "", inQuotes)
    else Fields(line[1..], current + [line[0]], inQuotes)
  }

  method ParseRow(line: string) returns (result: seq<string>)
    ensures result == Fields(line, "", false)
  {
    hide Trim;
    result := [];
    var current, inQuotes := "", false;
    var i := 0;
    while i < |line|
      invariant 0 <= i <= |line|
      invariant result + Fields(line[i..], current, inQuotes) == Fields(line, "", false)
    {
      var ch := line[i];
      assert line[i..][0] == ch && line[i..][1..] == line[i + 1..];
      if ch == '"' && !inQuotes {
        inQuotes := true;
      } else if ch == '"' && inQuotes && i + 1 < |line| && line[i + 1] == '"' {
        assert line[i..][1] == '"' && line[i..][2..] == line[i + 2..];
        current := current + "\"";
        i := i + 1;
      } else if ch == '"' && inQuotes {
        inQuotes := false;
      } else if ch == ',' && !inQuotes {
        result := result + [Trim(current)];
        current := "";
      } else {
        current := current + [ch];
      }
      i := i + 1;
    }
    result := result + [Trim(current)];
  }

  datatype Table = Table(headers: seq<string>, rows: seq<seq<string>>)

  function ParseRows(lines: seq<string>): seq<seq<string>> {
    if lines == [] then []
    else if Blank(lines[0]) then ParseRows(lines[1..])
    else [Fields(lines[0], "", false)] + ParseRows(lines[1..])
  }

  function ParseCSV(text: string): Table {
    var lines := SplitLines(Trim(text));
    Table(Fields(lines[0], "", false), ParseRows(lines[1..]))
  }

  // ------------------------------------------------------------------------ printing

  /** Quotes doubled. */
  function Doubled(f: string): string {
    if f == "" then "" else (if f[0] == '"' then "\"\"" else [f[0]]) + Doubled(f[1..])
  }

  function Quoted(f: string): string {
    ['"'] + Doubled(f) + ['"']
  }

  /** Section 2 of RFC 4180: every field quoted, commas between them. */
  function PrintRow(fs: seq<string>): string
    requires fs != []
  {
    if |fs| == 1 then Quoted(fs[0]) else Quoted(fs[0]) + [','] + PrintRow(fs[1..])
  }

  predicate RowsNonEmpty(rows: seq<seq<string>>) {
    forall r :: r in rows ==> r != []
  }

  function LineEnd(crlf: bool): string {
    if crlf then "\r\n" else "\n"
  }

  /** Rows with either line end between them, mixed as one likes. */
  function PrintRows(rows: seq<seq<string>>, crlf: nat -> bool): string
    requires rows != [] && RowsNonEmpty(rows)
  {
    assert rows[0] in rows && forall r :: r in rows[1..] ==> r in rows;
    if |rows| == 1 then PrintRow(rows[0])
    else PrintRow(rows[0]) + (LineEnd(crlf(|rows|)) + PrintRows(rows[1..], crlf))
  }

  function TrimRow(fs: seq<string>): (ts: seq<string>)
    ensures |ts| == |fs| && forall i :: 0 <= i < |fs| ==> ts[i] == Trim(fs[i])
  {
    if fs == [] then [] else [Trim(fs[0])] + TrimRow(fs[1..])
  }

  function TrimRows(rows: seq<seq<string>>): (ts: seq<seq<string>>)
    ensures |ts| == |rows| && forall i :: 0 <= i < |rows| ==> ts[i] == TrimRow(rows[i])
  {
    if rows == [] then [] else [TrimRow(rows[0])] + TrimRows(rows[1..])
  }

  predicate OneLine(f: string) {
    '\n' !in f
  }

  // ------------------------------------------------------------- reading one row back

  lemma {:induction false} ReadDoubled(f: string, rest: string, current: string)
    ensures Fields(Doubled(f) + (['"'] + rest), current, true) == Fields(['"'] + rest, current + f, true)
    decreases |f|
  {
    hide Fields;
    var tail := ['"'] + rest;
    if f == "" {
      assert Doubled(f) + tail == tail && current + f == current;
    } else {
      var c := [f[0]];
      var more := Doubled(f[1..]) + tail;
      ReadDoubled(f[1..], rest, current + c);
      assert current + f == (current + c) + f[1..];
      if f[0] == '"' {
        assert Doubled(f) + tail == "\"\"" + more;
        ReadPair(more, current);
      } else {
        assert Doubled(f) + tail == c + more;
        ReadPlain(f[0], more, current);
      }
    }
  }

  lemma {:induction false} ReadPair(more: string, current: string)
    ensures Fields("\"\"" + more, current, true) == Fields(more, current + ['"'], true)
  {
    var line := "\"\"" + more;
    assert line[2..] == more;
  }

  lemma {:induction false} ReadPlain(c: char, more: string, current: string)
    requires c != '"'
    ensures Fields([c] + more, current, true) == Fields(more, current + [c], true)
  {
    var line := [c] + more;
    assert line[1..] == more;
  }

  /** A quoted field at the end of a row, or before a comma. */
  lemma {:induction false} ReadQuoted(f: string, rest: string)
    requires rest == "" || rest[0] == ','
    ensures Fields(Quoted(f) + rest, "", false) ==
      if rest == "" then [Trim(f)] else [Trim(f)] + Fields(rest[1..], "", false)
  {
    hide Trim;
    var line := Quoted(f) + rest;
    assert line[0] == '"' && line[1..] == Doubled(f) + (['"'] + rest);
    ReadDoubled(f, rest, "");
    assert "" + f == f;
    var tail := ['"'] + rest;
    assert tail[0] == '"' && tail[1..] == rest;
  }

  lemma {:induction false} ReadRow(fs: seq<string>)
    requires fs != []
    ensures Fields(PrintRow(fs), "", false) == TrimRow(fs)
    decreases |fs|
  {
    hide Trim, Quoted, Fields;
    if |fs| == 1 {
      ReadQuoted(fs[0], "");
      assert Quoted(fs[0]) + "" == Quoted(fs[0]);
      assert TrimRow(fs) == [Trim(fs[0])];
    } else {
      var rest := [','] + PrintRow(fs[1..]);
      ReadQuoted(fs[0], rest);
      ReadRow(fs[1..]);
      assert PrintRow(fs) == Quoted(fs[0]) + rest && rest[1..] == PrintRow(fs[1..]);
    }
  }

  // ----------------------------------------------------------------- lines of the text

  /** A row's text starts and ends with a quote. */
  predicate QuoteEnds(s: string) {
    |s| >= 2 && s[0] == '"' && s[|s| - 1] == '"'
  }

  lemma {:induction false} PrintRowEnds(fs: seq<string>)
    requires fs != []
    ensures QuoteEnds(PrintRow(fs))
    decreases |fs|
  {
    hide Doubled;
    if |fs| > 1 { PrintRowEnds(fs[1..]); }
  }

  lemma {:induction false} NewlinesKept(f: string)
    ensures '\n' in Doubled(f) <==> '\n' in f
    decreases |f|
  {
    if f != "" {
      NewlinesKept(f[1..]);
      assert f == [f[0]] + f[1..];
    }
  }

  lemma {:induction false} NewlinesInRow(fs: seq<string>)
    requires fs != []
    ensures '\n' in PrintRow(fs) <==> exists i :: 0 <= i < |fs| && !OneLine(fs[i])
    decreases |fs|
  {
    hide Doubled;
    NewlinesKept(fs[0]);
    if |fs| > 1 {
      NewlinesInRow(fs[1..]);
      if i :| 0 <= i < |fs| && !OneLine(fs[i]) && i > 0 {
        assert !OneLine(fs[1..][i - 1]);
      }
    }
  }

  lemma {:induction false} NotBlank(s: string)
    requires s != "" && (!IsSpace(s[0]) || !IsSpace(s[|s| - 1]))
    ensures !Blank(s)
  {
    hide IsSpace;
    if IsSpace(s[0]) {
      TrimLeftKeepsEnd(s);
    } else {
      TrimRightStays(s, 0);
    }
  }

  lemma {:induction false} TrimLeftKeepsEnd(s: string)
    requires s != "" && !IsSpace(s[|s| - 1])
    ensures TrimLeft(s) != "" && TrimLeft(s)[|TrimLeft(s)| - 1] == s[|s| - 1]
    decreases |s|
  {
    if IsSpace(s[0]) { TrimLeftKeepsEnd(s[1..]); }
  }

  lemma {:induction false} TrimRightStays(s: string, i: nat)
    requires i < |s| && !IsSpace(s[i])
    ensures |TrimRight(s)| > i
    decreases |s|
  {
    if IsSpace(s[|s| - 1]) { TrimRightStays(s[..|s| - 1], i); }
  }

  /** A line end after any text that does not end in a carriage return separates the
      lines of the two halves. */
  lemma {:induction false} SplitAtEnd(a: string, crlf: bool, b: string)
    requires a != "" && a[|a| - 1] != '\r'
    ensures SplitLines(a + (LineEnd(crlf) + b)) == SplitLines(a) + SplitLines(b)
    decreases |a|
  {
    hide SplitLines, DropReturn, LineEnd;
    var i, tail := FirstNewline(a), LineEnd(crlf) + b;
    if i == |a| {
      SplitLastLine(a, crlf, b);
    } else {
      var line, rest := a[..i], a[i + 1..];
      SplitParts(a, i, tail);
      SplitStep(line, rest);
      SplitStep(line, rest + tail);
      if rest == "" {
        SplitEmptyHead(crlf, b);
        assert rest + tail == tail;
      } else {
        SplitAtEnd(rest, crlf, b);
      }
      AppendThree([DropReturn(line)], SplitLines(rest), SplitLines(b));
    }
  }

  lemma {:induction false} AppendThree<T>(a: seq<T>, b: seq<T>, c: seq<T>)
    ensures a + (b + c) == (a + b) + c
  {
  }

  lemma {:induction false} SplitParts(a: string, i: nat, tail: string)
    requires i < |a| && a[i] == '\n'
    ensures a == a[..i] + (['\n'] + a[i + 1..])
    ensures a + tail == a[..i] + (['\n'] + (a[i + 1..] + tail))
  {
  }

  lemma {:induction false} SplitLastLine(a: string, crlf: bool, b: string)
    requires a != "" && a[|a| - 1] != '\r' && FirstNewline(a) == |a|
    ensures SplitLines(a + (LineEnd(crlf) + b)) == SplitLines(a) + SplitLines(b)
  {
    hide SplitLines, DropReturn;
    var line := if crlf then a + "\r" else a;
    assert a + (LineEnd(crlf) + b) == line + (['\n'] + b);
    SplitStep(line, b);
    SplitOneLine(a, crlf);
  }

  lemma {:induction false} SplitOneLine(a: string, crlf: bool)
    requires a != "" && a[|a| - 1] != '\r' && FirstNewline(a) == |a|
    ensures SplitLines(a) == [a] && DropReturn(if crlf then a + "\r" else a) == a
  {
    if crlf { assert (a + "\r")[..|a|] == a; }
  }

  lemma {:induction false} SplitStep(line: string, rest: string)
    requires '\n' !in line
    ensures SplitLines(line + (['\n'] + rest)) == [DropReturn(line)] + SplitLines(rest)
  {
    var s := line + (['\n'] + rest);
    FirstNewlineIs(line, rest);
    assert s[..|line|] == line && s[|line| + 1..] == rest;
  }

  lemma {:induction false} SplitEmptyHead(crlf: bool, b: string)
    ensures SplitLines(LineEnd(crlf) + b) == SplitLines("") + SplitLines(b)
  {
    var line := if crlf then "\r" else "";
    assert LineEnd(crlf) + b == line + (['\n'] + b);
    SplitStep(line, b);
  }

  lemma {:induction false} FirstNewlineIs(line: string, rest: string)
    requires '\n' !in line
    ensures FirstNewline(line + (['\n'] + rest)) == |line|
    decreases |line|
  {
    var s := line + (['\n'] + rest);
    if line != "" {
      assert s[0] == line[0] && s[1..] == line[1..] + (['\n'] + rest);
      assert '\n' !in line[1..];
      FirstNewlineIs(line[1..], rest);
    }
  }

  // ------------------------------------------------------------------- the whole text

  /** Lines that are not blank. */
  function Written(ls: seq<string>): nat {
    if ls == [] then 0 else (if Blank(ls[0]) then 0 else 1) + Written(ls[1..])
  }

  lemma {:induction false} WrittenAppend(a: seq<string>, b: seq<string>)
    ensures Written(a + b) == Written(a) + Written(b)
    decreases |a|
  {
    hide Blank;
    if a == [] {
      assert a + b == b;
    } else {
      WrittenAppend(a[1..], b);
      assert (a + b)[1..] == a[1..] + b;
    }
  }

  lemma {:induction false} ParsedCount(ls: seq<string>)
    ensures |ParseRows(ls)| == Written(ls)
    decreases |ls|
  {
    hide Blank, Fields;
    if ls != [] { ParsedCount(ls[1..]); }
  }

  /** A row's text is one line, or at least two that are not blank. */
  lemma {:induction false} RowLines(s: string)
    requires QuoteEnds(s)
    ensures if '\n' in s then Written(SplitLines(s)) >= 2 else SplitLines(s) == [s]
    ensures SplitLines(s)[0] != "" && SplitLines(s)[0][0] == '"'
  {
    var i := FirstNewline(s);
    if i < |s| {
      var line, rest := DropReturn(s[..i]), s[i + 1..];
      assert line != "" && line[0] == '"';
      NotBlank(line);
      LastLineWritten(rest);
    } else {
      assert s[..i] == s;
    }
  }

  lemma {:induction false} LastLineWritten(s: string)
    requires s != "" && s[|s| - 1] == '"'
    ensures Written(SplitLines(s)) >= 1
    decreases |s|
  {
    var i := FirstNewline(s);
    if i < |s| {
      LastLineWritten(s[i + 1..]);
    } else {
      NotBlank(s);
    }
  }

  /** The printed text, line by line: a row to a line, and more written lines than rows
      as soon as a field holds a newline. */
  lemma {:induction false} PrintedLines(rows: seq<seq<string>>, crlf: nat -> bool)
    requires rows != [] && RowsNonEmpty(rows)
    ensures var ls := SplitLines(PrintRows(rows, crlf));
      && QuoteEnds(PrintRows(rows, crlf)) && ls[0] != "" && ls[0][0] == '"'
      && (AllOneLine(rows) ==> ls == RowTexts(rows))
      && (!AllOneLine(rows) ==> Written(ls) > |rows|)
      && Written(ls) >= |rows|
    decreases |rows|
  {
    hide PrintRow, SplitLines, Written, OneLine;
    assert rows[0] in rows;
    var row, s := rows[0], PrintRow(rows[0]);
    PrintRowEnds(row);
    NewlinesInRow(row);
    RowLines(s);
    WrittenRow(s);
    RowTextsHead(rows);
    if |rows| > 1 {
      var rest := PrintRows(rows[1..], crlf);
      PrintedLines(rows[1..], crlf);
      SplitAtEnd(s, crlf(|rows|), rest);
      WrittenAppend(SplitLines(s), SplitLines(rest));
    }
  }

  predicate AllOneLine(rows: seq<seq<string>>) {
    forall r :: r in rows ==> forall i :: 0 <= i < |r| ==> OneLine(r[i])
  }

  function RowTexts(rows: seq<seq<string>>): (ts: seq<string>)
    requires RowsNonEmpty(rows)
    ensures |ts| == |rows|
  {
    if rows == [] then []
    else
      assert rows[0] in rows && forall r :: r in rows[1..] ==> r in rows;
      [PrintRow(rows[0])] + RowTexts(rows[1..])
  }

  lemma {:induction false} WrittenRow(s: string)
    requires QuoteEnds(s)
    ensures SplitLines(s) == [s] ==> Written(SplitLines(s)) == 1
  {
    hide SplitLines, Blank;
    NotBlank(s);
  }

  lemma {:induction false} RowTextsHead(rows: seq<seq<string>>)
    requires rows != [] && RowsNonEmpty(rows)
    ensures RowsNonEmpty(rows[1..]) && rows[0] != [] && RowTexts(rows) == [PrintRow(rows[0])] + RowTexts(rows[1..])
    ensures AllOneLine(rows) <==> (forall i :: 0 <= i < |rows[0]| ==> OneLine(rows[0][i])) && AllOneLine(rows[1..])
    ensures |rows| == 1 ==> AllOneLine(rows[1..]) && RowTexts(rows[1..]) == []
  {
    hide PrintRow, OneLine;
    assert rows == [rows[0]] + rows[1..];
    assert rows[0] in rows && forall r :: r in rows[1..] ==> r in rows;
  }

  /** The text of a table, with any white space after its last row. */
  function Print(rows: seq<seq<string>>, crlf: nat -> bool, after: string): string
    requires rows != [] && RowsNonEmpty(rows)
  {
    PrintRows(rows, crlf) + after
  }

  lemma {:induction false} TrimAfter(s: string, after: string)
    requires QuoteEnds(s) && forall i :: 0 <= i < |after| ==> IsSpace(after[i])
    ensures Trim(s + after) == s
    decreases |after|
  {
    hide IsSpace;
    assert !IsSpace('"') by { QuoteIsNoSpace(); }
    if after == "" {
      assert s + after == s;
    } else {
      var n := |after| - 1;
      TrimAfter(s, after[..n]);
      assert (s + after)[..|s| + n] == s + after[..n] && (s + after)[0] == s[0];
    }
  }

  lemma {:induction false} QuoteIsNoSpace()
    ensures !IsSpace('"')
  {
  }

  lemma {:induction false} ReadTexts(rows: seq<seq<string>>)
    requires RowsNonEmpty(rows)
    ensures ParseRows(RowTexts(rows)) == TrimRows(rows)
    decreases |rows|
  {
    hide PrintRow, Fields, Blank, TrimRow;
    if rows != [] {
      RowTextsHead(rows);
      ReadRow(rows[0]);
      PrintRowEnds(rows[0]);
      NotBlank(PrintRow(rows[0]));
      ReadTexts(rows[1..]);
    }
  }

  /** A table printed with every field in quotes reads back with every field trimmed, if
      no field holds a newline. */
  lemma {:induction false} ReadsBackTrimmed(rows: seq<seq<string>>, crlf: nat -> bool, after: string)
    requires rows != [] && RowsNonEmpty(rows) && forall i :: 0 <= i < |after| ==> IsSpace(after[i])
    requires AllOneLine(rows)
    ensures rows[0] in rows && ParseCSV(Print(rows, crlf, after)) == Table(TrimRow(rows[0]), TrimRows(rows[1..]))
  {
    hide Trim, IsSpace, PrintRow, PrintRows, SplitLines, Fields, Blank, AllOneLine, TrimRow, OneLine;
    assert rows[0] in rows;
    PrintedLines(rows, crlf);
    TrimAfter(PrintRows(rows, crlf), after);
    RowTextsHead(rows);
    ReadRow(rows[0]);
    ReadTexts(rows[1..]);
  }

  predicate AllTrimmed(rows: seq<seq<string>>) {
    forall r :: r in rows ==> forall i :: 0 <= i < |r| ==> Trim(r[i]) == r[i]
  }

  /** The table reads back as it was exactly when every field is its own trim and none
      holds a newline. */
  lemma {:induction false} CsvRoundTrip(rows: seq<seq<string>>, crlf: nat -> bool, after: string)
    requires rows != [] && RowsNonEmpty(rows) && forall i :: 0 <= i < |after| ==> IsSpace(after[i])
    ensures ParseCSV(Print(rows, crlf, after)) == Table(rows[0], rows[1..]) <==> AllTrimmed(rows) && AllOneLine(rows)
  {
    hide IsSpace, PrintRows, SplitLines, Fields, Blank, OneLine, QuoteEnds, Trim, AllOneLine, AllTrimmed, TrimRow, TrimRows, Written;
    var text := PrintRows(rows, crlf);
    if AllOneLine(rows) {
      ReadsBackTrimmed(rows, crlf, after);
      TrimmedRows(rows);
    } else {
      PrintedLines(rows, crlf);
      TrimAfter(text, after);
      var ls := SplitLines(text);
      ParsedCount(ls[1..]);
      FirstLineWritten(ls);
    }
  }

  lemma {:induction false} FirstLineWritten(ls: seq<string>)
    requires ls != [] && ls[0] != "" && ls[0][0] == '"'
    ensures Written(ls) == 1 + Written(ls[1..])
  {
    hide Blank;
    QuoteIsNoSpace();
    NotBlank(ls[0]);
  }

  lemma {:induction false} TrimmedRows(rows: seq<seq<string>>)
    requires rows != []
    ensures (TrimRow(rows[0]) == rows[0] && TrimRows(rows[1..]) == rows[1..]) <==> AllTrimmed(rows)
  {
    hide Trim;
    if TrimRow(rows[0]) == rows[0] && TrimRows(rows[1..]) == rows[1..] {
      forall r, i | r in rows && 0 <= i < |r| ensures Trim(r[i]) == r[i] {
        var k :| 0 <= k < |rows| && rows[k] == r;
        assert TrimRow(r) == r by {
          if k > 0 { assert TrimRows(rows[1..])[k - 1] == rows[1..][k - 1]; }
        }
        assert TrimRow(r)[i] == r[i];
      }
    }
    if AllTrimmed(rows) {
      assert rows[0] in rows && forall i :: 0 <= i < |rows[1..]| ==> rows[1..][i] in rows;
      forall i | 0 <= i < |rows[1..]| ensures TrimRows(rows[1..])[i] == rows[1..][i] {
        assert rows[1..][i] in rows;
      }
    }
  }
}
