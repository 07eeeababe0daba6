/** What table flattening makes of tables as people write them (`markdown.go`): the
    lines that come out, said of the cells that went in. */
module MarkdownExamples {
  import opened Text
  import opened Markdown
  import opened MarkdownTables

  // ----- joining and splitting

  const DOT := " \U{00B7} "

  /** The parts one after the other, with the separator between them. */
  function Join(parts: seq<string>, sep: string): string {
    if parts == [] then ""
    else if |parts| == 1 then parts[0]
    else parts[0] + sep + Join(parts[1..], sep)
  }

  /** The parts of a text between the dots that stand between two spaces. */
  function SplitDots(s: string): (parts: seq<string>)
    ensures |parts| >= 1
    decreases |s|
  {
    if s == "" then [""]
    else if DOT <= s then [""] + SplitDots(s[3..])
    else
      var rest := SplitDots(s[1..]);
      [[s[0]] + rest[0]] + rest[1..]
  }

  lemma {:induction false} SplitFirst(cell: string, rest: string)
    requires '\U{00B7}' !in cell
    ensures SplitDots(cell + DOT + rest) == [cell] + SplitDots(rest)
  {
    var s := cell + DOT + rest;
    if cell == "" {
      assert s == DOT + rest && s[3..] == rest;
    } else {
      assert s[0] == cell[0] && s[1..] == cell[1..] + DOT + rest;
      assert forall c <- cell[1..] :: c in cell;
      assert s[1] == (if |cell| > 1 then cell[1] else ' ');
      SplitFirst(cell[1..], rest);
      assert [cell[0]] + cell[1..] == cell;
    }
  }

  lemma {:induction false} SplitLast(cell: string)
    requires '\U{00B7}' !in cell
    ensures SplitDots(cell) == [cell]
  {
    if cell != "" {
      assert forall c <- cell[1..] :: c in cell;
      assert |cell| > 1 ==> cell[1] in cell;
      SplitLast(cell[1..]);
      assert [cell[0]] + cell[1..] == cell;
    }
  }

  /** Cells without dots are what their dotted list splits into. */
  lemma {:induction false} SplitJoined(cells: seq<string>)
    requires cells != [] && forall i :: 0 <= i < |cells| ==> '\U{00B7}' !in cells[i]
    ensures SplitDots(Join(cells, DOT)) == cells
  {
    if |cells| == 1 {
      SplitLast(cells[0]);
    } else {
      SplitJoined(cells[1..]);
      SplitFirst(cells[0], Join(cells[1..], DOT));
    }
  }

  // ----- one line

  /** The cells, followed by empty ones up to that many. */
  function Widened(row: seq<string>, cols: nat): seq<string> {
    seq(cols, i requires 0 <= i < cols => if i < |row| then row[i] else "")
  }

  lemma {:induction false} PadWidens(row: seq<string>, cols: nat)
    requires |row| <= cols
    ensures PadRow(row, cols) == Widened(row, cols)
    decreases cols - |row|
  {
    if |row| < cols {
      PadWidens(row + [""], cols);
      assert Widened(row + [""], cols) == Widened(row, cols);
    }
  }

  lemma {:induction false} CellsJoin(cells: seq<string>)
    ensures JoinCells(cells) == Join(cells, DOT)
  {
    if |cells| > 1 {
      CellsJoin(cells[1..]);
    }
  }

  lemma LineOfRow(row: seq<string>, cols: nat)
    requires 2 <= |row| <= cols
    ensures cols == 2 ==> FlatRow(row, cols) == row[0] + ": " + row[1]
    ensures cols > 2 ==> FlatRow(row, cols) == Join(Widened(row, cols), DOT)
  {
    PadWidens(row, cols);
    CellsJoin(PadRow(row, cols));
  }

  // ----- all lines of a table

  predicate Widest(rows: seq<seq<string>>, cols: nat) {
    && (forall i :: 0 <= i < |rows| ==> |rows[i]| <= cols)
    && (exists i :: 0 <= i < |rows| && |rows[i]| == cols)
  }

  lemma {:induction false} ColumnsAreWidest(rows: seq<seq<string>>)
    requires rows != []
    ensures Widest(rows, Columns(rows))
    decreases |rows|
  {
    var n := |rows| - 1;
    if n == 0 {
      assert Columns(rows[..0]) == 0;
      assert |rows[0]| == Columns(rows);
    } else {
      ColumnsAreWidest(rows[..n]);
      if |rows[n]| <= Columns(rows[..n]) {
        var i :| 0 <= i < n && |rows[..n][i]| == Columns(rows[..n]);
        assert |rows[i]| == Columns(rows);
      } else {
        assert |rows[n]| == Columns(rows);
      }
      assert forall i :: 0 <= i < n ==> rows[i] == rows[..n][i];
    }
  }

  lemma OneWidest(rows: seq<seq<string>>, a: nat, b: nat)
    requires Widest(rows, a) && Widest(rows, b)
    ensures a == b
  {}

  lemma {:induction false} FlatRowsAt(rows: seq<seq<string>>, cols: nat, i: nat)
    requires i < |rows|
    ensures |FlatRows(rows, cols)| == |rows| && FlatRows(rows, cols)[i] == FlatRow(rows[i], cols)
    decreases |rows|
  {
    FlatSize(rows, cols);
    FlatSize(rows[..|rows| - 1], cols);
    if i < |rows| - 1 {
      FlatRowsAt(rows[..|rows| - 1], cols, i);
    }
  }

  // ----- tables as written

  /** At least two trimmed cells of one line each. */
  predicate Writable(cells: seq<string>) {
    |cells| >= 2 && forall i :: 0 <= i < |cells| ==> Trim(cells[i]) == cells[i] && OneLine(cells[i])
  }

  predicate AllWritable(rows: seq<seq<string>>) {
    forall i :: 0 <= i < |rows| ==> Writable(rows[i])
  }

  function RowTexts(rows: seq<seq<string>>): seq<string>
    requires AllWritable(rows)
  {
    seq(|rows|, i requires 0 <= i < |rows| => RowText(rows[i]))
  }

  /** The lines of a table: its header, a separator, and its other rows. */
  function TableLines(rows: seq<seq<string>>, separator: string): seq<string>
    requires AllWritable(rows) && rows != []
  {
    [RowText(rows[0]), separator] + RowTexts(rows)[1..]
  }

  lemma {:induction false} EscapedOneLine(cell: string)
    requires OneLine(cell)
    ensures OneLine(Escape(cell))
  {
    if cell != "" {
      assert cell[0] in cell && forall c <- cell[1..] :: c in cell;
      EscapedOneLine(cell[1..]);
    }
  }

  lemma {:induction false} CellsTextOneLine(cells: seq<string>)
    requires cells != [] && forall i :: 0 <= i < |cells| ==> OneLine(cells[i])
    ensures OneLine(CellsText(cells))
  {
    EscapedOneLine(cells[0]);
    if |cells| > 1 {
      CellsTextOneLine(cells[1..]);
    }
  }

  /** A written row is a row, on one line, and its cells are read back. */
  lemma WrittenRow(cells: seq<string>)
    requires Writable(cells)
    ensures IsRow(RowText(cells)) && ParseRow(RowText(cells)) == cells && OneLine(RowText(cells))
  {
    ReadsBack(cells);
    RowTrims(CellsText(cells));
    RowIffTwoCells(RowText(cells));
    CellsTextOneLine(cells);
  }

  lemma {:induction false} ParsedAt(g: Grammar, lines: seq<string>, i: nat)
    requires i < |lines|
    ensures |Parsed(g, lines)| == |lines| && Parsed(g, lines)[i] == g.parse(lines[i])
  {
    ParsedSize(g, lines);
    if i > 0 {
      ParsedAt(g, lines[1..], i - 1);
    }
  }

  lemma ReadRows(rows: seq<seq<string>>)
    requires AllWritable(rows)
    ensures Parsed(MARKDOWN, RowTexts(rows)) == rows
  {
    var texts := RowTexts(rows);
    ParsedSize(MARKDOWN, texts);
    forall i | 0 <= i < |rows| ensures Parsed(MARKDOWN, texts)[i] == rows[i] {
      ParsedAt(MARKDOWN, texts, i);
      WrittenRow(rows[i]);
    }
  }

  /** The lines of a written table are one table, and nothing else. */
  lemma OneTable(rows: seq<seq<string>>, separator: string)
    requires AllWritable(rows) && rows != [] && IsSeparator(separator)
    ensures var texts := RowTexts(rows);
            BlocksOf(MARKDOWN, TableLines(rows, separator)) == [Table(texts[0], separator, texts[1..])]
  {
    var texts := RowTexts(rows);
    var table := Table(texts[0], separator, texts[1..]);
    forall i | 0 <= i < |rows| ensures MARKDOWN.row(texts[i]) {
      WrittenRow(rows[i]);
    }
    assert forall i :: 0 <= i < |texts[1..]| ==> texts[1..][i] == texts[i + 1];
    assert AllRows(MARKDOWN, texts[1..]);
    assert Fits(MARKDOWN, table, []);
    UniqueStep(MARKDOWN, table, []);
    assert LinesOf(table) + [] == TableLines(rows, separator);
    assert BlocksOf(MARKDOWN, []) == [];
  }

  lemma TableOutput(rows: seq<seq<string>>, separator: string)
    requires AllWritable(rows) && rows != [] && IsSeparator(separator)
    ensures Output(MARKDOWN, BlocksOf(MARKDOWN, TableLines(rows, separator))) == FlatRows(rows, Columns(rows))
  {
    var texts := RowTexts(rows);
    var table := Table(texts[0], separator, texts[1..]);
    OneTable(rows, separator);
    ReadRows(rows);
    assert [texts[0]] + texts[1..] == texts;
    assert OutputOf(MARKDOWN, table) == FlatRows(rows, Columns(rows));
    assert Output(MARKDOWN, [table]) == OutputOf(MARKDOWN, table) + Output(MARKDOWN, [table][1..]);
  }

  lemma TableIsLines(rows: seq<seq<string>>, separator: string)
    requires AllWritable(rows) && rows != [] && OneLine(separator)
    ensures SplitLines(JoinLines(TableLines(rows, separator))) == TableLines(rows, separator)
  {
    var lines := TableLines(rows, separator);
    forall i | 0 <= i < |lines| ensures OneLine(lines[i]) {
      if i != 1 {
        var k := if i == 0 then 0 else i - 1;
        WrittenRow(rows[k]);
        assert lines[i] == RowText(rows[k]);
      }
    }
    SplitJoin(lines);
  }

  /** The flattened table, line by line: with two columns each line is the first cell,
      a colon and the second cell; with more it is all cells with dots between them,
      and empty ones where the row is short. Bars within cells are no matter. */
  lemma TableFlattens(rows: seq<seq<string>>, separator: string, cols: nat, i: nat)
    requires AllWritable(rows) && i < |rows| && Widest(rows, cols)
    requires IsSeparator(separator) && OneLine(separator)
    ensures var lines := SplitLines(Flatten(JoinLines(TableLines(rows, separator))));
            && |lines| == |rows|
            && (cols == 2 ==> lines[i] == rows[i][0] + ": " + rows[i][1])
            && (cols > 2 ==> lines[i] == Join(Widened(rows[i], cols), " \U{00B7} "))
  {
    assert Writable(rows[i]);
    TableIsLines(rows, separator);
    TableOutput(rows, separator);
    FlattenedLines(JoinLines(TableLines(rows, separator)));
    ColumnsAreWidest(rows);
    OneWidest(rows, cols, Columns(rows));
    FlatRowsAt(rows, cols, i);
    LineOfRow(rows[i], cols);
  }

  /** With three or more columns the line splits at its dots into the cells again. */
  lemma DottedLineSplits(rows: seq<seq<string>>, separator: string, cols: nat, i: nat)
    requires AllWritable(rows) && i < |rows| && Widest(rows, cols) && cols > 2
    requires IsSeparator(separator) && OneLine(separator)
    requires forall k :: 0 <= k < |rows[i]| ==> '\U{00B7}' !in rows[i][k]
    ensures var lines := SplitLines(Flatten(JoinLines(TableLines(rows, separator))));
            |lines| == |rows| && SplitDots(lines[i]) == Widened(rows[i], cols)
  {
    TableFlattens(rows, separator, cols, i);
    SplitJoined(Widened(rows[i], cols));
  }

  // ----- separators as written

  function Dashes(n: nat): string {
    if n == 0 then "" else "-" + Dashes(n - 1)
  }

  /** Dashes, with a colon before or behind them or not. */
  function Rule(left: bool, n: nat, right: bool): string {
    (if left then ":" else "") + Dashes(n) + (if right then ":" else "")
  }

  lemma {:induction false} AllDashes(n: nat)
    ensures |Dashes(n)| == n && forall i :: 0 <= i < n ==> Dashes(n)[i] == '-'
  {
    if n > 0 {
      AllDashes(n - 1);
    }
  }

  lemma RuleIsSeparatorCell(left: bool, n: nat, right: bool)
    requires n > 0
    ensures var rule := Rule(left, n, right);
            SeparatorCell(rule) && Trim(rule) == rule && OneLine(rule) && rule != ""
  {
    AllDashes(n);
    RuleEnds(left, n, right);
    RuleColons(left, n, right);
  }

  lemma RuleEnds(left: bool, n: nat, right: bool)
    requires n > 0
    ensures var rule := Rule(left, n, right); rule != "" && Trim(rule) == rule && OneLine(rule)
  {
    AllDashes(n);
    var rule := Rule(left, n, right);
    assert rule[0] == (if left then ':' else '-');
    assert rule[|rule| - 1] == (if right then ':' else '-');
    assert TrimLeft(rule) == rule && TrimRight(rule) == rule;
  }

  lemma RuleColons(left: bool, n: nat, right: bool)
    requires n > 0
    ensures TrimColons(Rule(left, n, right)) == Dashes(n)
  {
    AllDashes(n);
    var rule, dashes := Rule(left, n, right), Dashes(n);
    var inner := dashes + (if right then ":" else "");
    assert rule[0] == (if left then ':' else '-');
    assert (if left then rule[1..] else rule) == inner;
    assert inner[|inner| - 1] == (if right then ':' else '-');
    assert inner[..n] == dashes;
  }

  predicate IsRule(cell: string) {
    exists left: bool, right: bool, n: nat :: 0 < n <= |cell| && cell == Rule(left, n, right)
  }

  /** A row of two or more cells that are such rules, or empty, is a separator. */
  lemma RulesSeparate(cells: seq<string>)
    requires |cells| >= 2 && forall i :: 0 <= i < |cells| ==> cells[i] == "" || IsRule(cells[i])
    ensures IsSeparator(RowText(cells)) && OneLine(RowText(cells))
  {
    forall i | 0 <= i < |cells|
      ensures SeparatorCell(cells[i]) && Trim(cells[i]) == cells[i] && OneLine(cells[i])
    {
      if cells[i] != "" {
        var left: bool, right: bool, n: nat :| 0 < n <= |cells[i]| && cells[i] == Rule(left, n, right);
        RuleIsSeparatorCell(left, n, right);
      }
    }
    WrittenRow(cells);
  }

  /** Colons alone, and anything but dashes, make a cell no separator. */
  lemma NotSeparators(cell: string, i: nat)
    requires Trim(cell) == cell
    ensures cell == ":" || cell == "::" ==> !SeparatorCell(cell)
    ensures 0 < i < |cell| - 1 && cell[i] != '-' ==> !SeparatorCell(cell)
    ensures i == 0 < |cell| && cell[0] !in "-:" ==> !SeparatorCell(cell)
  {
    var c := if cell != "" && cell[0] == ':' then cell[1..] else cell;
    if 0 < i < |cell| - 1 && cell[i] != '-' {
      assert TrimColons(cell)[if cell[0] == ':' then i - 1 else i] == cell[i];
    } else if i == 0 < |cell| && cell[0] !in "-:" {
      if cell == ":" {
        assert false;
      }
      assert TrimColons(cell) != "" && TrimColons(cell)[0] == cell[0];
    }
  }
}
