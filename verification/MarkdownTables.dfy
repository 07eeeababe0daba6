/** Table flattening (`markdown.go`, `FlattenMarkdownTables`, `renderFlatTable`):
    which lines are tables, and what becomes of every line. */
module MarkdownTables {
  import opened Text
  import opened Markdown

  // ----- rendering one table

  function Columns(rows: seq<seq<string>>): nat {
    if rows == [] then 0
    else
      var before, n := Columns(rows[..|rows| - 1]), |rows[|rows| - 1]|;
      if n > before then n else before
  }

  function Cell(row: seq<string>, i: nat): string {
    if i < |row| then row[i] else ""
  }

  function PadRow(row: seq<string>, cols: nat): seq<string>
    decreases cols - |row|
  {
    if |row| < cols then PadRow(row + [""], cols) else row
  }

  function JoinCells(cells: seq<string>): string {
    if cells == [] then ""
    else if |cells| == 1 then cells[0]
    else cells[0] + " \U{00B7} " + JoinCells(cells[1..])
  }

  /** Two columns become a pair with a colon, any other number a dotted list. */
  function FlatRow(row: seq<string>, cols: nat): string {
    if cols == 2 then Cell(row, 0) + ": " + Cell(row, 1) else JoinCells(PadRow(row, cols))
  }

  function FlatRows(rows: seq<seq<string>>, cols: nat): seq<string> {
    if rows == [] then [] else FlatRows(rows[..|rows| - 1], cols) + [FlatRow(rows[|rows| - 1], cols)]
  }

  lemma {:induction false} JoinAppend(lines: seq<string>, line: string)
    requires lines != []
    ensures JoinLines(lines + [line]) == JoinLines(lines) + "\n" + line
    decreases |lines|
  {
    if |lines| == 1 {
      assert (lines + [line])[1..] == [line];
    } else {
      JoinAppend(lines[1..], line);
      assert (lines + [line])[1..] == lines[1..] + [line];
    }
  }

  method RenderFlatTable(rows: seq<seq<string>>) returns (text: string)
    ensures text == JoinLines(FlatRows(rows, Columns(rows)))
  {
    if |rows| == 0 {
      return "";
    }
    var cols := 0;
    for i := 0 to |rows|
      invariant cols == Columns(rows[..i])
    {
      assert rows[..i + 1][..i] == rows[..i];
      if |rows[i]| > cols {
        cols := |rows[i]|;
      }
    }
    assert rows[..|rows|] == rows;
    text := "";
    for i := 0 to |rows|
      invariant |FlatRows(rows[..i], cols)| == i
      invariant text == JoinLines(FlatRows(rows[..i], cols))
    {
      assert rows[..i + 1][..i] == rows[..i];
      if i > 0 {
        JoinAppend(FlatRows(rows[..i], cols), FlatRow(rows[i], cols));
        text := text + "\n";
      }
      var line := RenderRow(rows[i], cols);
      text := text + line;
    }
  }

  /** One row of the rendering. */
  method RenderRow(row: seq<string>, cols: nat) returns (text: string)
    ensures text == FlatRow(row, cols)
  {
    if cols == 2 {
      var left, right := "", "";
      if |row| > 0 {
        left := row[0];
      }
      if |row| > 1 {
        right := row[1];
      }
      text := left + ": " + right;
    } else {
      var padded := row;
      while |padded| < cols
        invariant PadRow(padded, cols) == PadRow(row, cols)
        decreases cols - |padded|
      {
        padded := padded + [""];
      }
      text := JoinCells(padded);
    }
  }

  // ----- the lines of a text, as plain lines and tables

  /** Which lines are rows and which are separators, and the cells of a row. */
  datatype Grammar = Grammar(row: string -> bool, separator: string -> bool, parse: string -> seq<string>)

  datatype Block = Plain(line: string) | Table(header: string, separator: string, rows: seq<string>)

  /** The source lines of blocks: all of them, in order. */
  function Source(blocks: seq<Block>): seq<string> {
    if blocks == [] then [] else LinesOf(blocks[0]) + Source(blocks[1..])
  }

  function Parsed(g: Grammar, rows: seq<string>): seq<seq<string>> {
    if rows == [] then [] else [g.parse(rows[0])] + Parsed(g, rows[1..])
  }

  /** The output lines of a block: a plain line verbatim, a table without its separator. */
  function OutputOf(g: Grammar, block: Block): seq<string> {
    match block
    case Plain(line) => [line]
    case Table(header, _, rows) => var all := Parsed(g, [header] + rows); FlatRows(all, Columns(all))
  }

  function Output(g: Grammar, blocks: seq<Block>): seq<string> {
    if blocks == [] then [] else OutputOf(g, blocks[0]) + Output(g, blocks[1..])
  }

  function Tables(blocks: seq<Block>): nat {
    if blocks == [] then 0 else (if blocks[0].Table? then 1 else 0) + Tables(blocks[1..])
  }

  predicate StartsTable(g: Grammar, lines: seq<string>) {
    |lines| >= 2 && g.row(lines[0]) && g.separator(lines[1])
  }

  predicate AllRows(g: Grammar, lines: seq<string>) {
    forall i :: 0 <= i < |lines| ==> g.row(lines[i])
  }

  /** A plain line starts no table, and a table reaches as far as the rows go. */
  predicate Fits(g: Grammar, block: Block, rest: seq<string>) {
    match block
    case Plain(line) => !StartsTable(g, [line] + rest)
    case Table(header, separator, rows) =>
      && g.row(header) && g.separator(separator) && AllRows(g, rows)
      && (rest == [] || !g.row(rest[0]))
  }

  /** Tables are found from the top, wherever one starts. */
  predicate Canonical(g: Grammar, blocks: seq<Block>) {
    blocks == [] || (Fits(g, blocks[0], Source(blocks[1..])) && Canonical(g, blocks[1..]))
  }

  function RowsAhead(g: Grammar, lines: seq<string>): (n: nat)
    ensures n <= |lines| && AllRows(g, lines[..n]) && (n < |lines| ==> !g.row(lines[n]))
  {
    if lines == [] || !g.row(lines[0]) then 0
    else
      var n := RowsAhead(g, lines[1..]);
      assert lines[..n + 1] == [lines[0]] + lines[1..][..n];
      n + 1
  }

  /** The first block of some lines, and the lines after it. */
  function FirstBlock(g: Grammar, lines: seq<string>): Block
    requires lines != []
  {
    if StartsTable(g, lines) then Table(lines[0], lines[1], lines[2..][..RowsAhead(g, lines[2..])]) else Plain(lines[0])
  }

  function AfterFirst(g: Grammar, lines: seq<string>): (rest: seq<string>)
    requires lines != []
    ensures |rest| < |lines|
  {
    if StartsTable(g, lines) then lines[2..][RowsAhead(g, lines[2..])..] else lines[1..]
  }

  /** The blocks of a list of lines. */
  function BlocksOf(g: Grammar, lines: seq<string>): seq<Block>
    decreases |lines|
  {
    if lines == [] then [] else [FirstBlock(g, lines)] + BlocksOf(g, AfterFirst(g, lines))
  }

  function LinesOf(block: Block): seq<string> {
    match block
    case Plain(line) => [line]
    case Table(header, separator, rows) => [header, separator] + rows
  }

  lemma FirstBlockKeepsLines(g: Grammar, lines: seq<string>)
    requires lines != []
    ensures LinesOf(FirstBlock(g, lines)) + AfterFirst(g, lines) == lines
    ensures Fits(g, FirstBlock(g, lines), AfterFirst(g, lines))
  {
    var rest := AfterFirst(g, lines);
    if StartsTable(g, lines) {
      var n := RowsAhead(g, lines[2..]);
      assert lines == [lines[0], lines[1]] + (lines[2..][..n] + lines[2..][n..]);
      assert rest != [] ==> rest[0] == lines[2..][n];
    } else {
      assert [lines[0]] + lines[1..] == lines;
    }
  }

  /** Finding the blocks loses and reorders no line. */
  lemma {:induction false} BlocksKeepLines(g: Grammar, lines: seq<string>)
    ensures Source(BlocksOf(g, lines)) == lines && Canonical(g, BlocksOf(g, lines))
    decreases |lines|
  {
    if lines != [] {
      FirstBlockKeepsLines(g, lines);
      BlocksKeepLines(g, AfterFirst(g, lines));
      assert BlocksOf(g, lines)[1..] == BlocksOf(g, AfterFirst(g, lines));
    }
  }

  /** A block that fits is the one found first. */
  lemma FitsIsFirst(g: Grammar, block: Block, rest: seq<string>)
    requires Fits(g, block, rest)
    ensures var lines := LinesOf(block) + rest; FirstBlock(g, lines) == block && AfterFirst(g, lines) == rest
  {
    var lines := LinesOf(block) + rest;
    if block.Plain? {
      assert lines == [block.line] + rest && lines[1..] == rest;
    } else {
      assert lines[0] == block.header && lines[1] == block.separator;
      assert lines[2..] == block.rows + rest;
      RowsEnd(g, block.rows, rest);
      assert (block.rows + rest)[..|block.rows|] == block.rows && (block.rows + rest)[|block.rows|..] == rest;
    }
  }

  lemma UniqueStep(g: Grammar, block: Block, rest: seq<string>)
    requires Fits(g, block, rest)
    ensures BlocksOf(g, LinesOf(block) + rest) == [block] + BlocksOf(g, rest)
  {
    FitsIsFirst(g, block, rest);
    assert |LinesOf(block)| > 0;
  }

  /** Only one division of the lines into blocks is canonical: the tables found are
      exactly the tables there are. */
  lemma {:induction false} BlocksUnique(g: Grammar, blocks: seq<Block>)
    requires Canonical(g, blocks)
    ensures blocks == BlocksOf(g, Source(blocks))
    decreases |blocks|
  {
    if blocks != [] {
      BlocksUnique(g, blocks[1..]);
      UniqueStep(g, blocks[0], Source(blocks[1..]));
      assert blocks == [blocks[0]] + blocks[1..];
    }
  }

  lemma {:induction false} RowsEnd(g: Grammar, rows: seq<string>, rest: seq<string>)
    requires AllRows(g, rows) && (rest == [] || !g.row(rest[0]))
    ensures RowsAhead(g, rows + rest) == |rows|
  {
    if rows == [] {
      assert rows + rest == rest;
    } else {
      assert (rows + rest)[1..] == rows[1..] + rest;
      RowsEnd(g, rows[1..], rest);
    }
  }

  // ----- the text as a whole

  /** The grammar that the source implements. */
  const MARKDOWN := Grammar(line => IsRow(line), line => IsSeparator(line), line => ParseRow(line))

  function FlattenBy(g: Grammar, text: string): string {
    JoinLines(Output(g, BlocksOf(g, SplitLines(text))))
  }

  /** The text with every table flattened, by its lines. */
  function Flatten(text: string): string {
    FlattenBy(MARKDOWN, text)
  }

  /** A table loses its separator line, and nothing else changes the line count. */
  lemma {:induction false} OutputSize(g: Grammar, blocks: seq<Block>)
    ensures |Output(g, blocks)| == |Source(blocks)| - Tables(blocks)
    ensures blocks != [] ==> Output(g, blocks) != []
    decreases |blocks|
  {
    if blocks != [] {
      OutputSize(g, blocks[1..]);
      if blocks[0].Table? {
        var all := Parsed(g, [blocks[0].header] + blocks[0].rows);
        FlatSize(all, Columns(all));
        ParsedSize(g, [blocks[0].header] + blocks[0].rows);
      }
    }
  }

  lemma {:induction false} FlatSize(rows: seq<seq<string>>, cols: nat)
    ensures |FlatRows(rows, cols)| == |rows|
    decreases |rows|
  {
    if rows != [] { FlatSize(rows[..|rows| - 1], cols); }
  }

  lemma {:induction false} ParsedSize(g: Grammar, rows: seq<string>)
    ensures |Parsed(g, rows)| == |rows|
  {
    if rows != [] { ParsedSize(g, rows[1..]); }
  }

  // ----- no line break gets into a line

  predicate AllOneLine(lines: seq<string>) {
    forall i :: 0 <= i < |lines| ==> OneLine(lines[i])
  }

  lemma {:induction false} TrimOneLine(s: string)
    requires OneLine(s)
    ensures OneLine(TrimLeft(s)) && OneLine(TrimRight(s))
    decreases |s|
  {
    if s != "" {
      TrimOneLine(s[1..]);
      TrimOneLine(s[..|s| - 1]);
    }
  }

  lemma {:induction false} CellsOneLine(s: string, cur: string)
    requires OneLine(s) && OneLine(cur)
    ensures AllOneLine(Cells(s, cur))
    decreases |s|
  {
    TrimOneLine(cur);
    TrimOneLine(TrimLeft(cur));
    if s != "" {
      if s[0] == '\\' && |s| > 1 && s[1] == '|' {
        CellsOneLine(s[2..], cur + "|");
      } else if s[0] == '|' {
        CellsOneLine(s[1..], "");
      } else {
        assert s[0] in s;
        CellsOneLine(s[1..], cur + [s[0]]);
      }
    }
  }

  lemma ParsedRowOneLine(line: string)
    requires OneLine(line)
    ensures AllOneLine(ParseRow(line))
  {
    TrimOneLine(line);
    TrimOneLine(TrimLeft(line));
    var trimmed := Trim(line);
    assert forall c <- TrimBars(trimmed) :: c in trimmed;
    CellsOneLine(TrimBars(trimmed), "");
  }

  lemma {:induction false} PadOneLine(row: seq<string>, cols: nat)
    requires AllOneLine(row)
    ensures AllOneLine(PadRow(row, cols))
    decreases cols - |row|
  {
    if |row| < cols { PadOneLine(row + [""], cols); }
  }

  lemma {:induction false} JoinedOneLine(cells: seq<string>)
    requires AllOneLine(cells)
    ensures OneLine(JoinCells(cells))
  {
    if |cells| > 1 { JoinedOneLine(cells[1..]); }
  }

  lemma FlatRowOneLine(row: seq<string>, cols: nat)
    requires AllOneLine(row)
    ensures OneLine(FlatRow(row, cols))
  {
    PadOneLine(row, cols);
    JoinedOneLine(PadRow(row, cols));
    assert OneLine(Cell(row, 0)) && OneLine(Cell(row, 1));
  }

  lemma {:induction false} FlatRowsOneLine(rows: seq<seq<string>>, cols: nat)
    requires forall i :: 0 <= i < |rows| ==> AllOneLine(rows[i])
    ensures AllOneLine(FlatRows(rows, cols))
    decreases |rows|
  {
    if rows != [] {
      FlatRowsOneLine(rows[..|rows| - 1], cols);
      FlatRowOneLine(rows[|rows| - 1], cols);
    }
  }

  /** Cells hold no line break if the row has none. */
  ghost predicate KeepsLines(g: Grammar) {
    forall line :: OneLine(line) ==> AllOneLine(g.parse(line))
  }

  lemma {:induction false} ParsedOneLine(g: Grammar, rows: seq<string>)
    requires KeepsLines(g) && AllOneLine(rows)
    ensures |Parsed(g, rows)| == |rows| && forall i :: 0 <= i < |rows| ==> AllOneLine(Parsed(g, rows)[i])
  {
    if rows != [] {
      assert OneLine(rows[0]);
      ParsedOneLine(g, rows[1..]);
    }
  }

  lemma BlockOneLine(g: Grammar, block: Block)
    requires KeepsLines(g) && AllOneLine(LinesOf(block))
    ensures AllOneLine(OutputOf(g, block))
  {
    if block.Table? {
      var all := [block.header] + block.rows;
      assert forall i :: 0 < i < |all| ==> all[i] == LinesOf(block)[i + 1];
      assert all[0] == LinesOf(block)[0];
      ParsedOneLine(g, all);
      FlatRowsOneLine(Parsed(g, all), Columns(Parsed(g, all)));
    }
  }

  lemma {:induction false} OutputOneLine(g: Grammar, blocks: seq<Block>)
    requires KeepsLines(g) && AllOneLine(Source(blocks))
    ensures AllOneLine(Output(g, blocks))
    decreases |blocks|
  {
    if blocks != [] {
      var first, rest := LinesOf(blocks[0]), Source(blocks[1..]);
      assert forall i :: 0 <= i < |first| ==> first[i] == Source(blocks)[i];
      assert forall i :: 0 <= i < |rest| ==> rest[i] == Source(blocks)[|first| + i];
      BlockOneLine(g, blocks[0]);
      OutputOneLine(g, blocks[1..]);
    }
  }

  lemma LinesOfFlattened(g: Grammar, text: string)
    requires KeepsLines(g)
    ensures var blocks := BlocksOf(g, SplitLines(text));
            && Source(blocks) == SplitLines(text) && Canonical(g, blocks)
            && SplitLines(FlattenBy(g, text)) == Output(g, blocks)
            && |Output(g, blocks)| == |SplitLines(text)| - Tables(blocks)
  {
    var blocks := BlocksOf(g, SplitLines(text));
    BlocksKeepLines(g, SplitLines(text));
    SplitParts(text);
    OutputOneLine(g, blocks);
    OutputSize(g, blocks);
    SplitJoin(Output(g, blocks));
  }

  /** The output's lines are those of the blocks found: plain lines verbatim and in
      order, each table one line shorter; so the output has exactly as many lines
      as the input less the tables. */
  lemma FlattenedLines(text: string)
    ensures var blocks := BlocksOf(MARKDOWN, SplitLines(text));
            && Source(blocks) == SplitLines(text) && Canonical(MARKDOWN, blocks)
            && SplitLines(Flatten(text)) == Output(MARKDOWN, blocks)
            && |SplitLines(Flatten(text))| == |SplitLines(text)| - Tables(blocks)
  {
    forall line | OneLine(line) ensures AllOneLine(MARKDOWN.parse(line)) {
      ParsedRowOneLine(line);
    }
    LinesOfFlattened(MARKDOWN, text);
  }

  // ----- the loop that flattens

  /** What the loop appends for each block: one text, possibly of several lines. */
  function Texts(g: Grammar, blocks: seq<Block>): seq<string> {
    if blocks == [] then [] else [JoinLines(OutputOf(g, blocks[0]))] + Texts(g, blocks[1..])
  }

  lemma {:induction false} JoinConcat(a: seq<string>, b: seq<string>)
    requires a != [] && b != []
    ensures JoinLines(a + b) == JoinLines(a) + "\n" + JoinLines(b)
    decreases |a|
  {
    if |a| == 1 {
      assert (a + b)[1..] == b;
    } else {
      assert (a + b)[1..] == a[1..] + b;
      JoinConcat(a[1..], b);
    }
  }

  /** Joining the blocks' texts joins all their lines. */
  lemma {:induction false} JoinTexts(g: Grammar, blocks: seq<Block>)
    ensures JoinLines(Texts(g, blocks)) == JoinLines(Output(g, blocks))
    decreases |blocks|
  {
    if blocks != [] {
      JoinTexts(g, blocks[1..]);
      OutputSize(g, [blocks[0]]);
      assert Output(g, [blocks[0]]) == OutputOf(g, blocks[0]);
      if |blocks| == 1 {
        assert Output(g, blocks) == OutputOf(g, blocks[0]);
      } else {
        OutputSize(g, blocks[1..]);
        JoinConcat(OutputOf(g, blocks[0]), Output(g, blocks[1..]));
        assert Texts(g, blocks)[1..] == Texts(g, blocks[1..]) && Texts(g, blocks[1..]) != [];
      }
    }
  }

  /** A text without a bar has no row, so flattening would leave it as it is. */
  lemma NoBars(text: string)
    requires '|' !in text
    ensures Flatten(text) == text
  {
    LinesAreParts(text);
    var lines := SplitLines(text);
    forall i | 0 <= i < |lines| ensures !MARKDOWN.row(lines[i]) {
      TrimIsPart(lines[i]);
    }
    NoRowsPlain(MARKDOWN, lines);
    JoinSplit(text);
  }

  lemma {:induction false} LinesAreParts(text: string)
    ensures forall i, c :: 0 <= i < |SplitLines(text)| && c in SplitLines(text)[i] ==> c in text
  {
    if text != "" {
      LinesAreParts(text[1..]);
      var rest := SplitLines(text[1..]);
      assert forall c :: c in rest[0] ==> c in text[1..];
      assert forall i, c :: 1 <= i < |rest| && c in rest[i] ==> c in text[1..];
      assert forall c :: c in text[1..] ==> c in text;
    }
  }

  lemma TrimIsPart(s: string)
    ensures forall c <- Trim(s) :: c in s
  {
    TrimLeftIsPart(s);
    TrimRightIsPart(TrimLeft(s));
  }

  lemma {:induction false} TrimLeftIsPart(s: string)
    ensures forall c <- TrimLeft(s) :: c in s
  {
    if s != "" && IsSpace(s[0]) { TrimLeftIsPart(s[1..]); }
  }

  lemma {:induction false} TrimRightIsPart(s: string)
    ensures forall c <- TrimRight(s) :: c in s
    decreases |s|
  {
    if s != "" && IsSpace(s[|s| - 1]) { TrimRightIsPart(s[..|s| - 1]); }
  }

  lemma {:induction false} NoRowsPlain(g: Grammar, lines: seq<string>)
    requires forall i :: 0 <= i < |lines| ==> !g.row(lines[i])
    ensures Output(g, BlocksOf(g, lines)) == lines
  {
    if lines != [] {
      NoRowsPlain(g, lines[1..]);
      assert BlocksOf(g, lines) == [Plain(lines[0])] + BlocksOf(g, lines[1..]);
      assert [lines[0]] + lines[1..] == lines;
    }
  }

  lemma {:induction false} ParsedAppend(g: Grammar, rows: seq<string>, row: string)
    ensures Parsed(g, rows + [row]) == Parsed(g, rows) + [g.parse(row)]
  {
    if rows == [] {
      assert rows + [row] == [row];
    } else {
      assert (rows + [row])[1..] == rows[1..] + [row];
      ParsedAppend(g, rows[1..], row);
    }
  }

  /** The rows at the head of the given lines, parsed. */
  method TakeRows(g: Grammar, lines: seq<string>, header: string) returns (rows: seq<seq<string>>, n: nat)
    ensures n == RowsAhead(g, lines)
    ensures rows == Parsed(g, [header] + lines[..n])
  {
    rows, n := [g.parse(header)], 0;
    assert [header] + lines[..0] == [header];
    while n < |lines| && g.row(lines[n])
      invariant 0 <= n <= |lines| && AllRows(g, lines[..n])
      invariant rows == Parsed(g, [header] + lines[..n])
    {
      assert lines[..n + 1] == lines[..n] + [lines[n]];
      ParsedAppend(g, [header] + lines[..n], lines[n]);
      assert [header] + lines[..n + 1] == [header] + lines[..n] + [lines[n]];
      rows := rows + [g.parse(lines[n])];
      n := n + 1;
    }
    RowsEnd(g, lines[..n], lines[n..]);
    assert lines == lines[..n] + lines[n..];
  }

  /** The block that starts at line i: its text, and the line after it. */
  method TakeBlock(g: Grammar, lines: seq<string>, i: nat) returns (text: string, next: nat)
    requires i < |lines|
    ensures i < next <= |lines| && lines[next..] == AfterFirst(g, lines[i..])
    ensures text == JoinLines(OutputOf(g, FirstBlock(g, lines[i..])))
  {
    if i + 1 < |lines| && g.row(lines[i]) && g.separator(lines[i + 1]) {
      var rows, n := TakeRows(g, lines[i + 2..], lines[i]);
      assert lines[i..][2..] == lines[i + 2..];
      assert lines[i + 2..][n..] == lines[i + 2 + n..];
      text := RenderFlatTable(rows);
      next := i + 2 + n;
    } else {
      assert lines[i..][1..] == lines[i + 1..];
      text, next := lines[i], i + 1;
    }
  }

  lemma TextsStep(g: Grammar, lines: seq<string>)
    requires lines != []
    ensures Texts(g, BlocksOf(g, lines)) ==
            [JoinLines(OutputOf(g, FirstBlock(g, lines)))] + Texts(g, BlocksOf(g, AfterFirst(g, lines)))
  {
    assert BlocksOf(g, lines)[1..] == BlocksOf(g, AfterFirst(g, lines));
  }

  lemma MoreTexts(g: Grammar, lines: seq<string>, i: nat, next: nat, text: string, texts: seq<string>)
    requires i < next <= |lines| && lines[next..] == AfterFirst(g, lines[i..])
    requires text == JoinLines(OutputOf(g, FirstBlock(g, lines[i..])))
    ensures texts + Texts(g, BlocksOf(g, lines[i..])) == texts + [text] + Texts(g, BlocksOf(g, lines[next..]))
  {
    TextsStep(g, lines[i..]);
  }

  /** The loop over the lines, for any grammar of rows. */
  method FlattenLines(g: Grammar, lines: seq<string>) returns (texts: seq<string>)
    ensures texts == Texts(g, BlocksOf(g, lines))
  {
    texts := [];
    var i := 0;
    assert lines[0..] == lines;
    while i < |lines|
      invariant 0 <= i <= |lines|
      invariant texts + Texts(g, BlocksOf(g, lines[i..])) == Texts(g, BlocksOf(g, lines))
    {
      var block, next := TakeBlock(g, lines, i);
      MoreTexts(g, lines, i, next, block, texts);
      texts, i := texts + [block], next;
    }
    assert lines[i..] == [];
  }

  method FlattenMarkdownTables(text: string) returns (out: string)
    ensures out == Flatten(text)
  {
    if '|' !in text {
      NoBars(text);
      return text;
    }
    var lines := SplitLines(text);
    var texts := FlattenLines(MARKDOWN, lines);
    JoinTexts(MARKDOWN, BlocksOf(MARKDOWN, lines));
    out := JoinLines(texts);
  }
}
