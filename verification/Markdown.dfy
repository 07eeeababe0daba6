/** Markdown to plain text (`markdown.go`): table rows and their cells, the
    flattening of tables, and the stripping of markers. */
module Markdown {
  import opened Text

  // ----- lines

  function SplitLines(s: string): (lines: seq<string>)
    ensures |lines| >= 1
  {
    if s == "" then [""]
    else
      var rest := SplitLines(s[1..]);
      if s[0] == '\n' then [""] + rest else [[s[0]] + rest[0]] + rest[1..]
  }

  function JoinLines(lines: seq<string>): string {
    if lines == [] then ""
    else if |lines| == 1 then lines[0]
    else lines[0] + "\n" + JoinLines(lines[1..])
  }

  predicate OneLine(s: string) {
    '\n' !in s
  }

  lemma {:induction false} JoinSplit(s: string)
    ensures JoinLines(SplitLines(s)) == s
  {
    if s != "" {
      JoinSplit(s[1..]);
    }
  }

  lemma {:induction false} SplitParts(s: string)
    ensures forall i :: 0 <= i < |SplitLines(s)| ==> OneLine(SplitLines(s)[i])
  {
    if s != "" {
      SplitParts(s[1..]);
      assert OneLine(SplitLines(s[1..])[0]);
    }
  }

  lemma {:induction false} SplitPrefix(line: string, rest: string)
    requires OneLine(line)
    ensures SplitLines(line + rest) == [line + SplitLines(rest)[0]] + SplitLines(rest)[1..]
  {
    var after := SplitLines(rest);
    if line == "" {
      assert line + rest == rest && line + after[0] == after[0];
    } else {
      assert line[0] in line && forall c <- line[1..] :: c in line;
      SplitPrefix(line[1..], rest);
      assert (line + rest)[1..] == line[1..] + rest;
      assert [line[0]] + (line[1..] + after[0]) == line + after[0];
    }
  }

  lemma SplitLine(line: string)
    requires OneLine(line)
    ensures SplitLines(line) == [line]
  {
    SplitPrefix(line, "");
    assert line + "" == line;
  }

  lemma {:induction false} SplitJoin(lines: seq<string>)
    requires lines != [] && forall i :: 0 <= i < |lines| ==> OneLine(lines[i])
    ensures SplitLines(JoinLines(lines)) == lines
  {
    if |lines| == 1 {
      SplitLine(lines[0]);
    } else {
      SplitJoin(lines[1..]);
      var rest := "\n" + JoinLines(lines[1..]);
      assert rest[1..] == JoinLines(lines[1..]);
      assert SplitLines(rest) == [""] + lines[1..];
      SplitPrefix(lines[0], rest);
      assert JoinLines(lines) == lines[0] + rest && lines[0] + "" == lines[0];
    }
  }

  // ----- rows and cells

  /** Bars not preceded by a backslash; `escaped` says whether the first one is. */
  function Bars(s: string, escaped: bool): nat {
    if s == "" then 0
    else (if s[0] == '|' && !escaped then 1 else 0) + Bars(s[1..], s[0] == '\\')
  }

  /** What lies between the outer bars of a trimmed row. */
  function Interior(trimmed: string): string
    requires |trimmed| >= 2
  {
    trimmed[1..|trimmed| - 1]
  }

  predicate BarDelimited(trimmed: string) {
    trimmed != "" && trimmed[0] == '|' && trimmed[|trimmed| - 1] == '|'
  }

  predicate BarAt(s: string, escaped: bool, i: nat) {
    i < |s| && s[i] == '|' && if i == 0 then !escaped else s[i - 1] != '\\'
  }

  predicate HasBar(s: string) {
    exists i :: 0 <= i < |s| && BarAt(s, false, i)
  }

  predicate IsRow(line: string) {
    var trimmed := Trim(line);
    |trimmed| >= 3 && BarDelimited(trimmed) && HasBar(Interior(trimmed))
  }

  /** The cells of the rest of a row, given the current cell so far. */
  function Cells(s: string, cur: string): seq<string> {
    if s == "" then [Trim(cur)]
    else if s[0] == '\\' && |s| > 1 && s[1] == '|' then Cells(s[2..], cur + "|")
    else if s[0] == '|' then [Trim(cur)] + Cells(s[1..], "")
    else Cells(s[1..], cur + [s[0]])
  }

  function TrimBars(trimmed: string): string {
    var t := if trimmed != "" && trimmed[0] == '|' then trimmed[1..] else trimmed;
    if t != "" && t[|t| - 1] == '|' then t[..|t| - 1] else t
  }

  function ParseRow(line: string): seq<string> {
    Cells(TrimBars(Trim(line)), "")
  }

  lemma {:induction false} CellCount(s: string, cur: string)
    ensures |Cells(s, cur)| == 1 + Bars(s, false)
    decreases |s|
  {
    if s != "" {
      if s[0] == '\\' && |s| > 1 && s[1] == '|' {
        CellCount(s[2..], cur + "|");
        assert s[1..][1..] == s[2..] && s[1..][0] == '|';
      } else {
        CellCount(s[1..], if s[0] == '|' then "" else cur + [s[0]]);
        if s[0] == '\\' && |s| > 1 {
          assert Bars(s[1..], true) == Bars(s[1..], false);
        }
      }
    }
  }

  lemma {:induction false} BarsExist(s: string, escaped: bool)
    ensures Bars(s, escaped) > 0 <==> exists i :: 0 <= i < |s| && BarAt(s, escaped, i)
  {
    if s != "" {
      var tail, e := s[1..], s[0] == '\\';
      BarsExist(tail, e);
      forall i | 0 <= i < |tail|
        ensures BarAt(tail, e, i) <==> BarAt(s, escaped, i + 1)
      {}
      assert BarAt(s, escaped, 0) <==> s[0] == '|' && !escaped;
      if i :| 0 <= i < |s| && BarAt(s, escaped, i) {
        assert i == 0 || BarAt(tail, e, i - 1);
      }
    }
  }

  /** A bar-delimited line is a row exactly when it has at least two cells, which
      are one more than the unescaped bars inside. */
  lemma RowIffTwoCells(line: string)
    requires BarDelimited(Trim(line))
    ensures IsRow(line) <==> |ParseRow(line)| >= 2
    ensures |Trim(line)| >= 2 ==> |ParseRow(line)| == 1 + Bars(Interior(Trim(line)), false)
  {
    var trimmed := Trim(line);
    CellCount(TrimBars(trimmed), "");
    if |trimmed| >= 2 {
      assert TrimBars(trimmed) == Interior(trimmed);
      BarsExist(Interior(trimmed), false);
    }
  }

  method IsMarkdownTableRow(line: string) returns (row: bool)
    ensures row == IsRow(line)
  {
    var trimmed := Trim(line);
    if |trimmed| < 3 || trimmed[0] != '|' || trimmed[|trimmed| - 1] != '|' {
      return false;
    }
    var interior := trimmed[1..|trimmed| - 1];
    for i := 0 to |interior|
      invariant forall k :: 0 <= k < i ==> !BarAt(interior, false, k)
    {
      if interior[i] == '|' && (i == 0 || interior[i - 1] != '\\') {
        assert BarAt(interior, false, i);
        return true;
      }
    }
    return false;
  }

  method ParseMarkdownTableRow(line: string) returns (cells: seq<string>)
    ensures cells == ParseRow(line)
  {
    var trimmed := TrimBars(Trim(line));
    cells := [];
    var cur := "";
    var i := 0;
    while i < |trimmed|
      invariant 0 <= i <= |trimmed|
      invariant cells + Cells(trimmed[i..], cur) == ParseRow(line)
    {
      var c := trimmed[i];
      assert trimmed[i..][1..] == trimmed[i + 1..];
      if c == '\\' && i + 1 < |trimmed| && trimmed[i + 1] == '|' {
        assert trimmed[i..][2..] == trimmed[i + 2..];
        cur := cur + "|";
        i := i + 2;
      } else if c == '|' {
        cells := cells + [Trim(cur)];
        cur := "";
        i := i + 1;
      } else {
        cur := cur + [c];
        i := i + 1;
      }
    }
    cells := cells + [Trim(cur)];
  }

  // ----- writing a row and reading it back

  /** A cell as it is written: its bars are escaped. */
  function Escape(cell: string): string {
    if cell == "" then ""
    else (if cell[0] == '|' then "\\|" else [cell[0]]) + Escape(cell[1..])
  }

  function CellsText(cells: seq<string>): string
    requires cells != []
  {
    var first := " " + Escape(cells[0]) + " ";
    if |cells| == 1 then first else first + "|" + CellsText(cells[1..])
  }

  function RowText(cells: seq<string>): string
    requires cells != []
  {
    "|" + CellsText(cells) + "|"
  }

  lemma CellsBar(rest: string, cur: string)
    ensures Cells("\\|" + rest, cur) == Cells(rest, cur + "|")
  {
    assert ("\\|" + rest)[2..] == rest;
  }

  lemma CellsPlain(c: char, rest: string, cur: string)
    requires c != '|' && (c == '\\' && rest != "" ==> rest[0] != '|')
    ensures Cells([c] + rest, cur) == Cells(rest, cur + [c])
  {
    assert ([c] + rest)[1..] == rest;
  }

  lemma {:induction false} EscapedCell(cell: string, rest: string, cur: string)
    requires rest != "" && rest[0] != '|'
    ensures Cells(Escape(cell) + rest, cur) == Cells(rest, cur + cell)
    decreases |cell|
  {
    if cell == "" {
      assert Escape(cell) + rest == rest && cur + cell == cur;
    } else {
      var tail := Escape(cell[1..]) + rest;
      EscapedCell(cell[1..], rest, cur + [cell[0]]);
      assert cur + [cell[0]] + cell[1..] == cur + cell;
      if cell[0] == '|' {
        assert Escape(cell) + rest == "\\|" + tail;
        CellsBar(tail, cur);
      } else {
        assert Escape(cell) + rest == [cell[0]] + tail;
        CellsPlain(cell[0], tail, cur);
      }
    }
  }

  lemma TrimSpaced(cell: string)
    requires Trim(cell) == cell
    ensures Trim(" " + cell + " ") == cell
  {
    var s := " " + cell + " ";
    var t := cell + " ";
    assert s[0] == ' ' && s[1..] == t && TrimLeft(s) == TrimLeft(t);
    if cell == "" {
      assert t == " " && t[1..] == "" && TrimLeft(t) == "";
    } else {
      TrimmedEnds(cell);
      assert t[0] == cell[0] && TrimLeft(t) == t;
      assert t[..|t| - 1] == cell && t[|t| - 1] == ' ';
    }
  }

  /** A trimmed text begins and ends with something other than white space. */
  lemma TrimmedEnds(s: string)
    requires Trim(s) == s && s != ""
    ensures !IsSpace(s[0]) && !IsSpace(s[|s| - 1])
  {
    TrimShorter(s);
    TrimShorter(TrimLeft(s));
  }

  lemma {:induction false} TrimShorter(s: string)
    ensures |TrimLeft(s)| <= |s| && |TrimRight(s)| <= |s|
    ensures s != "" && IsSpace(s[0]) ==> |TrimLeft(s)| < |s|
    ensures s != "" && IsSpace(s[|s| - 1]) ==> |TrimRight(s)| < |s|
    decreases |s|
  {
    if s != "" {
      TrimShorter(s[1..]);
      TrimShorter(s[..|s| - 1]);
    }
  }

  /** The first cell of a written row, up to the bar after it or the end. */
  lemma PastFirstCell(cell: string, rest: string)
    ensures Cells(" " + Escape(cell) + " " + rest, "") == Cells(rest, " " + cell + " ")
  {
    var after := " " + rest;
    CellsSpace(Escape(cell) + after, "");
    assert " " + Escape(cell) + " " + rest == " " + (Escape(cell) + after) && "" + " " == " ";
    EscapedCell(cell, after, " ");
    CellsSpace(rest, " " + cell);
  }

  lemma FirstCell(cell: string, rest: string)
    requires Trim(cell) == cell && (rest == "" || rest[0] == '|')
    ensures Cells(" " + Escape(cell) + " " + rest, "") ==
            [cell] + if rest == "" then [] else Cells(rest[1..], "")
  {
    PastFirstCell(cell, rest);
    TrimSpaced(cell);
  }

  lemma CellsSpace(rest: string, cur: string)
    ensures Cells(" " + rest, cur) == Cells(rest, cur + " ")
  {
    assert (" " + rest)[1..] == rest;
  }

  lemma MoreCells(cell: string, cells: seq<string>)
    requires Trim(cell) == cell && cells != []
    ensures Cells(CellsText([cell] + cells), "") == [cell] + Cells(CellsText(cells), "")
  {
    var first, rest := " " + Escape(cell) + " ", "|" + CellsText(cells);
    FirstCell(cell, rest);
    assert ([cell] + cells)[1..] == cells && rest[1..] == CellsText(cells);
    assert CellsText([cell] + cells) == first + rest;
  }

  lemma {:induction false} CellsOfText(cells: seq<string>)
    requires cells != [] && forall i :: 0 <= i < |cells| ==> Trim(cells[i]) == cells[i]
    ensures Cells(CellsText(cells), "") == cells
    decreases |cells|
  {
    if |cells| == 1 {
      FirstCell(cells[0], "");
      assert " " + Escape(cells[0]) + " " + "" == CellsText(cells);
    } else {
      MoreCells(cells[0], cells[1..]);
      CellsOfText(cells[1..]);
      assert cells == [cells[0]] + cells[1..];
    }
  }

  /** Any trimmed cells, written as a row with their bars escaped, are read back
      unchanged: escaping loses nothing, whatever bars and backslashes they hold. */
  lemma ReadsBack(cells: seq<string>)
    requires cells != [] && forall i :: 0 <= i < |cells| ==> Trim(cells[i]) == cells[i]
    ensures ParseRow(RowText(cells)) == cells
  {
    RowTrims(CellsText(cells));
    CellsOfText(cells);
  }

  lemma RowTrims(text: string)
    requires text != ""
    ensures Trim("|" + text + "|") == "|" + text + "|" && TrimBars("|" + text + "|") == text
  {
    var row, open := "|" + text + "|", text + "|";
    assert row[0] == '|' && row[|row| - 1] == '|';
    assert TrimLeft(row) == row && TrimRight(row) == row;
    assert row[1..] == open && open[..|open| - 1] == text;
  }

  // ----- separators

  function TrimColons(cell: string): string {
    var t := if cell != "" && cell[0] == ':' then cell[1..] else cell;
    if t != "" && t[|t| - 1] == ':' then t[..|t| - 1] else t
  }

  /** Empty, or dashes with an optional colon at either end. */
  predicate SeparatorCell(cell: string) {
    var c := Trim(cell);
    c == "" || (TrimColons(c) != "" && Dashes(TrimColons(c)))
  }

  predicate Dashes(s: string) {
    forall i :: 0 <= i < |s| ==> s[i] == '-'
  }

  method OnlyDashes(s: string) returns (only: bool)
    ensures only == Dashes(s)
  {
    for i := 0 to |s|
      invariant forall j :: 0 <= j < i ==> s[j] == '-'
    {
      if s[i] != '-' {
        return false;
      }
    }
    return true;
  }

  predicate IsSeparator(line: string) {
    IsRow(line) && forall i :: 0 <= i < |ParseRow(line)| ==> SeparatorCell(ParseRow(line)[i])
  }

  method IsMarkdownTableSeparator(line: string) returns (separator: bool)
    ensures separator == IsSeparator(line)
  {
    var row := IsMarkdownTableRow(line);
    if !row {
      return false;
    }
    var cells := ParseMarkdownTableRow(line);
    // The source's test for no cells at all never applies: `CellCount`.
    for k := 0 to |cells|
      invariant forall i :: 0 <= i < k ==> SeparatorCell(cells[i])
    {
      var c := Trim(cells[k]);
      if c == "" {
        continue;
      }
      c := TrimColons(c);
      if c == "" {
        assert !SeparatorCell(cells[k]);
        return false;
      }
      var dashes := OnlyDashes(c);
      if !dashes {
        assert !SeparatorCell(cells[k]);
        return false;
      }
    }
    return true;
  }
}
