/** Stripping of markers (`markdown.go`, `replaceAtLineStart`, `StripMarkdown`,
    `FormatForWeChat`): what goes, what stays, and where a marker can reappear. */
module MarkdownStrip {
  import opened Markdown
  import opened MarkdownTables

  // ----- replacement at line starts

  /** Replaces one leading prefix, if the scan stands at a line start, and goes on. */
  function Replaced(s: string, prefix: string, replacement: string, atLineStart: bool): string
    requires prefix != ""
    decreases |s|
  {
    if s == "" then ""
    else if atLineStart && prefix <= s then replacement + Replaced(s[|prefix|..], prefix, replacement, false)
    else [s[0]] + Replaced(s[1..], prefix, replacement, s[0] == '\n')
  }

  predicate StandsAt(s: string, i: nat, prefix: string) {
    i + |prefix| <= |s| && s[i..i + |prefix|] == prefix
  }

  lemma StandsAtFront(s: string, i: nat, prefix: string)
    requires i <= |s|
    ensures StandsAt(s, i, prefix) <==> prefix <= s[i..]
  {
    if i + |prefix| <= |s| {
      assert s[i..][..|prefix|] == s[i..i + |prefix|];
    }
  }

  /** The scan goes past a replaced prefix. */
  lemma ScanPrefix(out: string, s: string, i: nat, prefix: string, replacement: string)
    requires prefix != "" && i < |s| && StandsAt(s, i, prefix)
    ensures out + Replaced(s[i..], prefix, replacement, true) ==
            out + replacement + Replaced(s[i + |prefix|..], prefix, replacement, false)
  {
    StandsAtFront(s, i, prefix);
    assert s[i..][|prefix|..] == s[i + |prefix|..];
  }

  /** The scan goes past one character. */
  lemma ScanCharacter(out: string, s: string, i: nat, prefix: string, replacement: string, atLineStart: bool)
    requires prefix != "" && i < |s| && !(atLineStart && StandsAt(s, i, prefix))
    ensures out + Replaced(s[i..], prefix, replacement, atLineStart) ==
            out + [s[i]] + Replaced(s[i + 1..], prefix, replacement, s[i] == '\n')
  {
    StandsAtFront(s, i, prefix);
    assert s[i..][1..] == s[i + 1..];
  }

  method ReplaceAtLineStart(s: string, prefix: string, replacement: string) returns (out: string)
    ensures out == if prefix == "" then s else Replaced(s, prefix, replacement, true)
  {
    if prefix == "" {
      return s;
    }
    out := "";
    var atLineStart := true;
    var i := 0;
    ghost var all := Replaced(s, prefix, replacement, true);
    assert s[0..] == s;
    while i < |s|
      invariant 0 <= i <= |s|
      invariant out + Replaced(s[i..], prefix, replacement, atLineStart) == all
    {
      if atLineStart && StandsAt(s, i, prefix) {
        ScanPrefix(out, s, i, prefix, replacement);
        out := out + replacement;
        i := i + |prefix|;
        atLineStart := false;
      } else {
        ScanCharacter(out, s, i, prefix, replacement, atLineStart);
        out := out + [s[i]];
        atLineStart := s[i] == '\n';
        i := i + 1;
      }
    }
    assert s[i..] == "";
  }

  /** One leading prefix of a line, replaced. */
  function OfLine(line: string, prefix: string, replacement: string): string {
    if prefix <= line then replacement + line[|prefix|..] else line
  }

  function OfLines(lines: seq<string>, prefix: string, replacement: string): seq<string> {
    if lines == [] then [] else [OfLine(lines[0], prefix, replacement)] + OfLines(lines[1..], prefix, replacement)
  }

  lemma JoinFront(a: string, b: string, rest: seq<string>)
    ensures JoinLines([a + b] + rest) == a + JoinLines([b] + rest)
  {
    assert ([a + b] + rest)[1..] == rest && ([b] + rest)[1..] == rest;
  }

  lemma {:induction false} FirstLineLeads(s: string)
    ensures SplitLines(s)[0] <= s
  {
    if s != "" {
      FirstLineLeads(s[1..]);
      assert s == [s[0]] + s[1..];
    }
  }

  lemma {:induction false} ScanIsByLine(s: string, prefix: string, replacement: string, atLineStart: bool)
    requires prefix != "" && OneLine(prefix)
    ensures var lines := SplitLines(s);
            var first := if atLineStart then OfLine(lines[0], prefix, replacement) else lines[0];
            Replaced(s, prefix, replacement, atLineStart) ==
            JoinLines([first] + OfLines(lines[1..], prefix, replacement))
    decreases |s|
  {
    var lines := SplitLines(s);
    if atLineStart && prefix <= s {
      var t := s[|prefix|..];
      var after := SplitLines(t);
      assert s == prefix + t;
      SplitPrefix(prefix, t);
      assert lines[0] == prefix + after[0] && lines[0][|prefix|..] == after[0];
      ScanIsByLine(t, prefix, replacement, false);
      JoinFront(replacement, after[0], OfLines(after[1..], prefix, replacement));
    } else if s != "" {
      FirstLineLeads(s);
      var after := SplitLines(s[1..]);
      ScanIsByLine(s[1..], prefix, replacement, s[0] == '\n');
      if s[0] == '\n' {
        assert lines == [""] + after && lines[1..] == after;
        var tail := [OfLine(after[0], prefix, replacement)] + OfLines(after[1..], prefix, replacement);
        assert OfLines(after, prefix, replacement) == tail;
        assert ([""] + tail)[1..] == tail;
      } else {
        assert lines[1..] == after[1..] && lines[0] == [s[0]] + after[0];
        JoinFront([s[0]], after[0], OfLines(after[1..], prefix, replacement));
      }
    }
  }

  /** For a prefix without line breaks the scan is: split, replace one leading
      prefix per line, join. */
  lemma LineByLine(s: string, prefix: string, replacement: string)
    requires prefix != "" && OneLine(prefix)
    ensures Replaced(s, prefix, replacement, true) == JoinLines(OfLines(SplitLines(s), prefix, replacement))
  {
    ScanIsByLine(s, prefix, replacement, true);
    var lines := SplitLines(s);
    assert lines == [lines[0]] + lines[1..];
  }

  // ----- stripping

  /** `strings.ReplaceAll` by the empty string. */
  function RemoveAll(s: string, mark: string): string
    requires mark != ""
    decreases |s|
  {
    if s == "" then ""
    else if mark <= s then RemoveAll(s[|mark|..], mark)
    else [s[0]] + RemoveAll(s[1..], mark)
  }

  function WithoutHeaders(text: string): string {
    Replaced(Replaced(Replaced(text, "### ", "", true), "## ", "", true), "# ", "", true)
  }

  function WithoutTicks(s: string): string {
    RemoveAll(RemoveAll(s, "```"), "`")
  }

  function Strip(text: string): string {
    WithoutTicks(RemoveAll(RemoveAll(WithoutHeaders(text), "**"), "__"))
  }

  // ----- what stays

  predicate Marker(c: char) {
    c in "# *_`"
  }

  /** The characters that are no part of any marker, in order. */
  function Content(s: string): string {
    if s == "" then "" else if Marker(s[0]) then Content(s[1..]) else [s[0]] + Content(s[1..])
  }

  lemma {:induction false} ContentConcat(a: string, b: string)
    ensures Content(a + b) == Content(a) + Content(b)
  {
    if a == "" {
      assert a + b == b;
    } else {
      ContentConcat(a[1..], b);
      assert (a + b)[0] == a[0] && (a + b)[1..] == a[1..] + b;
    }
  }

  lemma {:induction false} NoContent(s: string)
    requires forall i :: 0 <= i < |s| ==> Marker(s[i])
    ensures Content(s) == ""
  {
    if s != "" { NoContent(s[1..]); }
  }

  lemma {:induction false} ReplacedKeeps(s: string, prefix: string, atLineStart: bool)
    requires prefix != "" && forall i :: 0 <= i < |prefix| ==> Marker(prefix[i])
    ensures Content(Replaced(s, prefix, "", atLineStart)) == Content(s)
    decreases |s|
  {
    if s == "" {
    } else if atLineStart && prefix <= s {
      ReplacedKeeps(s[|prefix|..], prefix, false);
      assert s == prefix + s[|prefix|..];
      ContentConcat(prefix, s[|prefix|..]);
      NoContent(prefix);
      assert "" + Content(s[|prefix|..]) == Content(s[|prefix|..]);
      assert "" + Replaced(s[|prefix|..], prefix, "", false) == Replaced(s[|prefix|..], prefix, "", false);
    } else {
      ReplacedKeeps(s[1..], prefix, s[0] == '\n');
    }
  }

  lemma {:induction false} RemovalKeeps(s: string, mark: string)
    requires mark != "" && forall i :: 0 <= i < |mark| ==> Marker(mark[i])
    ensures Content(RemoveAll(s, mark)) == Content(s)
    decreases |s|
  {
    if s == "" {
    } else if mark <= s {
      RemovalKeeps(s[|mark|..], mark);
      assert s == mark + s[|mark|..];
      ContentConcat(mark, s[|mark|..]);
      NoContent(mark);
    } else {
      RemovalKeeps(s[1..], mark);
    }
  }

  /** Stripping removes marker characters only: everything else stays, in order. */
  lemma StripKeepsContent(text: string)
    ensures Content(Strip(text)) == Content(text)
  {
    var h1 := Replaced(text, "### ", "", true);
    var h2 := Replaced(h1, "## ", "", true);
    ReplacedKeeps(text, "### ", true);
    ReplacedKeeps(h1, "## ", true);
    ReplacedKeeps(h2, "# ", true);
    var plain := WithoutHeaders(text);
    RemovalKeeps(plain, "**");
    RemovalKeeps(RemoveAll(plain, "**"), "__");
    RemovalKeeps(RemoveAll(RemoveAll(plain, "**"), "__"), "```");
    RemovalKeeps(RemoveAll(RemoveAll(RemoveAll(plain, "**"), "__"), "```"), "`");
  }

  // ----- what goes

  function NoTicks(s: string): string {
    if s == "" then "" else if s[0] == '`' then NoTicks(s[1..]) else [s[0]] + NoTicks(s[1..])
  }

  lemma {:induction false} TicksGo(s: string)
    ensures RemoveAll(s, "`") == NoTicks(s) && '`' !in NoTicks(s)
  {
    if s != "" {
      TicksGo(s[1..]);
      assert "`" <= s <==> s[0] == '`';
    }
  }

  lemma {:induction false} FencesGo(s: string)
    ensures NoTicks(RemoveAll(s, "```")) == NoTicks(s)
    decreases |s|
  {
    if s == "" {
    } else if "```" <= s {
      FencesGo(s[3..]);
      assert s[0] == s[1] == s[2] == '`';
      assert NoTicks(s) == NoTicks(s[1..]);
      assert s[1..][1..] == s[2..];
      assert NoTicks(s[1..]) == NoTicks(s[2..]);
      assert s[2..][1..] == s[3..];
      assert NoTicks(s[2..]) == NoTicks(s[3..]);
      assert RemoveAll(s, "```") == RemoveAll(s[3..], "```");
    } else {
      FencesGo(s[1..]);
    }
  }

  /** No backtick survives, whether single or in fences. */
  lemma NoBackticks(text: string)
    ensures '`' !in Strip(text)
  {
    TicksGo(RemoveAll(RemoveAll(RemoveAll(WithoutHeaders(text), "**"), "__"), "```"));
  }

  // ----- what the steps after the bold markers make of a text

  /** The steps that remain once headers and bold markers are gone. */
  function Rest(s: string): string {
    WithoutTicks(RemoveAll(s, "__"))
  }

  lemma RestIsNoTicks(s: string)
    ensures Rest(s) == NoTicks(RemoveAll(s, "__"))
  {
    FencesGo(RemoveAll(s, "__"));
    TicksGo(RemoveAll(RemoveAll(s, "__"), "```"));
  }

  /** They work from left to right, one pair or one backtick at a time. */
  lemma RestStep(s: string)
    requires s != ""
    ensures Rest(s) == if "__" <= s then Rest(s[2..])
                       else if s[0] == '`' then Rest(s[1..])
                       else [s[0]] + Rest(s[1..])
  {
    RestIsNoTicks(s);
    RestIsNoTicks(s[1..]);
    if "__" <= s {
      RestIsNoTicks(s[2..]);
    } else {
      assert RemoveAll(s, "__")[1..] == RemoveAll(s[1..], "__");
    }
  }

  lemma RestOfEmpty()
    ensures Rest("") == ""
  {
    RestIsNoTicks("");
  }

  /** Read past backticks and paired underscores, the text goes on with p. */
  predicate Shows(u: string, p: string) {
    p == "" ||
    (u != "" &&
     if "__" <= u then Shows(u[2..], p)
     else if u[0] == '`' then Shows(u[1..], p)
     else u[0] == p[0] && Shows(u[1..], p[1..]))
  }

  lemma {:induction false} ShowsIff(u: string, p: string)
    ensures Shows(u, p) <==> p <= Rest(u)
    decreases |u|
  {
    RestOfEmpty();
    if p != "" && u != "" {
      RestStep(u);
      if "__" <= u {
        ShowsIff(u[2..], p);
      } else if u[0] == '`' {
        ShowsIff(u[1..], p);
      } else {
        ShowsIff(u[1..], p[1..]);
        assert p == [p[0]] + p[1..];
      }
    }
  }

  /** The mark stands somewhere in the text. */
  predicate Has(s: string, mark: string)
    requires mark != ""
  {
    s != "" && (mark <= s || Has(s[1..], mark))
  }

  /** From some place of the text on, other than inside a pair, it shows p. */
  predicate ShowsLater(u: string, p: string) {
    u != "" &&
    if "__" <= u then ShowsLater(u[2..], p)
    else if u[0] == '`' then ShowsLater(u[1..], p)
    else Shows(u, p) || ShowsLater(u[1..], p)
  }

  lemma {:induction false} ShowsLaterIff(u: string, p: string)
    requires p != ""
    ensures ShowsLater(u, p) <==> Has(Rest(u), p)
    decreases |u|
  {
    RestOfEmpty();
    if u != "" {
      RestStep(u);
      ShowsIff(u, p);
      ShowsLaterIff(if "__" <= u then u[2..] else u[1..], p);
    }
  }

  // ----- which texts give a text with markers

  /** A star, and with nothing but backticks and paired underscores between them
      the next one. */
  predicate StarMeets(u: string, i: nat)
    requires i < |u|
  {
    u[i] == '*' && Shows(u[i + 1..], "*")
  }

  predicate StarsMeet(u: string) {
    exists i :: 0 <= i < |u| && StarMeets(u, i)
  }

  lemma StarsMeetLater(u: string, n: nat)
    requires n <= |u| && (forall i :: 0 <= i < n ==> !StarMeets(u, i))
    ensures StarsMeet(u) <==> StarsMeet(u[n..])
  {
    if StarsMeet(u) {
      var i :| 0 <= i < |u| && StarMeets(u, i);
      assert u[n..][i - n + 1..] == u[i + 1..];
      assert StarMeets(u[n..], i - n);
    }
    if StarsMeet(u[n..]) {
      var i :| 0 <= i < |u[n..]| && StarMeets(u[n..], i);
      assert u[n..][i + 1..] == u[i + n + 1..];
      assert StarMeets(u, i + n);
    }
  }

  /** The stars left single by the removal of bold markers make a new one exactly
      if two of them meet. */
  lemma {:induction false} StarsMeetIff(u: string)
    ensures StarsMeet(u) <==> ShowsLater(u, "**")
    decreases |u|
  {
    if u != "" {
      if "__" <= u {
        StarsMeetLater(u, 2);
        StarsMeetIff(u[2..]);
      } else if StarMeets(u, 0) {
        assert "**"[1..] == "*";
      } else {
        assert "**"[1..] == "*";
        StarsMeetLater(u, 1);
        StarsMeetIff(u[1..]);
      }
    }
  }

  /** The underscore at i is left over when pairs are taken from the left. */
  predicate LeftSingle(u: string, i: nat)
    requires i < |u|
  {
    if "__" <= u then i >= 2 && LeftSingle(u[2..], i - 2)
    else if i == 0 then u[0] == '_'
    else LeftSingle(u[1..], i - 1)
  }

  predicate UnderscoreMeets(u: string, i: nat)
    requires i < |u|
  {
    LeftSingle(u, i) && Shows(u[i + 1..], "_")
  }

  predicate UnderscoresMeet(u: string) {
    exists i :: 0 <= i < |u| && UnderscoreMeets(u, i)
  }

  /** How far the reading moves on: past a pair, or past one character. */
  function Pace(u: string): (n: nat)
    requires u != ""
    ensures 1 <= n <= |u|
  {
    if "__" <= u then 2 else 1
  }

  lemma UnderscoreShift(u: string, i: nat)
    requires u != "" && Pace(u) <= i < |u|
    ensures UnderscoreMeets(u, i) <==> UnderscoreMeets(u[Pace(u)..], i - Pace(u))
  {
    assert u[Pace(u)..][i - Pace(u) + 1..] == u[i + 1..];
  }

  predicate FirstMeets(u: string)
    requires u != ""
  {
    Pace(u) == 1 && u[0] == '_' && Shows(u[1..], "_")
  }

  lemma UnderscoreFirst(u: string, i: nat)
    requires u != "" && i < Pace(u)
    ensures UnderscoreMeets(u, i) <==> i == 0 && FirstMeets(u)
  {}

  lemma UnderscoreAt(u: string, i: nat)
    requires i < |u| && UnderscoreMeets(u, i)
    ensures UnderscoresMeet(u[Pace(u)..]) || FirstMeets(u)
  {
    if i >= Pace(u) {
      UnderscoreShift(u, i);
    } else {
      UnderscoreFirst(u, i);
    }
  }

  lemma UnderscoreLater(u: string, i: nat)
    requires u != "" && i < |u[Pace(u)..]| && UnderscoreMeets(u[Pace(u)..], i)
    ensures UnderscoresMeet(u)
  {
    UnderscoreShift(u, i + Pace(u));
    assert UnderscoreMeets(u, i + Pace(u));
  }

  lemma UnderscoresMeetLater(u: string)
    requires u != ""
    ensures UnderscoresMeet(u) <==> UnderscoresMeet(u[Pace(u)..]) || FirstMeets(u)
  {
    if UnderscoresMeet(u) {
      var i :| 0 <= i < |u| && UnderscoreMeets(u, i);
      UnderscoreAt(u, i);
    } else if UnderscoresMeet(u[Pace(u)..]) {
      var i :| 0 <= i < |u[Pace(u)..]| && UnderscoreMeets(u[Pace(u)..], i);
      UnderscoreLater(u, i);
    } else {
      UnderscoreFirst(u, 0);
    }
  }

  /** Underscores left single make a new pair exactly if two of them meet. */
  lemma {:induction false} UnderscoresMeetIff(u: string)
    ensures UnderscoresMeet(u) <==> ShowsLater(u, "__")
    decreases |u|
  {
    if u != "" {
      UnderscoresMeetLater(u);
      UnderscoresMeetIff(u[Pace(u)..]);
      assert "__"[1..] == "_";
    }
  }

  // ----- lines

  /** The prefix stands at the start of a line. */
  predicate Leads(s: string, prefix: string, atLineStart: bool)
    requires prefix != ""
  {
    s != "" && ((atLineStart && prefix <= s) || Leads(s[1..], prefix, s[0] == '\n'))
  }

  predicate LeadsFrom(lines: seq<string>, prefix: string, k: nat) {
    exists i :: k <= i < |lines| && prefix <= lines[i]
  }

  lemma FirstLineStarts(s: string, prefix: string)
    requires OneLine(prefix)
    ensures prefix <= s <==> prefix <= SplitLines(s)[0]
  {
    FirstLineLeads(s);
    if prefix <= s {
      assert s == prefix + s[|prefix|..];
      SplitPrefix(prefix, s[|prefix|..]);
    }
  }

  lemma {:induction false} LeadsIff(s: string, prefix: string, atLineStart: bool)
    requires prefix != "" && OneLine(prefix)
    ensures Leads(s, prefix, atLineStart) <==>
            LeadsFrom(SplitLines(s), prefix, 1) || (atLineStart && prefix <= SplitLines(s)[0])
  {
    FirstLineStarts(s, prefix);
    if s != "" {
      var lines, after := SplitLines(s), SplitLines(s[1..]);
      LeadsIff(s[1..], prefix, s[0] == '\n');
      if s[0] == '\n' {
        assert lines == [""] + after;
        assert !(prefix <= s);
        assert forall i :: 0 <= i < |after| ==> lines[i + 1] == after[i];
        if i :| 1 <= i < |lines| && prefix <= lines[i] {
          assert prefix <= after[i - 1];
        }
      } else {
        assert forall i :: 1 <= i < |after| ==> lines[i] == after[i];
      }
    }
  }

  /** What is left of a line's leading header marks. */
  function WithoutMarks(line: string): string {
    OfLine(OfLine(OfLine(line, "### ", ""), "## ", ""), "# ", "")
  }

  lemma ReplacedLines(s: string, prefix: string)
    requires prefix != "" && OneLine(prefix)
    ensures var after := SplitLines(Replaced(s, prefix, "", true));
            && |after| == |SplitLines(s)|
            && forall i :: 0 <= i < |after| ==> after[i] == OfLine(SplitLines(s)[i], prefix, "")
  {
    var lines := SplitLines(s);
    LineByLine(s, prefix, "");
    SplitParts(s);
    OfLinesAt(lines, prefix);
    SplitJoin(OfLines(lines, prefix, ""));
  }

  lemma {:induction false} OfLinesAt(lines: seq<string>, prefix: string)
    requires forall i :: 0 <= i < |lines| ==> OneLine(lines[i])
    ensures var after := OfLines(lines, prefix, "");
            && |after| == |lines|
            && forall i :: 0 <= i < |after| ==> after[i] == OfLine(lines[i], prefix, "") && OneLine(after[i])
  {
    if lines != [] {
      OfLinesAt(lines[1..], prefix);
      var line := lines[0];
      assert forall c <- OfLine(line, prefix, "") :: c in line;
    }
  }

  /** The lines of one text are those of another less the mark. */
  ghost predicate LinesLess(after: seq<string>, lines: seq<string>, mark: string)
    requires mark != ""
  {
    |after| == |lines| && forall i :: 0 <= i < |lines| ==> after[i] == RemoveAll(lines[i], mark)
  }

  lemma MarkedLine(mark: string, after: seq<string>, lines: seq<string>)
    requires mark != "" && lines != [] && LinesLess(after, lines, mark)
    ensures LinesLess(after, [mark + lines[0]] + lines[1..], mark)
  {
    assert (mark + lines[0])[|mark|..] == lines[0];
  }

  lemma UnmarkedLine(c: char, mark: string, after: seq<string>, lines: seq<string>)
    requires mark != "" && lines != [] && LinesLess(after, lines, mark) && !(mark <= [c] + lines[0])
    ensures LinesLess([[c] + after[0]] + after[1..], [[c] + lines[0]] + lines[1..], mark)
  {
    assert ([c] + lines[0])[1..] == lines[0];
  }

  lemma {:induction false} RemovedLines(s: string, mark: string)
    requires mark != "" && OneLine(mark)
    ensures LinesLess(SplitLines(RemoveAll(s, mark)), SplitLines(s), mark)
    decreases |s|
  {
    if s == "" {
    } else if mark <= s {
      var t := s[|mark|..];
      RemovedLines(t, mark);
      MarkedLine(mark, SplitLines(RemoveAll(t, mark)), SplitLines(t));
      assert s == mark + t;
      SplitPrefix(mark, t);
    } else {
      var t := s[1..];
      RemovedLines(t, mark);
      assert RemoveAll(s, mark)[1..] == RemoveAll(t, mark);
      if s[0] != '\n' {
        FirstLineStarts(s, mark);
        UnmarkedLine(s[0], mark, SplitLines(RemoveAll(t, mark)), SplitLines(t));
      }
    }
  }

  /** Stripping works line by line. */
  lemma StripLines(text: string)
    ensures var after := SplitLines(Strip(text));
            && |after| == |SplitLines(text)|
            && forall i :: 0 <= i < |after| ==> after[i] == Rest(RemoveAll(WithoutMarks(SplitLines(text)[i]), "**"))
  {
    var h1 := Replaced(text, "### ", "", true);
    var h2 := Replaced(h1, "## ", "", true);
    ReplacedLines(text, "### ");
    ReplacedLines(h1, "## ");
    ReplacedLines(h2, "# ");
    var h := WithoutHeaders(text);
    var u := RemoveAll(h, "**");
    RemovedLines(h, "**");
    RemovedLines(u, "__");
    RemovedLines(RemoveAll(u, "__"), "```");
    RemovedLines(RemoveAll(RemoveAll(u, "__"), "```"), "`");
  }

  /** Behind its own header marks the line shows another one. */
  predicate ShowsHeader(line: string) {
    var u := RemoveAll(WithoutMarks(line), "**");
    Shows(u, "### ") || Shows(u, "## ") || Shows(u, "# ")
  }

  predicate HeaderLeft(text: string) {
    exists i :: 0 <= i < |SplitLines(text)| && ShowsHeader(SplitLines(text)[i])
  }

  predicate HeaderLeads(s: string) {
    Leads(s, "### ", true) || Leads(s, "## ", true) || Leads(s, "# ", true)
  }

  predicate HeaderLine(line: string) {
    "### " <= line || "## " <= line || "# " <= line
  }

  lemma HeaderLeadsIff(s: string)
    ensures HeaderLeads(s) <==> exists i :: 0 <= i < |SplitLines(s)| && HeaderLine(SplitLines(s)[i])
  {
    LeadsIff(s, "### ", true);
    LeadsIff(s, "## ", true);
    LeadsIff(s, "# ", true);
    var lines := SplitLines(s);
    if i :| 0 <= i < |lines| && HeaderLine(lines[i]) {
      assert i >= 1 ==> LeadsFrom(lines, "### ", 1) || LeadsFrom(lines, "## ", 1) || LeadsFrom(lines, "# ", 1);
    }
    if HeaderLeads(s) {
      assert HeaderLine(lines[0]) || exists i :: 1 <= i < |lines| && HeaderLine(lines[i]);
    }
  }

  lemma HeaderLeftIff(text: string)
    ensures HeaderLeft(text) <==> HeaderLeads(Strip(text))
  {
    StripLines(text);
    HeaderLeadsIff(Strip(text));
    var lines, after := SplitLines(text), SplitLines(Strip(text));
    forall i | 0 <= i < |lines|
      ensures ShowsHeader(lines[i]) <==> HeaderLine(after[i])
    {
      var u := RemoveAll(WithoutMarks(lines[i]), "**");
      ShowsIff(u, "### ");
      ShowsIff(u, "## ");
      ShowsIff(u, "# ");
    }
  }

  // ----- when stripping is complete

  /** No header mark leads a line and no other marker stands anywhere. */
  predicate Plain(s: string) {
    !HeaderLeads(s) && !Has(s, "**") && !Has(s, "__") && !Has(s, "`")
  }

  /** Nothing in the text can make a marker anew: no two stars that the removal of
      bold markers leaves meet, no two underscores left single do, and no line has
      a further header mark behind those that are dropped. */
  predicate Settles(text: string) {
    var u := RemoveAll(WithoutHeaders(text), "**");
    !StarsMeet(u) && !UnderscoresMeet(u) && !HeaderLeft(text)
  }

  lemma BoldReappearsIff(text: string)
    ensures Has(Strip(text), "**") <==> StarsMeet(RemoveAll(WithoutHeaders(text), "**"))
  {
    var u := RemoveAll(WithoutHeaders(text), "**");
    StarsMeetIff(u);
    ShowsLaterIff(u, "**");
  }

  lemma UnderscoresReappearIff(text: string)
    ensures Has(Strip(text), "__") <==> UnderscoresMeet(RemoveAll(WithoutHeaders(text), "**"))
  {
    var u := RemoveAll(WithoutHeaders(text), "**");
    UnderscoresMeetIff(u);
    ShowsLaterIff(u, "__");
  }

  lemma {:induction false} NoTickToFind(s: string)
    requires '`' !in s
    ensures !Has(s, "`")
  {
    if s != "" {
      assert s[0] in s && (forall c <- s[1..] :: c in s);
      NoTickToFind(s[1..]);
    }
  }

  /** Exactly when stripping removes all markers, for every text. */
  lemma PlainIff(text: string)
    ensures Plain(Strip(text)) <==> Settles(text)
  {
    BoldReappearsIff(text);
    UnderscoresReappearIff(text);
    HeaderLeftIff(text);
    NoBackticks(text);
    NoTickToFind(Strip(text));
  }

  /** Exactly when stripping twice is stripping once. */
  lemma IdempotentIff(text: string)
    ensures Strip(Strip(text)) == Strip(text) <==> Settles(text)
  {
    PlainIff(text);
    StripLeavesIff(Strip(text));
  }

  lemma {:induction false} RemovalShrinks(s: string, mark: string)
    requires mark != ""
    ensures |RemoveAll(s, mark)| <= |s|
    ensures RemoveAll(s, mark) == s <==> !Has(s, mark)
    ensures |RemoveAll(s, mark)| == |s| ==> RemoveAll(s, mark) == s
    decreases |s|
  {
    if s == "" {
    } else if mark <= s {
      RemovalShrinks(s[|mark|..], mark);
    } else {
      RemovalShrinks(s[1..], mark);
    }
  }

  lemma {:induction false} ReplacedShrinks(s: string, prefix: string, atLineStart: bool)
    requires prefix != ""
    ensures var r := Replaced(s, prefix, "", atLineStart);
            |r| <= |s| && (r == s <==> !Leads(s, prefix, atLineStart)) && (|r| == |s| ==> r == s)
    decreases |s|
  {
    if s == "" {
    } else if atLineStart && prefix <= s {
      ReplacedShrinks(s[|prefix|..], prefix, false);
    } else {
      ReplacedShrinks(s[1..], prefix, s[0] == '\n');
    }
  }

  lemma HeadersShrink(s: string)
    ensures var r := WithoutHeaders(s);
            |r| <= |s| && (|r| == |s| ==> r == s) &&
            (r == s <==> !HeaderLeads(s))
  {
    var h1 := Replaced(s, "### ", "", true);
    var h2 := Replaced(h1, "## ", "", true);
    ReplacedShrinks(s, "### ", true);
    ReplacedShrinks(h1, "## ", true);
    ReplacedShrinks(h2, "# ", true);
  }

  lemma TicksShrink(s: string)
    ensures var r := WithoutTicks(s);
            |r| <= |s| && (|r| == |s| ==> r == s) && (r == s <==> !Has(s, "`"))
  {
    RemovalShrinks(s, "```");
    RemovalShrinks(RemoveAll(s, "```"), "`");
    FencesGo(s);
    TicksGo(RemoveAll(s, "```"));
    TicksGo(s);
    RemovalShrinks(s, "`");
  }

  /** Stripping leaves a text alone exactly when it holds no marker. */
  lemma StripLeavesIff(s: string)
    ensures Strip(s) == s <==> Plain(s)
  {
    var h := WithoutHeaders(s);
    var b := RemoveAll(h, "**");
    var u := RemoveAll(b, "__");
    HeadersShrink(s);
    RemovalShrinks(h, "**");
    RemovalShrinks(b, "__");
    TicksShrink(u);
  }

  // ----- inputs for which a marker reappears

  lemma {:induction false} NothingToRemove(s: string, mark: string)
    requires mark != "" && mark[0] !in s
    ensures RemoveAll(s, mark) == s
  {
    if s != "" {
      assert s[0] in s && (forall c <- s[1..] :: c in s);
      NothingToRemove(s[1..], mark);
    }
  }

  lemma Passed(c: char, rest: string, mark: string)
    requires |mark| == 2 && (c != mark[0] || rest == "" || rest[0] != mark[1])
    ensures RemoveAll([c] + rest, mark) == [c] + RemoveAll(rest, mark)
  {
    assert ([c] + rest)[1..] == rest;
    assert !(mark <= [c] + rest);
  }

  lemma OneLineReplaced(line: string, prefix: string)
    requires OneLine(line) && prefix != "" && OneLine(prefix)
    ensures Replaced(line, prefix, "", true) == OfLine(line, prefix, "")
  {
    LineByLine(line, prefix, "");
    SplitLine(line);
  }

  lemma OneLineHeaders(line: string)
    requires OneLine(line)
    ensures WithoutHeaders(line) == WithoutMarks(line)
  {
    OneLineReplaced(line, "### ");
    var l1 := OfLine(line, "### ", "");
    assert forall c <- l1 :: c in line;
    OneLineReplaced(l1, "## ");
    var l2 := OfLine(l1, "## ", "");
    assert forall c <- l2 :: c in l1;
    OneLineReplaced(l2, "# ");
  }

  /** The steps one after the other, on one line. */
  lemma StripLine(line: string, h: string, u: string)
    requires OneLine(line) && WithoutMarks(line) == h && RemoveAll(h, "**") == u
    ensures Strip(line) == Rest(u)
  {
    OneLineHeaders(line);
  }

  lemma StarsCloseUp()
    ensures RemoveAll("*__*", "**") == "*__*" && Rest("*__*") == "**"
  {
    assert "*__*"[1..] == "__*" && "__*"[2..] == "*" && "*"[1..] == "";
    Passed('*', "", "**");
    Passed('_', "*", "**");
    Passed('_', "_*", "**");
    Passed('*', "__*", "**");
    RestOfEmpty();
    RestStep("*__*");
    RestStep("__*");
    RestStep("*");
  }

  /** Two stars that close up around a pair of underscores. */
  lemma BoldReappears()
    ensures Strip("*__*") == "**" && Strip("**") == ""
  {
    StarsCloseUp();
    StripLine("*__*", "*__*", "*__*");
    assert "**"[2..] == "";
    StripLine("**", "**", "");
    RestOfEmpty();
  }

  /** Two underscores that close up around a backtick. */
  lemma UnderscoresReappear()
    ensures Strip("_`_") == "__" && Strip("__") == ""
  {
    NothingToRemove("_`_", "**");
    NothingToRemove("__", "**");
    StripLine("_`_", "_`_", "_`_");
    StripLine("__", "__", "__");
    RestOfEmpty();
    assert "_`_"[1..] == "`_" && "`_"[1..] == "_" && "_"[1..] == "" && "__"[2..] == "";
    RestStep("_`_");
    RestStep("`_");
    RestStep("_");
    RestStep("__");
  }

  lemma RestOfHeader()
    ensures Rest("# a") == "# a" && Rest("a") == "a"
  {
    RestOfEmpty();
    assert "# a"[1..] == " a" && " a"[1..] == "a" && "a"[1..] == "";
    RestStep("# a");
    RestStep(" a");
    RestStep("a");
  }

  lemma MarksOfHeader()
    ensures WithoutMarks("# # a") == "# a" && WithoutMarks("# a") == "a"
  {
    assert "# # a"[2..] == "# a" && "# a"[2..] == "a";
    assert "### "[1] == "## "[1] == '#' && "# # a"[1] == "# a"[1] == ' ' && "# a"[0] != "a"[0];
  }

  /** A header mark behind a header mark. */
  lemma HeaderReappears()
    ensures Strip("# # a") == "# a" && Strip("# a") == "a"
  {
    NothingToRemove("# a", "**");
    NothingToRemove("a", "**");
    MarksOfHeader();
    StripLine("# # a", "# a", "# a");
    StripLine("# a", "a", "a");
    RestOfHeader();
  }

  lemma MarksInOrder()
    ensures WithoutMarks("### ## # a") == "a" && WithoutMarks("# ## a") == "## a"
  {
    assert "### ## # a"[4..] == "## # a" && "## # a"[3..] == "# a" && "# a"[2..] == "a" && "# ## a"[2..] == "## a";
    assert "### "[1] == "## "[1] == '#' && "# ## a"[1] == "# a"[1] == ' ' && "### "[2] == '#' && "## # a"[2] == ' ';
  }

  /** Longer marks are dropped before shorter ones, each once. */
  lemma HeadersInOrder()
    ensures Strip("### ## # a") == "a" && Strip("# ## a") == "## a"
  {
    MarksInOrder();
    NothingToRemove("a", "**");
    NothingToRemove("## a", "**");
    StripLine("### ## # a", "a", "a");
    StripLine("# ## a", "## a", "## a");
    RestOfHeader();
    assert "## a"[1..] == "# a";
    RestStep("## a");
  }

  // ----- the operations

  method StripMarkdown(text: string) returns (out: string)
    ensures out == Strip(text)
    ensures Content(out) == Content(text) && '`' !in out
    ensures Plain(out) <==> Settles(text)
  {
    if text == "" {
      Stripped("");
      return "";
    }
    out := text;
    var prefixes := ["### ", "## ", "# "];
    for i := 0 to |prefixes|
      invariant i == 0 ==> out == text
      invariant i == 1 ==> out == Replaced(text, "### ", "", true)
      invariant i == 2 ==> out == Replaced(Replaced(text, "### ", "", true), "## ", "", true)
      invariant i == 3 ==> out == WithoutHeaders(text)
    {
      out := ReplaceAtLineStart(out, prefixes[i], "");
    }
    out := RemoveAll(out, "**");
    out := RemoveAll(out, "__");
    out := RemoveAll(out, "```");
    out := RemoveAll(out, "`");
    Stripped(text);
  }

  lemma Stripped(text: string)
    ensures Content(Strip(text)) == Content(text) && '`' !in Strip(text)
    ensures Plain(Strip(text)) <==> Settles(text)
    ensures Strip("") == ""
  {
    StripKeepsContent(text);
    NoBackticks(text);
    PlainIff(text);
    RestOfEmpty();
  }

  function Format(text: string): string {
    Strip(Flatten(text))
  }

  method FormatForWeChat(text: string) returns (out: string)
    ensures out == Format(text)
    ensures Content(out) == Content(Flatten(text)) && '`' !in out
    ensures Plain(out) <==> Settles(Flatten(text))
  {
    if text == "" {
      NoBars("");
      Stripped("");
      return "";
    }
    var flat := FlattenMarkdownTables(text);
    out := StripMarkdown(flat);
  }
}
