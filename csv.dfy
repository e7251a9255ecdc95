/**
 * The text tables `uritool.urilib` prints: `unindent`, `csv_check` (a 0/1
 * grid of students by problems) and `csv_count` (problems solved per
 * student).
 */
module Csv {
  import opened Base
  import opened Text
  import opened Records
  import opened Reports
  import opened Sorting

  /** `min()` of an empty list: `unindent` of a text without lines. */
  datatype CsvError = NoLines

  // ---------------------------------------------------------------------
  // unindent

  /** The smallest leading-whitespace width of the lines: `min(...)` on line 431. */
  function MinIndent(lines: seq<string>): (w: nat)
    requires |lines| > 0
    ensures forall i :: 0 <= i < |lines| ==> w <= LeadingSpace(lines[i])
    ensures exists i :: 0 <= i < |lines| && w == LeadingSpace(lines[i])
  {
    if |lines| == 1 then LeadingSpace(lines[0])
    else
      var w := MinIndent(lines[1..]);
      assert forall i :: 1 <= i < |lines| ==> lines[i] == lines[1..][i - 1];
      if LeadingSpace(lines[0]) <= w then LeadingSpace(lines[0]) else w
  }

  /** A line with some character that is not whitespace. */
  predicate HasText(s: string) {
    LeadingSpace(s) < |s|
  }

  /** `line[w:]` for a width `w >= 0`: empty when the line is shorter. */
  function Drop(line: string, w: nat): string {
    if w <= |line| then line[w..] else ""
  }

  /** Cutting no more than the leading whitespace leaves a line with text non-empty. */
  lemma DropKeepsText(line: string, w: nat)
    requires HasText(line) && w <= LeadingSpace(line)
    ensures |Drop(line, w)| > 0
  {
  }

  /** `[line[w:] for line in lines]`. */
  function Dedent(lines: seq<string>, w: nat): (r: seq<string>)
    ensures |r| == |lines|
  {
    seq(|lines|, i requires 0 <= i < |lines| => Drop(lines[i], w))
  }

  /** Lines 427-433: split into lines, strip the common leading whitespace, rejoin with `\n`. */
  function Unindent(st: string): Result<string, CsvError> {
    var lines := SplitLines(st);
    if |lines| == 0 then Err(NoLines)
    else Ok(Join(Dedent(lines, MinIndent(lines)), "\n"))
  }

  lemma UnindentEmpty()
    ensures Unindent("") == Err(NoLines)
  {
  }

  /**
   * Every line loses the same whitespace prefix, the smallest of them all,
   * and at least one line is left with no leading whitespace.
   */
  lemma DedentShape(lines: seq<string>)
    requires |lines| > 0
    ensures var w := MinIndent(lines);
      var cut := Dedent(lines, w);
      (forall i :: 0 <= i < |lines| ==>
         w <= |lines[i]| && lines[i] == lines[i][..w] + cut[i]
         && forall j :: 0 <= j < w ==> IsSpace(lines[i][j]))
      && exists i :: 0 <= i < |cut| && LeadingSpace(cut[i]) == 0
  {
    var w := MinIndent(lines);
    var cut := Dedent(lines, w);
    forall i | 0 <= i < |lines|
      ensures w <= |lines[i]| && lines[i] == lines[i][..w] + cut[i]
    {
      assert cut[i] == lines[i][w..];
    }
    var i :| 0 <= i < |lines| && w == LeadingSpace(lines[i]);
    assert cut[i] == lines[i][w..];
    if |cut[i]| > 0 {
      assert cut[i][0] == lines[i][w];
    }
  }

  lemma DedentAt(lines: seq<string>, w: nat, i: nat)
    requires i < |lines|
    ensures Dedent(lines, w)[i] == Drop(lines[i], w)
  {
  }

  /** Cutting a line's leading whitespace adds no line break. */
  lemma DedentNoBreak(lines: seq<string>, w: nat)
    requires forall i :: 0 <= i < |lines| ==> NoLineBreak(lines[i])
    ensures forall i :: 0 <= i < |lines| ==> NoLineBreak(Dedent(lines, w)[i])
  {
  }

  /**
   * When the last line keeps some text, `unindent` keeps the number of lines:
   * the result splits back into the dedented lines.
   */
  lemma UnindentLines(st: string)
    requires |SplitLines(st)| > 0
    requires var lines := SplitLines(st); |Dedent(lines, MinIndent(lines))[|lines| - 1]| > 0
    ensures Unindent(st).Ok?
    ensures var lines := SplitLines(st);
      SplitLines(Unindent(st).value) == Dedent(lines, MinIndent(lines))
  {
    var lines := SplitLines(st);
    SplitLinesNoBreak(st);
    DedentNoBreak(lines, MinIndent(lines));
    SplitLinesJoin(Dedent(lines, MinIndent(lines)));
  }

  lemma MinIndentZero(lines: seq<string>, i: nat)
    requires i < |lines| && LeadingSpace(lines[i]) == 0
    ensures MinIndent(lines) == 0
  {
  }

  lemma DedentZero(lines: seq<string>)
    ensures Dedent(lines, 0) == lines
  {
    forall k | 0 <= k < |lines|
      ensures Dedent(lines, 0)[k] == lines[k]
    {
      assert lines[k][0..] == lines[k];
    }
  }

  /** A text `unindent` returned, with text on its last line, is already unindented. */
  lemma UnindentIdempotent(st: string)
    requires |SplitLines(st)| > 0
    requires var lines := SplitLines(st); |Dedent(lines, MinIndent(lines))[|lines| - 1]| > 0
    ensures Unindent(st).Ok? && Unindent(Unindent(st).value) == Unindent(st)
  {
    var lines := SplitLines(st);
    var cut := Dedent(lines, MinIndent(lines));
    UnindentLines(st);
    var out := Unindent(st).value;
    assert out == Join(cut, "\n");
    assert SplitLines(out) == cut;
    DedentShape(lines);
    var i :| 0 <= i < |cut| && LeadingSpace(cut[i]) == 0;
    MinIndentZero(cut, i);
    DedentZero(cut);
  }

  lemma {:induction false} TextAt(s: string, p: nat)
    requires p < |s| && !IsSpace(s[p])
    ensures LeadingSpace(s) <= p && HasText(s)
  {
    if p > 0 && IsSpace(s[0]) {
      TextAt(s[1..], p - 1);
    }
  }

  lemma DedentSplits(lines: seq<string>, w: nat)
    requires |lines| > 0 && |Drop(lines[|lines| - 1], w)| > 0
    requires forall k :: 0 <= k < |lines| ==> NoLineBreak(lines[k])
    ensures SplitLines(Join(Dedent(lines, w), "\n")) == Dedent(lines, w)
  {
    DedentNoBreak(lines, w);
    DedentAt(lines, w, |lines| - 1);
    SplitLinesJoin(Dedent(lines, w));
  }

  lemma UnindentOfJoin(lines: seq<string>)
    requires |lines| > 0 && |lines[|lines| - 1]| > 0
    requires forall k :: 0 <= k < |lines| ==> NoLineBreak(lines[k])
    ensures Unindent(Join(lines, "\n")) == Ok(Join(Dedent(lines, MinIndent(lines)), "\n"))
  {
    SplitLinesJoin(lines);
  }

  /**
   * `unindent` of lines joined with `\n`, the last of them holding some text,
   * gives back exactly those lines with the common indentation removed.
   */
  lemma UnindentJoined(lines: seq<string>)
    requires |lines| > 0 && HasText(lines[|lines| - 1])
    requires forall k :: 0 <= k < |lines| ==> NoLineBreak(lines[k])
    ensures Unindent(Join(lines, "\n")) == Ok(Join(Dedent(lines, MinIndent(lines)), "\n"))
    ensures SplitLines(Unindent(Join(lines, "\n")).value) == Dedent(lines, MinIndent(lines))
  {
    UnindentOfJoin(lines);
    DropKeepsText(lines[|lines| - 1], MinIndent(lines));
    DedentSplits(lines, MinIndent(lines));
  }

  lemma {:induction false} JoinNoBreak(parts: seq<string>, sep: string)
    requires NoLineBreak(sep) && forall k :: 0 <= k < |parts| ==> NoLineBreak(parts[k])
    ensures NoLineBreak(Join(parts, sep))
  {
    if |parts| > 1 {
      JoinNoBreak(parts[1..], sep);
      var rest := Join(parts[1..], sep);
      var whole := parts[0] + sep + rest;
      forall i | 0 <= i < |whole|
        ensures !IsLineBreak(whole[i])
      {
        if i < |parts[0]| {
          assert whole[i] == parts[0][i];
        } else if i < |parts[0]| + |sep| {
          assert whole[i] == sep[i - |parts[0]|];
        } else {
          assert whole[i] == rest[i - |parts[0]| - |sep|];
        }
      }
    }
  }

  lemma CommaPlain()
    ensures NoLineBreak(", ")
  {
  }

  lemma {:induction false} JoinStartsWith(parts: seq<string>, sep: string)
    requires |parts| > 0
    ensures |Join(parts, sep)| >= |parts[0]| && Join(parts, sep)[..|parts[0]|] == parts[0]
  {
  }

  /** A line that begins with a piece of text has text. */
  lemma PrefixHasText(head: string, line: string)
    requires HasText(head) && |head| <= |line| && line[..|head|] == head
    ensures HasText(line)
  {
    var p := LeadingSpace(head);
    assert line[p] == line[..|head|][p];
    TextAt(line, p);
  }

  /** Right-aligning one line of text pads it with spaces only. */
  lemma RJustText(t: string, width: nat)
    requires NoLineBreak(t) && HasText(t)
    ensures NoLineBreak(RJust(t, width)) && HasText(RJust(t, width))
  {
    var r := RJust(t, width);
    var off := |r| - |t|;
    forall i | 0 <= i < |r|
      ensures !IsLineBreak(r[i])
    {
      if i >= off {
        assert r[i] == r[off..][i - off];
      }
    }
    var p := LeadingSpace(t);
    assert r[off + p] == r[off..][p];
    TextAt(r, off + p);
  }

  /** `str(n)` is one line, starting with a digit or `-`. */
  lemma NumberText(n: int)
    ensures NoLineBreak(IntToString(n)) && HasText(IntToString(n))
  {
    TextAt(IntToString(n), 0);
  }

  /** `str(n).rjust(w)` is one line with text on it. */
  lemma NumberCell(n: int, width: nat)
    ensures NoLineBreak(RJust(IntToString(n), width)) && HasText(RJust(IntToString(n), width))
  {
    NumberText(n);
    RJustText(IntToString(n), width);
  }

  lemma ConcatText(a: string, b: string)
    requires NoLineBreak(a) && NoLineBreak(b) && HasText(a)
    ensures NoLineBreak(a + b) && HasText(a + b)
  {
    assert (a + b)[..|a|] == a;
    PrefixHasText(a, a + b);
  }

  /** Joining one-line pieces with `, `, the first of them with text, gives one line with text. */
  lemma JoinedText(parts: seq<string>)
    requires |parts| > 0 && HasText(parts[0])
    requires forall k :: 0 <= k < |parts| ==> NoLineBreak(parts[k])
    ensures NoLineBreak(Join(parts, ", ")) && HasText(Join(parts, ", "))
  {
    CommaPlain();
    JoinNoBreak(parts, ", ");
    JoinStartsWith(parts, ", ");
    PrefixHasText(parts[0], Join(parts, ", "));
  }

  lemma PairText(a: string, b: string)
    requires NoLineBreak(a) && HasText(a) && NoLineBreak(b)
    ensures NoLineBreak(Join([a, b], ", ")) && HasText(Join([a, b], ", "))
  {
    JoinedText([a, b]);
  }

  /** A line that starts with a right-aligned number and is joined with `, `. */
  lemma NumberLinePlain(n: int, width: nat, rest: seq<string>)
    requires forall i :: 0 <= i < |rest| ==> NoLineBreak(rest[i])
    ensures var line := Join([RJust(IntToString(n), width)] + rest, ", ");
      NoLineBreak(line) && HasText(line)
  {
    var parts := [RJust(IntToString(n), width)] + rest;
    NumberCell(n, width);
    forall k | 0 <= k < |parts|
      ensures NoLineBreak(parts[k])
    {
      if k > 0 {
        assert parts[k] == rest[k - 1];
      }
    }
    JoinedText(parts);
  }

  lemma PrefixStep<T>(s: seq<T>, k: nat)
    requires k < |s|
    ensures s[..k + 1] == s[..k] + [s[k]]
  {
  }

  // ---------------------------------------------------------------------
  // csv_check

  /** `', '.join(map(str, xs))` operands. */
  function IdTexts(xs: seq<int>): (r: seq<string>)
    ensures |r| == |xs| && forall i :: 0 <= i < |xs| ==> r[i] == IntToString(xs[i])
  {
    seq(|xs|, i requires 0 <= i < |xs| => IntToString(xs[i]))
  }

  lemma IdTextsPlain(xs: seq<int>)
    ensures forall i :: 0 <= i < |xs| ==> NoLineBreak(IdTexts(xs)[i])
  {
    forall i | 0 <= i < |xs|
      ensures NoLineBreak(IdTexts(xs)[i])
    {
      NumberText(xs[i]);
    }
  }

  /** Line 397: `id, ` right-aligned in 27 columns, then the problems; one line of text. */
  function CheckHeader(columns: seq<int>): (r: string)
    ensures NoLineBreak(r) && HasText(r)
  {
    IdTextsPlain(columns);
    CommaPlain();
    JoinNoBreak(IdTexts(columns), ", ");
    assert "id, "[0] == 'i';
    TextAt("id, ", 0);
    RJustText("id, ", 27);
    ConcatText(RJust("id, ", 27), Join(IdTexts(columns), ", "));
    RJust("id, ", 27) + Join(IdTexts(columns), ", ")
  }

  /** Lines 401-404: `   1` for a solved problem, `   0` otherwise. */
  function Flag(solved: bool): string {
    if solved then "   1" else "   0"
  }

  function Flags(columns: seq<int>, solved: set<int>): (r: seq<string>)
    ensures |r| == |columns| && forall i :: 0 <= i < |columns| ==> r[i] == Flag(columns[i] in solved)
  {
    seq(|columns|, i requires 0 <= i < |columns| => Flag(columns[i] in solved))
  }

  lemma LineStep(head: seq<string>, columns: seq<int>, j: nat, solved: set<int>, line: seq<string>)
    requires j < |columns| && line == head + Flags(columns[..j], solved)
    ensures line + [if columns[j] in solved then "   1" else "   0"] == head + Flags(columns[..j + 1], solved)
  {
    assert Flags(columns[..j + 1], solved) == Flags(columns[..j], solved) + [Flag(columns[j] in solved)];
  }

  /** Lines 399-405: one student's line, the id right-aligned in 25 columns; one line of text. */
  function CheckLine(student: int, columns: seq<int>, solved: set<int>): (r: string)
    ensures NoLineBreak(r) && HasText(r)
  {
    NumberLinePlain(student, 25, Flags(columns, solved));
    Join([RJust(IntToString(student), 25)] + Flags(columns, solved), ", ")
  }

  /** Line 394: the requested problems, or every problem anybody has, in increasing order. */
  function CheckColumns(d: map<int, seq<Problem>>, problems: seq<int>): seq<int> {
    if |problems| > 0 then Sort(problems) else SortSet(ProblemSet(d))
  }

  /** The grid's lines for given columns, students in order, and solved sets. */
  function Grid(columns: seq<int>, students: seq<int>, solved: map<int, set<int>>): (r: seq<string>)
    requires forall k :: 0 <= k < |students| ==> students[k] in solved
    ensures |r| == |students| + 1
  {
    [CheckHeader(columns)] + seq(|students|, k requires 0 <= k < |students| => CheckLine(students[k], columns, solved[students[k]]))
  }

  lemma GridRow(columns: seq<int>, students: seq<int>, solved: map<int, set<int>>, k: nat)
    requires forall k :: 0 <= k < |students| ==> students[k] in solved
    requires k < |students|
    ensures Grid(columns, students, solved)[k + 1]
      == Join([RJust(IntToString(students[k]), 25)] + Flags(columns, solved[students[k]]), ", ")
  {
  }

  /** Every line of the grid is one line of text, with text on it. */
  lemma GridPlain(columns: seq<int>, students: seq<int>, solved: map<int, set<int>>)
    requires forall k :: 0 <= k < |students| ==> students[k] in solved
    ensures var g := Grid(columns, students, solved);
      forall k :: 0 <= k < |g| ==> NoLineBreak(g[k]) && HasText(g[k])
  {
    var g := Grid(columns, students, solved);
    forall k | 0 <= k < |g|
      ensures NoLineBreak(g[k]) && HasText(g[k])
    {
      if k > 0 {
        GridLine(columns, students, solved, k - 1);
      }
    }
  }

  lemma GridLine(columns: seq<int>, students: seq<int>, solved: map<int, set<int>>, k: nat)
    requires forall k :: 0 <= k < |students| ==> students[k] in solved
    requires k < |students|
    ensures Grid(columns, students, solved)[k + 1] == CheckLine(students[k], columns, solved[students[k]])
  {
  }

  /** The lines of `csv_check` before `unindent`: the header, then the students in increasing order. */
  function CheckLines(d: map<int, seq<Problem>>, problems: seq<int>): (r: seq<string>)
    ensures |r| == |d.Keys| + 1
  {
    Grid(CheckColumns(d, problems), SortSet(d.Keys), SolvedMap(d))
  }

  /** `csv_check(D, problems)`. */
  function CheckTable(d: map<int, seq<Problem>>, problems: seq<int>): Result<string, CsvError> {
    Unindent(Join(CheckLines(d, problems), "\n"))
  }

  /** Lines 400-404: the cells of one student's line, before they are joined. */
  method CheckCells(student: int, columns: seq<int>, solved: set<int>) returns (line: seq<string>)
    ensures line == [RJust(IntToString(student), 25)] + Flags(columns, solved)
  {
    ghost var head := [RJust(IntToString(student), 25)];
    line := [RJust(IntToString(student), 25)];
    for j := 0 to |columns|
      invariant line == head + Flags(columns[..j], solved)
    {
      LineStep(head, columns, j, solved, line);
      if columns[j] in solved {
        line := line + ["   1"];
      } else {
        line := line + ["   0"];
      }
    }
    assert columns[..|columns|] == columns;
  }

  /** Lines 397-405: the header, then one joined line per student. */
  method GridRows(columns: seq<int>, students: seq<int>, solvedmap: map<int, set<int>>) returns (data: seq<string>)
    requires forall k :: 0 <= k < |students| ==> students[k] in solvedmap
    ensures data == Grid(columns, students, solvedmap)
  {
    ghost var lines := Grid(columns, students, solvedmap);
    data := [RJust("id, ", 27) + Join(IdTexts(columns), ", ")];
    for k := 0 to |students|
      invariant data == lines[..k + 1]
    {
      var student := students[k];
      var line := CheckCells(student, columns, solvedmap[student]);
      GridRow(columns, students, solvedmap, k);
      PrefixStep(lines, k + 1);
      data := data + [Join(line, ", ")];
    }
    assert data == lines;
  }

  /** Lines 389-406. */
  method CsvCheck(d: map<int, seq<Problem>>, problems: seq<int>) returns (r: string)
    ensures CheckTable(d, problems) == Ok(r)
  {
    var columns: seq<int>;
    if |problems| > 0 {
      columns := Sort(problems);
    } else {
      var all := ProblemSetOf(d);
      columns := SortSet(all);
    }
    assert columns == CheckColumns(d, problems);
    var solvedmap := SolvedProblems(d);
    var students := SortSet(solvedmap.Keys);
    var data := GridRows(columns, students, solvedmap);
    assert solvedmap.Keys == d.Keys;
    assert data == CheckLines(d, problems);
    CheckTableOk(d, problems);
    r := Unindent(Join(data, "\n")).value;
  }

  /**
   * `csv_check` never fails, and its text splits into one line per student
   * plus the header: the grid's lines with their common indentation removed.
   */
  lemma CheckTableLines(d: map<int, seq<Problem>>, problems: seq<int>)
    ensures var lines := CheckLines(d, problems);
      CheckTable(d, problems) == Ok(Join(Dedent(lines, MinIndent(lines)), "\n"))
      && SplitLines(CheckTable(d, problems).value) == Dedent(lines, MinIndent(lines))
      && |SplitLines(CheckTable(d, problems).value)| == |d.Keys| + 1
  {
    GridPlain(CheckColumns(d, problems), SortSet(d.Keys), SolvedMap(d));
    UnindentJoined(CheckLines(d, problems));
  }

  lemma CheckTableOk(d: map<int, seq<Problem>>, problems: seq<int>)
    ensures CheckTable(d, problems).Ok?
  {
    CheckTableLines(d, problems);
  }

  /** A `1` in the grid means that the student has a submission of that problem. */
  lemma CheckFlagMeaning(d: map<int, seq<Problem>>, student: int, column: int)
    requires student in d
    ensures Flag(column in SolvedMap(d)[student]) == "   1" <==> exists p :: p in d[student] && p.id == column
  {
  }

  /** The columns are in increasing order: the requested problems with repeats, or each known problem once. */
  lemma CheckColumnsContents(d: map<int, seq<Problem>>, problems: seq<int>)
    ensures Ascending(CheckColumns(d, problems))
    ensures |problems| > 0 ==> multiset(CheckColumns(d, problems)) == multiset(problems)
    ensures |problems| == 0 ==>
      StrictlyAscending(CheckColumns(d, problems))
      && forall x :: x in CheckColumns(d, problems) <==> x in ProblemSet(d)
  {
  }

  // ---------------------------------------------------------------------
  // csv_count

  /** Line 414: `id, count` right-aligned in 32 columns; one line of text. */
  function CountHeader(): (r: string)
    ensures NoLineBreak(r) && HasText(r)
  {
    assert NoLineBreak("id, count") && "id, count"[0] == 'i';
    TextAt("id, count", 0);
    RJustText("id, count", 32);
    RJust("id, count", 32)
  }

  /** Lines 416-418: the student right-aligned in 25 columns, the count in 5; one line of text. */
  function CountLine(student: int, solved: set<int>): (r: string)
    ensures NoLineBreak(r) && HasText(r)
  {
    NumberCell(student, 25);
    NumberCell(|solved|, 5);
    PairText(RJust(IntToString(student), 25), RJust(IntToString(|solved|), 5));
    Join([RJust(IntToString(student), 25), RJust(IntToString(|solved|), 5)], ", ")
  }

  function Counts(students: seq<int>, solved: map<int, set<int>>): (r: seq<string>)
    requires forall k :: 0 <= k < |students| ==> students[k] in solved
    ensures |r| == |students| + 1
  {
    [CountHeader()] + seq(|students|, k requires 0 <= k < |students| => CountLine(students[k], solved[students[k]]))
  }

  lemma CountsRow(students: seq<int>, solved: map<int, set<int>>, k: nat)
    requires forall k :: 0 <= k < |students| ==> students[k] in solved
    requires k < |students|
    ensures Counts(students, solved)[k + 1] == CountLine(students[k], solved[students[k]])
  {
  }

  /** Every line of the count table is one line of text, with text on it. */
  lemma CountsPlain(students: seq<int>, solved: map<int, set<int>>)
    requires forall k :: 0 <= k < |students| ==> students[k] in solved
    ensures var c := Counts(students, solved);
      forall k :: 0 <= k < |c| ==> NoLineBreak(c[k]) && HasText(c[k])
  {
    var c := Counts(students, solved);
    forall k | 0 <= k < |c|
      ensures NoLineBreak(c[k]) && HasText(c[k])
    {
      if k > 0 {
        CountsRow(students, solved, k - 1);
      }
    }
  }

  function CountLines(d: map<int, seq<Problem>>): (r: seq<string>)
    ensures |r| == |d.Keys| + 1
  {
    Counts(SortSet(d.Keys), SolvedMap(d))
  }

  /** `csv_count(D, problems)`; the sorted problem list it builds is never used. */
  function CountTable(d: map<int, seq<Problem>>): Result<string, CsvError> {
    Unindent(Join(CountLines(d), "\n"))
  }

  /** Lines 414-419: the header, then one joined line per student. */
  method CountRows(students: seq<int>, solvedmap: map<int, set<int>>) returns (data: seq<string>)
    requires forall k :: 0 <= k < |students| ==> students[k] in solvedmap
    ensures data == Counts(students, solvedmap)
  {
    ghost var lines := Counts(students, solvedmap);
    data := [RJust("id, count", 32)];
    for k := 0 to |students|
      invariant data == lines[..k + 1]
    {
      var student := students[k];
      var line := [RJust(IntToString(student), 25), RJust(IntToString(|solvedmap[student]|), 5)];
      CountsRow(students, solvedmap, k);
      PrefixStep(lines, k + 1);
      data := data + [Join(line, ", ")];
    }
    assert data == lines;
  }

  /** Lines 409-421. */
  method CsvCount(d: map<int, seq<Problem>>) returns (r: string)
    ensures CountTable(d) == Ok(r)
  {
    var solvedmap := SolvedProblems(d);
    var students := SortSet(solvedmap.Keys);
    var data := CountRows(students, solvedmap);
    assert solvedmap.Keys == d.Keys;
    assert data == CountLines(d);
    CountTableOk(d);
    r := Unindent(Join(data, "\n")).value;
  }

  /**
   * `csv_count` never fails, and its text holds the header and one line per
   * student.
   */
  lemma CountTableLines(d: map<int, seq<Problem>>)
    ensures var lines := CountLines(d);
      CountTable(d) == Ok(Join(Dedent(lines, MinIndent(lines)), "\n"))
      && |SplitLines(CountTable(d).value)| == |d.Keys| + 1
  {
    CountsPlain(SortSet(d.Keys), SolvedMap(d));
    UnindentJoined(CountLines(d));
  }

  lemma CountTableOk(d: map<int, seq<Problem>>)
    ensures CountTable(d).Ok?
  {
    CountTableLines(d);
  }

  /** The count of a student is at most the number of their submissions. */
  lemma {:induction false} IdSetBound(ps: seq<Problem>)
    ensures |IdSet(ps)| <= |ps|
  {
    if |ps| > 0 {
      IdSetBound(ps[1..]);
      assert IdSet(ps) == {ps[0].id} + IdSet(ps[1..]);
    }
  }
}
