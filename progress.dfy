/**
 * `Discipline.progress`: turn the academic homework pages into a table with
 * one row per student and one column per question. The pages arrive already
 * parsed: the texts of the question list, the texts of the progress table's
 * header, and for each student row its link and the class of the marker in
 * each of its cells.
 */
module Progress {
  import opened Base
  import opened Text

  /** A cell of the result: not tried (`nan` in the source) or a score. */
  datatype Mark = Unsolved | Score(points: int)

  /** The exceptions of the table shaping: an unknown cell class, a failed `int()`, a missing question. */
  datatype ProgressError = UnknownClass(cls: string) | NotAnInt(text: string) | MissingQuestion(id: int)

  /** A row of the homework's question list: the texts of its id cell and its name cell. */
  datatype QuestionRow = QuestionRow(idText: string, nameText: string)

  /** A student row of the progress table: the link in its first cell and the marker class of every cell. */
  datatype StudentRow = StudentRow(href: string, classes: seq<string>)

  /** The data frame: student ids, column labels, and one row of marks per student. */
  datatype Table = Table(index: seq<int>, columns: seq<string>, responses: seq<seq<Mark>>)

  const Classes: set<string> := {"void", "tried", "solved"}

  /** Python's `int(text)`, a `ValueError` becoming `NotAnInt`. */
  function IntOf(text: string): Result<int, ProgressError> {
    match ParseInt(text)
    case Some(v) => Ok(v)
    case None => Err(NotAnInt(text))
  }

  /** Lines 305-313: `void` is unsolved, `tried` scores 0, `solved` scores 100, any other class raises. */
  function MarkOf(cls: string): (r: Result<Mark, ProgressError>)
    ensures r.Ok? <==> cls in Classes
    ensures r == Ok(Unsolved) <==> cls == "void"
    ensures r.Ok? && r.value.Score? ==> r.value.points in {0, 100}
    ensures cls == "tried" ==> r == Ok(Score(0))
    ensures cls == "solved" ==> r == Ok(Score(100))
  {
    if cls == "void" then Ok(Unsolved)
    else if cls == "tried" then Ok(Score(0))
    else if cls == "solved" then Ok(Score(100))
    else Err(UnknownClass(cls))
  }

  /** Line 302: the student id is the integer after the last `/` of the link. */
  function StudentId(href: string): Result<int, ProgressError> {
    IntOf(AfterLast(href, '/'))
  }

  /** The cells that carry marks: all but the name cell and the total cell (`row[1:-1]`). */
  function Cells(row: StudentRow): seq<string> {
    Slice(row.classes, 1, -1)
  }

  // ---------------------------------------------------------------------
  // Specification of the three loops, as folds over a growing prefix

  /**
   * Lines 289-293 with the id conversion `parse` and the name clean-up
   * `clean`: question ids to cleaned names, a later row winning, the first
   * id that does not convert raising.
   */
  function NamesBy(rows: seq<QuestionRow>, parse: string -> Option<int>, clean: string -> string): Result<map<int, string>, ProgressError>
  {
    if |rows| == 0 then Ok(map[])
    else
      match NamesBy(rows[..|rows| - 1], parse, clean)
      case Err(e) => Err(e)
      case Ok(names) =>
        var last := rows[|rows| - 1];
        match parse(last.idText)
        case None => Err(NotAnInt(last.idText))
        case Some(id) => Ok(names[id := clean(last.nameText)])
  }

  /** Lines 289-293: the ids are converted by `int()`. */
  function NamesOf(rows: seq<QuestionRow>): Result<map<int, string>, ProgressError>
  {
    NamesBy(rows, ParseInt, Strip)
  }

  /** Lines 305-314: the marks of a row, the first unknown class raising. */
  function MarksOf(cells: seq<string>): Result<seq<Mark>, ProgressError>
  {
    if |cells| == 0 then Ok([])
    else
      match MarksOf(cells[..|cells| - 1])
      case Err(e) => Err(e)
      case Ok(ms) =>
        match MarkOf(cells[|cells| - 1])
        case Err(e) => Err(e)
        case Ok(m) => Ok(ms + [m])
  }

  /** Lines 301-314 for one row: its student id, then its marks. */
  function StudentOf(row: StudentRow): Result<(int, seq<Mark>), ProgressError> {
    match StudentId(row.href)
    case Err(e) => Err(e)
    case Ok(id) =>
      match MarksOf(Cells(row))
      case Err(e) => Err(e)
      case Ok(ms) => Ok((id, ms))
  }

  /** How one student row is read; the table uses `StudentOf`. */
  type StudentReader = StudentRow -> Result<(int, seq<Mark>), ProgressError>

  /** Lines 300-315: the student ids and the rows of marks, in table order. */
  function StudentsOf(rows: seq<StudentRow>, read: StudentReader): Result<(seq<int>, seq<seq<Mark>>), ProgressError>
  {
    if |rows| == 0 then Ok(([], []))
    else
      match StudentsOf(rows[..|rows| - 1], read)
      case Err(e) => Err(e)
      case Ok(done) =>
        match read(rows[|rows| - 1])
        case Err(e) => Err(e)
        case Ok(student) => Ok((done.0 + [student.0], done.1 + [student.1]))
  }

  // ---------------------------------------------------------------------
  // The header

  function CountDashes(header: seq<string>): (n: nat)
    ensures n <= |header|
  {
    if |header| == 0 then 0 else (if header[0] == "-" then 1 else 0) + CountDashes(header[1..])
  }

  /** Lines 319-320: the header cells that are not `-`, less the name and total columns. */
  function ValidCols(header: seq<string>): int {
    |header| - CountDashes(header) - 2
  }

  /** `[int(x) for x in texts]`, the first bad text raising. */
  function IdsOf(texts: seq<string>): (r: Result<seq<int>, ProgressError>)
    ensures r.Ok? <==> forall i :: 0 <= i < |texts| ==> ParseInt(texts[i]).Some?
    ensures r.Ok? ==> |r.value| == |texts| && forall i :: 0 <= i < |texts| ==> r.value[i] == ParseInt(texts[i]).value
    ensures r.Err? ==> exists i :: 0 <= i < |texts| && ParseInt(texts[i]).None? && r.error == NotAnInt(texts[i])
  {
    if |texts| == 0 then Ok([])
    else
      match IntOf(texts[0])
      case Err(e) => Err(e)
      case Ok(id) =>
        match IdsOf(texts[1..])
        case Err(e) => Err(e)
        case Ok(ids) => Ok([id] + ids)
  }

  /** Line 322: `'%s (%s)' % (id, name)`. */
  function Label(id: int, name: string): string {
    IntToString(id) + " (" + name + ")"
  }

  /** Line 322 for every id, a question missing from the list raising `KeyError`. */
  function LabelsOf(ids: seq<int>, names: map<int, string>): (r: Result<seq<string>, ProgressError>)
    ensures r.Ok? <==> forall i :: 0 <= i < |ids| ==> ids[i] in names
    ensures r.Ok? ==> |r.value| == |ids| && forall i :: 0 <= i < |ids| ==> r.value[i] == Label(ids[i], names[ids[i]])
  {
    if |ids| == 0 then Ok([])
    else if ids[0] !in names then Err(MissingQuestion(ids[0]))
    else
      match LabelsOf(ids[1..], names)
      case Err(e) => Err(e)
      case Ok(labels) => Ok([Label(ids[0], names[ids[0]])] + labels)
  }

  /**
   * Line 323: every row of marks cut to the valid columns, as Python slices
   * it: a row keeps its first `valid` marks (all of them when it is shorter),
   * and a negative `valid` drops that many marks from its end.
   */
  function Truncate(responses: seq<seq<Mark>>, valid: int): (r: seq<seq<Mark>>)
    ensures |r| == |responses|
    ensures forall i :: 0 <= i < |r| ==>
      && |r[i]| == (if valid >= 0 then (if valid <= |responses[i]| then valid else |responses[i]|)
                    else (if |responses[i]| + valid >= 0 then |responses[i]| + valid else 0))
      && r[i] == responses[i][..|r[i]|]
  {
    seq(|responses|, i requires 0 <= i < |responses| => Prefix(responses[i], valid))
  }

  /** The whole of lines 288-327: names, then students, then header ids, then labels. */
  function ProgressOf(questions: seq<QuestionRow>, header: seq<string>, rows: seq<StudentRow>): Result<Table, ProgressError> {
    match NamesOf(questions)
    case Err(e) => Err(e)
    case Ok(names) =>
      match StudentsOf(rows, StudentOf)
      case Err(e) => Err(e)
      case Ok(students) =>
        var valid := ValidCols(header);
        match IdsOf(Slice(header, 1, valid + 1))
        case Err(e) => Err(e)
        case Ok(ids) =>
          match LabelsOf(ids, names)
          case Err(e) => Err(e)
          case Ok(columns) => Ok(Table(students.0, columns, Truncate(students.1, valid)))
  }

  // ---------------------------------------------------------------------
  // The loops

  lemma {:induction false} NamesByOk(rows: seq<QuestionRow>, parse: string -> Option<int>, clean: string -> string)
    ensures NamesBy(rows, parse, clean).Ok? <==> forall i :: 0 <= i < |rows| ==> parse(rows[i].idText).Some?
  {
    if |rows| > 0 {
      var init := rows[..|rows| - 1];
      NamesByOk(init, parse, clean);
      assert forall i :: 0 <= i < |init| ==> init[i] == rows[i];
    }
  }

  lemma {:induction false} NamesByFirstError(rows: seq<QuestionRow>, parse: string -> Option<int>, clean: string -> string)
    ensures NamesBy(rows, parse, clean).Err? ==>
      exists i ::
        && 0 <= i < |rows|
        && parse(rows[i].idText).None?
        && NamesBy(rows, parse, clean).error == NotAnInt(rows[i].idText)
        && forall j :: 0 <= j < i ==> parse(rows[j].idText).Some?
  {
    if |rows| > 0 {
      var init := rows[..|rows| - 1];
      if NamesBy(init, parse, clean).Err? {
        NamesByFirstError(init, parse, clean);
        var i :| 0 <= i < |init| && parse(init[i].idText).None? && NamesBy(init, parse, clean).error == NotAnInt(init[i].idText)
          && forall j :: 0 <= j < i ==> parse(init[j].idText).Some?;
        assert rows[i] == init[i];
        assert forall j :: 0 <= j < i ==> rows[j] == init[j];
      } else {
        NamesByOk(init, parse, clean);
        assert forall j :: 0 <= j < |init| ==> rows[j] == init[j];
      }
    }
  }

  lemma {:induction false} NamesByKeys(rows: seq<QuestionRow>, parse: string -> Option<int>, clean: string -> string)
    requires forall i :: 0 <= i < |rows| ==> parse(rows[i].idText).Some?
    ensures NamesBy(rows, parse, clean).Ok?
    ensures NamesBy(rows, parse, clean).value.Keys == set i | 0 <= i < |rows| :: parse(rows[i].idText).value
  {
    NamesByOk(rows, parse, clean);
    if |rows| > 0 {
      var init := rows[..|rows| - 1];
      assert forall i :: 0 <= i < |init| ==> init[i] == rows[i];
      NamesByKeys(init, parse, clean);
      assert (set i | 0 <= i < |rows| :: parse(rows[i].idText).value)
        == (set i | 0 <= i < |init| :: parse(init[i].idText).value) + {parse(rows[|rows| - 1].idText).value};
    }
  }

  lemma {:induction false} NamesByLastWins(rows: seq<QuestionRow>, parse: string -> Option<int>, clean: string -> string, i: nat)
    requires forall k :: 0 <= k < |rows| ==> parse(rows[k].idText).Some?
    requires i < |rows|
    requires forall j :: i < j < |rows| ==> parse(rows[j].idText) != parse(rows[i].idText)
    ensures NamesBy(rows, parse, clean).Ok?
    ensures var id := parse(rows[i].idText).value;
      id in NamesBy(rows, parse, clean).value && NamesBy(rows, parse, clean).value[id] == clean(rows[i].nameText)
  {
    NamesByOk(rows, parse, clean);
    if i < |rows| - 1 {
      var init := rows[..|rows| - 1];
      assert forall k :: 0 <= k < |init| ==> init[k] == rows[k];
      NamesByOk(init, parse, clean);
      NamesByLastWins(init, parse, clean, i);
    }
  }

  /**
   * The question map is built exactly when every question id reads as an
   * integer; otherwise the first id that does not is the one reported.
   */
  lemma NamesOk(rows: seq<QuestionRow>)
    ensures NamesOf(rows).Ok? <==> forall i :: 0 <= i < |rows| ==> ParseInt(rows[i].idText).Some?
    ensures NamesOf(rows).Err? ==>
      exists i ::
        && 0 <= i < |rows|
        && ParseInt(rows[i].idText).None?
        && NamesOf(rows).error == NotAnInt(rows[i].idText)
        && forall j :: 0 <= j < i ==> ParseInt(rows[j].idText).Some?
  {
    NamesByOk(rows, ParseInt, Strip);
    NamesByFirstError(rows, ParseInt, Strip);
  }

  /** When every id reads as an integer, the map's keys are exactly those integers. */
  lemma NamesKeys(rows: seq<QuestionRow>)
    requires forall i :: 0 <= i < |rows| ==> ParseInt(rows[i].idText).Some?
    ensures NamesOf(rows).Ok?
    ensures NamesOf(rows).value.Keys == set i | 0 <= i < |rows| :: ParseInt(rows[i].idText).value
  {
    NamesByKeys(rows, ParseInt, Strip);
  }

  /** Each question id holds the stripped name of the last row that carries it. */
  lemma NamesLastWins(rows: seq<QuestionRow>, i: nat)
    requires forall k :: 0 <= k < |rows| ==> ParseInt(rows[k].idText).Some?
    requires i < |rows|
    requires forall j :: i < j < |rows| ==> ParseInt(rows[j].idText) != ParseInt(rows[i].idText)
    ensures NamesOf(rows).Ok?
    ensures var id := ParseInt(rows[i].idText).value;
      id in NamesOf(rows).value && NamesOf(rows).value[id] == Strip(rows[i].nameText)
  {
    NamesByLastWins(rows, ParseInt, Strip, i);
  }

  /** Once a prefix of the question list raises, the whole list raises the same. */
  lemma {:induction false} NamesErrSticks(rows: seq<QuestionRow>, k: nat)
    requires k <= |rows| && NamesOf(rows[..k]).Err?
    ensures NamesOf(rows) == NamesOf(rows[..k])
    decreases |rows|
  {
    if k < |rows| {
      var init := rows[..|rows| - 1];
      assert init[..k] == rows[..k];
      NamesErrSticks(init, k);
    } else {
      assert rows[..k] == rows;
    }
  }

  lemma {:induction false} MarksErrSticks(cells: seq<string>, k: nat)
    requires k <= |cells| && MarksOf(cells[..k]).Err?
    ensures MarksOf(cells) == MarksOf(cells[..k])
    decreases |cells|
  {
    if k < |cells| {
      var init := cells[..|cells| - 1];
      assert init[..k] == cells[..k];
      MarksErrSticks(init, k);
    } else {
      assert cells[..k] == cells;
    }
  }

  lemma {:induction false} StudentsErrSticks(rows: seq<StudentRow>, read: StudentReader, k: nat)
    requires k <= |rows| && StudentsOf(rows[..k], read).Err?
    ensures StudentsOf(rows, read) == StudentsOf(rows[..k], read)
    decreases |rows|
  {
    if k < |rows| {
      var init := rows[..|rows| - 1];
      assert init[..k] == rows[..k];
      StudentsErrSticks(init, read, k);
    } else {
      assert rows[..k] == rows;
    }
  }

  /** Lines 288-293. */
  method QuestionNames(questions: seq<QuestionRow>) returns (r: Result<map<int, string>, ProgressError>)
    ensures r == NamesOf(questions)
  {
    var names: map<int, string> := map[];
    for k := 0 to |questions|
      invariant NamesOf(questions[..k]) == Ok(names)
    {
      assert questions[..k + 1][..k] == questions[..k];
      var questionId := IntOf(questions[k].idText);
      if questionId.Err? {
        NamesErrSticks(questions, k + 1);
        return Err(questionId.error);
      }
      names := names[questionId.value := Strip(questions[k].nameText)];
    }
    assert questions[..|questions|] == questions;
    r := Ok(names);
  }

  /** Lines 305-314: the marks of one row. */
  method RowMarks(cells: seq<string>) returns (r: Result<seq<Mark>, ProgressError>)
    ensures r == MarksOf(cells)
  {
    var response: seq<Mark> := [];
    for k := 0 to |cells|
      invariant MarksOf(cells[..k]) == Ok(response)
    {
      assert cells[..k + 1][..k] == cells[..k];
      var value: Mark;
      if cells[k] == "void" {
        value := Unsolved;
      } else if cells[k] == "tried" {
        value := Score(0);
      } else if cells[k] == "solved" {
        value := Score(100);
      } else {
        MarksErrSticks(cells, k + 1);
        return Err(UnknownClass(cells[k]));
      }
      response := response + [value];
    }
    assert cells[..|cells|] == cells;
    r := Ok(response);
  }

  /** Lines 298-315. */
  method Students(rows: seq<StudentRow>) returns (r: Result<(seq<int>, seq<seq<Mark>>), ProgressError>)
    ensures r == StudentsOf(rows, StudentOf)
  {
    var index: seq<int> := [];
    var responses: seq<seq<Mark>> := [];
    for k := 0 to |rows|
      invariant StudentsOf(rows[..k], StudentOf) == Ok((index, responses))
    {
      assert rows[..k + 1][..k] == rows[..k];
      var studentId := StudentId(rows[k].href);
      if studentId.Err? {
        StudentsErrSticks(rows, StudentOf, k + 1);
        return Err(studentId.error);
      }
      index := index + [studentId.value];
      var response := RowMarks(Cells(rows[k]));
      if response.Err? {
        StudentsErrSticks(rows, StudentOf, k + 1);
        return Err(response.error);
      }
      responses := responses + [response.value];
      assert StudentOf(rows[k]) == Ok((studentId.value, response.value));
    }
    assert rows[..|rows|] == rows;
    r := Ok((index, responses));
  }

  /** Lines 288-327 with the pages already parsed. */
  method ProgressTable(questions: seq<QuestionRow>, header: seq<string>, rows: seq<StudentRow>)
    returns (r: Result<Table, ProgressError>)
    ensures r == ProgressOf(questions, header, rows)
  {
    var names := QuestionNames(questions);
    if names.Err? {
      return Err(names.error);
    }
    var students := Students(rows);
    if students.Err? {
      return Err(students.error);
    }
    var valid := ValidCols(header);
    var ids := IdsOf(Slice(header, 1, valid + 1));
    if ids.Err? {
      return Err(ids.error);
    }
    var columns := LabelsOf(ids.value, names.value);
    if columns.Err? {
      return Err(columns.error);
    }
    r := Ok(Table(students.value.0, columns.value, Truncate(students.value.1, valid)));
  }

  // ---------------------------------------------------------------------
  // Properties

  /** A row's marks are exactly its cells classified one by one, and they exist iff every class is known. */
  lemma {:induction false} MarksCorrespond(cells: seq<string>)
    ensures MarksOf(cells).Ok? <==> forall j :: 0 <= j < |cells| ==> cells[j] in Classes
    ensures MarksOf(cells).Ok? ==>
      |MarksOf(cells).value| == |cells| && forall j :: 0 <= j < |cells| ==> MarkOf(cells[j]) == Ok(MarksOf(cells).value[j])
  {
    if |cells| > 0 {
      var init := cells[..|cells| - 1];
      MarksCorrespond(init);
      assert forall j :: 0 <= j < |init| ==> init[j] == cells[j];
    }
  }

  /** Every student row gives one id and one row of marks, in table order. */
  lemma {:induction false} StudentsCorrespond(rows: seq<StudentRow>, read: StudentReader, index: seq<int>, responses: seq<seq<Mark>>)
    requires StudentsOf(rows, read) == Ok((index, responses))
    ensures |index| == |rows| && |responses| == |rows|
    ensures forall i :: 0 <= i < |rows| ==> read(rows[i]) == Ok((index[i], responses[i]))
  {
    if |rows| > 0 {
      var init := rows[..|rows| - 1];
      var done := StudentsOf(init, read).value;
      StudentsCorrespond(init, read, done.0, done.1);
      var n := |rows| - 1;
      assert index == done.0 + [index[n]];
      assert responses == done.1 + [responses[n]];
      assert forall i :: 0 <= i < n ==> init[i] == rows[i];
    }
  }

  lemma StudentOfParts(row: StudentRow, id: int, marks: seq<Mark>)
    requires StudentOf(row) == Ok((id, marks))
    ensures StudentId(row.href) == Ok(id) && MarksOf(Cells(row)) == Ok(marks)
  {
  }

  /** The id of a student link `.../<n>` is `n`. */
  lemma StudentIdOfLink(prefix: string, n: int)
    ensures StudentId(prefix + "/" + IntToString(n)) == Ok(n)
  {
    var digits := IntToString(n);
    assert Excludes(digits, '/');
    AfterLastOf(prefix, '/', digits);
    ParseIntToString(n);
  }

  /** How a successful table is made of the students and the header. */
  lemma ProgressParts(questions: seq<QuestionRow>, header: seq<string>, rows: seq<StudentRow>, t: Table)
    requires ProgressOf(questions, header, rows) == Ok(t)
    ensures StudentsOf(rows, StudentOf).Ok? && t.index == StudentsOf(rows, StudentOf).value.0
    ensures t.responses == Truncate(StudentsOf(rows, StudentOf).value.1, ValidCols(header))
    ensures |t.columns| == |Slice(header, 1, ValidCols(header) + 1)|
  {
  }

  /**
   * With at least as many non-dash header cells as the name and total
   * columns, and every student row as long as the header, the table is
   * rectangular: one label per valid column and that many marks per student.
   */
  lemma TableShape(questions: seq<QuestionRow>, header: seq<string>, rows: seq<StudentRow>, t: Table)
    requires ProgressOf(questions, header, rows) == Ok(t)
    requires ValidCols(header) >= 0
    requires forall i :: 0 <= i < |rows| ==> |rows[i].classes| >= ValidCols(header) + 2
    ensures |t.columns| == ValidCols(header) && |t.index| == |rows| && |t.responses| == |rows|
    ensures forall i :: 0 <= i < |rows| ==> |t.responses[i]| == ValidCols(header)
  {
    ProgressParts(questions, header, rows, t);
    var students := StudentsOf(rows, StudentOf).value;
    StudentOfWidth();
    RowsWidth(rows, StudentOf, ValidCols(header), students.0, students.1);
  }

  /** Rows with at least `valid` mark cells give rows of exactly `valid` marks once cut. */
  lemma RowsWidth(rows: seq<StudentRow>, read: StudentReader, valid: nat, index: seq<int>, responses: seq<seq<Mark>>)
    requires StudentsOf(rows, read) == Ok((index, responses))
    requires forall row :: read(row).Ok? ==> |read(row).value.1| == |Cells(row)|
    requires forall i :: 0 <= i < |rows| ==> |rows[i].classes| >= valid + 2
    ensures |index| == |rows| && |responses| == |rows|
    ensures forall i :: 0 <= i < |rows| ==> |Prefix(responses[i], valid)| == valid
  {
    StudentsCorrespond(rows, read, index, responses);
    forall i | 0 <= i < |rows|
      ensures |Prefix(responses[i], valid)| == valid
    {
      assert read(rows[i]).Ok?;
    }
  }

  /** A student row read without error has one mark per mark cell. */
  lemma StudentOfWidth()
    ensures forall row :: StudentOf(row).Ok? ==> |StudentOf(row).value.1| == |Cells(row)|
  {
    forall row | StudentOf(row).Ok?
      ensures |StudentOf(row).value.1| == |Cells(row)|
    {
      StudentOfParts(row, StudentOf(row).value.0, StudentOf(row).value.1);
      MarksCorrespond(Cells(row));
    }
  }

  /** The column labels name each valid header id with its question's name. */
  lemma ColumnLabels(questions: seq<QuestionRow>, header: seq<string>, rows: seq<StudentRow>, t: Table)
    requires ProgressOf(questions, header, rows) == Ok(t)
    ensures IdsOf(Slice(header, 1, ValidCols(header) + 1)).Ok? && NamesOf(questions).Ok?
    ensures var ids := IdsOf(Slice(header, 1, ValidCols(header) + 1)).value;
      |t.columns| == |ids| && forall i :: 0 <= i < |ids| ==>
        ids[i] in NamesOf(questions).value && t.columns[i] == Label(ids[i], NamesOf(questions).value[ids[i]])
  {
  }
}
