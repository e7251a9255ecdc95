/**
 * The bookkeeping of `uritool.grader.Grader`, without its prompts: the
 * `name (id)` validator, the table of students and grades, the search over
 * it, adding a student, registering a grade, choosing among several matches
 * and the rotation of backup copies.
 */
module Grading {
  import opened Base
  import opened Text
  import opened Sorting

  // ---------------------------------------------------------------------
  // __auto_validate_id

  /** `ValidationError`, carrying the stripped input its message quotes. */
  datatype ValidationError = BadNameId(input: string) | BadId(input: string)

  /**
   * The validator of lines 312-330 for an `id_type` given as a conversion
   * that fails with `None`: `name (id)` when the stripped input holds a `(`
   * and ends with `)`, otherwise the whole stripped input is name and id.
   */
  function Validate<T>(idstr: string, convert: string -> Option<T>): Result<(string, T), ValidationError> {
    var s := Strip(idstr);
    var (before, found, after) := Partition(s, '(');
    if found && EndsWith(s, ')') then
      match convert(Strip(Prefix(after, -1)))
      case None => Err(BadNameId(s))
      case Some(id) => Ok((Strip(before), id))
    else
      match convert(s)
      case None => Err(BadId(s))
      case Some(id) => Ok((s, id))
  }

  /** `id_type=str`: every string converts. */
  function AsText(s: string): Option<string> {
    Some(s)
  }

  /** With `id_type=str` validation never fails. */
  lemma TextIdsAlwaysValid(idstr: string)
    ensures Validate(idstr, AsText).Ok?
  {
  }

  /** Without a `(`, or without a final `)`, the stripped input is both the name and the raw id. */
  lemma ValidateWhole<T>(idstr: string, convert: string -> Option<T>)
    requires var s := Strip(idstr); Find(s, '(') == |s| || !EndsWith(s, ')')
    ensures var s := Strip(idstr);
      Validate(idstr, convert) == if convert(s).Some? then Ok((s, convert(s).value)) else Err(BadId(s))
  {
  }

  lemma StripPadded(a: string, b: string, c: string)
    requires |b| > 0 && !IsSpace(b[0]) && !IsSpace(b[|b| - 1])
    requires forall i :: 0 <= i < |a| ==> IsSpace(a[i])
    requires forall i :: 0 <= i < |c| ==> IsSpace(c[i])
    ensures Strip(a + b + c) == b
  {
    var s := a + b + c;
    LStripSpaces(a, b + c);
    assert s == a + (b + c);
    RStripSpaces(b, c);
  }

  lemma {:induction false} LStripSpaces(a: string, t: string)
    requires |t| > 0 && !IsSpace(t[0])
    requires forall i :: 0 <= i < |a| ==> IsSpace(a[i])
    ensures LStrip(a + t) == t
  {
    if |a| > 0 {
      assert (a + t)[1..] == a[1..] + t;
      LStripSpaces(a[1..], t);
    } else {
      assert a + t == t;
    }
  }

  lemma {:induction false} RStripSpaces(t: string, c: string)
    requires |t| > 0 && !IsSpace(t[|t| - 1])
    requires forall i :: 0 <= i < |c| ==> IsSpace(c[i])
    ensures RStrip(t + c) == t
  {
    if |c| > 0 {
      assert (t + c)[..|t + c| - 1] == t + c[..|c| - 1];
      RStripSpaces(t, c[..|c| - 1]);
    } else {
      assert t + c == t;
    }
  }

  lemma PartitionNameId(name: string, digits: string)
    requires Excludes(name, '(')
    ensures Partition(name + " (" + digits + ")", '(') == (name + " ", true, digits + ")")
  {
    var s := name + " (" + digits + ")";
    var k := Find(s, '(');
    assert forall i :: 0 <= i < |name| + 1 ==> s[i] == (name + " ")[i];
    assert s[|name| + 1] == '(';
    assert k == |name| + 1;
    assert s[..k] == name + " ";
    assert s[k + 1..] == digits + ")";
  }

  lemma StripTrailingSpace(name: string)
    requires |name| > 0 && !IsSpace(name[0]) && !IsSpace(name[|name| - 1])
    ensures Strip(name + " ") == name
  {
    StripPadded("", name, " ");
    assert "" + name + " " == name + " ";
  }

  /** The text `name (id)` shown for a student while grading is read back as that name and id. */
  lemma ValidateRoundTrip(name: string, id: int)
    requires |name| > 0 && !IsSpace(name[0]) && !IsSpace(name[|name| - 1]) && Excludes(name, '(')
    ensures Validate(name + " (" + IntToString(id) + ")", ParseInt) == Ok((name, id))
  {
    var digits := IntToString(id);
    var s := name + " (" + digits + ")";
    StripUnchanged(s);
    PartitionNameId(name, digits);
    StripTrailingSpace(name);
    assert Prefix(digits + ")", -1) == digits;
    StripUnchanged(digits);
    ParseIntToString(id);
  }

  // ---------------------------------------------------------------------
  // The table of students

  /** One row of `self.data`: id (the index), name, `__search`, grade (NaN is `None`) and timestamp. */
  datatype Row = Row(id: int, name: string, search: string, grade: Option<real>, stamp: int)

  /** `'%s %s' % (name.casefold(), id)`. */
  function SearchKey(name: string, id: int): string {
    Fold(name) + " " + IntToString(id)
  }

  /** A row as lines 54-62 and 272-276 build it: no grade yet, stamped with the clock. */
  function NewRow(id: int, name: string, now: int): Row {
    Row(id, name, SearchKey(name, id), None, now)
  }

  /** `str(y or x)`: an empty name falls back to the id. */
  function DefaultName(id: int, name: string): string {
    if name == "" then IntToString(id) else name
  }

  /** The index is sorted and holds each id once. */
  predicate IdsAscending(rows: seq<Row>) {
    forall i, j :: 0 <= i < j < |rows| ==> rows[i].id < rows[j].id
  }

  predicate HasId(rows: seq<Row>, id: int) {
    exists i :: 0 <= i < |rows| && rows[i].id == id
  }

  /** Lines 50-62: one row per student, sorted by id. */
  function InitialRows(students: map<int, string>, now: int): seq<Row> {
    var ids := SortSet(students.Keys);
    seq(|ids|, k requires 0 <= k < |ids| => NewRow(ids[k], DefaultName(ids[k], students[ids[k]]), now))
  }

  /**
   * The initial table holds exactly the given students, sorted by id, each
   * named as given or by its id, searchable by its case-folded name and id,
   * and not graded.
   */
  lemma InitialRowsShape(students: map<int, string>, now: int)
    ensures var rows := InitialRows(students, now);
      IdsAscending(rows)
      && (forall id :: id in students <==> HasId(rows, id))
      && forall i :: 0 <= i < |rows| ==>
        rows[i].id in students
        && rows[i].name == DefaultName(rows[i].id, students[rows[i].id])
        && rows[i].search == SearchKey(rows[i].name, rows[i].id)
        && rows[i].grade == None && rows[i].stamp == now
  {
    InitialRowsIds(students, now);
    InitialRowsHasAll(students, now);
    InitialRowsFields(students, now);
  }

  lemma InitialRowsFields(students: map<int, string>, now: int)
    ensures var rows := InitialRows(students, now);
      IdsAscending(rows)
      && forall i :: 0 <= i < |rows| ==>
        rows[i].id in students
        && rows[i].name == DefaultName(rows[i].id, students[rows[i].id])
        && rows[i].search == SearchKey(rows[i].name, rows[i].id)
        && rows[i].grade == None && rows[i].stamp == now
  {
    InitialRowsIds(students, now);
  }

  lemma InitialRowsIds(students: map<int, string>, now: int)
    ensures var rows := InitialRows(students, now);
      |rows| == |SortSet(students.Keys)| && forall i :: 0 <= i < |rows| ==> rows[i].id == SortSet(students.Keys)[i]
  {
  }

  lemma InitialRowsHasAll(students: map<int, string>, now: int)
    ensures forall id :: id in students <==> HasId(InitialRows(students, now), id)
  {
    var rows := InitialRows(students, now);
    var ids := SortSet(students.Keys);
    InitialRowsIds(students, now);
    forall id | id in students
      ensures HasId(rows, id)
    {
      var k :| 0 <= k < |ids| && ids[k] == id;
      assert rows[k].id == id;
    }
  }

  /** `[idx for (idx, name) in data if value in name]`, with `value` already case-folded. */
  function MatchIds(rows: seq<Row>, q: string): seq<int> {
    if |rows| == 0 then []
    else (if Contains(rows[0].search, q) then [rows[0].id] else []) + MatchIds(rows[1..], q)
  }

  /** The matches are exactly the ids whose search text contains the query, in index order. */
  lemma {:induction false} MatchIdsExact(rows: seq<Row>, q: string)
    ensures forall id :: id in MatchIds(rows, q) <==>
      exists i :: 0 <= i < |rows| && rows[i].id == id && Contains(rows[i].search, q)
    ensures IdsAscending(rows) ==> StrictlyAscending(MatchIds(rows, q))
  {
    if |rows| > 0 {
      var tail := rows[1..];
      MatchIdsExact(tail, q);
      forall id | id in MatchIds(rows, q)
        ensures exists i :: 0 <= i < |rows| && rows[i].id == id && Contains(rows[i].search, q)
      {
        if id in MatchIds(tail, q) {
          var i :| 0 <= i < |tail| && tail[i].id == id && Contains(tail[i].search, q);
          assert rows[i + 1] == tail[i];
        }
      }
      forall id | exists i :: 0 <= i < |rows| && rows[i].id == id && Contains(rows[i].search, q)
        ensures id in MatchIds(rows, q)
      {
        var i :| 0 <= i < |rows| && rows[i].id == id && Contains(rows[i].search, q);
        if i > 0 {
          assert tail[i - 1] == rows[i];
        }
      }
      if IdsAscending(rows) {
        var r := MatchIds(rows, q);
        var rest := MatchIds(tail, q);
        assert forall k :: 0 <= k < |rest| ==> rows[0].id < rest[k] by {
          forall k | 0 <= k < |rest|
            ensures rows[0].id < rest[k]
          {
            assert rest[k] in rest;
            var i :| 0 <= i < |tail| && tail[i].id == rest[k] && Contains(tail[i].search, q);
            assert rows[i + 1] == tail[i];
          }
        }
        if Contains(rows[0].search, q) {
          StrictCons(rows[0].id, rest);
        }
      }
    }
  }

  /** `self.data` as a sequence of rows; the index order is the sequence order. */
  class Grader {
    var rows: seq<Row>

    ghost predicate Valid()
      reads this
    {
      IdsAscending(rows)
    }

    /** Lines 47-62, the clock reading as `now`; loading and saving a file are not part of this model. */
    constructor (students: map<int, string>, now: int)
      ensures Valid() && rows == InitialRows(students, now)
    {
      rows := InitialRows(students, now);
      InitialRowsShape(students, now);
    }

    /** Lines 252-257: the ids, in index order, whose search text contains the case-folded query. */
    function Matches(value: string): (r: seq<int>)
      reads this
      ensures forall id :: id in r <==>
        exists i :: 0 <= i < |rows| && rows[i].id == id && Contains(rows[i].search, Fold(value))
      ensures IdsAscending(rows) ==> StrictlyAscending(r)
    {
      MatchIdsExact(rows, Fold(value));
      MatchIds(rows, Fold(value))
    }

    /**
     * Lines 259-279 with `id_type=int`: a known id leaves the table as it is,
     * a new one is inserted in id order; either way the id is returned. The
     * source prompts again after a validation error; the model returns it.
     */
    method AddStudent(student: string, now: int) returns (r: Result<int, ValidationError>)
      requires Valid()
      modifies this
      ensures Valid()
      ensures (r, rows) == Added(old(rows), student, now)
    {
      var v := Validate(student, ParseInt);
      if v.Err? {
        return Err(v.error);
      }
      var (name, id) := v.value;
      if !HasId(rows, id) {
        InsertRowFacts(rows, NewRow(id, name, now));
        rows := InsertRow(rows, NewRow(id, name, now));
      }
      return Ok(id);
    }

    /**
     * Lines 158-171: an ungraded student gets the grade and the time, an
     * equal grade changes nothing, and a different one overwrites only when
     * the answer to the prompt is `y` in any case.
     */
    method RegisterGrade(id: int, grade: real, answer: string, now: int)
      requires Valid() && HasId(rows, id)
      modifies this
      ensures Valid()
      ensures rows == Graded(old(rows), id, grade, answer, now)
    {
      var i :| 0 <= i < |rows| && rows[i].id == id;
      var row := rows[i];
      if row.grade.None? {
        rows := rows[i := row.(grade := Some(grade), stamp := now)];
      } else if grade == row.grade.value {
      } else if Fold(answer) == "y" {
        rows := rows[i := row.(grade := Some(grade), stamp := now)];
      }
      assert rows == Graded(old(rows), id, grade, answer, now) by {
        forall j | 0 <= j < |rows|
          ensures rows[j] == Graded(old(rows), id, grade, answer, now)[j]
        {
          if j != i {
            assert old(rows)[j].id != id;
          }
        }
      }
    }
  }

  /** `sort_index` after appending one row with a new id: the row goes to its place in id order. */
  function InsertRow(rows: seq<Row>, row: Row): seq<Row> {
    if |rows| == 0 then [row]
    else if row.id < rows[0].id then [row] + rows
    else [rows[0]] + InsertRow(rows[1..], row)
  }

  /** Inserting adds exactly the one row. */
  lemma {:induction false} InsertRowMembers(rows: seq<Row>, row: Row)
    ensures |InsertRow(rows, row)| == |rows| + 1
    ensures multiset(InsertRow(rows, row)) == multiset(rows) + multiset{row}
  {
    if |rows| > 0 && row.id >= rows[0].id {
      InsertRowMembers(rows[1..], row);
      assert rows == [rows[0]] + rows[1..];
    }
  }

  /** Inserting a new id keeps the index sorted. */
  lemma {:induction false} InsertRowSorted(rows: seq<Row>, row: Row)
    requires IdsAscending(rows) && !HasId(rows, row.id)
    ensures IdsAscending(InsertRow(rows, row))
  {
    if |rows| > 0 && row.id >= rows[0].id {
      var tail := rows[1..];
      forall i | 0 <= i < |tail|
        ensures tail[i].id != row.id
      {
        assert tail[i] == rows[i + 1];
      }
      InsertRowSorted(tail, row);
      InsertRowMembers(tail, row);
      var rest := InsertRow(tail, row);
      assert rows[0].id != row.id;
      var r := [rows[0]] + rest;
      forall i, j | 0 <= i < j < |r|
        ensures r[i].id < r[j].id
      {
        assert r[j] == rest[j - 1];
        if i > 0 {
          assert r[i] == rest[i - 1];
        } else {
          assert r[j] in multiset(rest);
          if r[j] != row {
            assert r[j] in tail;
            var k :| 0 <= k < |tail| && tail[k] == r[j];
            assert rows[k + 1] == r[j];
          }
        }
      }
    } else if |rows| > 0 {
      var r := [row] + rows;
      forall i, j | 0 <= i < j < |r|
        ensures r[i].id < r[j].id
      {
        assert r[j] == rows[j - 1];
        if i > 0 {
          assert r[i] == rows[i - 1];
        }
      }
    }
  }

  /** Inserting a new id adds exactly that row and keeps the index sorted. */
  lemma InsertRowFacts(rows: seq<Row>, row: Row)
    requires IdsAscending(rows) && !HasId(rows, row.id)
    ensures var r := InsertRow(rows, row);
      IdsAscending(r) && |r| == |rows| + 1 && multiset(r) == multiset(rows) + multiset{row}
  {
    InsertRowMembers(rows, row);
    InsertRowSorted(rows, row);
  }

  /** The result and the new table of `add_student`. */
  function Added(rows: seq<Row>, student: string, now: int): (Result<int, ValidationError>, seq<Row>) {
    match Validate(student, ParseInt)
    case Err(e) => (Err(e), rows)
    case Ok((name, id)) => (Ok(id), if HasId(rows, id) then rows else InsertRow(rows, NewRow(id, name, now)))
  }

  /**
   * A known id leaves the table unchanged; a new id adds exactly one row,
   * named and stamped as given, and the table stays sorted. Either way the
   * id is returned; an invalid input changes nothing.
   */
  lemma AddedRule(rows: seq<Row>, student: string, now: int)
    requires IdsAscending(rows)
    ensures var (r, after) := Added(rows, student, now);
      IdsAscending(after)
      && (r == match Validate(student, ParseInt) case Ok((_, id)) => Ok(id) case Err(e) => Err(e))
      && (r.Err? ==> after == rows)
      && (r.Ok? ==> HasId(after, r.value))
      && (r.Ok? && HasId(rows, r.value) ==> after == rows)
      && (r.Ok? && !HasId(rows, r.value) ==>
            |after| == |rows| + 1
            && multiset(after) == multiset(rows) + multiset{NewRow(r.value, Validate(student, ParseInt).value.0, now)})
  {
    var v := Validate(student, ParseInt);
    if v.Ok? {
      var (name, id) := v.value;
      if !HasId(rows, id) {
        var row := NewRow(id, name, now);
        InsertRowFacts(rows, row);
        var after := InsertRow(rows, row);
        assert row in multiset(after);
        var i :| 0 <= i < |after| && after[i] == row;
      }
    }
  }

  /** The grade-registration rule for one row. */
  function Regrade(row: Row, grade: real, answer: string, now: int): Row {
    if row.grade.None? then row.(grade := Some(grade), stamp := now)
    else if row.grade.value == grade then row
    else if Fold(answer) == "y" then row.(grade := Some(grade), stamp := now)
    else row
  }

  /** The table after registering `grade` for `id`: only that student's row follows the rule. */
  function Graded(rows: seq<Row>, id: int, grade: real, answer: string, now: int): (r: seq<Row>)
    ensures |r| == |rows|
  {
    seq(|rows|, i requires 0 <= i < |rows| => if rows[i].id == id then Regrade(rows[i], grade, answer, now) else rows[i])
  }

  /**
   * Registering keeps every id, name and search text and every other row;
   * afterwards the student holds the new grade exactly when they had none,
   * had that grade already, or the answer was `y`; the timestamp moves only
   * when the grade is written.
   */
  lemma GradedRule(rows: seq<Row>, id: int, grade: real, answer: string, now: int, i: nat)
    requires i < |rows| && rows[i].id == id
    ensures var after := Graded(rows, id, grade, answer, now);
      (forall j :: 0 <= j < |rows| ==>
         after[j].id == rows[j].id && after[j].name == rows[j].name && after[j].search == rows[j].search)
      && (forall j :: 0 <= j < |rows| && rows[j].id != id ==> after[j] == rows[j])
      && (after[i].grade == Some(grade) <==>
           rows[i].grade.None? || rows[i].grade == Some(grade) || Fold(answer) == "y")
      && (after[i].stamp != rows[i].stamp ==> after[i].stamp == now && after[i].grade == Some(grade))
      && (rows[i].grade.Some? && rows[i].grade != Some(grade) && Fold(answer) != "y" ==> after[i] == rows[i])
      && (rows[i].grade.None? || (rows[i].grade != Some(grade) && Fold(answer) == "y") ==>
            after[i] == rows[i].(grade := Some(grade), stamp := now))
      && (rows[i].grade == Some(grade) ==> after[i] == rows[i])
  {
  }

  // ---------------------------------------------------------------------
  // pick_result

  /** What `pick_result` does: return an id, restart the step, type a new student, or keep asking. */
  datatype Pick = Picked(id: int) | Restart | NewStudent | Waiting

  /** `matches[int(response) - 1]`, negative positions counting from the end, or `None` on an error. */
  function Selection(matches: seq<int>, response: string): Option<nat> {
    match ParseInt(response)
    case None => None
    case Some(n) =>
      var sel := n - 1;
      if 0 <= sel < |matches| then Some(sel)
      else if -|matches| <= sel < 0 then Some(|matches| + sel)
      else None
  }

  /** The first of `responses[k..]` that selects a match. */
  function SelectFrom(matches: seq<int>, responses: seq<string>, k: nat): Pick
    requires k <= |responses|
    decreases |responses| - k
  {
    if k == |responses| then Waiting
    else match Selection(matches, responses[k])
      case Some(i) => Picked(matches[i])
      case None => SelectFrom(matches, responses, k + 1)
  }

  /** Lines 217-250 over the answers typed so far. */
  function PickSpec(matches: seq<int>, responses: seq<string>): Pick {
    if |matches| == 1 then Picked(matches[0])
    else if |responses| == 0 then Waiting
    else if responses[0] == "" then Restart
    else if responses[0] == "0" then NewStudent
    else SelectFrom(matches, responses, 0)
  }

  /** Lines 217-250, the prompts' answers given as `responses`. */
  method PickResult(matches: seq<int>, responses: seq<string>) returns (r: Pick)
    ensures r == PickSpec(matches, responses)
  {
    if |matches| == 1 {
      return Picked(matches[0]);
    }
    if |responses| == 0 {
      return Waiting;
    }
    var response := responses[0];
    if response == "" {
      return Restart;
    }
    if response == "0" {
      return NewStudent;
    }
    var k := 0;
    while k < |responses|
      invariant 0 <= k <= |responses|
      invariant SelectFrom(matches, responses, 0) == SelectFrom(matches, responses, k)
    {
      var selection := Selection(matches, responses[k]);
      if selection.Some? {
        return Picked(matches[selection.value]);
      }
      k := k + 1;
    }
    return Waiting;
  }

  lemma {:induction false} SelectFromPicks(matches: seq<int>, responses: seq<string>, k: nat)
    requires k <= |responses|
    ensures SelectFrom(matches, responses, k).Picked? ==> SelectFrom(matches, responses, k).id in matches
    ensures SelectFrom(matches, responses, k).Picked? || SelectFrom(matches, responses, k) == Waiting
    decreases |responses| - k
  {
    if k < |responses| && Selection(matches, responses[k]).None? {
      SelectFromPicks(matches, responses, k + 1);
    }
  }

  /** A picked id is always one of the matches. */
  lemma PickedIsAMatch(matches: seq<int>, responses: seq<string>)
    requires |matches| > 0
    ensures PickSpec(matches, responses).Picked? ==> PickSpec(matches, responses).id in matches
  {
    if |matches| != 1 && |responses| > 0 {
      SelectFromPicks(matches, responses, 0);
    }
  }

  /** An answer that reads as the number shown next to a match picks that match. */
  lemma PickByNumber(matches: seq<int>, answer: string, n: int)
    requires |matches| >= 2 && 1 <= n <= |matches| && ParseInt(answer) == Some(n)
    ensures PickSpec(matches, [answer]) == Picked(matches[n - 1])
  {
    assert Selection(matches, answer) == Some(n - 1);
  }

  /**
   * Only the first answer can restart or ask for a new student: a later
   * answer that reads as `0` is position -1 and picks the last match.
   */
  lemma LaterZeroPicksLast(matches: seq<int>, responses: seq<string>)
    requires |matches| >= 2 && |responses| >= 2
    requires responses[0] != "" && responses[0] != "0" && ParseInt(responses[0]) == None
    requires ParseInt(responses[1]) == Some(0)
    ensures PickSpec(matches, responses) == Picked(matches[|matches| - 1])
  {
    assert Selection(matches, responses[1]) == Some(|matches| - 1);
    assert SelectFrom(matches, responses, 1) == Picked(matches[|matches| - 1]);
  }

  // ---------------------------------------------------------------------
  // save_backup

  /** `os.rename(src, dest)`: the content moves and `src` disappears. */
  function Rename(files: map<nat, string>, src: nat, dest: nat): map<nat, string>
    requires src in files
  {
    files[dest := files[src]] - {src}
  }

  /** The lowest slot among `k..4` that holds no backup, or 5. */
  function FirstFree(files: map<nat, string>, k: nat): (f: nat)
    requires k <= 5
    ensures k <= f <= 5 && (f < 5 ==> f !in files) && forall j :: k <= j < f ==> j in files
    decreases 5 - k
  {
    if k == 5 then 5 else if k !in files then k else FirstFree(files, k + 1)
  }

  /** Slots 1..k renamed one down, in order. */
  function ShiftDown(files: map<nat, string>, k: nat): (r: map<nat, string>)
    requires k <= 4 && forall j :: 0 <= j <= 4 ==> j in files
    ensures forall j :: k < j <= 4 ==> j in r && r[j] == files[j]
    ensures forall j :: 0 <= j < k ==> j in r && r[j] == files[j + 1]
    ensures k in r <==> k == 0
    ensures forall j :: j > 4 ==> (j in r <==> j in files)
    ensures forall j :: j > 4 && j in files ==> r[j] == files[j]
  {
    if k == 0 then files
    else Rename(ShiftDown(files, k - 1), k, k - 1)
  }

  /** The backup slots after `save_backup` stores `content`. */
  function Saved(files: map<nat, string>, content: string): map<nat, string> {
    var f := FirstFree(files, 0);
    if f < 5 then files[f := content]
    else ShiftDown(files, 4)[4 := content]
  }

  /** The backup copies of one grading file, by slot number `X` of `.bak-X`. */
  class Backups {
    var files: map<nat, string>

    /** Lines 290-302, the file being backed up holding `content`; directory creation is not modelled. */
    method SaveBackup(content: string)
      modifies this
      ensures files == Saved(old(files), content)
    {
      var idx := 0;
      while idx < 5 && idx in files
        invariant 0 <= idx <= 5
        invariant forall j :: 0 <= j < idx ==> j in files
        invariant FirstFree(files, 0) == FirstFree(files, idx)
      {
        idx := idx + 1;
      }
      if idx == 5 {
        ghost var start := files;
        for k := 0 to 4
          invariant forall j :: 0 <= j <= 4 ==> j in start
          invariant files == ShiftDown(start, k)
        {
          files := Rename(files, k + 1, k);
        }
        idx := 4;
      }
      files := files[idx := content];
    }
  }

  /** With a free slot, the content goes to the lowest one and every other slot is kept. */
  lemma SavedLowestFree(files: map<nat, string>, content: string, f: nat)
    requires f < 5 && f !in files && forall j :: 0 <= j < f ==> j in files
    ensures Saved(files, content) == files[f := content]
  {
    FirstFreeIs(files, 0, f);
  }

  lemma {:induction false} FirstFreeIs(files: map<nat, string>, k: nat, f: nat)
    requires k <= f < 5 && f !in files && forall j :: k <= j < f ==> j in files
    ensures FirstFree(files, k) == f
    decreases 5 - k
  {
    if k < f {
      FirstFreeIs(files, k + 1, f);
    }
  }

  /** With all five slots taken, slots 1-4 move down to 0-3 and slot 4 gets the content. */
  lemma SavedRotates(files: map<nat, string>, content: string)
    requires forall j :: 0 <= j <= 4 ==> j in files
    ensures var after := Saved(files, content);
      after.Keys == files.Keys
      && (forall j :: 0 <= j < 4 ==> after[j] == files[j + 1])
      && after[4] == content
      && forall j :: j > 4 && j in files ==> after[j] == files[j]
  {
    var after := Saved(files, content);
    assert FirstFree(files, 0) == 5;
    forall j | j in files
      ensures j in after
    {
    }
  }

  /** At most five backups: saving never uses a slot beyond 4, and the content is always stored. */
  lemma SavedBounded(files: map<nat, string>, content: string)
    requires forall j :: j in files ==> j <= 4
    ensures var after := Saved(files, content);
      (forall j :: j in after ==> j <= 4) && exists j :: j in after && after[j] == content
  {
    var f := FirstFree(files, 0);
    if f < 5 {
      assert Saved(files, content)[f] == content;
    } else {
      SavedRotates(files, content);
      assert Saved(files, content)[4] == content;
    }
  }
}
