/**
 * The conversions `uritool.urilib` applies to scraped cells: the judge's
 * `DD/MM/YY-HH:MM:SS` time stamps, `NN%` rankings, one submission row of a
 * profile page, the row scan that stops at the end of the data, and the
 * `key: value` lines of a public profile.
 */
module Records {
  import opened Base
  import opened Text

  /** The Python exceptions a conversion can raise. */
  datatype RowError = ValueError | IndexError | TypeError | KeyError

  datatype Date = Date(year: int, month: int, day: int)

  datatype DateTime = DateTime(date: Date, hour: int, minute: int, second: int)

  /** One submission of a profile page (`Problem` in the source); `time` stays text. */
  datatype Problem = Problem(id: int, name: string, ranking: int, submission: string,
                             lang: string, time: string, date: DateTime)

  predicate IsLeap(year: int) {
    year % 4 == 0 && (year % 100 != 0 || year % 400 == 0)
  }

  function DaysInMonth(year: int, month: int): int
    requires 1 <= month <= 12
  {
    if month == 2 then (if IsLeap(year) then 29 else 28)
    else if month == 4 || month == 6 || month == 9 || month == 11 then 30
    else 31
  }

  /** The range checks of Python's `datetime.date` constructor. */
  predicate ValidDate(d: Date) {
    1 <= d.year <= 9999 && 1 <= d.month <= 12 && 1 <= d.day <= DaysInMonth(d.year, d.month)
  }

  /** The range checks of Python's `datetime.datetime` constructor. */
  predicate ValidDateTime(t: DateTime) {
    ValidDate(t.date) && 0 <= t.hour <= 23 && 0 <= t.minute <= 59 && 0 <= t.second <= 59
  }

  /** `map(int, parts)` unpacked into exactly three names. */
  function ThreeInts(parts: seq<string>): (r: Option<(int, int, int)>)
    ensures r.Some? <==> |parts| == 3 && ParseInt(parts[0]).Some? && ParseInt(parts[1]).Some? && ParseInt(parts[2]).Some?
  {
    if |parts| != 3 then None
    else match (ParseInt(parts[0]), ParseInt(parts[1]), ParseInt(parts[2]))
      case (Some(a), Some(b), Some(c)) => Some((a, b, c))
      case _ => None
  }

  /**
   * `_todatetime`: split at `-` into exactly a date and a time, the date at `/`
   * into day, month and year, the time at `:` into hour, minute and second.
   * The year is taken as written: `21` is the year 21.
   */
  function ToDateTime(st: string): (r: Option<DateTime>)
    ensures r.Some? ==> ValidDateTime(r.value)
  {
    var halves := Split(st, '-');
    if |halves| != 2 then None
    else match (ThreeInts(Split(halves[0], '/')), ThreeInts(Split(halves[1], ':')))
      case (Some((dd, mm, yy)), Some((hh, mi, ss))) =>
        var t := DateTime(Date(yy, mm, dd), hh, mi, ss);
        if ValidDateTime(t) then Some(t) else None
      case _ => None
  }

  /** The judge zero-fills every field of a time stamp to two digits: `DD/MM/YY-HH:MM:SS`. */
  const StampWidth: nat := 2

  /** A time stamp rendered with each field zero-filled to `width` digits (none for 0). */
  function FormatDateTime(t: DateTime, width: nat): string
    requires ValidDateTime(t)
  {
    Join([Join([ZFill(t.date.day, width), ZFill(t.date.month, width), ZFill(t.date.year, width)], "/"),
          Join([ZFill(t.hour, width), ZFill(t.minute, width), ZFill(t.second, width)], ":")], "-")
  }

  lemma DigitsExclude(s: string, c: char)
    requires AllDigits(s) && !IsDigit(c)
    ensures Excludes(s, c)
  {
  }

  lemma SplitDigitFields(x: string, y: string, z: string, sep: char)
    requires AllDigits(x) && AllDigits(y) && AllDigits(z) && !IsDigit(sep)
    ensures Split(Join([x, y, z], [sep]), sep) == [x, y, z]
  {
    DigitsExclude(x, sep);
    DigitsExclude(y, sep);
    DigitsExclude(z, sep);
    SplitJoin([x, y, z], sep);
  }

  lemma ThreeIntsOf(x: string, y: string, z: string, a: int, b: int, c: int)
    requires ParseInt(x) == Some(a) && ParseInt(y) == Some(b) && ParseInt(z) == Some(c)
    ensures ThreeInts([x, y, z]) == Some((a, b, c))
  {
  }

  /** Three digit fields joined by `sep` split back and read as three integers, and hold no `-`. */
  lemma ThreeFields(x: string, y: string, z: string, sep: char, a: int, b: int, c: int)
    requires AllDigits(x) && AllDigits(y) && AllDigits(z) && !IsDigit(sep) && sep != '-'
    requires ParseInt(x) == Some(a) && ParseInt(y) == Some(b) && ParseInt(z) == Some(c)
    ensures ThreeInts(Split(Join([x, y, z], [sep]), sep)) == Some((a, b, c))
    ensures Excludes(Join([x, y, z], [sep]), '-')
  {
    SplitDigitFields(x, y, z, sep);
    ThreeIntsOf(x, y, z, a, b, c);
    DigitsExclude(x, '-');
    DigitsExclude(y, '-');
    DigitsExclude(z, '-');
    JoinExcludes([x, y, z], [sep], '-');
  }

  /** A date half and a time half that read as the parts of `t`, joined by `-`, are read back as `t`. */
  lemma ReadStamp(date: string, time: string, t: DateTime)
    requires ValidDateTime(t) && Excludes(date, '-') && Excludes(time, '-')
    requires ThreeInts(Split(date, '/')) == Some((t.date.day, t.date.month, t.date.year))
    requires ThreeInts(Split(time, ':')) == Some((t.hour, t.minute, t.second))
    ensures ToDateTime(Join([date, time], "-")) == Some(t)
  {
    SplitJoin([date, time], '-');
  }

  /** One field of a stamp: zero-filled digits that read back as the number. */
  lemma StampField(n: nat, width: nat)
    ensures AllDigits(ZFill(n, width)) && ParseInt(ZFill(n, width)) == Some(n)
  {
    ZFillValue(n, width);
    ParseIntZFill(n, width);
  }

  /**
   * `_todatetime` reads back every valid time stamp, whatever the zero
   * padding of its fields: the judge's `DD/MM/YY-HH:MM:SS` with
   * `StampWidth`, or no padding at all.
   */
  lemma ToDateTimeFormat(t: DateTime, width: nat)
    requires ValidDateTime(t)
    ensures ToDateTime(FormatDateTime(t, width)) == Some(t)
  {
    StampField(t.date.day, width);
    StampField(t.date.month, width);
    StampField(t.date.year, width);
    StampField(t.hour, width);
    StampField(t.minute, width);
    StampField(t.second, width);
    ThreeFields(ZFill(t.date.day, width), ZFill(t.date.month, width), ZFill(t.date.year, width), '/',
                t.date.day, t.date.month, t.date.year);
    ThreeFields(ZFill(t.hour, width), ZFill(t.minute, width), ZFill(t.second, width), ':',
                t.hour, t.minute, t.second);
    ReadStamp(Join([ZFill(t.date.day, width), ZFill(t.date.month, width), ZFill(t.date.year, width)], "/"),
              Join([ZFill(t.hour, width), ZFill(t.minute, width), ZFill(t.second, width)], ":"), t);
  }

  /** Anything but exactly one `-` is rejected. */
  lemma ToDateTimeNeedsOneDash(st: string)
    requires |Split(st, '-')| != 2
    ensures ToDateTime(st) == None
  {
  }

  /** `_ranking`: the integer written before the last character (the `%` sign). */
  function Ranking(st: string): Option<int> {
    ParseInt(Prefix(st, -1))
  }

  lemma RankingOfPercent(n: int)
    ensures Ranking(IntToString(n) + "%") == Some(n)
  {
    var s := IntToString(n) + "%";
    assert Prefix(s, -1) == IntToString(n);
    ParseIntToString(n);
  }

  /** An empty cell has no last character to drop and is not a ranking. */
  lemma RankingOfEmpty()
    ensures Ranking("") == None
  {
    assert Prefix("", -1) == "";
    EmptyIsNotInt();
  }

  /** The rule that ends the scan of a table body: an empty first cell, or a lone cell. */
  predicate EndsScan(cells: seq<string>)
    requires |cells| > 0
  {
    cells[0] == "" || |cells| == 1
  }

  /**
   * One row of a profile page (lines 59-64): column 0 an int, column 2 a
   * ranking, column 6 a time stamp, and exactly seven columns for `Problem`.
   * Errors come in the order the source meets them.
   */
  function ConvertRow(cells: seq<string>): Result<Problem, RowError> {
    if |cells| == 0 then Err(IndexError)
    else match ParseInt(cells[0])
      case None => Err(ValueError)
      case Some(id) =>
        if |cells| < 3 then Err(IndexError)
        else match Ranking(cells[2])
          case None => Err(ValueError)
          case Some(ranking) =>
            if |cells| < 7 then Err(IndexError)
            else match ToDateTime(cells[6])
              case None => Err(ValueError)
              case Some(date) =>
                if |cells| > 7 then Err(TypeError)
                else Ok(Problem(id, cells[1], ranking, cells[3], cells[4], cells[5], date))
  }

  /** A converted row has exactly seven cells, each field read from its own column. */
  lemma ConvertRowFields(cells: seq<string>)
    ensures var r := ConvertRow(cells);
      r.Ok? ==> (|cells| == 7 && r.value.name == cells[1] && r.value.submission == cells[3]
                 && r.value.lang == cells[4] && r.value.time == cells[5]
                 && Some(r.value.id) == ParseInt(cells[0]) && Some(r.value.ranking) == Ranking(cells[2])
                 && Some(r.value.date) == ToDateTime(cells[6]))
  {
  }

  /** A seven-cell row with a text id, a percent ranking and a judge time stamp converts. */
  lemma ConvertRowOk(cells: seq<string>, id: int, ranking: int, date: DateTime)
    requires |cells| == 7 && ValidDateTime(date)
    requires cells[0] == IntToString(id) && cells[2] == IntToString(ranking) + "%" && cells[6] == FormatDateTime(date, StampWidth)
    ensures ConvertRow(cells) == Ok(Problem(id, cells[1], ranking, cells[3], cells[4], cells[5], date))
  {
    ParseIntToString(id);
    RankingOfPercent(ranking);
    ToDateTimeFormat(date, StampWidth);
    ConvertParsed(cells, id, ranking, date);
  }

  lemma ConvertParsed(cells: seq<string>, id: int, ranking: int, date: DateTime)
    requires |cells| == 7
    requires ParseInt(cells[0]) == Some(id) && Ranking(cells[2]) == Some(ranking) && ToDateTime(cells[6]) == Some(date)
    ensures ConvertRow(cells) == Ok(Problem(id, cells[1], ranking, cells[3], cells[4], cells[5], date))
  {
  }

  /** The row conversion the scan applies: `ConvertRow` on a profile page. */
  type Converter = seq<string> -> Result<Problem, RowError>

  /**
   * Lines 52-65: convert rows until one ends the scan. A row without cells
   * fails on `data[0]`; a bad row fails the whole page.
   */
  function ScanRows(rows: seq<seq<string>>, convert: Converter): Result<seq<Problem>, RowError> {
    if |rows| == 0 then Ok([])
    else if |rows[0]| == 0 then Err(IndexError)
    else if EndsScan(rows[0]) then Ok([])
    else match convert(rows[0])
      case Err(e) => Err(e)
      case Ok(p) =>
        match ScanRows(rows[1..], convert)
        case Err(e) => Err(e)
        case Ok(ps) => Ok([p] + ps)
  }

  /**
   * A successful scan converts a prefix of the rows, in order, none of which
   * ends the scan; the row after that prefix, if any, is the one that ends it.
   */
  lemma {:induction false} ScanRowsPrefix(rows: seq<seq<string>>, convert: Converter)
    ensures var r := ScanRows(rows, convert);
      r.Ok? ==> (|r.value| <= |rows|
        && (forall k :: 0 <= k < |r.value| ==>
              |rows[k]| > 0 && !EndsScan(rows[k]) && convert(rows[k]) == Ok(r.value[k]))
        && (|r.value| < |rows| ==> |rows[|r.value|]| > 0 && EndsScan(rows[|r.value|])))
  {
    if |rows| > 0 && |rows[0]| > 0 && !EndsScan(rows[0]) && convert(rows[0]).Ok? {
      ScanRowsPrefix(rows[1..], convert);
      var r := ScanRows(rows, convert);
      if r.Ok? {
        var ps := ScanRows(rows[1..], convert).value;
        assert r.value == [convert(rows[0]).value] + ps;
        forall k | 0 <= k < |r.value|
          ensures |rows[k]| > 0 && !EndsScan(rows[k]) && convert(rows[k]) == Ok(r.value[k])
        {
          if k > 0 { assert rows[k] == rows[1..][k - 1]; }
        }
        if |r.value| < |rows| { assert rows[|r.value|] == rows[1..][|ps|]; }
      }
    }
  }

  /** A table none of whose rows ends the scan or fails to convert is converted whole, row by row. */
  lemma {:induction false} ScanAllRows(rows: seq<seq<string>>, convert: Converter)
    requires forall k :: 0 <= k < |rows| ==> |rows[k]| > 0 && !EndsScan(rows[k]) && convert(rows[k]).Ok?
    ensures ScanRows(rows, convert).Ok? && |ScanRows(rows, convert).value| == |rows|
    ensures forall k :: 0 <= k < |rows| ==> ScanRows(rows, convert).value[k] == convert(rows[k]).value
  {
    if |rows| > 0 {
      ScanAllRows(rows[1..], convert);
      var ps := ScanRows(rows[1..], convert).value;
      assert ScanRows(rows, convert).value == [convert(rows[0]).value] + ps;
      forall k | 1 <= k < |rows| ensures ScanRows(rows, convert).value[k] == convert(rows[k]).value {
        assert rows[k] == rows[1..][k - 1];
      }
    }
  }

  /** A row that converts has seven cells and a non-empty first one, so it never ends the scan. */
  lemma ConvertedRowContinues(cells: seq<string>)
    requires ConvertRow(cells).Ok?
    ensures |cells| == 7 && !EndsScan(cells)
  {
    EmptyIsNotInt();
  }

  /** `done` followed by the rows of a scan, or the scan's error. */
  function PrependRows(done: seq<Problem>, r: Result<seq<Problem>, RowError>): Result<seq<Problem>, RowError> {
    match r
    case Err(e) => Err(e)
    case Ok(ps) => Ok(done + ps)
  }

  /** The scan as the source runs it: a loop over the rows that breaks at the end marker. */
  method ScanTable(rows: seq<seq<string>>, convert: Converter) returns (r: Result<seq<Problem>, RowError>)
    ensures r == ScanRows(rows, convert)
  {
    var transaction: seq<Problem> := [];
    var k := 0;
    assert rows[k..] == rows;
    assert PrependRows([], ScanRows(rows, convert)) == ScanRows(rows, convert) by {
      match ScanRows(rows, convert)
      case Err(e) =>
      case Ok(ps) => assert [] + ps == ps;
    }
    while k < |rows|
      invariant 0 <= k <= |rows|
      invariant ScanRows(rows, convert) == PrependRows(transaction, ScanRows(rows[k..], convert))
    {
      var data := rows[k];
      if |data| == 0 {
        assert rows[k..][0] == data;
        return Err(IndexError);
      }
      if data[0] == "" || |data| == 1 {
        assert rows[k..][0] == data;
        break;
      }
      var converted := convert(data);
      match converted {
        case Err(e) =>
          assert rows[k..][0] == data;
          return Err(e);
        case Ok(p) =>
          ScanRowsStep(rows, convert, k, transaction, p);
          transaction := transaction + [p];
      }
      k := k + 1;
    }
    assert ScanRows(rows[k..], convert) == Ok([]) by {
      if k == |rows| { assert rows[k..] == []; } else { assert rows[k..][0] == rows[k]; }
    }
    assert transaction + [] == transaction;
    r := Ok(transaction);
  }

  lemma ScanRowsStep(rows: seq<seq<string>>, convert: Converter, k: nat, done: seq<Problem>, p: Problem)
    requires k < |rows| && |rows[k]| > 0 && !EndsScan(rows[k]) && convert(rows[k]) == Ok(p)
    ensures PrependRows(done, ScanRows(rows[k..], convert)) == PrependRows(done + [p], ScanRows(rows[k + 1..], convert))
  {
    assert rows[k..][1..] == rows[k + 1..];
    assert rows[k..][0] == rows[k];
    match ScanRows(rows[k + 1..], convert)
    case Err(e) =>
    case Ok(ps) => assert done + ([p] + ps) == done + [p] + ps;
  }

  // ---------------------------------------------------------------------
  // Public profile

  datatype Profile = Profile(username: string, university: string, country: string, solved: int,
                             tried: int, submissions: int, ranking: int, date: Date)

  /** One information line split at its first `:`: the lower-cased key and the unstripped value. */
  function LinePair(line: string): (string, string) {
    var (key, _, value) := Partition(Strip(line), ':');
    (Fold(key), value)
  }

  /** Line 93: `dict((k.lower(), v) ...)` over the split lines; a later key wins. */
  function Entries(pairs: seq<(string, string)>): map<string, string> {
    if |pairs| == 0 then map[]
    else Entries(pairs[..|pairs| - 1])[pairs[|pairs| - 1].0 := pairs[|pairs| - 1].1]
  }

  /** The dictionary has exactly the keys of the lines. */
  lemma {:induction false} EntriesKeys(pairs: seq<(string, string)>)
    ensures Entries(pairs).Keys == set i | 0 <= i < |pairs| :: pairs[i].0
  {
    if |pairs| > 0 {
      var init := pairs[..|pairs| - 1];
      EntriesKeys(init);
      assert forall i :: 0 <= i < |init| ==> init[i] == pairs[i];
      assert (set i | 0 <= i < |pairs| :: pairs[i].0) == (set i | 0 <= i < |init| :: init[i].0) + {pairs[|pairs| - 1].0};
    }
  }

  /** Each key holds the value of the last line that carries it. */
  lemma {:induction false} EntriesLastWins(pairs: seq<(string, string)>, i: nat)
    requires i < |pairs|
    requires forall j :: i < j < |pairs| ==> pairs[j].0 != pairs[i].0
    ensures pairs[i].0 in Entries(pairs) && Entries(pairs)[pairs[i].0] == pairs[i].1
  {
    if i < |pairs| - 1 {
      var init := pairs[..|pairs| - 1];
      assert init[i] == pairs[i];
      forall j | i < j < |init| ensures init[j].0 != init[i].0 {
        assert init[j] == pairs[j];
      }
      EntriesLastWins(init, i);
    }
  }

  /** The information lines of a profile as a dictionary (lines 90-93). */
  function ProfileEntries(lines: seq<string>): map<string, string> {
    Entries(seq(|lines|, i requires 0 <= i < |lines| => LinePair(lines[i])))
  }

  /** The keys the profile code pops, and the fields of `Profile`. */
  const PoppedKeys: set<string> := {"desde", "posição", "resolvido", "submissões", "tentado", "país", "universidade"}
  const ProfileFields: set<string> := {"username", "university", "country", "solved", "tried", "submissions", "ranking", "date"}

  /** `int(data.pop(key))`, with the KeyError and the ValueError it may raise. */
  function PopInt(m: map<string, string>, key: string): Result<int, RowError> {
    if key !in m then Err(KeyError)
    else match ParseInt(m[key]) case None => Err(ValueError) case Some(n) => Ok(n)
  }

  /** `desde` as `dd/mm/yyyy`, turned into `datetime.date(yyyy, mm, dd)`. */
  function SinceDate(text: string): Option<Date> {
    match ThreeInts(Split(text, '/'))
    case None => None
    case Some((dd, mm, yyyy)) => if ValidDate(Date(yyyy, mm, dd)) then Some(Date(yyyy, mm, dd)) else None
  }

  /** `date` from `desde`, with the KeyError and the ValueError it may raise. */
  function PopDate(m: map<string, string>): Result<Date, RowError> {
    if "desde" !in m then Err(KeyError)
    else match SinceDate(m["desde"]) case None => Err(ValueError) case Some(d) => Ok(d)
  }

  /** `ranking` from `posição`: its text without the last character, as an int. */
  function PopRanking(m: map<string, string>): Result<int, RowError> {
    if "posição" !in m then Err(KeyError)
    else match ParseInt(Prefix(m["posição"], -1)) case None => Err(ValueError) case Some(n) => Ok(n)
  }

  /**
   * Lines 94-105 of `get_public_profile` over the dictionary of lines: pop and
   * convert each known key in turn, then build `Profile(**data)`, which
   * rejects any key left over.
   */
  function ProfileFrom(username: string, m: map<string, string>): Result<Profile, RowError> {
    match PopDate(m)
    case Err(e) => Err(e)
    case Ok(date) =>
      match PopRanking(m)
      case Err(e) => Err(e)
      case Ok(ranking) =>
        match PopInt(m, "resolvido")
        case Err(e) => Err(e)
        case Ok(solved) =>
          match PopInt(m, "submissões")
          case Err(e) => Err(e)
          case Ok(submissions) =>
            match PopInt(m, "tentado")
            case Err(e) => Err(e)
            case Ok(tried) =>
              if "país" !in m || "universidade" !in m then Err(KeyError)
              else if !(m.Keys <= PoppedKeys + ProfileFields) then Err(TypeError)
              else Ok(Profile(username, Strip(m["universidade"]), m["país"], solved, tried,
                              submissions, ranking, date))
  }

  /** A profile is built only when every popped key is present and no key but a profile field is left over. */
  lemma ProfileFromKeys(username: string, m: map<string, string>)
    ensures ProfileFrom(username, m).Ok? ==> PoppedKeys <= m.Keys <= PoppedKeys + ProfileFields
  {
    if ProfileFrom(username, m).Ok? {
      assert "desde" in m && "posição" in m;
      assert "resolvido" in m && "submissões" in m && "tentado" in m;
      PoppedPresent(m);
    }
  }

  lemma PoppedPresent(m: map<string, string>)
    requires "desde" in m && "posição" in m && "resolvido" in m && "submissões" in m && "tentado" in m
    requires "país" in m && "universidade" in m
    ensures PoppedKeys <= m.Keys
  {
  }

  /** Each field of a built profile comes from its own line, converted as the source converts it. */
  lemma ProfileFromFields(username: string, m: map<string, string>)
    ensures var r := ProfileFrom(username, m);
      r.Ok? ==> (r.value.username == username && r.value.country == m["país"]
        && r.value.university == Strip(m["universidade"])
        && PopDate(m) == Ok(r.value.date) && PopRanking(m) == Ok(r.value.ranking)
        && PopInt(m, "resolvido") == Ok(r.value.solved) && PopInt(m, "tentado") == Ok(r.value.tried)
        && PopInt(m, "submissões") == Ok(r.value.submissions))
  {
  }
}
