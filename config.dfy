/**
 * `uritool.config`: finding `uriconfig.ini` in the working directory or the
 * nearest ancestor holding one, and the settings read from it with their
 * fallbacks.
 */
module Config {
  import opened Base
  import opened Text

  // ---------------------------------------------------------------------
  // _read_config

  /** An absolute POSIX path, as its components: `[]` is `/`. */
  type Path = seq<string>

  const FileName := "uriconfig.ini"

  /** `os.path.join(basepath, 'uriconfig.ini')`. */
  function Candidate(dir: Path): Path {
    dir + [FileName]
  }

  /** `os.path.split(basepath)[0]`: the parent directory; `/` is its own parent. */
  function Parent(dir: Path): (p: Path)
    ensures |dir| > 0 ==> p == dir[..|dir| - 1]
    ensures |dir| == 0 ==> p == dir
  {
    if |dir| == 0 then dir else dir[..|dir| - 1]
  }

  /**
   * The path `_read_config` ends with: the candidate in `dir` if that file
   * exists, else the one of its parent, and so on up to `/`, whose
   * candidate is kept even when missing.
   */
  function Nearest(dir: Path, present: set<Path>): Path
    decreases |dir|
  {
    if Candidate(dir) in present || |dir| == 0 then Candidate(dir)
    else Nearest(Parent(dir), present)
  }

  /**
   * Lines 7-14 with the working directory as `cwd` and the existing files as
   * `present`: climb while the directory changes, stopping at the first
   * directory that holds the file.
   */
  method ReadConfigPath(cwd: Path, present: set<Path>) returns (path: Path)
    ensures path == Nearest(cwd, present)
  {
    var basepath := cwd;
    var prev: Option<Path> := None;
    path := Candidate(cwd);
    while prev != Some(basepath)
      invariant Nearest(cwd, present) == Nearest(basepath, present)
      invariant prev == Some(basepath) ==> |basepath| == 0 && path == Candidate(basepath)
      decreases |basepath| + (if prev == Some(basepath) then 0 else 1)
    {
      prev := Some(basepath);
      path := Candidate(basepath);
      if path in present {
        break;
      }
      basepath := Parent(basepath);
    }
  }

  /**
   * The file found is the one in the deepest directory on the way from
   * `cwd` up to `/` that holds one; it exists exactly when some directory on
   * that way holds one, and otherwise it is `/uriconfig.ini`.
   */
  lemma {:induction false} NearestIsDeepest(cwd: Path, present: set<Path>)
    ensures exists k ::
      && 0 <= k <= |cwd|
      && Nearest(cwd, present) == Candidate(cwd[..k])
      && (forall j :: k < j <= |cwd| ==> Candidate(cwd[..j]) !in present)
    ensures Nearest(cwd, present) in present <==>
      exists j :: 0 <= j <= |cwd| && Candidate(cwd[..j]) in present
    ensures Nearest(cwd, present) !in present ==> Nearest(cwd, present) == Candidate([])
    decreases |cwd|
  {
    assert cwd[..|cwd|] == cwd;
    if Candidate(cwd) !in present && |cwd| > 0 {
      var up := Parent(cwd);
      NearestIsDeepest(up, present);
      var k :| 0 <= k <= |up| && Nearest(up, present) == Candidate(up[..k])
        && forall j :: k < j <= |up| ==> Candidate(up[..j]) !in present;
      assert forall j :: 0 <= j <= |up| ==> up[..j] == cwd[..j];
      forall j | k < j <= |cwd|
        ensures Candidate(cwd[..j]) !in present
      {
        if j < |cwd| {
          assert up[..j] == cwd[..j];
        }
      }
      if exists j :: 0 <= j <= |cwd| && Candidate(cwd[..j]) in present {
        var j :| 0 <= j <= |cwd| && Candidate(cwd[..j]) in present;
        assert j < |cwd|;
        assert up[..j] == cwd[..j];
      }
    } else if |cwd| == 0 {
      assert cwd[..0] == cwd;
    }
  }

  // ---------------------------------------------------------------------
  // Settings

  /** What `ConfigParser` read: section name to option name to value. */
  type Ini = map<string, map<string, string>>

  /** `parser.get(section, option)` when the option is present. */
  function Get(ini: Ini, section: string, option: string): Option<string> {
    if section in ini && option in ini[section] then Some(ini[section][option]) else None
  }

  /** `parser.get(section, option, fallback=fallback)` for a string fallback. */
  function GetOr(ini: Ini, section: string, option: string, fallback: string): (r: string)
    ensures Get(ini, section, option).Some? ==> r == Get(ini, section, option).value
    ensures Get(ini, section, option).None? ==> r == fallback
  {
    match Get(ini, section, option)
    case Some(v) => v
    case None => fallback
  }

  /** The `ValueError` of `int()` on a part that is not a number. */
  datatype ConfigError = NotAnInteger(text: string)

  /** `list(map(int, parts))`: the first part that is not a number raises. */
  function ParseIds(parts: seq<string>): (r: Result<seq<int>, ConfigError>)
    ensures r.Ok? <==> forall i :: 0 <= i < |parts| ==> ParseInt(parts[i]).Some?
    ensures r.Ok? ==> |r.value| == |parts| && forall i :: 0 <= i < |parts| ==> ParseInt(parts[i]) == Some(r.value[i])
    ensures r.Err? ==> exists i :: 0 <= i < |parts| && ParseInt(parts[i]) == None && r.error == NotAnInteger(parts[i])
  {
    if |parts| == 0 then Ok([])
    else match ParseInt(parts[0])
      case None => Err(NotAnInteger(parts[0]))
      case Some(id) =>
        match ParseIds(parts[1..])
        case Err(e) => Err(e)
        case Ok(rest) => Ok([id] + rest)
  }

  /** Line 31 as written: `''.split(',')` is `['']`, and `int('')` raises. */
  function IgnoreIdsAsWritten(text: string): Result<seq<int>, ConfigError> {
    ParseIds(Split(text, ','))
  }

  /** Line 31 as intended: an empty setting is an empty list. */
  function IgnoreIds(text: string): Result<seq<int>, ConfigError> {
    if text == "" then Ok([]) else ParseIds(Split(text, ','))
  }

  /** The module's settings; absent ones are `None`. */
  datatype Settings = Settings(
    username: Option<string>,
    password: Option<string>,
    discipline: Option<string>,
    ignoreIds: seq<int>,
    urlcache: string)

  const DefaultCache := "urlcache.db"

  /** Lines 27-34 as written. */
  function LoadAsWritten(ini: Ini): Result<Settings, ConfigError> {
    match IgnoreIdsAsWritten(GetOr(ini, "uri", "ignore_ids", ""))
    case Err(e) => Err(e)
    case Ok(ids) =>
      Ok(Settings(Get(ini, "uri", "username"), Get(ini, "uri", "password"), Get(ini, "uri", "discipline"),
        ids, GetOr(ini, "conf", "urlcache", DefaultCache)))
  }

  /** Lines 27-34 with an absent `ignore_ids` read as no ids. */
  function Load(ini: Ini): Result<Settings, ConfigError> {
    match IgnoreIds(GetOr(ini, "uri", "ignore_ids", ""))
    case Err(e) => Err(e)
    case Ok(ids) =>
      Ok(Settings(Get(ini, "uri", "username"), Get(ini, "uri", "password"), Get(ini, "uri", "discipline"),
        ids, GetOr(ini, "conf", "urlcache", DefaultCache)))
  }

  /** An id list written as comma-separated numbers. */
  function IdsText(ids: seq<int>): string {
    Join(seq(|ids|, i requires 0 <= i < |ids| => IntToString(ids[i])), ",")
  }

  /** Reading back a written id list gives the same ids, the empty list included. */
  lemma IgnoreIdsRoundTrip(ids: seq<int>)
    ensures IgnoreIds(IdsText(ids)) == Ok(ids)
  {
    var parts := seq(|ids|, i requires 0 <= i < |ids| => IntToString(ids[i]));
    if |ids| > 0 {
      forall k | 0 <= k < |parts|
        ensures Excludes(parts[k], ',')
      {
      }
      SplitJoin(parts, ',');
      assert IdsText(ids) != "" by {
        NonEmptyJoin(parts, ",");
      }
      forall i | 0 <= i < |parts|
        ensures ParseInt(parts[i]) == Some(ids[i])
      {
        ParseIntToString(ids[i]);
      }
      var r := ParseIds(parts);
      assert r.Ok?;
      assert r.value == ids;
    }
  }

  lemma NonEmptyJoin(parts: seq<string>, sep: string)
    requires |parts| > 0 && |parts[0]| > 0
    ensures |Join(parts, sep)| > 0
  {
  }

  /** As written, a missing `ignore_ids` option stops the program: `int('')` raises. */
  lemma AsWrittenRejectsMissingIds(ini: Ini)
    requires Get(ini, "uri", "ignore_ids").None?
    ensures LoadAsWritten(ini) == Err(NotAnInteger(""))
  {
    EmptyIsNotInt();
  }

  /** The two readings differ only on the empty setting. */
  lemma IgnoreIdsAgree(text: string)
    ensures text != "" ==> IgnoreIds(text) == IgnoreIdsAsWritten(text)
    ensures IgnoreIdsAsWritten("") == Err(NotAnInteger("")) && IgnoreIds("") == Ok([])
  {
    EmptyIsNotInt();
  }

  /**
   * The fallbacks: absent credentials and discipline are `None`, an absent
   * id list is empty and an absent cache is `urlcache.db`; present values
   * are taken as they are.
   */
  lemma LoadFallbacks(ini: Ini)
    requires IgnoreIds(GetOr(ini, "uri", "ignore_ids", "")).Ok?
    ensures Load(ini).Ok?
    ensures var s := Load(ini).value;
      s.username == Get(ini, "uri", "username")
      && s.password == Get(ini, "uri", "password")
      && s.discipline == Get(ini, "uri", "discipline")
      && (Get(ini, "uri", "ignore_ids").None? ==> s.ignoreIds == [])
      && (Get(ini, "conf", "urlcache").None? ==> s.urlcache == DefaultCache)
      && (Get(ini, "conf", "urlcache").Some? ==> s.urlcache == Get(ini, "conf", "urlcache").value)
  {
  }

  /** A present id list holds exactly the numbers between its commas, in order. */
  lemma LoadIgnoreIds(ini: Ini, text: string)
    requires Get(ini, "uri", "ignore_ids") == Some(text) && text != ""
    ensures var parts := Split(text, ',');
      Load(ini).Ok? <==> forall i :: 0 <= i < |parts| ==> ParseInt(parts[i]).Some?
    ensures Load(ini).Ok? ==>
      var parts := Split(text, ',');
      |Load(ini).value.ignoreIds| == |parts|
      && forall i :: 0 <= i < |parts| ==> ParseInt(parts[i]) == Some(Load(ini).value.ignoreIds[i])
  {
  }
}
