/**
 * Selecting and summarizing the submissions of a profile: `filter_problems`,
 * `_solvedproblems` and `_problemset` of `uritool.urilib`.
 */
module Reports {
  import opened Base
  import opened Records
  import opened Util

  // ---------------------------------------------------------------------
  // Time stamps in chronological order

  /** The fields of a time stamp, most significant first. */
  function StampFields(t: DateTime): seq<int> {
    [t.date.year, t.date.month, t.date.day, t.hour, t.minute, t.second]
  }

  /** Lexicographic `<=` on equally long sequences of integers. */
  predicate LexLe(a: seq<int>, b: seq<int>)
    requires |a| == |b|
  {
    |a| == 0 || a[0] < b[0] || (a[0] == b[0] && LexLe(a[1..], b[1..]))
  }

  /** `a <= b` on Python `datetime` values: chronological order. */
  predicate NotAfter(a: DateTime, b: DateTime) {
    LexLe(StampFields(a), StampFields(b))
  }

  lemma {:induction false} LexLeReflexive(a: seq<int>)
    ensures LexLe(a, a)
  {
    if |a| > 0 {
      LexLeReflexive(a[1..]);
    }
  }

  lemma {:induction false} LexLeTotal(a: seq<int>, b: seq<int>)
    requires |a| == |b|
    ensures LexLe(a, b) || LexLe(b, a)
  {
    if |a| > 0 && a[0] == b[0] {
      LexLeTotal(a[1..], b[1..]);
    }
  }

  lemma {:induction false} LexLeAntisymmetric(a: seq<int>, b: seq<int>)
    requires |a| == |b| && LexLe(a, b) && LexLe(b, a)
    ensures a == b
  {
    if |a| > 0 {
      LexLeAntisymmetric(a[1..], b[1..]);
      assert a == [a[0]] + a[1..] && b == [b[0]] + b[1..];
    }
  }

  /** Time stamps are totally ordered, and two that are each not after the other are equal. */
  lemma NotAfterOrder(a: DateTime, b: DateTime)
    ensures NotAfter(a, a)
    ensures NotAfter(a, b) || NotAfter(b, a)
    ensures NotAfter(a, b) && NotAfter(b, a) ==> a == b
  {
    LexLeReflexive(StampFields(a));
    LexLeTotal(StampFields(a), StampFields(b));
    if NotAfter(a, b) && NotAfter(b, a) {
      LexLeAntisymmetric(StampFields(a), StampFields(b));
      assert StampFields(a)[0] == StampFields(b)[0] && StampFields(a)[1] == StampFields(b)[1] && StampFields(a)[2] == StampFields(b)[2];
    }
  }

  // ---------------------------------------------------------------------
  // Order-preserving selection

  /** The tests of `filter_problems`' comprehensions. */
  datatype Test = LangIs(lang: Option<string>) | IdIn(ids: set<int>) | NotAfterDate(max: DateTime) | NotBeforeDate(min: DateTime)

  /** Whether a submission passes one test; `LangIs(None)` compares with `None` and never passes. */
  predicate Passes(p: Problem, t: Test) {
    match t
    case LangIs(lang) => lang == Some(p.lang)
    case IdIn(ids) => p.id in ids
    case NotAfterDate(max) => NotAfter(p.date, max)
    case NotBeforeDate(min) => NotAfter(min, p.date)
  }

  /** `[p for p in ps if test]`. */
  function Keep(ps: seq<Problem>, t: Test): (r: seq<Problem>)
    ensures |r| <= |ps|
    ensures forall p :: p in r <==> p in ps && Passes(p, t)
    ensures forall p :: multiset(r)[p] == if Passes(p, t) then multiset(ps)[p] else 0
  {
    if |ps| == 0 then []
    else
      assert ps == [ps[0]] + ps[1..];
      (if Passes(ps[0], t) then [ps[0]] else []) + Keep(ps[1..], t)
  }

  /** `a` is `b` with some elements dropped, the rest in their order. */
  predicate Subsequence(a: seq<Problem>, b: seq<Problem>)
    decreases |b|
  {
    if |a| == 0 then true
    else if |b| == 0 then false
    else (a[0] == b[0] && Subsequence(a[1..], b[1..])) || Subsequence(a, b[1..])
  }

  lemma {:induction false} SubsequenceRefl(a: seq<Problem>)
    ensures Subsequence(a, a)
  {
    if |a| > 0 {
      SubsequenceRefl(a[1..]);
    }
  }

  lemma {:induction false} SubsequenceTrans(a: seq<Problem>, b: seq<Problem>, c: seq<Problem>)
    requires Subsequence(a, b) && Subsequence(b, c)
    ensures Subsequence(a, c)
    decreases |c|
  {
    if |a| > 0 {
      if b[0] == c[0] && Subsequence(b[1..], c[1..]) {
        if a[0] == b[0] && Subsequence(a[1..], b[1..]) {
          SubsequenceTrans(a[1..], b[1..], c[1..]);
        } else {
          SubsequenceTrans(a, b[1..], c[1..]);
        }
      } else {
        SubsequenceTrans(a, b, c[1..]);
      }
    }
  }

  lemma {:induction false} KeepSubsequence(ps: seq<Problem>, t: Test)
    ensures Subsequence(Keep(ps, t), ps)
  {
    if |ps| > 0 {
      KeepSubsequence(ps[1..], t);
      var rest := Keep(ps[1..], t);
      if Passes(ps[0], t) {
        assert Keep(ps, t) == [ps[0]] + rest;
        assert ([ps[0]] + rest)[1..] == rest;
      } else {
        assert Keep(ps, t) == rest;
      }
    }
  }

  lemma {:induction false} KeepEverything(ps: seq<Problem>, t: Test)
    requires forall p :: p in ps ==> Passes(p, t)
    ensures Keep(ps, t) == ps
  {
    if |ps| > 0 {
      KeepEverything(ps[1..], t);
      assert ps == [ps[0]] + ps[1..];
    }
  }

  lemma {:induction false} KeepNothing(ps: seq<Problem>, t: Test)
    requires forall p :: !Passes(p, t)
    ensures Keep(ps, t) == []
  {
    if |ps| > 0 {
      KeepNothing(ps[1..], t);
    }
  }

  // ---------------------------------------------------------------------
  // filter_problems

  /** The arguments of `filter_problems`: `None` and the empty set leave a filter off. */
  datatype Criteria = Criteria(lang: Option<string>, ids: set<int>, maxdate: Option<DateTime>, mindate: Option<DateTime>)

  /** `if lang:`, where the empty string is false. */
  predicate LangGiven(c: Criteria) {
    c.lang.Some? && c.lang.value != ""
  }

  /** Lines 187-192: the id filter and the two inclusive date bounds, one after another. */
  function FilterRest(ps: seq<Problem>, c: Criteria): seq<Problem> {
    var byId := if |c.ids| > 0 then Keep(ps, IdIn(c.ids)) else ps;
    var byMax := if c.maxdate.Some? then Keep(byId, NotAfterDate(c.maxdate.value)) else byId;
    if c.mindate.Some? then Keep(byMax, NotBeforeDate(c.mindate.value)) else byMax
  }

  /** `filter_problems` with the normalized language compared against each submission's. */
  function FilterProblems(ps: seq<Problem>, c: Criteria): Result<seq<Problem>, LanguageError> {
    if LangGiven(c) then
      match NormalizeLanguage(c.lang.value)
      case Err(e) => Err(e)
      case Ok(lang) => Ok(FilterRest(Keep(ps, LangIs(Some(lang))), c))
    else Ok(FilterRest(ps, c))
  }

  /**
   * `filter_problems` as it stands (lines 183-185): the language is replaced
   * by what `normalize_language` returns, `None`, which no submission's
   * language equals.
   */
  function FilterProblemsAsWritten(ps: seq<Problem>, c: Criteria): Result<seq<Problem>, LanguageError> {
    if LangGiven(c) then
      match NormalizeLanguageAsWritten(c.lang.value)
      case Err(e) => Err(e)
      case Ok(lang) => Ok(FilterRest(Keep(ps, LangIs(lang)), c))
    else Ok(FilterRest(ps, c))
  }

  /** Whether a submission meets every active filter, `lang` being the normalized language if any. */
  predicate Meets(p: Problem, c: Criteria, lang: Option<string>) {
    (lang.Some? ==> p.lang == lang.value)
    && (|c.ids| > 0 ==> p.id in c.ids)
    && (c.maxdate.Some? ==> NotAfter(p.date, c.maxdate.value))
    && (c.mindate.Some? ==> NotAfter(c.mindate.value, p.date))
  }

  lemma FilterRestSelects(ps: seq<Problem>, c: Criteria)
    ensures forall p :: p in FilterRest(ps, c) <==> p in ps && Meets(p, c, None)
    ensures forall p :: multiset(FilterRest(ps, c))[p] == if Meets(p, c, None) then multiset(ps)[p] else 0
    ensures Subsequence(FilterRest(ps, c), ps)
  {
    FilterRestCounts(ps, c);
    var byId := if |c.ids| > 0 then Keep(ps, IdIn(c.ids)) else ps;
    var byMax := if c.maxdate.Some? then Keep(byId, NotAfterDate(c.maxdate.value)) else byId;
    var r := FilterRest(ps, c);
    SubsequenceRefl(ps);
    SubsequenceRefl(byId);
    SubsequenceRefl(byMax);
    if |c.ids| > 0 { KeepSubsequence(ps, IdIn(c.ids)); }
    if c.maxdate.Some? { KeepSubsequence(byId, NotAfterDate(c.maxdate.value)); }
    if c.mindate.Some? { KeepSubsequence(byMax, NotBeforeDate(c.mindate.value)); }
    SubsequenceTrans(byMax, byId, ps);
    SubsequenceTrans(r, byMax, ps);
  }

  /** Each filter stage keeps every copy of a submission that passes it and none of one that fails. */
  lemma FilterRestCounts(ps: seq<Problem>, c: Criteria)
    ensures forall p :: multiset(FilterRest(ps, c))[p] == if Meets(p, c, None) then multiset(ps)[p] else 0
  {
    var byId := if |c.ids| > 0 then Keep(ps, IdIn(c.ids)) else ps;
    var byMax := if c.maxdate.Some? then Keep(byId, NotAfterDate(c.maxdate.value)) else byId;
    var r := FilterRest(ps, c);
    forall p
      ensures multiset(r)[p] == if Meets(p, c, None) then multiset(ps)[p] else 0
    {
      assert multiset(byId)[p] == if |c.ids| > 0 && p.id !in c.ids then 0 else multiset(ps)[p];
      assert multiset(byMax)[p] == if c.maxdate.Some? && !NotAfter(p.date, c.maxdate.value) then 0 else multiset(byId)[p];
      assert multiset(r)[p] == if c.mindate.Some? && !NotAfter(c.mindate.value, p.date) then 0 else multiset(byMax)[p];
    }
  }

  /**
   * The result holds exactly the submissions that meet every active filter,
   * in their original order; an invalid language name exits.
   */
  lemma FilterSelects(ps: seq<Problem>, c: Criteria)
    ensures FilterProblems(ps, c).Err? <==> LangGiven(c) && c.lang.value !in Aliases
    ensures FilterProblems(ps, c).Ok? ==>
      var lang := if LangGiven(c) then Some(Aliases[c.lang.value]) else None;
      (forall p :: p in FilterProblems(ps, c).value <==> p in ps && Meets(p, c, lang))
      && (forall p :: multiset(FilterProblems(ps, c).value)[p] == if Meets(p, c, lang) then multiset(ps)[p] else 0)
      && Subsequence(FilterProblems(ps, c).value, ps)
  {
    if LangGiven(c) && c.lang.value in Aliases {
      var lang := Aliases[c.lang.value];
      var byLang := Keep(ps, LangIs(Some(lang)));
      FilterRestSelects(byLang, c);
      KeepSubsequence(ps, LangIs(Some(lang)));
      SubsequenceTrans(FilterRest(byLang, c), byLang, ps);
    } else {
      FilterRestSelects(ps, c);
    }
  }

  /** With no criteria the result is the input list. */
  lemma FilterNothing(ps: seq<Problem>)
    ensures FilterProblems(ps, Criteria(None, {}, None, None)) == Ok(ps)
    ensures FilterProblems(ps, Criteria(Some(""), {}, None, None)) == Ok(ps)
  {
  }

  /** Both date bounds are inclusive: a submission stamped exactly at a bound is kept. */
  lemma BoundsInclusive(p: Problem)
    ensures FilterProblems([p], Criteria(None, {}, Some(p.date), Some(p.date))) == Ok([p])
  {
    NotAfterOrder(p.date, p.date);
    KeepEverything([p], NotAfterDate(p.date));
    KeepEverything([p], NotBeforeDate(p.date));
  }

  /** As written, any valid language yields no submissions, whatever the input holds. */
  lemma AsWrittenLanguageEmpties(ps: seq<Problem>, c: Criteria)
    requires LangGiven(c) && c.lang.value in Aliases
    ensures FilterProblemsAsWritten(ps, c) == Ok([])
  {
    KeepNothing(ps, LangIs(None));
    assert FilterRest([], c) == [];
  }

  /** A Python submission asked for as `py`: kept by the intended filter, dropped as written. */
  lemma AsWrittenDropsMatch(p: Problem)
    requires p.lang == "Python"
    ensures FilterProblems([p], Criteria(Some("py"), {}, None, None)) == Ok([p])
    ensures FilterProblemsAsWritten([p], Criteria(Some("py"), {}, None, None)) == Ok([])
  {
    KeepEverything([p], LangIs(Some("Python")));
    AsWrittenLanguageEmpties([p], Criteria(Some("py"), {}, None, None));
  }

  // ---------------------------------------------------------------------
  // _solvedproblems and _problemset

  /** `set(p.id for p in ps)`. */
  function IdSet(ps: seq<Problem>): set<int> {
    set p | p in ps :: p.id
  }

  /** `_solvedproblems`: each student's set of problem ids. */
  function SolvedMap(d: map<int, seq<Problem>>): map<int, set<int>> {
    map s | s in d :: IdSet(d[s])
  }

  /** Lines 436-440. */
  method SolvedProblems(d: map<int, seq<Problem>>) returns (solved: map<int, set<int>>)
    ensures solved == SolvedMap(d)
  {
    solved := map[];
    var todo := d.Keys;
    while todo != {}
      invariant todo <= d.Keys
      invariant solved.Keys == d.Keys - todo
      invariant forall s :: s in solved ==> solved[s] == IdSet(d[s])
      decreases todo
    {
      var student := Choose(todo);
      solved := solved[student := set p | p in d[student] :: p.id];
      todo := todo - {student};
    }
    assert solved.Keys == SolvedMap(d).Keys;
    assert forall s :: s in solved ==> solved[s] == SolvedMap(d)[s];
  }

  /** `_problemset`: every problem id any student has. */
  function ProblemSet(d: map<int, seq<Problem>>): set<int> {
    set s, p | s in d && p in d[s] :: p.id
  }

  /** Lines 443-448. */
  method ProblemSetOf(d: map<int, seq<Problem>>) returns (problems: set<int>)
    ensures problems == ProblemSet(d)
  {
    problems := {};
    var todo := d.Keys;
    while todo != {}
      invariant todo <= d.Keys
      invariant problems == set s, p | s in d.Keys - todo && p in d[s] :: p.id
      decreases todo
    {
      var student := Choose(todo);
      var list := d[student];
      ghost var before := problems;
      for k := 0 to |list|
        invariant problems == before + set p | p in list[..k] :: p.id
      {
        assert list[..k + 1] == list[..k] + [list[k]];
        problems := problems + {list[k].id};
      }
      assert list[..|list|] == list;
      todo := todo - {student};
    }
  }

  /** The problem set is the union of the students' solved sets. */
  lemma ProblemSetIsUnion(d: map<int, seq<Problem>>)
    ensures forall x :: x in ProblemSet(d) <==> exists s :: s in d && x in SolvedMap(d)[s]
  {
    forall x | x in ProblemSet(d)
      ensures exists s :: s in d && x in SolvedMap(d)[s]
    {
      var s, p :| s in d && p in d[s] && p.id == x;
      assert x in IdSet(d[s]);
    }
    forall x | exists s :: s in d && x in SolvedMap(d)[s]
      ensures x in ProblemSet(d)
    {
      var s :| s in d && x in SolvedMap(d)[s];
      var p :| p in d[s] && p.id == x;
    }
  }
}
