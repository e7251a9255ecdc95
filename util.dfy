/**
 * The judge's language names and the two pass-through spec readers.
 */
module Util {
  import opened Base

  /** Every spelling the tool accepts, mapped to the name the judge uses. */
  const Aliases: map<string, string> := map[
    // Python 2
    "Python" := "Python", "python" := "Python", "py" := "Python",
    "python2" := "Python", "Python2" := "Python", "py2" := "Python",
    // Python 3
    "Python 3" := "Python 3", "python3" := "Python 3", "py3" := "Python 3", "Python3" := "Python 3",
    // C
    "C" := "C", "c" := "C",
    // C++
    "C++" := "C++", "cpp" := "C++", "Cpp" := "C++", "c++" := "C++",
    // Java
    "Java" := "Java", "java" := "Java"
  ]

  /** The language names of the judge. */
  const Canonical: set<string> := {"Python", "Python 3", "C", "C++", "Java"}

  /** `SystemExit('invalid language: ...')`. */
  datatype LanguageError = InvalidLanguage(lang: string)

  /**
   * `normalize_language` as it stands: the alias lookup either exits or
   * falls off the end of the function, so the caller gets `None`.
   */
  function NormalizeLanguageAsWritten(lang: string): Result<Option<string>, LanguageError> {
    if lang in Aliases then Ok(None) else Err(InvalidLanguage(lang))
  }

  /** `normalize_language` with the looked-up name returned. */
  function NormalizeLanguage(lang: string): Result<string, LanguageError> {
    if lang in Aliases then Ok(Aliases[lang]) else Err(InvalidLanguage(lang))
  }

  /** Every alias names one of the judge's five languages, and each of those is its own alias. */
  lemma AliasesAreCanonical()
    ensures forall lang :: lang in Aliases ==> Aliases[lang] in Canonical
    ensures forall name :: name in Canonical ==> name in Aliases && Aliases[name] == name
  {
  }

  /** Normalizing is idempotent: a normalized name normalizes to itself. */
  lemma NormalizeIdempotent(lang: string)
    ensures NormalizeLanguage(lang).Ok? ==>
      NormalizeLanguage(NormalizeLanguage(lang).value) == NormalizeLanguage(lang)
  {
    AliasesAreCanonical();
  }

  /** A name outside the table exits, whatever its case: the lookup is exact. */
  lemma UnknownNameExits(lang: string)
    requires lang !in Aliases
    ensures NormalizeLanguage(lang) == Err(InvalidLanguage(lang))
    ensures NormalizeLanguageAsWritten(lang) == Err(InvalidLanguage(lang))
  {
  }

  lemma UpperCaseRejected()
    ensures NormalizeLanguage("PYTHON").Err? && NormalizeLanguage("JAVA").Err?
  {
  }

  /** As written, a valid alias yields `None` and an invalid one exits, exactly as the intended lookup decides. */
  lemma AsWrittenReturnsNone(lang: string)
    ensures NormalizeLanguageAsWritten(lang).Ok? <==> NormalizeLanguage(lang).Ok?
    ensures NormalizeLanguageAsWritten(lang).Ok? ==> NormalizeLanguageAsWritten(lang).value == None
  {
  }

  /** `fetch_students`: the spec is already the list of students. */
  function FetchStudents<T>(spec: T): (r: T)
    ensures r == spec
  {
    spec
  }

  /** `fetch_problems`: the spec is already the list of problems. */
  function FetchProblems<T>(spec: T): (r: T)
    ensures r == spec
  {
    spec
  }
}
