# uritool, modelled in Dafny

uritool is a Python helper for teachers who use the URI Online Judge. It
scrapes a student's public profile and a class's homework progress. It
caches every page it downloads. It prints tables of who solved what. Its
`Grader` records grades for students typed in one at a time. This project
models the core of that tool and proves what it does:

- `httpcache.dfy`: the URL cache.
  - `urlcache`, `urlsave`, `urldate`, `urlopen`, `urlrefresh` and `htmlopen`.
  - The cache is a class whose fields are the stored entries and the
    "internet is slow" flag.
  - The clock and the network's answer are parameters.
- `pagination.dfy`: the walk of `get_public_problems` over the numbered
  pages of a profile. A page of 28 rows is kept. A short page is refreshed
  once. A page short twice is the last one. The read past the last page
  ends the walk when it raises `HttpError(404, url)`. That happens only
  when the 404 is already cached. On a first fetch the status code reaches
  the HTML parser and the walk fails (see Findings).
- `records.dfy`: the cell conversions.
  - `_todatetime` and `_ranking`.
  - The row-stop rule and the conversion of a submission row.
  - The `key: value` lines of `get_public_profile`.
- `progress.dfy`: the table shaping of `Discipline.progress`.
- `reports.dfy`: `filter_problems`, `_solvedproblems` and `_problemset`.
- `csv.dfy`: `unindent`, `csv_check` and `csv_count`.
- `grading.dfy`: the `Grader`.
  - The `name (id)` validator and the initial table.
  - `matches`, `add_student` and the grade rule of `step`.
  - `pick_result`, and the five-slot backup rotation of `save_backup`.
- `util.dfy`: `normalize_language`, `fetch_students` and `fetch_problems`.
- `config.py`'s logic is in `config.dfy`: the upward search for
  `uriconfig.ini` and the settings with their fallbacks.
- `text.dfy`, `sorting.dfy` and `base.dfy` are shared helpers. They model
  Python's `str` methods, `int()`, `str()`, slicing, `sorted` on ints,
  `Option` and `Result`.

Python exceptions are `Err` values of a per-module error datatype. Where
the code is stateful (the cache, the `Grader` table, the backup slots and the loops
of the source), the model is a class or a method with a loop. Each method
is proved equal to a specification function. Lemmas state the properties
of those functions.

## Model

| member | source | states |
|---|---|---|
| HttpCache.UrlCache.constructor | src/uritool/httpcache.py:18-27 | the opened cache holds the stored entries and the internet starts as not slow |
| HttpCache.UrlCache.UrlDate | src/uritool/httpcache.py:46-52 | the date is present exactly when the URL is cached, and it is the stored date |
| HttpCache.UrlCache.UrlSave | src/uritool/httpcache.py:30-35 | the URL now maps to (now, data); the other entries and the slow flag are unchanged |
| HttpCache.UrlCache.UrlOpen | src/uritool/httpcache.py:55-89 | the new cache, flag, result and request timeout are those of `Open` on the old state |
| HttpCache.UrlCache.UrlRefresh | src/uritool/httpcache.py:38-43 | an unknown URL is a KeyError that changes nothing; otherwise the entry is deleted and the URL is opened again |
| HttpCache.UrlCache.HtmlOpen | src/uritool/httpcache.py:92-97 | the state is that of `urlopen`; text reaches the parser, and an integer payload fails as not markup |
| HttpCache.CachedCodeRaises | src/uritool/httpcache.py:66-67 | a cached status code is raised as `RuntimeError(code, url)` without a request or a cache change |
| HttpCache.CachedTextServed | src/uritool/httpcache.py:68-70 | with no expiry, or once the internet is slow, cached text is returned without a request |
| HttpCache.ExpiryBoundary | src/uritool/httpcache.py:71-74 | cached text is served exactly when it is at most `expires` minutes old; otherwise a request with the short timeout is made |
| HttpCache.RefreshFetches | src/uritool/httpcache.py:64-65 | `refresh=True` always makes a request |
| HttpCache.RequestTimeout | src/uritool/httpcache.py:78 | every request uses timeout 10 for a cached URL and 30 for an unknown one |
| HttpCache.TransportFailureFails | src/uritool/httpcache.py:79-86 | a failed request sets the slow flag and leaves the cache alone; the call fails, re-raising for an unknown URL |
| HttpCache.SlowIsSticky | src/uritool/httpcache.py:82 | the slow flag is never cleared, and only a failed request sets it |
| HttpCache.CompletedFetchStores | src/uritool/httpcache.py:87-89 | a completed request stores and returns the text for status 200 and the status code otherwise; it overwrites only that URL |
| HttpCache.SecondOpenUsesCache | src/uritool/httpcache.py:63-89 | after a successful call, a second call without refresh or expiry answers from the cache: the same text, or the stored code raised |
| HttpCache.RefreshIsColdFetch | src/uritool/httpcache.py:38-43 | refreshing a cached URL makes a long-timeout request and stores the new payload stamped now |
| HttpCache.RefreshUnknownFails | src/uritool/httpcache.py:42 | refreshing an unknown URL fails with KeyError before any request |
| HttpCache.FallbackNeverServesCache | src/uritool/httpcache.py:81-87 | as written, a stale cached page whose request fails is not served; the call fails on the unbound `request` |
| HttpCache.IntendedFallbackServesCache | src/uritool/httpcache.py:83-84 | as intended, a failed request for a cached URL returns the cached payload and sets the flag |
| HttpCache.FreshNotFoundIsNotHttpError | src/uritool/httpcache.py:87-97 | as written, a freshly fetched 404 reaches the parser as the integer 404 |
| HttpCache.IntendedFreshCodeLikeCached | src/uritool/httpcache.py:66-67 | as intended, the first fetch of a non-200 page and every later cached read of it both surface as `HttpError(code, url)` |
| Pagination.GetPublicProblems | src/uritool/urilib.py:29-80 | the loop's result is the walk specification from page 1, with no page refreshed yet |
| Pagination.JudgeRowsFillPage | src/uritool/urilib.py:52-69 | with the judge's row conversion, 28 rows that each convert make a full page whose problems are those conversions in table order |
| Pagination.WalkAllFull | src/uritool/urilib.py:38-69 | when every page is full, a 404 past the last page gives every row of every page in page order, 28 per page; any other exception there fails the walk |
| Pagination.CachedEndEndsWalk | src/uritool/urilib.py:43-47 | with the page after the last cached as a 404, the walk over full pages returns all their rows |
| Pagination.FreshEndFailsWalk | src/uritool/urilib.py:43-47 | as written, a first fetch of the page after the last reaches the parser as the integer 404, and the walk over full pages fails with that error |
| Pagination.IntendedFreshEndEndsWalk | src/uritool/urilib.py:43-47 | as intended, that first fetch raises `HttpError(404, url)` and the walk over full pages returns all their rows |
| Pagination.NotFoundEnds | src/uritool/urilib.py:43-47 | a 404 at a page, or past the last page, ends the walk, and that page adds no rows |
| Pagination.OtherFailurePropagates | src/uritool/urilib.py:45-48 | any other exception of a page read ends the walk with that exception |
| Pagination.ShortTwiceEnds | src/uritool/urilib.py:70-77 | a page short on both reads is the last one; its second rows end the result |
| Pagination.ShortThenFullContinues | src/uritool/urilib.py:68-74 | a short page whose refreshed copy is full is kept, and the walk continues with the next page |
| Pagination.ShortRowsDiscarded | src/uritool/urilib.py:70-74 | the rows of a short first read never reach the result |
| Pagination.SamePagesFrom | src/uritool/urilib.py:38-77 | after a refresh, the walk depends only on the page's second read and the later pages |
| Pagination.SameTail | src/uritool/urilib.py:38-77 | the walk from a page depends only on that page and the later ones |
| Pagination.ReadsAdvance | src/uritool/urilib.py:38-77 | page reads go forward: pages in increasing order, each read at most twice, the second read right after the first |
| Pagination.ReadsAfter | src/uritool/urilib.py:38-77 | the walk from a page never reads an earlier page |
| Pagination.FirstReadStores | src/uritool/urilib.py:43-44 | after a first read that gives text, the page is cached with that text, dated when it was first cached |
| Pagination.RefreshOnlyWhenStale | src/uritool/urilib.py:70-74 | the forced `urlopen(url, expires=120)` goes to the network exactly when the page was cached before the walk, more than 120 minutes earlier, on a connection not known to be slow |
| Pagination.RecentPageRereads | src/uritool/urilib.py:70-74 | when the refresh makes no request, it passes and the second read gives what the first gave |
| Pagination.StalePageRefetched | src/uritool/urilib.py:70-74 | a page cached more than 120 minutes earlier is fetched again with the short timeout, and the second read parses the new text |
| Pagination.RecentShortPageEnds | src/uritool/urilib.py:68-77 | a short page whose refresh makes no request is the last page, and its rows end the result |
| Records.ToDateTime | src/uritool/urilib.py:451-455 | every parsed time stamp passes `datetime`'s range checks |
| Records.ThreeInts | src/uritool/urilib.py:453-454 | three values exactly when there are three parts and each part parses as an int |
| Records.ToDateTimeFormat | src/uritool/urilib.py:451-455 | every valid time stamp is read back as itself, whatever the zero padding of its fields: the judge's two-digit `DD/MM/YY-HH:MM:SS` and the unpadded form alike |
| Records.ToDateTimeNeedsOneDash | src/uritool/urilib.py:452 | text without exactly one `-` is rejected |
| Records.RankingOfPercent | src/uritool/urilib.py:458-459 | `n%` is read as the ranking n |
| Records.RankingOfEmpty | src/uritool/urilib.py:458-459 | an empty cell is not a ranking |
| Records.ConvertRowFields | src/uritool/urilib.py:59-64 | a converted row has exactly seven cells, and each field comes from its own column |
| Records.ConvertRowOk | src/uritool/urilib.py:59-64 | a seven-cell row with an int id, a percent ranking and a judge time stamp converts to those values |
| Records.ScanTable | src/uritool/urilib.py:52-65 | the row loop's result is the scan specification |
| Records.ScanRowsPrefix | src/uritool/urilib.py:53-56 | a successful scan converts a prefix of the rows, none of which ends the scan; the next row, if any, ends it |
| Records.ScanAllRows | src/uritool/urilib.py:52-65 | a table none of whose rows ends the scan or fails converts whole, each problem from its own row |
| Records.ConvertedRowContinues | src/uritool/urilib.py:55-64 | a row that converts has seven cells and a non-empty first cell, so it never ends the scan |
| Records.EntriesKeys | src/uritool/urilib.py:90-93 | the profile dictionary has exactly the lower-cased keys of the lines |
| Records.EntriesLastWins | src/uritool/urilib.py:93 | each key holds the value of the last line that carries it |
| Records.ProfileFromKeys | src/uritool/urilib.py:94-105 | a profile is built only when every popped key is present and every leftover key is a profile field |
| Records.ProfileFromFields | src/uritool/urilib.py:97-104 | each profile field comes from its own line, converted as the source converts it |
| Progress.MarkOf | src/uritool/urilib.py:306-314 | a mark exists exactly for the classes void, tried and solved: void is unsolved, tried scores 0 and solved scores 100; any other class is an error |
| Progress.IdsOf | src/uritool/urilib.py:322 | the conversion succeeds exactly when every header cell reads as an integer, and then gives each cell's `int` value in order; otherwise it reports a cell that does not |
| Progress.LabelsOf | src/uritool/urilib.py:323 | labels exist exactly when every id has a question name; each label is `id (name)` |
| Progress.Truncate | src/uritool/urilib.py:324 | every row keeps its first `valid` marks (the whole row when shorter), and a negative count drops that many marks from the row's end, as a Python slice does |
| Progress.QuestionNames | src/uritool/urilib.py:288-294 | the loop's result is the question-name map `NamesOf`, whose meaning the three lemmas below state |
| Progress.NamesOk | src/uritool/urilib.py:290-294 | the question map is built exactly when every question id reads as an integer; otherwise the error names the first id that does not |
| Progress.NamesKeys | src/uritool/urilib.py:290-294 | when every id reads as an integer, the map's keys are exactly those integers |
| Progress.NamesLastWins | src/uritool/urilib.py:290-294 | each id maps to the stripped name of the last question row that carries it |
| Progress.RowMarks | src/uritool/urilib.py:304-315 | the loop's result is the marks specification of one row |
| Progress.Students | src/uritool/urilib.py:296-316 | the loop's result is the ids and marks specification |
| Progress.ProgressTable | src/uritool/urilib.py:288-328 | the result is the table specification |
| Progress.NamesErrSticks | src/uritool/urilib.py:291-294 | once a question row raises, the whole list raises the same error |
| Progress.MarksErrSticks | src/uritool/urilib.py:306-315 | once a cell raises, the whole row raises the same error |
| Progress.StudentsErrSticks | src/uritool/urilib.py:300-316 | once a student row raises, the whole table raises the same error |
| Progress.MarksCorrespond | src/uritool/urilib.py:306-315 | a row's marks exist exactly when every class is known, and they are the cells classified one by one |
| Progress.StudentsCorrespond | src/uritool/urilib.py:300-316 | every student row gives one id and one row of marks, in table order |
| Progress.StudentOfParts | src/uritool/urilib.py:301-315 | a student row's id comes from its link and its marks from its inner cells |
| Progress.StudentIdOfLink | src/uritool/urilib.py:302 | the id of a link ending in `/n` is n |
| Progress.ProgressParts | src/uritool/urilib.py:318-328 | a table's index is the students' ids, and its rows are their marks cut to the valid columns |
| Progress.TableShape | src/uritool/urilib.py:318-328 | with rows wide enough, the table has one column per valid header cell and one full-width row per student |
| Progress.RowsWidth | src/uritool/urilib.py:324 | rows with enough mark cells are exactly the valid width once cut |
| Progress.StudentOfWidth | src/uritool/urilib.py:306-315 | a row read without error has one mark per mark cell |
| Progress.ColumnLabels | src/uritool/urilib.py:319-323 | each column label names a valid header id with its question's name |
| Reports.NotAfterOrder | src/uritool/urilib.py:188-191 | time stamps are totally ordered, and two that are each not after the other are equal |
| Reports.Keep | src/uritool/urilib.py:185-191 | a comprehension keeps exactly the elements that pass its test, every copy of each, and drops every copy of the others |
| Reports.KeepSubsequence | src/uritool/urilib.py:185-191 | a comprehension keeps the input order |
| Reports.FilterRestSelects | src/uritool/urilib.py:186-191 | the id and date filters keep exactly the submissions that meet them, with their multiplicity and in order |
| Reports.FilterSelects | src/uritool/urilib.py:177-193 | filtering fails exactly for an unknown language; otherwise it keeps exactly the submissions that meet every filter, with their multiplicity and in order |
| Reports.FilterRestCounts | src/uritool/urilib.py:186-191 | each submission meeting the id and date filters is kept as often as it occurs; any other is dropped entirely |
| Reports.FilterNothing | src/uritool/urilib.py:183-193 | with no criteria, or an empty language, the list is returned unchanged |
| Reports.BoundsInclusive | src/uritool/urilib.py:188-191 | both date bounds are inclusive |
| Reports.AsWrittenLanguageEmpties | src/uritool/urilib.py:183-185 | as written, any valid language yields no submissions |
| Reports.AsWrittenDropsMatch | src/uritool/urilib.py:183-185 | a Python submission asked for as `py` is kept as intended but dropped as written |
| Reports.SolvedProblems | src/uritool/urilib.py:436-440 | the loop's result is each student's set of problem ids |
| Reports.ProblemSetOf | src/uritool/urilib.py:443-448 | the loop's result is the set of every problem id of any student |
| Reports.ProblemSetIsUnion | src/uritool/urilib.py:443-448 | the problem set is the union of the students' solved sets |
| Csv.UnindentEmpty | src/uritool/urilib.py:432 | a text without lines makes `min()` fail |
| Csv.DedentShape | src/uritool/urilib.py:430-433 | every line loses the same all-whitespace prefix, the smallest indent, and some line is left without leading whitespace |
| Csv.UnindentLines | src/uritool/urilib.py:427-433 | when the last line keeps text, the result splits back into the dedented lines |
| Csv.UnindentIdempotent | src/uritool/urilib.py:427-433 | unindenting an unindented text changes nothing |
| Csv.UnindentJoined | src/uritool/urilib.py:427-433 | lines joined with newlines come back without their common indentation |
| Csv.CheckHeader | src/uritool/urilib.py:396 | the header is one line with text on it |
| Csv.CheckLine | src/uritool/urilib.py:398-404 | each student line is one line with text on it |
| Csv.CheckCells | src/uritool/urilib.py:398-404 | the loop's cells are the id right-aligned to 25, then `   1` or `   0` per problem |
| Csv.GridRows | src/uritool/urilib.py:396-405 | the loop's lines are the header, then one line per student in order |
| Csv.CsvCheck | src/uritool/urilib.py:389-406 | the method returns the text that the `csv_check` specification gives |
| Csv.CheckTableLines | src/uritool/urilib.py:389-406 | `csv_check` splits into the header plus one line per student, with the common indentation removed |
| Csv.CheckTableOk | src/uritool/urilib.py:389-406 | `csv_check` never fails |
| Csv.CheckFlagMeaning | src/uritool/urilib.py:399-403 | a `1` means the student has a submission of that problem |
| Csv.CheckColumnsContents | src/uritool/urilib.py:393 | the columns are ascending: the requested problems with repeats, or else every known problem once |
| Csv.CountHeader | src/uritool/urilib.py:416 | the header is one line with text on it |
| Csv.CountLine | src/uritool/urilib.py:418 | each student line is one line with text on it |
| Csv.CountRows | src/uritool/urilib.py:416-419 | the loop's lines are the header, then one count line per student |
| Csv.CsvCount | src/uritool/urilib.py:409-421 | the method returns the text that the `csv_count` specification gives |
| Csv.CountTableLines | src/uritool/urilib.py:409-421 | `csv_count` splits into the header plus one line per student |
| Csv.CountTableOk | src/uritool/urilib.py:409-421 | `csv_count` never fails |
| Csv.IdSetBound | src/uritool/urilib.py:418 | a student's count is at most their number of submissions |
| Util.AliasesAreCanonical | src/uritool/util.py:23-51 | every alias names one of the five judge languages, and each of those is its own alias |
| Util.NormalizeIdempotent | src/uritool/util.py:52-55 | normalizing a normalized name gives it back |
| Util.UnknownNameExits | src/uritool/util.py:54-55 | a name outside the table exits with `invalid language`; the lookup is exact |
| Util.UpperCaseRejected | src/uritool/util.py:52-55 | the lookup is case-sensitive |
| Util.AsWrittenReturnsNone | src/uritool/util.py:52-55 | as written, a valid alias yields `None`; an invalid one exits |
| Util.FetchStudents | src/uritool/util.py:1-4 | the spec is returned as it is |
| Util.FetchProblems | src/uritool/util.py:7-10 | the spec is returned as it is |
| Config.Parent | src/uritool/config.py:14 | the parent drops the last component, and `/` is its own parent |
| Config.ReadConfigPath | src/uritool/config.py:1-18 | the loop ends at the path that the `Nearest` specification gives |
| Config.NearestIsDeepest | src/uritool/config.py:7-14 | the path is in the deepest directory that holds the file; it exists iff some ancestor holds one; otherwise it is `/uriconfig.ini` |
| Config.GetOr | src/uritool/config.py:27-34 | a present option is returned, and an absent one gives the fallback |
| Config.ParseIds | src/uritool/config.py:31 | ids exist exactly when every part parses, one per part; an error names a failing part |
| Config.IgnoreIdsRoundTrip | src/uritool/config.py:30-31 | comma-separated ids, the empty list included, are read back as themselves |
| Config.AsWrittenRejectsMissingIds | src/uritool/config.py:30-31 | as written, an absent `ignore_ids` fails on `int('')` |
| Config.IgnoreIdsAgree | src/uritool/config.py:30-31 | as written and as intended, the readings differ only on the empty setting |
| Config.LoadFallbacks | src/uritool/config.py:27-34 | absent credentials are `None`, absent ids are empty, an absent cache is `urlcache.db`, and present values are kept |
| Config.LoadIgnoreIds | src/uritool/config.py:30-31 | a present id list loads exactly when every part is an int, and it holds those ints in order |
| Grading.TextIdsAlwaysValid | src/uritool/grader.py:304-332 | with `id_type=str`, validation never fails |
| Grading.ValidateWhole | src/uritool/grader.py:323-328 | without a `(` or a final `)`, the stripped input is the name and is converted as the id |
| Grading.ValidateRoundTrip | src/uritool/grader.py:312-330 | `name (id)` is read back as that name and that integer id |
| Grading.InitialRowsShape | src/uritool/grader.py:50-62 | the initial table is sorted by id and holds exactly the given students; each is named or defaults to its id, searchable by folded name and id, and ungraded |
| Grading.Grader.constructor | src/uritool/grader.py:47-62 | the table is the initial rows, sorted by id |
| Grading.MatchIdsExact | src/uritool/grader.py:252-257 | an id matches iff its search text contains the query; matches come in index order |
| Grading.Grader.Matches | src/uritool/grader.py:252-257 | the ids whose search text contains the case-folded query, strictly ascending |
| Grading.Grader.AddStudent | src/uritool/grader.py:259-279 | the result and new table are those of `Added`, and the index stays sorted |
| Grading.InsertRowFacts | src/uritool/grader.py:277-278 | appending a new id and sorting adds exactly that row and keeps the index sorted |
| Grading.AddedRule | src/uritool/grader.py:259-279 | the result is the validated id, or the validation error; an invalid input or a known id changes nothing; a new id adds exactly its row and keeps the table sorted |
| Grading.Grader.RegisterGrade | src/uritool/grader.py:158-171 | the new table is that of `Graded`, and the index stays sorted |
| Grading.Graded | src/uritool/grader.py:158-171 | registering keeps the number of rows |
| Grading.GradedRule | src/uritool/grader.py:158-171 | ids, names and other rows are kept; the student ends with the new grade iff it was ungraded, equal, or the answer is `y`; an ungraded row or a confirmed overwrite gets the grade and the current time, an equal grade or a refused overwrite leaves the row as it was |
| Grading.PickResult | src/uritool/grader.py:217-250 | the loop's result is the `pick_result` specification over the answers given |
| Grading.PickedIsAMatch | src/uritool/grader.py:240-249 | a picked id is always one of the matches |
| Grading.PickByNumber | src/uritool/grader.py:240-247 | an answer that reads as the number shown next to a match picks it |
| Grading.LaterZeroPicksLast | src/uritool/grader.py:234-250 | after a bad first answer, an answer of 0 picks the last match, as index -1 |
| Grading.FirstFree | src/uritool/grader.py:290-293 | the first free slot from k on, or 5 when all are taken |
| Grading.ShiftDown | src/uritool/grader.py:295-298 | slots 1..k move one down in order, slot k is emptied unless k is 0, and the rest are kept |
| Grading.Backups.SaveBackup | src/uritool/grader.py:281-302 | the new slots are those of `Saved` on the old ones |
| Grading.SavedLowestFree | src/uritool/grader.py:290-293 | with a free slot, the content goes to the lowest one and every other slot is kept |
| Grading.SavedRotates | src/uritool/grader.py:294-302 | with all five slots taken, slots 1-4 move down to 0-3 and slot 4 gets the content |
| Grading.SavedBounded | src/uritool/grader.py:281-302 | never more than five backups: no slot beyond 4 is used, and the content is stored |

## Left out

- Network, HTML parsing, shelve files, file system and terminal I/O are not modelled.
  - The network's answer and the clock are parameters.
  - Parsed pages are sequences of cell texts.
  - Prompts are a finite sequence of answers.
- `Discipline` login and session, `get_progress`, `get_detailed_progress` and `full_grades` are not part of this model.
- The command-line entry point, `__main__.py`, is not part of this model.
- HttpCache.UrlCache.UrlOpen: the clock is read once per call. The source reads it once for the expiry test and once more when saving.
- HttpCache.UrlCache.constructor: the shelve is opened from the stored entries. The cache path and the lazy global are not modelled.
- `debug_print` output is not modelled.
- Pagination.GetPublicProblems: each page's three reads are given as a `PageFetch`. `Pagination.FetchThrough` derives one page's reads from the cache, but the walk does not carry the cache from one page to the next, and the three calls of one page share one clock reading.
- Progress.ProgressTable: the deadline check that reloads the pages within two hours is not modelled (urilib.py lines 279-286).
  - `float('nan')` is the `Unsolved` mark.
  - The DataFrame is an index, labels and rows.
- Records.ConvertRow: the `time` column stays text. Floating point is not modelled.
- ParseInt follows Python's `int()` on ASCII text: optional surrounding whitespace, a sign and decimal digits.
  - Underscores between digits are not modelled.
  - Non-ASCII digits are not modelled.
- `casefold` and `lower` are modelled on ASCII letters only.
- Csv.CsvCount: the sorted problem list that `csv_count` computes is never used, so it is not modelled.
- Grading: grades are `real`. The Decimal grade validator is not modelled; a grade comes in already validated.
  - A validation error is returned instead of prompting again.
  - Loading and saving the grading file and `update_from_path` are not modelled.
- Grading.Grader.AddStudent: ids are integers, as `id_type=int` would make them. The `grade` command (`src/uritool/__main__.py` line 118) builds its `Grader` with the default `validate_id=str`. There a typed id stays text, while the table's ids are the integer ids of `main.csv`, so the known-id test of `grader.py` line 267 compares text with integers. The model does not capture that mix of id types. `Validate` itself takes any conversion, and `TextIdsAlwaysValid` covers `str`.
- Grading.Backups.SaveBackup: slots are numbered files in one backup directory. Path building, directory creation and copying the file's lines are not modelled.
- Grading.PickResult: restarting the step and typing a new student are outcomes. The recursive calls they trigger are not modelled.
  - `Waiting` means the answers ran out while the source would keep prompting.
- Config: paths are POSIX component lists. `os.getcwd` and `os.path.exists` are parameters.
  - INI parsing, interpolation and option-name case folding are not modelled; the parser's result is a map.

## Findings

| source | as written | input that shows it | evidently intended | confidence | as-written member | corrected member |
|---|---|---|---|---|---|---|
| src/uritool/util.py:52-55 | `normalize_language` assigns the looked-up name but never returns it, so `filter_problems` compares every language with `None` | `filter_problems([p], lang='py')` with `p.lang == 'Python'` gives `[]` | return the canonical name, so matching submissions are kept | not executed | Reports.AsWrittenDropsMatch | Reports.FilterSelects |
| src/uritool/httpcache.py:79-87 | after a swallowed request failure for a cached URL, line 87 reads the unbound `request` | a cached page past its expiry while the network fails | serve the cached data, as the "using cache" message says | not executed | HttpCache.FallbackNeverServesCache | HttpCache.IntendedFallbackServesCache |
| src/uritool/httpcache.py:87-97 | a freshly fetched non-200 status is returned as an int, and `htmlopen` hands the int to the HTML parser | the first fetch of a page that answers 404 | raise `RuntimeError(code, url)` as for a cached code, so a fresh 404 past the last page ends the page walk with every row read | not executed | Pagination.FreshEndFailsWalk | Pagination.IntendedFreshEndEndsWalk |
| src/uritool/config.py:30-31 | the fallback `''` splits into `['']` and `int('')` raises `ValueError` | a `uriconfig.ini` without `ignore_ids`, or no file at all | an absent option is an empty id list | not executed | Config.AsWrittenRejectsMissingIds | Config.IgnoreIdsRoundTrip |
