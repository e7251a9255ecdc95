/**
 * `get_public_problems`: walk the numbered pages of a judge profile, keep each
 * page that holds a full table of 28 submissions, force one refresh of a page
 * that comes back short, and accept a page that is short twice as the last.
 *
 * Pages are an abstract finite source: for each page index, what its first
 * read yields, how the forced refresh ends, and what the read after the
 * refresh yields. `past` is the exception the read of the page after the
 * last one raises. The judge answers 404 there. `htmlopen` raises
 * `HttpError(404, url)` for it only when that URL is already cached with
 * the code; on its first fetch the status code reaches the HTML parser,
 * which fails with `NotMarkup(404)` and so fails the walk (see
 * `FreshEndFailsWalk`).
 */
module Pagination {
  import opened Base
  import opened Text
  import opened Records
  import HttpCache

  /** Rows of a full listing page. */
  const FullPage: nat := 28

  /** Lines 33-34: the URL of page `n` of a profile, sorted by submission. */
  function PageUrl(profile: string, n: nat): string {
    "https://www.urionlinejudge.com.br/judge/pt/profile/" + profile + "/page:" + NatToString(n)
    + "/sort:run_id/direction:asc"
  }

  /** What one `htmlopen` of a page gives: the rows of its table body, a page without one, or an exception. */
  datatype Read = Table(rows: seq<seq<string>>) | NoTable | Raised(error: HttpCache.Failure)

  /** Page `n`: its first read, the outcome of the forced `urlopen(..., expires=120)`, and its read after that. */
  datatype PageFetch = PageFetch(first: Read, refresh: Outcome<HttpCache.Failure>, second: Read)

  /** Why the walk fails: an exception of the cache, a page without a table body, or a bad row. */
  datatype WalkError = FetchFailed(failure: HttpCache.Failure) | NoTableBody | BadRow(error: RowError)

  /** What reading page `n` gives, the second time when `again` holds; past the last page, `past` is raised. */
  function ReadOf(pages: seq<PageFetch>, past: HttpCache.Failure, n: nat, again: bool): Read
    requires n >= 1
  {
    if n > |pages| then Raised(past)
    else if again then pages[n - 1].second
    else pages[n - 1].first
  }

  /**
   * Lines 43-65 for one read: `None` for the 404 that ends the walk, the
   * converted rows otherwise; any other exception propagates.
   */
  function PageRows(convert: Converter, read: Read): Result<Option<seq<Problem>>, WalkError> {
    match read
    case Raised(e) => if e.HttpError? && e.code == 404 then Ok(None) else Err(FetchFailed(e))
    case NoTable => Err(NoTableBody)
    case Table(rows) =>
      match ScanRows(rows, convert)
      case Err(e) => Err(BadRow(e))
      case Ok(ps) => Ok(Some(ps))
  }

  function Prepend(done: seq<Problem>, r: Result<seq<Problem>, WalkError>): Result<seq<Problem>, WalkError> {
    match r
    case Err(e) => Err(e)
    case Ok(ps) => Ok(done + ps)
  }

  /**
   * The walk from page `n` on, `again` telling whether page `n` was already
   * refreshed: a full page is kept and the walk moves on; a short page is
   * refreshed and read again the first time, kept as the last page the second.
   */
  function Walk(pages: seq<PageFetch>, past: HttpCache.Failure, convert: Converter, n: nat, again: bool): Result<seq<Problem>, WalkError>
    requires n >= 1
    decreases |pages| + 1 - n, if again then 0 else 1
  {
    if n > |pages| then
      match PageRows(convert, Raised(past))
      case Err(e) => Err(e)
      case Ok(_) => Ok([])
    else
      match PageRows(convert, ReadOf(pages, past, n, again))
      case Err(e) => Err(e)
      case Ok(None) => Ok([])
      case Ok(Some(rows)) =>
        if |rows| == FullPage then Prepend(rows, Walk(pages, past, convert, n + 1, false))
        else if !again then
          match pages[n - 1].refresh
          case Fail(e) => Err(FetchFailed(e))
          case Pass => Walk(pages, past, convert, n, true)
        else Ok(rows)
  }

  /**
   * The loop of lines 38-77, with the `refreshed` set holding page indices;
   * the judge's rows are converted by `convert`, which is `ConvertRow` there.
   */
  method GetPublicProblems(pages: seq<PageFetch>, past: HttpCache.Failure, convert: Converter) returns (r: Result<seq<Problem>, WalkError>)
    ensures r == Walk(pages, past, convert, 1, false)
  {
    var problems: seq<Problem> := [];
    var refreshed: set<nat> := {};
    var i := 0;
    assert Prepend([], Walk(pages, past, convert, 1, false)) == Walk(pages, past, convert, 1, false) by {
      match Walk(pages, past, convert, 1, false)
      case Err(e) =>
      case Ok(ps) => assert [] + ps == ps;
    }
    while true
      invariant 0 <= i <= |pages|
      invariant forall j :: j in refreshed ==> 1 <= j <= i + 1
      invariant Walk(pages, past, convert, 1, false) == Prepend(problems, Walk(pages, past, convert, i + 1, i + 1 in refreshed))
      decreases |pages| + 1 - i, if i + 1 in refreshed then 0 else 1
    {
      i := i + 1;
      var again := i in refreshed;
      var read := ReadOf(pages, past, i, again);
      var transaction: seq<Problem>;
      match read {
        case Raised(e) =>
          if e.HttpError? && e.code == 404 {
            assert Walk(pages, past, convert, i, again) == Ok([]);
            assert problems + [] == problems;
            break;
          }
          return Err(FetchFailed(e));
        case NoTable =>
          return Err(NoTableBody);
        case Table(rows) =>
          var scanned := ScanTable(rows, convert);
          if scanned.Err? {
            return Err(BadRow(scanned.error));
          }
          transaction := scanned.value;
      }
      if |transaction| == FullPage {
        problems := problems + transaction;
        PrependTwice(problems[..|problems| - FullPage], transaction, Walk(pages, past, convert, i + 1, false));
        assert problems[..|problems| - FullPage] + transaction == problems;
      } else if !again {
        match pages[i - 1].refresh {
          case Fail(e) =>
            return Err(FetchFailed(e));
          case Pass =>
        }
        refreshed := refreshed + {i};
        i := i - 1;
      } else {
        problems := problems + transaction;
        break;
      }
    }
    r := Ok(problems);
  }

  lemma PrependTwice(a: seq<Problem>, b: seq<Problem>, r: Result<seq<Problem>, WalkError>)
    ensures Prepend(a, Prepend(b, r)) == Prepend(a + b, r)
  {
    match r
    case Err(e) =>
    case Ok(ps) => assert a + (b + ps) == a + b + ps;
  }

  // ---------------------------------------------------------------------
  // Properties of the walk

  /** A page read that yields a table of exactly 28 good rows. */
  predicate IsFull(convert: Converter, read: Read) {
    var r := PageRows(convert, read);
    r.Ok? && r.value.Some? && |r.value.value| == FullPage
  }

  /**
   * With the judge's row conversion: a table of 28 rows that each convert is
   * a full page, whose rows are the conversions in table order.
   */
  lemma JudgeRowsFillPage(rows: seq<seq<string>>)
    requires |rows| == FullPage
    requires forall k :: 0 <= k < |rows| ==> ConvertRow(rows[k]).Ok?
    ensures IsFull(ConvertRow, Table(rows))
    ensures forall k :: 0 <= k < |rows| ==> PageRows(ConvertRow, Table(rows)).value.value[k] == ConvertRow(rows[k]).value
  {
    forall k | 0 <= k < |rows| ensures |rows[k]| > 0 && !EndsScan(rows[k]) {
      ConvertedRowContinues(rows[k]);
    }
    ScanAllRows(rows, ConvertRow);
  }

  /** The rows of first reads of pages `n` up to the last, one page after another. */
  function FullRows(pages: seq<PageFetch>, convert: Converter, n: nat): seq<Problem>
    requires 1 <= n
    requires forall j :: n - 1 <= j < |pages| ==> IsFull(convert, pages[j].first)
    decreases |pages| + 1 - n
  {
    if n > |pages| then []
    else
      assert IsFull(convert, pages[n - 1].first);
      PageRows(convert, pages[n - 1].first).value.value + FullRows(pages, convert, n + 1)
  }

  /**
   * Full pages: when the read past the last one raises the 404, the result
   * is every row of every page, in page order; any other exception there
   * fails the whole walk.
   */
  lemma {:induction false} WalkAllFull(pages: seq<PageFetch>, past: HttpCache.Failure, convert: Converter, n: nat)
    requires 1 <= n
    requires forall j :: n - 1 <= j < |pages| ==> IsFull(convert, pages[j].first)
    ensures Walk(pages, past, convert, n, false) ==
      if past.HttpError? && past.code == 404 then Ok(FullRows(pages, convert, n)) else Err(FetchFailed(past))
    ensures |FullRows(pages, convert, n)| == FullPage * (if n > |pages| then 0 else |pages| + 1 - n)
    decreases |pages| + 1 - n
  {
    if n <= |pages| {
      WalkAllFull(pages, past, convert, n + 1);
    }
  }

  /** Full pages and the page after them already cached as a 404: every row of every page. */
  lemma CachedEndEndsWalk(profile: string, pages: seq<PageFetch>, convert: Converter,
                          entries: map<string, HttpCache.Entry>, slow: bool, now: int, net: HttpCache.Response)
    requires forall j :: 0 <= j < |pages| ==> IsFull(convert, pages[j].first)
    requires PageUrl(profile, |pages| + 1) in entries
    requires entries[PageUrl(profile, |pages| + 1)].payload == HttpCache.Code(404)
    ensures var url := PageUrl(profile, |pages| + 1);
      var s := HttpCache.Open(entries, slow, url, false, None, now, net);
      HttpCache.Load(s.result) == Err(HttpCache.HttpError(404, url))
      && Walk(pages, HttpCache.Load(s.result).error, convert, 1, false) == Ok(FullRows(pages, convert, 1))
  {
    var url := PageUrl(profile, |pages| + 1);
    WalkAllFull(pages, HttpCache.HttpError(404, url), convert, 1);
  }

  /**
   * As written: when the page after the last full page was never fetched,
   * its 404 reaches the HTML parser as an integer, and the whole walk fails
   * with every row it had read.
   */
  lemma FreshEndFailsWalk(profile: string, pages: seq<PageFetch>, convert: Converter,
                          entries: map<string, HttpCache.Entry>, slow: bool, now: int, body: string)
    requires forall j :: 0 <= j < |pages| ==> IsFull(convert, pages[j].first)
    requires PageUrl(profile, |pages| + 1) !in entries
    ensures var url := PageUrl(profile, |pages| + 1);
      var s := HttpCache.Open(entries, slow, url, false, None, now, HttpCache.Response(404, body));
      HttpCache.Load(s.result) == Err(HttpCache.NotMarkup(404))
      && Walk(pages, HttpCache.Load(s.result).error, convert, 1, false) == Err(FetchFailed(HttpCache.NotMarkup(404)))
  {
    WalkAllFull(pages, HttpCache.NotMarkup(404), convert, 1);
  }

  /**
   * As intended: the same first fetch surfaces as `HttpError(404, url)`, as
   * a cached 404 does, and the walk returns every row of every page.
   */
  lemma IntendedFreshEndEndsWalk(profile: string, pages: seq<PageFetch>, convert: Converter,
                                 entries: map<string, HttpCache.Entry>, slow: bool, now: int, body: string)
    requires forall j :: 0 <= j < |pages| ==> IsFull(convert, pages[j].first)
    requires PageUrl(profile, |pages| + 1) !in entries
    ensures var url := PageUrl(profile, |pages| + 1);
      var s := HttpCache.Open(entries, slow, url, false, None, now, HttpCache.Response(404, body));
      HttpCache.LoadIntended(url, s.result) == Err(HttpCache.HttpError(404, url))
      && Walk(pages, HttpCache.LoadIntended(url, s.result).error, convert, 1, false) == Ok(FullRows(pages, convert, 1))
  {
    var url := PageUrl(profile, |pages| + 1);
    var s := HttpCache.Open(entries, slow, url, false, None, now, HttpCache.Response(404, body));
    assert s.result == Ok(HttpCache.Code(404));
    WalkAllFull(pages, HttpCache.HttpError(404, url), convert, 1);
  }

  /** A 404 at page `n`, or past the last page, ends the walk with no rows from that page. */
  lemma NotFoundEnds(pages: seq<PageFetch>, past: HttpCache.Failure, convert: Converter, n: nat, again: bool, url: string)
    requires 1 <= n
    requires ReadOf(pages, past, n, again) == Raised(HttpCache.HttpError(404, url))
    ensures Walk(pages, past, convert, n, again) == Ok([])
  {
  }

  /** Any other exception of a read ends the walk with that exception. */
  lemma OtherFailurePropagates(pages: seq<PageFetch>, past: HttpCache.Failure, convert: Converter, n: nat, again: bool, e: HttpCache.Failure)
    requires 1 <= n
    requires ReadOf(pages, past, n, again) == Raised(e) && !(e.HttpError? && e.code == 404)
    ensures Walk(pages, past, convert, n, again) == Err(FetchFailed(e))
  {
  }

  /**
   * A page short on its first read is refreshed and read again; short again,
   * its second rows are the last of the walk and no later page is read.
   */
  lemma ShortTwiceEnds(pages: seq<PageFetch>, past: HttpCache.Failure, convert: Converter, n: nat, first: seq<Problem>, second: seq<Problem>)
    requires 1 <= n <= |pages|
    requires PageRows(convert, pages[n - 1].first) == Ok(Some(first)) && |first| != FullPage
    requires pages[n - 1].refresh == Pass
    requires PageRows(convert, pages[n - 1].second) == Ok(Some(second)) && |second| != FullPage
    ensures Walk(pages, past, convert, n, false) == Ok(second)
  {
  }

  /** A short page whose refreshed copy is full is kept, and the walk goes on with the next page. */
  lemma ShortThenFullContinues(pages: seq<PageFetch>, past: HttpCache.Failure, convert: Converter, n: nat, first: seq<Problem>, second: seq<Problem>)
    requires 1 <= n <= |pages|
    requires PageRows(convert, pages[n - 1].first) == Ok(Some(first)) && |first| != FullPage
    requires pages[n - 1].refresh == Pass
    requires PageRows(convert, pages[n - 1].second) == Ok(Some(second)) && |second| == FullPage
    ensures Walk(pages, past, convert, n, false) == Prepend(second, Walk(pages, past, convert, n + 1, false))
  {
  }

  /** The rows a short page gave before its refresh never reach the result. */
  lemma ShortRowsDiscarded(pages: seq<PageFetch>, past: HttpCache.Failure, convert: Converter, n: nat, other: seq<seq<string>>)
    requires 1 <= n <= |pages|
    requires PageRows(convert, pages[n - 1].first).Ok? && PageRows(convert, pages[n - 1].first).value.Some?
    requires |PageRows(convert, pages[n - 1].first).value.value| != FullPage
    requires PageRows(convert, Table(other)).Ok? && PageRows(convert, Table(other)).value.Some?
    requires |PageRows(convert, Table(other)).value.value| != FullPage
    ensures Walk(pages, past, convert, n, false) == Walk(pages[n - 1 := pages[n - 1].(first := Table(other))], past, convert, n, false)
  {
    var pages' := pages[n - 1 := pages[n - 1].(first := Table(other))];
    assert Walk(pages, past, convert, n, true) == Walk(pages', past, convert, n, true) by {
      SamePagesFrom(pages, pages', past, convert, n);
    }
  }

  /** The walk from page `n` once refreshed reads only the second copy of page `n` and the pages after it. */
  lemma {:induction false} SamePagesFrom(pages: seq<PageFetch>, pages': seq<PageFetch>, past: HttpCache.Failure, convert: Converter, n: nat)
    requires 1 <= n <= |pages| == |pages'|
    requires pages[n - 1].second == pages'[n - 1].second
    requires forall j :: n <= j < |pages| ==> pages[j] == pages'[j]
    ensures Walk(pages, past, convert, n, true) == Walk(pages', past, convert, n, true)
  {
    if n < |pages| {
      SameTail(pages, pages', past, convert, n + 1);
    }
  }

  lemma {:induction false} SameTail(pages: seq<PageFetch>, pages': seq<PageFetch>, past: HttpCache.Failure, convert: Converter, n: nat)
    requires 1 <= n && |pages| == |pages'|
    requires forall j :: n - 1 <= j < |pages| ==> pages[j] == pages'[j]
    ensures Walk(pages, past, convert, n, false) == Walk(pages', past, convert, n, false)
    ensures Walk(pages, past, convert, n, true) == Walk(pages', past, convert, n, true)
    decreases |pages| + 1 - n
  {
    if n <= |pages| {
      SameTail(pages, pages', past, convert, n + 1);
    }
  }

  // ---------------------------------------------------------------------
  // Which reads the walk makes

  /** The reads the walk makes from page `n` on, as (page, whether it is the read after a refresh). */
  function Reads(pages: seq<PageFetch>, past: HttpCache.Failure, convert: Converter, n: nat, again: bool): seq<(nat, bool)>
    requires n >= 1
    decreases |pages| + 1 - n, if again then 0 else 1
  {
    var here := [(n, again)];
    if n > |pages| then here
    else
      match PageRows(convert, ReadOf(pages, past, n, again))
      case Err(_) => here
      case Ok(None) => here
      case Ok(Some(rows)) =>
        if |rows| == FullPage then here + Reads(pages, past, convert, n + 1, false)
        else if !again then
          (if pages[n - 1].refresh.Fail? then here else here + Reads(pages, past, convert, n, true))
        else here
  }

  /** One read comes before another: a lower page, or the same page before its refresh. */
  predicate Before(a: (nat, bool), b: (nat, bool)) {
    a.0 < b.0 || (a.0 == b.0 && !a.1 && b.1)
  }

  /**
   * Reads go forward: pages in increasing order, each page read at most twice,
   * and a page is read the second time only right after its first read.
   */
  lemma {:induction false} ReadsAdvance(pages: seq<PageFetch>, past: HttpCache.Failure, convert: Converter, n: nat, again: bool)
    requires n >= 1
    ensures var t := Reads(pages, past, convert, n, again);
      |t| >= 1 && t[0] == (n, again)
      && forall i, j :: 0 <= i < j < |t| ==> Before(t[i], t[j])
    decreases |pages| + 1 - n, if again then 0 else 1
  {
    var t := Reads(pages, past, convert, n, again);
    if n <= |pages| {
      match PageRows(convert, ReadOf(pages, past, n, again))
      case Err(_) =>
      case Ok(None) =>
      case Ok(Some(rows)) =>
        if |rows| == FullPage {
          ReadsAdvance(pages, past, convert, n + 1, false);
          var rest := Reads(pages, past, convert, n + 1, false);
          assert t == [(n, again)] + rest;
          ReadsAfter(pages, past, convert, n + 1, false);
          forall i, j | 0 <= i < j < |t| ensures Before(t[i], t[j]) {
            if i > 0 { assert t[i] == rest[i - 1] && t[j] == rest[j - 1]; }
            else { assert t[j] == rest[j - 1]; }
          }
        } else if !again && pages[n - 1].refresh.Pass? {
          ReadsAdvance(pages, past, convert, n, true);
          var rest := Reads(pages, past, convert, n, true);
          assert t == [(n, false)] + rest;
          ReadsAfter(pages, past, convert, n, true);
          forall i, j | 0 <= i < j < |t| ensures Before(t[i], t[j]) {
            if i > 0 { assert t[i] == rest[i - 1] && t[j] == rest[j - 1]; }
            else { assert t[j] == rest[j - 1]; }
          }
        }
    }
  }

  /** Every read from page `n` on is of page `n` or later, and a read of page `n` itself repeats `again`. */
  lemma {:induction false} ReadsAfter(pages: seq<PageFetch>, past: HttpCache.Failure, convert: Converter, n: nat, again: bool)
    requires n >= 1
    ensures forall k :: 0 <= k < |Reads(pages, past, convert, n, again)| ==>
      Reads(pages, past, convert, n, again)[k].0 >= n
      && (Reads(pages, past, convert, n, again)[k].0 == n ==> (Reads(pages, past, convert, n, again)[k].1 || !again))
    decreases |pages| + 1 - n, if again then 0 else 1
  {
    if n <= |pages| {
      match PageRows(convert, ReadOf(pages, past, n, again))
      case Err(_) =>
      case Ok(None) =>
      case Ok(Some(rows)) =>
        var t := Reads(pages, past, convert, n, again);
        if |rows| == FullPage {
          ReadsAfter(pages, past, convert, n + 1, false);
          var rest := Reads(pages, past, convert, n + 1, false);
          assert t == [(n, again)] + rest;
          assert forall k :: 1 <= k < |t| ==> t[k] == rest[k - 1];
        } else if !again && pages[n - 1].refresh.Pass? {
          ReadsAfter(pages, past, convert, n, true);
          var rest := Reads(pages, past, convert, n, true);
          assert t == [(n, again)] + rest;
          assert forall k :: 1 <= k < |t| ==> t[k] == rest[k - 1];
        } else {
          assert t == [(n, again)];
        }
    }
  }

  // ---------------------------------------------------------------------
  // One page read through the cache

  /** What `htmlopen` gives after `urlopen` returned `result`; `parse` finds the page's table body. */
  function ReadFrom(result: Result<HttpCache.Payload, HttpCache.Failure>, parse: string -> Read): Read {
    match HttpCache.Load(result)
    case Err(e) => Raised(e)
    case Ok(t) => parse(t)
  }

  /**
   * Lines 43-44 and 70-74 on the cache: the first `htmlopen(url)`, the
   * forced `urlopen(url, expires=120)` on the cache it leaves, and the
   * second `htmlopen(url)` on the cache the refresh leaves. `net1`, `net2`
   * and `net3` are what the network would answer to each call.
   */
  function FetchThrough(entries: map<string, HttpCache.Entry>, slow: bool, url: string, now: int,
                        net1: HttpCache.Response, net2: HttpCache.Response, net3: HttpCache.Response,
                        parse: string -> Read): PageFetch
  {
    var s1 := HttpCache.Open(entries, slow, url, false, None, now, net1);
    var s2 := HttpCache.Open(s1.entries, s1.slow, url, false, Some(120), now, net2);
    var s3 := HttpCache.Open(s2.entries, s2.slow, url, false, None, now, net3);
    PageFetch(ReadFrom(s1.result, parse), if s2.result.Err? then Fail(s2.result.error) else Pass, ReadFrom(s3.result, parse))
  }

  /** The cache entry left by the first `htmlopen` of a page that read as text. */
  lemma FirstReadStores(entries: map<string, HttpCache.Entry>, slow: bool, url: string, now: int, net1: HttpCache.Response)
    requires HttpCache.Open(entries, slow, url, false, None, now, net1).result.Ok?
    requires HttpCache.Open(entries, slow, url, false, None, now, net1).result.value.Text?
    ensures var s1 := HttpCache.Open(entries, slow, url, false, None, now, net1);
      && url in s1.entries && s1.entries[url].payload == s1.result.value && s1.slow == slow
      && s1.entries[url].date == (if url in entries then entries[url].date else now)
  {
  }

  /**
   * The forced refresh goes to the network only when the page was already
   * cached before the walk, more than 120 minutes earlier, and the internet
   * is not known to be slow; a page fetched by the first read is never
   * fetched again.
   */
  lemma RefreshOnlyWhenStale(entries: map<string, HttpCache.Entry>, slow: bool, url: string, now: int,
                             net1: HttpCache.Response, net2: HttpCache.Response)
    requires HttpCache.Open(entries, slow, url, false, None, now, net1).result.Ok?
    requires HttpCache.Open(entries, slow, url, false, None, now, net1).result.value.Text?
    ensures var s1 := HttpCache.Open(entries, slow, url, false, None, now, net1);
      var s2 := HttpCache.Open(s1.entries, s1.slow, url, false, Some(120), now, net2);
      s2.request.Some? <==> !slow && url in entries && now - entries[url].date > 120 * HttpCache.MinuteDelta
  {
    FirstReadStores(entries, slow, url, now, net1);
  }

  /**
   * When the refresh does not go to the network, the second read gives
   * exactly what the first gave.
   */
  lemma RecentPageRereads(entries: map<string, HttpCache.Entry>, slow: bool, url: string, now: int,
                          net1: HttpCache.Response, net2: HttpCache.Response, net3: HttpCache.Response,
                          parse: string -> Read)
    requires HttpCache.Open(entries, slow, url, false, None, now, net1).result.Ok?
    requires HttpCache.Open(entries, slow, url, false, None, now, net1).result.value.Text?
    requires slow || url !in entries || now - entries[url].date <= 120 * HttpCache.MinuteDelta
    ensures var f := FetchThrough(entries, slow, url, now, net1, net2, net3, parse);
      f.refresh == Pass && f.second == f.first
  {
    FirstReadStores(entries, slow, url, now, net1);
  }

  /**
   * A page cached more than 120 minutes before, on a connection not known
   * to be slow, is fetched again with the short timeout; when the judge
   * answers with the page, the second read parses the new text.
   */
  lemma StalePageRefetched(entries: map<string, HttpCache.Entry>, url: string, now: int,
                           net1: HttpCache.Response, text: string, net3: HttpCache.Response, parse: string -> Read)
    requires url in entries && entries[url].payload.Text?
    requires now - entries[url].date > 120 * HttpCache.MinuteDelta
    ensures var s1 := HttpCache.Open(entries, false, url, false, None, now, net1);
      var s2 := HttpCache.Open(s1.entries, s1.slow, url, false, Some(120), now, HttpCache.Response(200, text));
      s2.request == Some(HttpCache.ShortTimeout)
    ensures var f := FetchThrough(entries, false, url, now, net1, HttpCache.Response(200, text), net3, parse);
      f.first == parse(entries[url].payload.text) && f.refresh == Pass && f.second == parse(text)
  {
  }

  /**
   * In the walk: a page whose refresh does not go to the network and whose
   * first read is a short table is the last page, and its rows end the
   * result.
   */
  lemma RecentShortPageEnds(pages: seq<PageFetch>, past: HttpCache.Failure, convert: Converter, n: nat,
                            entries: map<string, HttpCache.Entry>, slow: bool, url: string, now: int,
                            net1: HttpCache.Response, net2: HttpCache.Response, net3: HttpCache.Response,
                            parse: string -> Read, rows: seq<Problem>)
    requires 1 <= n <= |pages|
    requires pages[n - 1] == FetchThrough(entries, slow, url, now, net1, net2, net3, parse)
    requires HttpCache.Open(entries, slow, url, false, None, now, net1).result.Ok?
    requires HttpCache.Open(entries, slow, url, false, None, now, net1).result.value.Text?
    requires slow || url !in entries || now - entries[url].date <= 120 * HttpCache.MinuteDelta
    requires PageRows(convert, pages[n - 1].first) == Ok(Some(rows)) && |rows| != FullPage
    ensures Walk(pages, past, convert, n, false) == Ok(rows)
  {
    RecentPageRereads(entries, slow, url, now, net1, net2, net3, parse);
    ShortTwiceEnds(pages, past, convert, n, rows, rows);
  }
}
