/**
 * The URL cache of `uritool.httpcache`: a persistent map from URL to the time
 * it was fetched and what came back (the page text, or the HTTP status code
 * when it was not 200), plus the process-wide "internet is slow" flag that,
 * once set, makes every cached page fresh.
 *
 * The clock is an integer number of microseconds (the resolution of the
 * source's `datetime` stamps) passed in by the caller; the network is an
 * oracle value saying what `session.get` would do.
 */
module HttpCache {
  import opened Base

  /** `datetime.timedelta(minutes=1)`, in clock units. */
  const MinuteDelta: int := 60_000_000

  /** Timeout of a request for a URL that already has a cache entry. */
  const ShortTimeout: int := 10

  /** Timeout of a request for a URL the cache has never seen. */
  const LongTimeout: int := 30

  /** What the cache stores for a URL: the response text, or a non-200 status code. */
  datatype Payload = Text(text: string) | Code(code: int)

  datatype Entry = Entry(date: int, payload: Payload)

  /** What `session.get` does: complete with a status and a body, or raise. */
  datatype Response = Response(status: int, text: string) | TransportFailure

  /** The exceptions that leave `urlopen`, `urlrefresh` and `htmlopen`. */
  datatype Failure =
    | HttpError(code: int, url: string)   // RuntimeError(code, url) for a cached status code
    | TransportError                      // the exception of `session.get`, re-raised
    | UnboundRequest                      // line 87 reads `request` after a swallowed failure
    | MissingKey                          // `del cache[url]` on a URL the cache lacks
    | NotMarkup(code: int)                // the HTML parser handed an integer status code

  /** What `urlopen` decides from the cache alone, before any network traffic. */
  datatype Decision = Serve(payload: Payload) | Raise(code: int) | Fetch(timeout: int)

  /** The cache after one call, the flag, the call's result and the timeout of the request it made, if any. */
  datatype Step = Step(entries: map<string, Entry>, slow: bool, result: Result<Payload, Failure>, request: Option<int>)

  function Lookup(entries: map<string, Entry>, url: string): Option<Entry> {
    if url in entries then Some(entries[url]) else None
  }

  /** Lines 63-78 of `urlopen`: serve from the cache, raise a cached error, or go to the network. */
  function Decide(cached: Option<Entry>, refresh: bool, expires: Option<int>, slow: bool, now: int): Decision {
    if refresh then Fetch(if cached.Some? then ShortTimeout else LongTimeout)
    else match cached
      case None => Fetch(LongTimeout)
      case Some(e) =>
        match e.payload
        case Code(c) => Raise(c)
        case Text(_) =>
          if expires.None? || slow then Serve(e.payload)
          else if now - e.date <= MinuteDelta * expires.value then Serve(e.payload)
          else Fetch(ShortTimeout)
  }

  /** The whole of `urlopen`, as written. */
  function Open(entries: map<string, Entry>, slow: bool, url: string, refresh: bool,
                expires: Option<int>, now: int, net: Response): Step
  {
    match Decide(Lookup(entries, url), refresh, expires, slow, now)
    case Serve(p) => Step(entries, slow, Ok(p), None)
    case Raise(c) => Step(entries, slow, Err(HttpError(c, url)), None)
    case Fetch(t) =>
      match net
      case TransportFailure =>
        Step(entries, true, Err(if url in entries then UnboundRequest else TransportError), Some(t))
      case Response(status, text) =>
        var p := if status != 200 then Code(status) else Text(text);
        Step(entries[url := Entry(now, p)], slow, Ok(p), Some(t))
  }

  /** `urlopen` as its diagnostic message intends: after a transport failure, serve what is cached. */
  function OpenIntended(entries: map<string, Entry>, slow: bool, url: string, refresh: bool,
                        expires: Option<int>, now: int, net: Response): Step
  {
    var s := Open(entries, slow, url, refresh, expires, now, net);
    if s.result == Err(UnboundRequest) then s.(result := Ok(entries[url].payload)) else s
  }

  /** `urlrefresh`: delete the entry (a KeyError when absent), then open the URL again. */
  function Refresh(entries: map<string, Entry>, slow: bool, url: string, refresh: bool,
                   expires: Option<int>, now: int, net: Response): Step
  {
    if url !in entries then Step(entries, slow, Err(MissingKey), None)
    else Open(entries - {url}, slow, url, refresh, expires, now, net)
  }

  /** `htmlopen` after `urlopen` returned: text is parsed, an integer payload cannot be. */
  function Load(result: Result<Payload, Failure>): Result<string, Failure> {
    match result
    case Err(e) => Err(e)
    case Ok(Text(t)) => Ok(t)
    case Ok(Code(c)) => Err(NotMarkup(c))
  }

  /** `htmlopen` as its callers expect it: every status code surfaces as an HTTP error. */
  function LoadIntended(url: string, result: Result<Payload, Failure>): Result<string, Failure> {
    match result
    case Err(e) => Err(e)
    case Ok(Text(t)) => Ok(t)
    case Ok(Code(c)) => Err(HttpError(c, url))
  }

  // ---------------------------------------------------------------------
  // Properties of `urlopen`

  /** A cached status code is raised again, without a request and without touching the cache. */
  lemma CachedCodeRaises(entries: map<string, Entry>, slow: bool, url: string, expires: Option<int>, now: int, net: Response)
    requires url in entries && entries[url].payload.Code?
    ensures Open(entries, slow, url, false, expires, now, net)
         == Step(entries, slow, Err(HttpError(entries[url].payload.code, url)), None)
  {
  }

  /** Without an expiry, or once the internet is known to be slow, cached text is served as is. */
  lemma CachedTextServed(entries: map<string, Entry>, slow: bool, url: string, expires: Option<int>, now: int, net: Response)
    requires url in entries && entries[url].payload.Text?
    requires expires.None? || slow
    ensures Open(entries, slow, url, false, expires, now, net) == Step(entries, slow, Ok(entries[url].payload), None)
  {
  }

  /** With an expiry of `n` minutes, cached text is served exactly when it is at most `n` minutes old. */
  lemma ExpiryBoundary(entries: map<string, Entry>, url: string, n: int, now: int, net: Response)
    requires url in entries && entries[url].payload.Text?
    ensures var s := Open(entries, false, url, false, Some(n), now, net);
      (s.request.None? <==> now - entries[url].date <= n * MinuteDelta)
      && (s.request.None? ==> s == Step(entries, false, Ok(entries[url].payload), None))
      && (s.request.Some? ==> s.request == Some(ShortTimeout))
  {
  }

  /** A refresh always goes to the network, whatever the cache holds. */
  lemma RefreshFetches(entries: map<string, Entry>, slow: bool, url: string, expires: Option<int>, now: int, net: Response)
    ensures Open(entries, slow, url, true, expires, now, net).request.Some?
  {
  }

  /** Every request made uses the short timeout for a known URL and the long one for a new URL. */
  lemma RequestTimeout(entries: map<string, Entry>, slow: bool, url: string, refresh: bool,
                       expires: Option<int>, now: int, net: Response)
    ensures var s := Open(entries, slow, url, refresh, expires, now, net);
      s.request.Some? ==> s.request.value == if url in entries then ShortTimeout else LongTimeout
  {
  }

  /**
   * A failed request sets the slow flag and leaves the cache alone. Without a
   * cache entry the failure propagates; with one the call still fails, on the
   * unbound `request`, and the cached payload is never returned.
   */
  lemma TransportFailureFails(entries: map<string, Entry>, slow: bool, url: string, refresh: bool,
                              expires: Option<int>, now: int)
    requires Decide(Lookup(entries, url), refresh, expires, slow, now).Fetch?
    ensures var s := Open(entries, slow, url, refresh, expires, now, TransportFailure);
      s.slow && s.entries == entries && s.request.Some?
      && s.result == Err(if url in entries then UnboundRequest else TransportError)
  {
  }

  /** The slow flag is never cleared, and only a failed request sets it. */
  lemma SlowIsSticky(entries: map<string, Entry>, slow: bool, url: string, refresh: bool,
                     expires: Option<int>, now: int, net: Response)
    ensures var s := Open(entries, slow, url, refresh, expires, now, net);
      (slow ==> s.slow) && (s.slow && !slow ==> net.TransportFailure? && s.request.Some?)
  {
  }

  /**
   * A completed request stores `(now, text or status)` under the URL, overwriting
   * whatever was there and nothing else, and returns the stored payload: a
   * non-200 status comes back as a value, it is not raised.
   */
  lemma CompletedFetchStores(entries: map<string, Entry>, slow: bool, url: string, refresh: bool,
                             expires: Option<int>, now: int, status: int, text: string)
    requires Decide(Lookup(entries, url), refresh, expires, slow, now).Fetch?
    ensures var s := Open(entries, slow, url, refresh, expires, now, Response(status, text));
      var p := if status == 200 then Text(text) else Code(status);
      s.result == Ok(p) && s.slow == slow && s.request.Some?
      && s.entries.Keys == entries.Keys + {url} && s.entries[url] == Entry(now, p)
      && (forall u :: u in entries && u != url ==> s.entries[u] == entries[u])
  {
  }

  /**
   * Whatever a call returns, the next call for the same URL without refresh and
   * without expiry answers from the cache: the same text, or the status code
   * raised as an error; it makes no request and changes nothing.
   */
  lemma {:induction false} SecondOpenUsesCache(entries: map<string, Entry>, slow: bool, url: string, refresh: bool,
                                               expires: Option<int>, now: int, net: Response, later: int, net2: Response)
    requires Open(entries, slow, url, refresh, expires, now, net).result.Ok?
    ensures var s := Open(entries, slow, url, refresh, expires, now, net);
      var s2 := Open(s.entries, s.slow, url, false, None, later, net2);
      s2.request.None? && s2.entries == s.entries && s2.slow == s.slow
      && s2.result == match s.result.value
                      case Text(_) => s.result
                      case Code(c) => Err(HttpError(c, url))
  {
    var s := Open(entries, slow, url, refresh, expires, now, net);
    match Decide(Lookup(entries, url), refresh, expires, slow, now)
    case Serve(p) =>
      assert url in entries && entries[url].payload == p && p.Text?;
    case Raise(c) =>
    case Fetch(t) =>
      assert net.Response?;
      assert url in s.entries && s.entries[url].payload == s.result.value;
  }

  /** `urlrefresh` of a cached URL is a cold request (long timeout) that stores the new payload. */
  lemma RefreshIsColdFetch(entries: map<string, Entry>, slow: bool, url: string, refresh: bool,
                           expires: Option<int>, now: int, status: int, text: string)
    requires url in entries
    ensures var s := Refresh(entries, slow, url, refresh, expires, now, Response(status, text));
      s.request == Some(LongTimeout) && url in s.entries && s.entries[url].date == now
      && s.result == Ok(s.entries[url].payload)
  {
  }

  /** `urlrefresh` of an unknown URL raises KeyError before any request. */
  lemma RefreshUnknownFails(entries: map<string, Entry>, slow: bool, url: string, refresh: bool,
                            expires: Option<int>, now: int, net: Response)
    requires url !in entries
    ensures Refresh(entries, slow, url, refresh, expires, now, net) == Step(entries, slow, Err(MissingKey), None)
  {
  }

  // ---------------------------------------------------------------------
  // The two discrepancies between the code and its evident intent

  /** As written: a cached page whose refetch fails is not served; the call fails on the unbound `request`. */
  lemma FallbackNeverServesCache(url: string, page: string)
    ensures var entries := map[url := Entry(0, Text(page))];
      Open(entries, false, url, false, Some(1), 2 * MinuteDelta, TransportFailure).result == Err(UnboundRequest)
  {
  }

  /** As intended: a failed request for a cached URL serves the cached payload, and the flag is set. */
  lemma IntendedFallbackServesCache(entries: map<string, Entry>, slow: bool, url: string, refresh: bool,
                                    expires: Option<int>, now: int)
    requires url in entries
    requires Decide(Lookup(entries, url), refresh, expires, slow, now).Fetch?
    ensures var s := OpenIntended(entries, slow, url, refresh, expires, now, TransportFailure);
      s.result == Ok(entries[url].payload) && s.slow && s.entries == entries
  {
  }

  /** As written: a freshly fetched 404 page reaches the parser as the integer 404, not as an HTTP error. */
  lemma FreshNotFoundIsNotHttpError(url: string, now: int)
    ensures Load(Open(map[], false, url, false, None, now, Response(404, "")).result) == Err(NotMarkup(404))
  {
  }

  /**
   * As intended: the first fetch of a page that answers a non-200 status and
   * every later read of it from the cache reach the caller alike, as
   * `HttpError(code, url)`.
   */
  lemma IntendedFreshCodeLikeCached(entries: map<string, Entry>, slow: bool, url: string, now: int, code: int, body: string,
                                    expires: Option<int>, later: int, net: Response)
    requires url !in entries && code != 200
    ensures var first := Open(entries, slow, url, false, None, now, Response(code, body));
      var second := Open(first.entries, first.slow, url, false, expires, later, net);
      LoadIntended(url, first.result) == Err(HttpError(code, url))
      && Load(second.result) == Err(HttpError(code, url))
      && LoadIntended(url, second.result) == Err(HttpError(code, url))
  {
  }

  // ---------------------------------------------------------------------
  // The cache object

  /** The shelve opened by `urlcache()`, with the module's slow flag beside it. */
  class UrlCache {
    var entries: map<string, Entry>
    var internetSlow: bool

    /** `urlcache()`: open the stored cache; the process starts with a fast internet. */
    constructor (stored: map<string, Entry>)
      ensures entries == stored && !internetSlow
    {
      entries := stored;
      internetSlow := false;
    }

    /** `urldate`: when the URL was stored, or None for an unknown URL. */
    function UrlDate(url: string): (d: Option<int>)
      reads this
      ensures d.Some? <==> url in entries
      ensures d.Some? ==> d.value == entries[url].date
    {
      if url in entries then Some(entries[url].date) else None
    }

    /** `urlsave`: store the payload under the URL with the current time. */
    method UrlSave(url: string, data: Payload, now: int)
      modifies this
      ensures entries == old(entries)[url := Entry(now, data)]
      ensures internetSlow == old(internetSlow)
    {
      entries := entries[url := Entry(now, data)];
    }

    /** `urlopen`: returns the payload, or the failure, and the timeout of the request it made. */
    method UrlOpen(url: string, refresh: bool, expires: Option<int>, now: int, net: Response)
      returns (r: Result<Payload, Failure>, request: Option<int>)
      modifies this
      ensures Step(entries, internetSlow, r, request)
           == Open(old(entries), old(internetSlow), url, refresh, expires, now, net)
    {
      request := None;
      if !refresh && url in entries {
        var e := entries[url];
        match e.payload {
          case Code(c) =>
            r := Err(HttpError(c, url));
            return;
          case Text(_) =>
            if expires.None? || internetSlow {
              r := Ok(e.payload);
              return;
            } else if now - e.date <= MinuteDelta * expires.value {
              r := Ok(e.payload);
              return;
            }
        }
      }
      var timeout := if url in entries then ShortTimeout else LongTimeout;
      request := Some(timeout);
      if net.TransportFailure? {
        internetSlow := true;
        r := Err(if url in entries then UnboundRequest else TransportError);
        return;
      }
      var data := if net.status != 200 then Code(net.status) else Text(net.text);
      UrlSave(url, data, now);
      r := Ok(data);
    }

    /** `urlrefresh`: drop the entry, then open the URL again with the same options. */
    method UrlRefresh(url: string, refresh: bool, expires: Option<int>, now: int, net: Response)
      returns (r: Outcome<Failure>, request: Option<int>)
      modifies this
      ensures var s := Refresh(old(entries), old(internetSlow), url, refresh, expires, now, net);
        entries == s.entries && internetSlow == s.slow && request == s.request
        && r == if s.result.Err? then Fail(s.result.error) else Pass
    {
      if url !in entries {
        r, request := Fail(MissingKey), None;
        return;
      }
      entries := entries - {url};
      var result;
      result, request := UrlOpen(url, refresh, expires, now, net);
      r := if result.Err? then Fail(result.error) else Pass;
    }

    /** `htmlopen`: `urlopen`, then the page text handed to the (lenient) HTML parser. */
    method HtmlOpen(url: string, refresh: bool, expires: Option<int>, now: int, net: Response)
      returns (r: Result<string, Failure>, request: Option<int>)
      modifies this
      ensures var s := Open(old(entries), old(internetSlow), url, refresh, expires, now, net);
        entries == s.entries && internetSlow == s.slow && request == s.request && r == Load(s.result)
    {
      var data;
      data, request := UrlOpen(url, refresh, expires, now, net);
      r := Load(data);
    }
  }
}
