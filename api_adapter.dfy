/**
 * The shared machinery of the HTTP integrations
 * (app/integrations/api_adapter.py): the sliding one-second rate limiter,
 * the authentication headers, the request URL, the has-more-pages decision
 * and the page loop of the paginated adapter.
 *
 * The clock is passed in (an integer count of microseconds, the resolution
 * of Python's `datetime`), the limiter returns how long it would sleep
 * instead of sleeping, and a request is an abstract function from query
 * parameters to the decoded response (`None` when the request raises).
 */
module ApiAdapter {
  import opened Wrappers
  import opened JsonValue
  import opened Canonical
  import Text
  import Seqs

  /** One second of the clock. */
  const Second: int := 1000000

  // ---------------------------------------------------------------------
  // Rate limiting
  // ---------------------------------------------------------------------

  /** The timestamps later than one second before `now`, in log order. */
  function Pruned(times: seq<int>, now: int): seq<int> {
    Seqs.Filter(times, (t: int) => t > now - Second)
  }

  /**
   * The sleep before a request, given the pruned log: none below the limit;
   * at the limit, what is left of the second since the oldest retained
   * request, and no sleep if that is not positive. `None` is the IndexError
   * raised when the limit is zero or negative and the log is empty.
   */
  function WaitFor(pruned: seq<int>, now: int, limit: int): Option<int> {
    if |pruned| < limit then Some(0)
    else if pruned == [] then None
    else
      var w := Second - (now - pruned[0]);
      Some(if w > 0 then w else 0)
  }

  predicate Sorted(s: seq<int>) {
    forall i, j :: 0 <= i < j < |s| ==> s[i] <= s[j]
  }

  /** The request log of one adapter (`_request_times`) and its limit. */
  class RateLimiter {
    var requestTimes: seq<int>
    const rateLimit: int

    constructor (rateLimit: int)
      ensures this.rateLimit == rateLimit && requestTimes == []
    {
      this.rateLimit := rateLimit;
      requestTimes := [];
    }

    /**
     * `_apply_rate_limit` at clock reading `now`. The request is recorded
     * at the clock reading after the sleep, `lag` later than the sleep's
     * end (the sleep lasts at least the wait). The log is pruned, the wait
     * computed on the pruned log, and one timestamp appended at the end
     * (none when the call raises).
     */
    method Apply(now: int, lag: nat) returns (wait: Option<int>)
      modifies this
      ensures wait == WaitFor(Pruned(old(requestTimes), now), now, rateLimit)
      ensures wait.Some? ==> requestTimes == Pruned(old(requestTimes), now) + [now + wait.value + lag]
      ensures wait.None? ==> requestTimes == Pruned(old(requestTimes), now)
      ensures requestTimes == Admit(old(requestTimes), now, lag, rateLimit)
    {
      requestTimes := Pruned(requestTimes, now);
      wait := Some(0);
      if |requestTimes| >= rateLimit {
        if requestTimes == [] {
          return None;
        }
        var oldest := requestTimes[0];
        var w := Second - (now - oldest);
        if w > 0 {
          wait := Some(w);
        }
      }
      requestTimes := requestTimes + [now + wait.value + lag];
    }
  }

  /** The log after one call of the limiter at clock reading `now`, recorded `lag` after the sleep. */
  function Admit(log: seq<int>, now: int, lag: nat, limit: int): seq<int> {
    var p := Pruned(log, now);
    match WaitFor(p, now, limit)
    case None => p
    case Some(w) => p + [now + w + lag]
  }

  /** The log after a series of calls on a fresh limiter, each a clock reading and a lag. */
  function Replay(calls: seq<(int, nat)>, limit: int): seq<int>
    decreases |calls|
  {
    if calls == [] then []
    else
      var last := calls[|calls| - 1];
      Admit(Replay(calls[..|calls| - 1], limit), last.0, last.1, limit)
  }

  /** The time each call is recorded at when it does not wait. */
  function Recorded(calls: seq<(int, nat)>): (r: seq<int>)
    ensures |r| == |calls| && forall i :: 0 <= i < |calls| ==> r[i] == calls[i].0 + calls[i].1
  {
    seq(|calls|, i requires 0 <= i < |calls| => calls[i].0 + calls[i].1)
  }

  /** Calls one after the other, as the lock orders them: each starts after the earlier ones were recorded. */
  predicate Serial(calls: seq<(int, nat)>) {
    forall i, j :: 0 <= i < j < |calls| ==> calls[i].0 + calls[i].1 <= calls[j].0
  }

  /** Every call starts less than a second after the first one was recorded. */
  predicate WithinASecond(calls: seq<(int, nat)>) {
    forall i :: 0 <= i < |calls| ==> calls[i].0 < calls[0].0 + calls[0].1 + Second
  }

  /**
   * A log whose every entry is later than the first and the first less
   * than a second before `now` is not pruned.
   */
  lemma NothingPruned(log: seq<int>, now: int)
    requires |log| > 0 && now < log[0] + Second
    requires forall i :: 0 <= i < |log| ==> log[0] <= log[i]
    ensures Pruned(log, now) == log
  {
    Seqs.FilterKeepsAll(log, (t: int) => t > now - Second);
  }

  /** Below the limit, a call on a log less than a second old is recorded without a wait. */
  lemma AdmitBelowLimit(log: seq<int>, now: int, lag: nat, limit: int)
    requires |log| < limit
    requires |log| > 0 ==> now < log[0] + Second && forall i :: 0 <= i < |log| ==> log[0] <= log[i]
    ensures Admit(log, now, lag, limit) == log + [now + lag]
  {
    if |log| > 0 {
      NothingPruned(log, now);
    }
  }

  /** Up to the limit, serial calls within one second never wait and are all recorded. */
  lemma {:induction false} BurstAdmitsAll(calls: seq<(int, nat)>, limit: int)
    requires |calls| <= limit && Serial(calls) && WithinASecond(calls)
    ensures Replay(calls, limit) == Recorded(calls)
    decreases |calls|
  {
    if calls != [] {
      var n := |calls| - 1;
      var pre := calls[..n];
      assert Serial(pre);
      assert WithinASecond(pre) by {
        if n > 0 {
          assert pre[0] == calls[0];
        }
      }
      BurstAdmitsAll(pre, limit);
      var log := Recorded(pre);
      if n > 0 {
        assert log[0] == calls[0].0 + calls[0].1;
        forall i | 0 < i < n
          ensures log[0] <= log[i]
        {
          assert calls[0].0 + calls[0].1 <= calls[i].0;
        }
      }
      AdmitBelowLimit(log, calls[n].0, calls[n].1, limit);
      forall i | 0 <= i < n
        ensures Recorded(calls)[i] == log[i]
      {
        assert pre[i] == calls[i];
      }
      assert Recorded(calls) == log + [calls[n].0 + calls[n].1];
    }
  }

  /**
   * The rate limit itself: after `limit` serial calls within one second, a
   * further call before that second has elapsed since the first was
   * recorded waits exactly until it has, and is recorded no earlier.
   */
  lemma NextCallWaits(calls: seq<(int, nat)>, limit: int, now: int, lag: nat)
    requires limit >= 1 && |calls| == limit && Serial(calls) && WithinASecond(calls)
    requires now < calls[0].0 + calls[0].1 + Second
    ensures var first := calls[0].0 + calls[0].1;
      WaitFor(Pruned(Replay(calls, limit), now), now, limit) == Some(first + Second - now)
      && Admit(Replay(calls, limit), now, lag, limit) == Recorded(calls) + [first + Second + lag]
  {
    BurstAdmitsAll(calls, limit);
    var log := Recorded(calls);
    assert forall i :: 0 <= i < |log| ==> log[0] <= log[i] by {
      forall i | 0 < i < |log|
        ensures log[0] <= log[i]
      {
        assert calls[0].0 + calls[0].1 <= calls[i].0;
      }
    }
    NothingPruned(log, now);
  }

  /**
   * Pruning keeps exactly the timestamps strictly later than `now` minus one
   * second, each as often as it occurs, in their original order.
   */
  lemma PrunedSpec(times: seq<int>, now: int)
    ensures forall t :: t in Pruned(times, now) <==> t in times && t > now - Second
    ensures Seqs.IsSubsequence(Pruned(times, now), times)
    ensures forall t :: multiset(Pruned(times, now))[t] == if t > now - Second then multiset(times)[t] else 0
  {
    var f := (t: int) => t > now - Second;
    Seqs.FilterMembers(times, f);
    Seqs.FilterIsSubsequence(times, f);
    Seqs.FilterCountsAll(times, f);
  }

  /**
   * Below the limit there is no wait; the call raises only for a limit of
   * zero or less with an empty log; at the limit, with a clock that never
   * runs backwards, the wait is what is left of the second since the oldest
   * retained request, and lies in (0, 1] seconds.
   */
  lemma WaitSpec(times: seq<int>, now: int, limit: int)
    requires forall i :: 0 <= i < |times| ==> times[i] <= now
    ensures var p := Pruned(times, now);
      (|p| < limit ==> WaitFor(p, now, limit) == Some(0))
      && (WaitFor(p, now, limit).None? <==> limit <= 0 && p == [])
      && (|p| >= limit && p != [] ==>
            WaitFor(p, now, limit) == Some(Second - (now - p[0]))
            && 0 < Second - (now - p[0]) <= Second)
  {
    var p := Pruned(times, now);
    PrunedSpec(times, now);
    if p != [] {
      assert p[0] in p;
      assert p[0] in times;
    }
  }

  /** Pruning a sorted log leaves it sorted. */
  lemma {:induction false} PrunedSorted(times: seq<int>, now: int)
    requires Sorted(times)
    ensures Sorted(Pruned(times, now))
    decreases |times|
  {
    if times != [] {
      var f := (t: int) => t > now - Second;
      assert Sorted(times[1..]);
      PrunedSorted(times[1..], now);
      Seqs.FilterMembers(times[1..], f);
      var rest := Pruned(times[1..], now);
      if f(times[0]) {
        assert Pruned(times, now) == [times[0]] + rest;
        forall j | 0 <= j < |rest|
          ensures times[0] <= rest[j]
        {
          assert rest[j] in times[1..];
        }
      }
    }
  }

  /**
   * With a clock that never runs backwards the log stays sorted, so the first
   * retained timestamp used for the wait is the oldest one, and every
   * timestamp is at most the latest admission.
   */
  lemma AdmitKeepsSorted(times: seq<int>, now: int, lag: nat, limit: int)
    requires Sorted(times)
    requires forall i :: 0 <= i < |times| ==> times[i] <= now
    ensures var log := Admit(times, now, lag, limit);
      Sorted(log) && forall i :: 0 <= i < |log| ==> log[0] <= log[i] <= log[|log| - 1]
  {
    var p := Pruned(times, now);
    PrunedSorted(times, now);
    PrunedSpec(times, now);
    forall i | 0 <= i < |p|
      ensures p[i] <= now
    {
      assert p[i] in times;
    }
    WaitSpec(times, now, limit);
  }

  // ---------------------------------------------------------------------
  // Headers and URL
  // ---------------------------------------------------------------------

  /** A header dict in insertion order, each name once. */
  type Headers = seq<(string, string)>

  /** `headers.get(name)`. */
  function Lookup(h: Headers, name: string): Option<string>
    decreases |h|
  {
    if h == [] then None
    else if h[0].0 == name then Some(h[0].1)
    else Lookup(h[1..], name)
  }

  /** `headers[name] = value`: replaced in place when present, appended otherwise. */
  function SetHeader(h: Headers, name: string, value: string): (r: Headers)
    ensures Lookup(r, name) == Some(value)
    ensures forall other :: other != name ==> Lookup(r, other) == Lookup(h, other)
    ensures |r| == if Lookup(h, name).Some? then |h| else |h| + 1
    decreases |h|
  {
    if h == [] then [(name, value)]
    else if h[0].0 == name then [(name, value)] + h[1..]
    else [h[0]] + SetHeader(h[1..], name, value)
  }

  /** The headers every request carries. */
  function BaseHeaders(): Headers {
    [("User-Agent", "MSPriceEngine/1.0"), ("Accept", "application/json")]
  }

  /** A configuration string, "" when absent (absent and "" are both falsy). */
  function ConfigText(config: map<string, string>, key: string): string {
    if key in config then config[key] else []
  }

  /** `config.get('api_key_header', 'X-API-Key')`. */
  function KeyHeader(config: map<string, string>): string {
    if "api_key_header" in config then config["api_key_header"] else "X-API-Key"
  }

  /** `config.get('token') or config.get('access_token')`. */
  function BearerToken(config: map<string, string>): string {
    if ConfigText(config, "token") != [] then ConfigText(config, "token") else ConfigText(config, "access_token")
  }

  /**
   * `_get_auth_headers`: the base headers, plus the API key under its
   * configured header name, or an `Authorization: Bearer` header from the
   * bearer token or the OAuth access token; nothing is added when the
   * credential is missing or empty, or for any other authentication type.
   */
  method GetAuthHeaders(authType: string, config: map<string, string>) returns (headers: Headers)
    ensures Lookup(headers, "User-Agent").Some? && Lookup(headers, "Accept").Some?
    ensures authType == "api_key" && ConfigText(config, "api_key") != [] ==>
      Lookup(headers, KeyHeader(config)) == Some(config["api_key"])
      && forall k :: k != KeyHeader(config) ==> Lookup(headers, k) == Lookup(BaseHeaders(), k)
    ensures authType == "bearer" && BearerToken(config) != [] ==>
      headers == BaseHeaders() + [("Authorization", "Bearer " + BearerToken(config))]
    ensures authType == "oauth" && ConfigText(config, "access_token") != [] ==>
      headers == BaseHeaders() + [("Authorization", "Bearer " + config["access_token"])]
    ensures (authType == "api_key" && ConfigText(config, "api_key") == [])
      || (authType == "bearer" && BearerToken(config) == [])
      || (authType == "oauth" && ConfigText(config, "access_token") == [])
      || (authType != "api_key" && authType != "bearer" && authType != "oauth")
      ==> headers == BaseHeaders()
  {
    headers := BaseHeaders();
    if authType == "api_key" {
      var apiKey := ConfigText(config, "api_key");
      if apiKey != [] {
        headers := SetHeader(headers, KeyHeader(config), apiKey);
      }
    } else if authType == "bearer" {
      var token := BearerToken(config);
      if token != [] {
        headers := SetHeader(headers, "Authorization", "Bearer " + token);
      }
    } else if authType == "oauth" {
      var token := ConfigText(config, "access_token");
      if token != [] {
        headers := SetHeader(headers, "Authorization", "Bearer " + token);
      }
    }
  }

  predicate IsSlash(c: char) {
    c == '/'
  }

  /**
   * The stored base URL (`base_url.rstrip('/')`): the given URL without its
   * trailing slashes.
   */
  function StoredBaseUrl(baseUrl: string): (b: string)
    ensures |b| <= |baseUrl| && b == baseUrl[..|b|]
    ensures b == [] || b[|b| - 1] != '/'
    ensures forall i :: |b| <= i < |baseUrl| ==> baseUrl[i] == '/'
  {
    Text.RStripBy(baseUrl, IsSlash)
  }

  /** The URL `_make_request` calls: the stored base URL followed by the endpoint. */
  function RequestUrl(baseUrl: string, endpoint: string): string {
    StoredBaseUrl(baseUrl) + endpoint
  }

  /**
   * A trailing slash on the configured base URL makes no difference, and
   * storing an already stored base URL changes nothing.
   */
  lemma TrailingSlashIgnored(baseUrl: string, endpoint: string)
    ensures RequestUrl(baseUrl + "/", endpoint) == RequestUrl(baseUrl, endpoint)
    ensures StoredBaseUrl(StoredBaseUrl(baseUrl)) == StoredBaseUrl(baseUrl)
  {
    var s := baseUrl + "/";
    assert s[..|s| - 1] == baseUrl;
  }

  // ---------------------------------------------------------------------
  // Pagination
  // ---------------------------------------------------------------------

  /** `current_page < value`: `None` where the comparison raises `TypeError`. */
  function Below(page: int, v: Option<Json>): Option<bool> {
    match v
    case Some(JNum(x, _)) => Some(page as real < x)
    case Some(JBool(b)) => Some(page < if b then 1 else 0)
    case _ => None
  }

  /** `value is not None` on a looked-up value (`None` when the lookup raises). */
  function NotNone(v: Option<Json>): Option<bool> {
    match v
    case Some(x) => Some(x != JNull)
    case None => None
  }

  /** The truthiness of a looked-up value (`None` when the lookup raises). */
  function TruthOf(v: Option<Json>): Option<bool> {
    match v
    case Some(x) => Some(Truthy(x))
    case None => None
  }

  /** The nested `paging` object's cascade. */
  function PagingMore(paging: Option<Json>, page: int): Option<bool> {
    match paging
    case None => None
    case Some(p) =>
      if PyIn("next", p).None? then None
      else if PyIn("next", p) == Some(true) then NotNone(PyIndex(p, "next"))
      else if PyIn("total_pages", p) == Some(true) then Below(page, PyIndex(p, "total_pages"))
      else Some(false)
  }

  /**
   * `_has_more_pages`, read as the loop reads it (`not ...`): `Some(b)` for
   * the truth of the decision, `None` where it raises.
   */
  function HasMorePages(response: Json, page: int): Option<bool> {
    if PyIn("has_next", response).None? then None
    else if PyIn("has_next", response) == Some(true) then TruthOf(PyIndex(response, "has_next"))
    else if PyIn("next_page", response) == Some(true) then NotNone(PyIndex(response, "next_page"))
    else if PyIn("total_pages", response) == Some(true) then Below(page, PyIndex(response, "total_pages"))
    else if PyIn("paging", response) == Some(true) then PagingMore(PyIndex(response, "paging"), page)
    else Some(false)
  }

  /**
   * On a dict response the first present key of `has_next`, `next_page`,
   * `total_pages` and `paging` decides; with none of them the answer is no.
   */
  lemma HasMorePagesOrder(fields: seq<(string, Json)>, page: int)
    ensures var r := HasMorePages(JObj(fields), page);
      (HasKey(fields, "has_next") ==> r == Some(Truthy(Get(fields, "has_next").value)))
      && (!HasKey(fields, "has_next") && HasKey(fields, "next_page") ==>
            r == Some(Get(fields, "next_page").value != JNull))
      && (!HasKey(fields, "has_next") && !HasKey(fields, "next_page") && HasKey(fields, "total_pages") ==>
            r == Below(page, Get(fields, "total_pages")))
      && ((!HasKey(fields, "has_next") && !HasKey(fields, "next_page") && !HasKey(fields, "total_pages")
           && HasKey(fields, "paging")) ==> r == PagingMore(Get(fields, "paging"), page))
      && ((!HasKey(fields, "has_next") && !HasKey(fields, "next_page") && !HasKey(fields, "total_pages")
           && !HasKey(fields, "paging")) ==> r == Some(false))
  {
  }

  /** A numeric `total_pages` (with no earlier key) continues exactly while the page is below it. */
  lemma TotalPagesDecides(fields: seq<(string, Json)>, page: int, total: real, text: string)
    requires !HasKey(fields, "has_next") && !HasKey(fields, "next_page")
    requires Get(fields, "total_pages") == Some(JNum(total, text))
    ensures HasMorePages(JObj(fields), page) == Some(page as real < total)
  {
  }

  /** Query parameters: the values the integrations send are integers and strings. */
  datatype Param = PInt(i: int) | PStr(s: string)
  type Params = map<string, Param>

  /**
   * `fetch_all_pages`' inputs: the request for given parameters (`None` when
   * it raises), the response parser (`None` when it raises), the base
   * parameters, the page parameter's name and the page bound.
   */
  datatype Paging = Paging(
    request: Params -> Option<Json>,
    parse: Json -> Option<seq<Product>>,
    params: Params,
    pageKey: string,
    maxPages: int)

  /** The parameters of the request for `page`: the base ones with the page key set. */
  function PageParams(cfg: Paging, page: int): (r: Params)
    ensures r.Keys == cfg.params.Keys + {cfg.pageKey} && r[cfg.pageKey] == PInt(page)
    ensures forall k :: k in cfg.params && k != cfg.pageKey ==> r[k] == cfg.params[k]
  {
    cfg.params[cfg.pageKey := PInt(page)]
  }

  /** What one page yields: products, and whether the loop goes on. */
  datatype Step = Stop(got: seq<Product>) | Continue(got: seq<Product>)

  /**
   * One iteration: stop with nothing on a failed request or parse or an empty
   * page; otherwise keep the page's products and go on only when the
   * has-more decision is yes (a raising decision stops, products kept).
   */
  function PageStep(cfg: Paging, page: int): Step {
    match cfg.request(PageParams(cfg, page))
    case None => Stop([])
    case Some(response) =>
      match cfg.parse(response)
      case None => Stop([])
      case Some(products) =>
        if products == [] then Stop([])
        else if HasMorePages(response, page) == Some(true) then Continue(products)
        else Stop(products)
  }

  /** The pages requested from `page` on, and the products collected. */
  datatype PageRun = PageRun(products: seq<Product>, requested: seq<int>)

  /** The step of each page number, as the loop of `cfg` sees it. */
  function Steps(cfg: Paging): int -> Step {
    page => PageStep(cfg, page)
  }

  /** The loop from `page` on, for any step function and page bound. */
  function RunOf(step: int -> Step, maxPages: int, page: int): PageRun
    decreases if page <= maxPages then maxPages - page + 1 else 0
  {
    if page > maxPages then PageRun([], [])
    else
      match step(page)
      case Stop(got) => PageRun(got, [page])
      case Continue(got) =>
        var rest := RunOf(step, maxPages, page + 1);
        PageRun(got + rest.products, [page] + rest.requested)
  }

  function Run(cfg: Paging, page: int): PageRun {
    RunOf(Steps(cfg), cfg.maxPages, page)
  }

  /** The products of `n` consecutive pages from `page`, concatenated. */
  function Gathered(step: int -> Step, page: int, n: nat): seq<Product>
    decreases n
  {
    if n == 0 then [] else step(page).got + Gathered(step, page + 1, n - 1)
  }

  /** `fetch_all_pages`. */
  method FetchAllPages(cfg: Paging) returns (products: seq<Product>)
    ensures products == Run(cfg, 1).products
  {
    products := [];
    var page := 1;
    while page <= cfg.maxPages
      invariant Run(cfg, 1).products == products + Run(cfg, page).products
      decreases cfg.maxPages - page + 1
    {
      RunPage(cfg, page);
      var response := cfg.request(PageParams(cfg, page));
      if response.None? {
        assert Run(cfg, page).products == [];
        return;
      }
      var parsed := cfg.parse(response.value);
      if parsed.None? || parsed.value == [] {
        assert Run(cfg, page).products == [];
        return;
      }
      var more := HasMorePages(response.value, page);
      ghost var rest := if more == Some(true) then Run(cfg, page + 1).products else [];
      assert Run(cfg, page).products == parsed.value + rest;
      assert products + (parsed.value + rest) == (products + parsed.value) + rest;
      products := products + parsed.value;
      if more != Some(true) {
        assert products + rest == products;
        return;
      }
      page := page + 1;
    }
  }

  /** One unfolding of the loop of `cfg` at a page within the bound. */
  lemma RunAt(cfg: Paging, page: int)
    requires page <= cfg.maxPages
    ensures Run(cfg, page) == match PageStep(cfg, page)
      case Stop(got) => PageRun(got, [page])
      case Continue(got) => PageRun(got + Run(cfg, page + 1).products, [page] + Run(cfg, page + 1).requested)
  {
    assert Steps(cfg)(page) == PageStep(cfg, page);
  }

  /** The products from a page within the bound, by what its request and parse return. */
  lemma RunPage(cfg: Paging, page: int)
    requires page <= cfg.maxPages
    ensures var response := cfg.request(PageParams(cfg, page));
      (response.None? ==> Run(cfg, page).products == [])
      && (response.Some? ==>
            var parsed := cfg.parse(response.value);
            (parsed.None? || parsed.value == [] ==> Run(cfg, page).products == [])
            && (parsed.Some? && parsed.value != [] ==>
                  Run(cfg, page).products
                    == parsed.value + if HasMorePages(response.value, page) == Some(true) then Run(cfg, page + 1).products else []))
  {
    RunAt(cfg, page);
  }

  /**
   * The loop requests pages `page`, `page`+1, … consecutively, at least one
   * when `page` is within the bound, and never beyond the bound.
   */
  lemma {:induction false} RunPages(step: int -> Step, maxPages: int, page: int)
    ensures var r := RunOf(step, maxPages, page);
      (forall i :: 0 <= i < |r.requested| ==> r.requested[i] == page + i)
      && (page > maxPages ==> r.requested == [])
      && (page <= maxPages ==> 1 <= |r.requested| <= maxPages - page + 1)
    decreases if page <= maxPages then maxPages - page + 1 else 0
  {
    if page <= maxPages && step(page).Continue? {
      RunPages(step, maxPages, page + 1);
      var rest := RunOf(step, maxPages, page + 1).requested;
      var r := RunOf(step, maxPages, page).requested;
      assert r == [page] + rest;
      forall i | 0 < i < |r|
        ensures r[i] == page + i
      {
        assert r[i] == rest[i - 1];
      }
    }
  }

  /**
   * Every requested page but the last said to go on; the last one stopped the
   * loop or was the last page allowed.
   */
  lemma {:induction false} RunStops(step: int -> Step, maxPages: int, page: int)
    ensures var r := RunOf(step, maxPages, page);
      (forall i :: 0 <= i < |r.requested| - 1 ==> step(r.requested[i]).Continue?)
      && (r.requested != [] ==>
            step(r.requested[|r.requested| - 1]).Stop? || r.requested[|r.requested| - 1] == maxPages)
    decreases if page <= maxPages then maxPages - page + 1 else 0
  {
    if page <= maxPages && step(page).Continue? {
      RunStops(step, maxPages, page + 1);
      RunPages(step, maxPages, page + 1);
      var rest := RunOf(step, maxPages, page + 1).requested;
      var r := RunOf(step, maxPages, page).requested;
      assert r == [page] + rest;
      forall i | 0 < i < |r| - 1
        ensures step(r[i]).Continue?
      {
        assert r[i] == rest[i - 1];
      }
      if rest == [] {
        assert page + 1 > maxPages;
      } else {
        assert r[|r| - 1] == rest[|rest| - 1];
      }
    }
  }

  /** The loop's result is the requested pages' products, concatenated in page order. */
  lemma {:induction false} RunGathers(step: int -> Step, maxPages: int, page: int)
    ensures RunOf(step, maxPages, page).products == Gathered(step, page, |RunOf(step, maxPages, page).requested|)
    decreases if page <= maxPages then maxPages - page + 1 else 0
  {
    if page <= maxPages {
      if step(page).Continue? {
        RunGathers(step, maxPages, page + 1);
      } else {
        assert Gathered(step, page, 1) == step(page).got + [];
      }
    }
  }

  /** When every page up to the bound says to go on, all of them are requested. */
  lemma {:induction false} RunToBound(step: int -> Step, maxPages: int, page: int)
    requires 1 <= page
    requires forall q :: page <= q < maxPages ==> step(q).Continue?
    ensures |RunOf(step, maxPages, page).requested| == if page <= maxPages then maxPages - page + 1 else 0
    decreases if page <= maxPages then maxPages - page + 1 else 0
  {
    if page < maxPages {
      RunToBound(step, maxPages, page + 1);
    }
  }
}
