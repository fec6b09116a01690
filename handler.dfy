/**
 * `authenticate` and `handle`: the per-request decision sequence of the
 * proxy's single `GET /` endpoint. The browser's answer for a tab pointed at
 * a URL and the HTML sanitizer (`remove_tags`) are parameters.
 */
module Handler {
  import opened Wrappers
  import Config
  import opened Pool
  import opened Cache

  /** The query parameters of a request (the first value of each name). */
  datatype Request = Request(query: map<string, string>)

  datatype Response = Response(status: int, text: string, contentType: string)

  /** What `tab.get(url)` followed by `tab.get_content()` gave: the raw page, or the exception's text. */
  datatype FetchResult = Fetched(content: string) | FetchFailed(message: string)

  const Unauthorized := Response(401, "Unauthorized: Invalid or missing API key.", "text/plain")
  const MissingUrl := Response(400, "Missing 'url' query parameter", "text/plain")

  function Page(html: string): Response {
    Response(200, html, "text/html")
  }

  function LoadError(message: string): Response {
    Response(500, "Error loading page: " + message, "text/plain")
  }

  /** `request.query.get(name)`. */
  function QueryGet(request: Request, name: string): Option<string> {
    if name in request.query then Some(request.query[name]) else None
  }

  /** `authenticate`: the `key` query value is present and on the allow-list. */
  function Authenticate(request: Request, validKeys: seq<string>): (ok: bool)
    ensures ok <==> "key" in request.query && request.query["key"] in validKeys
  {
    var apiKey := QueryGet(request, "key");
    apiKey.Some? && apiKey.value in validKeys
  }

  /** Against the allow-list read from a key file, a request passes when some kept line of the file is its key. */
  lemma AuthenticateAgainstKeyFile(request: Request, lines: seq<string>)
    ensures Authenticate(request, Config.ApiKeysOf(lines))
        <==> "key" in request.query && Config.ListsKey(lines, request.query["key"])
  {
  }

  /** `if not url`: only a missing and an empty `url` value are false. */
  function HasUrl(request: Request): (present: bool)
    ensures !present <==> QueryGet(request, "url") == None || QueryGet(request, "url") == Some("")
  {
    "url" in request.query && request.query["url"] != ""
  }

  /** The request gets past authentication, the URL check and the cache: it needs a tab. */
  predicate Misses(request: Request, validKeys: seq<string>, entries: map<string, string>, digest: string -> HexDigest) {
    Authenticate(request, validKeys) && HasUrl(request)
    && !IsHit(Lookup(entries, digest(request.query["url"])))
  }

  /**
   * `handle`. Checks, in order: the API key (401), the URL (400), the cache
   * (200 with the cached page). Otherwise it acquires a tab, loads the page
   * in it, sanitizes and caches the result and answers 200, or answers 500
   * when loading failed; the tab is released on both paths.
   * The acquire would wait on an empty queue, so a request that reaches it
   * needs an idle tab.
   */
  method Handle(validKeys: seq<string>, pool: BrowserPool, cache: PageCache,
                browse: (Tab, string) -> FetchResult, sanitize: string -> string, request: Request)
    returns (response: Response)
    requires pool.Valid()
    requires Misses(request, validKeys, cache.entries, cache.digest) ==> pool.tabs != []
    modifies pool, cache
    ensures pool.Valid() && pool.browser == old(pool.browser)
    ensures |pool.tabs| == |old(pool.tabs)| && multiset(pool.tabs) == multiset(old(pool.tabs))
    ensures !Authenticate(request, validKeys) ==>
      response == Unauthorized && unchanged(pool) && unchanged(cache)
    ensures Authenticate(request, validKeys) && !HasUrl(request) ==>
      response == MissingUrl && unchanged(pool) && unchanged(cache)
    ensures Authenticate(request, validKeys) && HasUrl(request)
            && IsHit(Lookup(old(cache.entries), cache.CacheKey(request.query["url"]))) ==>
      response == Page(old(cache.entries)[cache.CacheKey(request.query["url"])])
      && unchanged(pool) && unchanged(cache)
    ensures old(Misses(request, validKeys, cache.entries, cache.digest)) ==>
      var tab := old(pool.tabs)[0];
      var url := request.query["url"];
      && pool.tabs == old(pool.tabs)[1..] + [tab]
      && pool.events == old(pool.events) + [Acquired(tab), Released(tab)]
      && match browse(tab, url)
         case Fetched(raw) =>
           response == Page(sanitize(raw))
           && cache.entries == old(cache.entries)[cache.CacheKey(url) := sanitize(raw)]
         case FetchFailed(message) =>
           response == LoadError(message) && cache.entries == old(cache.entries)
  {
    if !Authenticate(request, validKeys) {
      return Unauthorized;
    }
    var url := QueryGet(request, "url");
    if url == None || url.value == "" {
      return MissingUrl;
    }
    var cached := cache.Get(url.value);
    if IsHit(cached) {
      return Page(cached.value);
    }
    var tab := pool.Acquire();
    // try
    match browse(tab, url.value) {
      case Fetched(raw) =>
        var html := sanitize(raw);
        cache.Store(url.value, html);
        response := Page(html);
      case FetchFailed(message) =>
        response := LoadError(message);
    }
    // finally
    pool.Release(tab);
    assert pool.tabs == old(pool.tabs)[1..] + [old(pool.tabs)[0]];
    RotateKeepsTabs(old(pool.tabs));
  }

  /**
   * Two identical requests in a row: when the first loads a non-empty page,
   * the second is answered with the same page from the cache and takes no
   * tab; over both, the pool lends out exactly one tab and gets it back.
   */
  method RepeatedRequest(validKeys: seq<string>, pool: BrowserPool, cache: PageCache,
                         browse: (Tab, string) -> FetchResult, sanitize: string -> string, request: Request)
    returns (first: Response, second: Response)
    requires pool.Valid() && pool.tabs != []
    requires Misses(request, validKeys, cache.entries, cache.digest)
    requires browse(pool.tabs[0], request.query["url"]).Fetched?
    requires sanitize(browse(pool.tabs[0], request.query["url"]).content) != ""
    modifies pool, cache
    ensures first.status == 200 && second == first
    ensures pool.events == old(pool.events) + [Acquired(old(pool.tabs)[0]), Released(old(pool.tabs)[0])]
    ensures multiset(pool.tabs) == multiset(old(pool.tabs))
  {
    first := Handle(validKeys, pool, cache, browse, sanitize, request);
    second := Handle(validKeys, pool, cache, browse, sanitize, request);
  }
}
