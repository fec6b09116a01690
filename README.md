# SwarmScrape proxy server, modelled in Dafny

SwarmScrape's proxy server answers `GET /?key=<api key>&url=<page>`. It
renders the page in a tab of a pooled headless Chromium, removes the page's
`script`, `style`, `link`, `img` and `source` elements, caches the result and returns it as `text/html`. This
project models the server's core: reading its configuration and API-key files,
resolving the five settings with their defaults, the browser tab pool, the
page cache, and the request handler. It proves what each of them guarantees.

Modules and files:

- `wrappers.dfy`: `Option`.
- `text.dfy` (`Text`): Python's `str.strip()` over the full `str.isspace()` character set, and the first-occurrence search that `split("=", 1)` performs.
- `config.dfy` (`Config`):
  - `load_config`, as a loop (`LoadConfig`) proved against a fold over the file's lines (`ConfigOf`);
  - `load_api_keys` (`ApiKeysOf`);
  - Python's `int()` on decimal strings (`ParseInt`);
  - the settings with their defaults (`ResolveSettings`).
- `pool.dfy` (`Pool`): the `BrowserPool` class.
  - The browser is an optional `Session` and the idle-tab queue is a `seq<Tab>`.
  - A ghost event log records every tab lent out and taken back.
- `cache.dfy` (`Cache`): the `PageCache` class.
  - Its entries map is keyed by a digest of the URL.
  - `get_from_cache` and `store_in_cache` are its methods.
- `handler.dfy` (`Handler`): `authenticate` and `handle`.
  - There are four outcomes: 401, 400, a 200 cache hit, and a load that ends in 200 or 500.
  - The tab is always returned to the pool.

Some things the server relies on are not Dafny code, so they enter the model as uninterpreted functions:

- the browser (`browse: (Tab, string) -> FetchResult`, either the page's content or the exception's message);
- the HTML sanitizer `remove_tags` (`sanitize: string -> string`);
- SHA-256 (`PageCache.digest`).

Files are given as their sequences of raw lines.

Behaviour of the code that a reader might not expect, which the model keeps:

- Acquire after close: `close` stops the browser but leaves its tabs queued. A later `acquire` then returns a tab of the stopped browser. A proxy of this kind would be expected to answer 503 once its pool is closed; this code never does. `Pool.StartThenStop` shows the stopped browser's tabs still queued.
- `init_pool` after close: with `size > 0` the queue is still full, so a second `init_pool` would wait forever on its first `put`. `InitPool`'s precondition states the room it needs.
- Pool size of zero or less: `init_pool` still queues one tab. `asyncio.Queue` with `maxsize <= 0` is unbounded.
- Comment lines in the API-key file: a line counts as a comment only if its first raw character is `#`. An indented `  #x` is kept as the key `#x` (`Config.IndentedHashIsAKey`).
- Empty pages: a cached empty page is not a hit, so the page is loaded again. An empty `url` value is answered 400, like a missing one.

## Model

| member | source | states |
|---|---|---|
| Text.Strip | src/SwarmScrape/proxy_server.py:58 | `line.strip()` yields a string with no whitespace at either end, no longer than its input, and empty exactly when the input is all whitespace |
| Text.StripPadding | src/SwarmScrape/proxy_server.py:58 | stripping a non-empty stripped text surrounded by any whitespace padding gives back exactly that text |
| Text.StripIdempotent | src/SwarmScrape/proxy_server.py:58 | stripping twice is stripping once |
| Text.StripKeepsOut | src/SwarmScrape/proxy_server.py:62-63 | stripping adds no character: a character absent from a text is absent from its stripped form |
| Text.IndexOf | src/SwarmScrape/proxy_server.py:62 | the split point of `split("=", 1)` is an `=` with no `=` before it |
| Config.ParseConfigLine | src/SwarmScrape/proxy_server.py:58-63 | a configuration line adds no entry if and only if it is blank, a `#` comment once stripped, or has no `=`; an entry's key and value have no surrounding whitespace, and the key, cut at the first `=`, contains no `=` |
| Config.ConfigLineRoundTrip | src/SwarmScrape/proxy_server.py:58-63 | a stripped key without `=` that does not start with `#`, written as `key=value` with a stripped value, reads back as that key and value |
| Config.PaddedConfigLine | src/SwarmScrape/proxy_server.py:57-63 | a line as the file yields it, a key and a value around `=` with any whitespace before the key, around the `=` and after the value (the line terminator included), defines exactly that key and value |
| Config.StrippedLineEntry | src/SwarmScrape/proxy_server.py:61-63 | a stripped line made of a key, blanks, `=` and a rest defines the key and the stripped rest |
| Config.ValueMayContainEquals | src/SwarmScrape/proxy_server.py:62 | only the first `=` splits: `k=a=b` stores the value `a=b` under `k` |
| Config.LoadConfig | src/SwarmScrape/proxy_server.py:54-64 | the loop over the lines builds exactly the dictionary `ConfigOf(lines)` |
| Config.IgnoredLines | src/SwarmScrape/proxy_server.py:59-61 | a blank, comment or `=`-less line on its own yields the empty dictionary |
| Config.ConfigOfAppend | src/SwarmScrape/proxy_server.py:57-63 | reading `a` then `b` gives `a`'s dictionary overridden by `b`'s |
| Config.IgnoredLineAnywhere | src/SwarmScrape/proxy_server.py:59-61 | inserting a skipped line anywhere in the file leaves the dictionary unchanged |
| Config.Apply | src/SwarmScrape/proxy_server.py:63 | after one more line, a key is present if and only if it was before or the line defines it; the line's key holds the line's value and every other key keeps its value |
| Config.ConfigOf | src/SwarmScrape/proxy_server.py:57-64 | every key of the dictionary built from a file is stripped and contains no `=`, and every value is stripped |
| Config.ConfigOfOneLine | src/SwarmScrape/proxy_server.py:54-64 | a file of one line that holds an entry gives a dictionary of exactly that entry |
| Config.KeyDefinedByLine | src/SwarmScrape/proxy_server.py:57-63 | a key is in the dictionary if and only if some line of the file defines it |
| Config.LastDefinitionWins | src/SwarmScrape/proxy_server.py:63 | a key's value is the one from the last line that defines that key |
| Config.IsKeyLine | src/SwarmScrape/proxy_server.py:69 | a key-file line is kept if and only if it is not all whitespace and its first raw character is not `#` |
| Config.ApiKeysOf | src/SwarmScrape/proxy_server.py:67-69 | the allow-list has at most one key per line; every key is non-empty and stripped; a string is on it if and only if some kept line strips to it |
| Config.ApiKeysOfAppend | src/SwarmScrape/proxy_server.py:69 | the keys are read line by line in file order: the keys of `a + b` are `a`'s keys followed by `b`'s |
| Config.IndentedHashIsAKey | src/SwarmScrape/proxy_server.py:69 | the comment test looks at the raw line, so `  #x` is kept as the key `#x` |
| Config.HashLineIsNotAKey | src/SwarmScrape/proxy_server.py:69 | a line whose first raw character is `#` contributes no key |
| Config.ParseInt | src/SwarmScrape/proxy_server.py:91-93 | `int()` succeeds exactly on an optional `-` or `+` followed by one or more decimal digits |
| Config.LeadingZeros | src/SwarmScrape/proxy_server.py:91-93 | leading zeros do not change the value of a digit string |
| Config.SignedPaddedLiteral | src/SwarmScrape/proxy_server.py:91-93 | `int()` of a literal with no sign, `+` or `-`, any number of leading zeros and the digits of `n` is `n`, or `-n` after `-` |
| Config.DigitsOfShowNat | src/SwarmScrape/proxy_server.py:95 | the decimal digits of a natural number read back as that number |
| Config.ParseShowRoundTrip | src/SwarmScrape/proxy_server.py:91-95 | `int()` of the decimal text of any integer gives that integer back |
| Config.ResolveSettings | src/SwarmScrape/proxy_server.py:91-95 | the settings resolve if and only if each integer setting that is present parses; a present integer setting has the value `int()` gives its text, an absent one its default (8, 600, 100, and 8080 for the port); `chromium_path` is taken verbatim or defaults to `/usr/bin/chromium` |
| Config.DefaultPortValue | src/SwarmScrape/proxy_server.py:95 | the port's default is the text `"8080"`, which `int()` reads as 8080 |
| Config.DefaultSettings | src/SwarmScrape/proxy_server.py:91-95 | an empty configuration gives pool size 8, TTL 600, cache size 100, `/usr/bin/chromium` and port 8080 |
| Config.PoolSizeFromFile | src/SwarmScrape/proxy_server.py:54-64 | a configuration file holding the line `pool_size = 4` with its terminator gives the dictionary `{"pool_size": "4"}` and a pool size of 4 |
| Config.SettingRoundTrip | src/SwarmScrape/proxy_server.py:91 | writing any integer as `pool_size` in a configuration that resolves gives that pool size |
| Pool.InitialTabsShape | src/SwarmScrape/proxy_server.py:112-117 | a pool of size at least one starts with `size` distinct tabs, the first tab at the front |
| Pool.RotateKeepsTabs | src/SwarmScrape/proxy_server.py:119-123 | taking the front tab and putting it back at the end keeps the same number of tabs and the same multiset of tabs |
| Pool.BrowserPool.constructor | src/SwarmScrape/proxy_server.py:102-106 | a new pool has its size, no browser and an empty queue |
| Pool.BrowserPool.Put | src/SwarmScrape/proxy_server.py:114 | a put with room appends the tab and keeps the queue within its bound |
| Pool.BrowserPool.InitPool | src/SwarmScrape/proxy_server.py:108-117 | with no browser, it starts one and queues its `max(size, 1)` tabs in order; with a browser, it changes nothing |
| Pool.BrowserPool.Acquire | src/SwarmScrape/proxy_server.py:119-120 | it removes and returns the front tab and records the loan |
| Pool.BrowserPool.Release | src/SwarmScrape/proxy_server.py:122-123 | it appends the tab to the queue and records the return |
| Pool.BrowserPool.Close | src/SwarmScrape/proxy_server.py:125-129 | it stops and forgets the running browser, if any, and leaves the queued tabs alone |
| Pool.StartThenStop | src/SwarmScrape/proxy_server.py:180-184 | start-up then clean-up: a second start is a no-op, a second close stops nothing, and the first browser's tabs stay queued |
| Cache.IsHit | src/SwarmScrape/proxy_server.py:139 | a looked-up page counts as a hit unless it is missing or the empty page, Python's falsy values for it |
| Cache.PageCache.CacheKey | src/SwarmScrape/proxy_server.py:133-134 | the cache key of a URL is its digest: always 64 lower-case hexadecimal digits |
| Cache.LookupAfterStore | src/SwarmScrape/proxy_server.py:136-144 | after storing a page for a key, that key looks up the page; other keys are unaffected; the page is a hit exactly when it is non-empty |
| Cache.PageCache.Get | src/SwarmScrape/proxy_server.py:133-141 | it returns what is stored under the URL's digest and leaves the cache's contents as they were |
| Cache.PageCache.Store | src/SwarmScrape/proxy_server.py:143-144 | it stores the page under the URL's digest, replacing any earlier page |
| Handler.Authenticate | src/SwarmScrape/proxy_server.py:146-149 | a request passes if and only if it has a `key` query value and that value is on the allow-list |
| Handler.AuthenticateAgainstKeyFile | src/SwarmScrape/proxy_server.py:69 | against the allow-list read from a key file, a request passes if and only if a kept line of that file strips to its key |
| Handler.HasUrl | src/SwarmScrape/proxy_server.py:158-159 | the `url` value counts as given unless it is missing or empty, Python's falsy values for it |
| Handler.Handle | src/SwarmScrape/proxy_server.py:151-178 | 401 without a valid key, 400 without a URL, and the cached page on a hit, each touching neither pool nor cache; otherwise one tab is lent and returned to the back of the queue, and the response is the sanitized page, cached (200), or the load error (500, cache untouched); the pool keeps its tabs |
| Handler.RepeatedRequest | src/SwarmScrape/proxy_server.py:162-172 | when a page loads non-empty, repeating the request answers the same from the cache, and over both requests the pool lends exactly one tab |

## Left out

- Choosing the configuration directory (lines 27-36): `/etc/pyproxy` for root, otherwise `$XDG_CONFIG_HOME/pyproxy` or, when that variable is unset, `$HOME/.config/pyproxy`. This reads the process's user id and environment, which the model does not have.
- Creating the configuration directory and the two files when they are missing (lines 72-88): filesystem I/O. The model starts from the files' lines.
- The aiohttp application, its routing, `on_startup`/`on_cleanup` registration and `run_proxy` (lines 180-195): framework wiring. `run_proxy(app)` passes an argument to a function that takes none; this is not modelled.
- `nodriver.start`, `browser.get`, `tab.get`, `tab.get_content` and `browser.stop`: foreign calls into the browser. They are a `Session` argument and the `browse` parameter, and their failures other than a page-load exception are not modelled.
- `remove_tags` (lines 39-51): BeautifulSoup HTML parsing. It is the `sanitize` parameter; an exception inside it, which the source would also answer with 500, is not modelled.
- Handler.Handle: if `remove_tags` or `store_in_cache` raised, the source would answer 500; the model's `sanitize` and cache store cannot fail.
- `get_cache_key`: SHA-256 is the uninterpreted `digest`, so digest collisions between different URLs are neither excluded nor modelled.
- `TTLCache` expiry and size-based eviction: there is no clock, and `cache_ttl` and `cache_max_size` are only resolved, not enforced. The TTL refresh in `get_from_cache` therefore leaves the entries unchanged.
- Cache.PageCache.Get: does not model the TTL refresh as a state change, because there is no clock.
- asyncio scheduling, the pool's `asyncio.Lock`, and waiting: a `get` on an empty queue and a `put` on a full one become preconditions (`Acquire`, `Put`, `InitPool`, `Handle`). Concurrent requests interleaving are not modelled.
- `print` logging in `handle`: output only.
- `ParseInt`: Python's `int()` also accepts surrounding whitespace, `_` digit separators and non-ASCII decimal digits; the model accepts only an optional sign and ASCII digits. A value `int()` rejects makes the source raise `ValueError` at start-up; the model returns `None` for it.
- Query strings with repeated names: a request is a map holding the first value of each name.
- Text decoding of the files and universal newlines: the lines are given as strings.
