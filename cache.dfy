/**
 * The page cache: `get_cache_key`, `get_from_cache` and `store_in_cache`
 * over the shared dictionary of sanitized pages, keyed by the SHA-256 hex
 * digest of the URL. The digest is kept as an uninterpreted function.
 */
module Cache {
  import opened Wrappers

  /** `cache.get(key)`: the stored page, or `None`. */
  function Lookup(entries: map<string, string>, key: string): Option<string> {
    if key in entries then Some(entries[key]) else None
  }

  /** Python truthiness of a looked-up page: only `None` and the empty page are false. */
  function IsHit(cached: Option<string>): (hit: bool)
    ensures !hit <==> cached == None || cached == Some("")
  {
    cached.Some? && cached.value != ""
  }

  /** A page just stored under a key is what a lookup of that key finds. */
  lemma LookupAfterStore(entries: map<string, string>, key: string, other: string, html: string)
    ensures Lookup(entries[key := html], key) == Some(html)
    ensures other != key ==> Lookup(entries[key := html], other) == Lookup(entries, other)
    ensures IsHit(Lookup(entries[key := html], key)) <==> html != ""
  {
  }

  predicate IsLowerHex(c: char) {
    '0' <= c <= '9' || 'a' <= c <= 'f'
  }

  /** What `hexdigest()` of a SHA-256 hash returns: 64 lower-case hexadecimal digits. */
  type HexDigest = s: string | |s| == 64 && forall i :: 0 <= i < |s| ==> IsLowerHex(s[i])
    witness seq(64, _ => '0')

  class PageCache {
    /** `hashlib.sha256(url.encode()).hexdigest()`, left uninterpreted. */
    const digest: string -> HexDigest
    var entries: map<string, string>

    constructor (digest: string -> HexDigest)
      ensures this.digest == digest && entries == map[]
    {
      this.digest := digest;
      entries := map[];
    }

    /** `get_cache_key`: the URL's digest, always a 64-digit lower-case hexadecimal string. */
    function CacheKey(url: string): (key: string)
      ensures |key| == 64 && forall i :: 0 <= i < |key| ==> IsLowerHex(key[i])
    {
      digest(url)
    }

    /**
     * `get_from_cache`: the page stored for `url`, if any. A hit is written
     * back to refresh its time to live; an empty page is returned but not
     * written back. With no clock in the model the write-back changes nothing.
     */
    method Get(url: string) returns (html: Option<string>)
      modifies this
      ensures html == Lookup(old(entries), CacheKey(url))
      ensures unchanged(this)
    {
      var key := CacheKey(url);
      html := Lookup(entries, key);
      if IsHit(html) {
        assert entries[key := html.value] == entries;
        entries := entries[key := html.value];
      }
    }

    /** `store_in_cache`: store `html` as the page for `url`, replacing any earlier one. */
    method Store(url: string, html: string)
      modifies this
      ensures entries == old(entries)[CacheKey(url) := html]
    {
      entries := entries[CacheKey(url) := html];
    }
  }
}
