/**
 * The endpoints of the earlier, in-memory version of the service
 * (api/api_handlers.py), over the dictionary `urlMap`.
 */
module LegacyApi {
  import opened Wrappers
  import opened Http
  import LegacySchemas
  import opened IdGenerator

  /** `getAll`: the whole dictionary. */
  function GetAll(store: UrlMap): (r: map<string, string>)
    reads store
    ensures r.Keys == store.entries.Keys
    ensures forall k :: k in r ==> r[k] == store.entries[k]
  {
    store.entries
  }

  /**
   * `toShorten(url, short)`. Without a short URL, a fresh generated identifier
   * is mapped to `url`. A supplied short URL that is already a key is refused
   * with 404; otherwise it is mapped to `url`. No other key changes.
   */
  method ToShorten(store: UrlMap, url: string, short: Option<LegacySchemas.ShortUrl>, ids: seq<NanoId>)
    returns (r: Response<string>)
    modifies store
    ensures short.Some? ==>
      r == if short.value in old(store.entries) then HttpError(NotFound) else Ok(short.value)
    ensures short.None? ==>
      && (r == OutOfCandidates <==> forall j :: 0 <= j < |ids| ==> ids[j] in old(store.entries))
      && (forall i :: FirstFreshAt(ids, old(store.entries), i) ==> r == Ok(ids[i]))
    ensures short.None? && r.Ok? ==> |r.value| == GeneratedLength
    ensures r.Ok? ==> r.value !in old(store.entries) && store.entries == old(store.entries)[r.value := url]
    ensures !r.Ok? ==> store.entries == old(store.entries)
  {
    if short.None? {
      var generated := RandomId(store, ids);
      if generated.None? {
        return OutOfCandidates;
      }
      store.entries := store.entries[generated.value := url];
      return Ok(generated.value);
    } else {
      if short.value in store.entries {
        return HttpError(NotFound);
      }
      store.entries := store.entries[short.value := url];
      return Ok(short.value);
    }
  }

  /** `getLongUrl(short_URL)`: the redirect target for a key of `urlMap`, or 404. */
  function GetLongUrl(store: UrlMap, shortUrl: string): (r: Response<string>)
    reads store
    ensures r.HttpError? <==> shortUrl !in store.entries
    ensures r.HttpError? ==> r.status == NotFound
    ensures r.Ok? ==> shortUrl in store.entries && r.value == store.entries[shortUrl]
    ensures shortUrl in store.entries ==> r == Ok(store.entries[shortUrl])
  {
    if shortUrl !in store.entries then HttpError(NotFound) else Ok(store.entries[shortUrl])
  }

  /** Inserting through `toShorten` and then looking the identifier up gives back the URL. */
  method ShortenThenRedirect(store: UrlMap, url: string, short: Option<LegacySchemas.ShortUrl>, ids: seq<NanoId>)
    returns (shortened: Response<string>, redirect: Response<string>)
    modifies store
    ensures shortened.Ok? ==> redirect == Ok(url)
  {
    shortened := ToShorten(store, url, short, ids);
    if shortened.Ok? {
      redirect := GetLongUrl(store, shortened.value);
    } else {
      redirect := HttpError(NotFound);
    }
  }
}
