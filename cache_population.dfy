/**
 * Warming the Redis cache from the `Urls` table
 * (app/service/cache_population.py). The cache is a map from key to value
 * and time-to-live; `commands` records the `SETEX` commands sent to it, in
 * order. The time-to-live is the configured `CACHE_EXPIRE_TIME`, taken here
 * as a number of seconds.
 */
module CachePopulation {
  import opened Database

  datatype CacheEntry = CacheEntry(value: string, ttl: int)

  /** One `SETEX key seconds value` command. */
  datatype SetexCommand = SetexCommand(key: string, seconds: int, value: string)

  class RedisCache {
    var entries: map<string, CacheEntry>
    ghost var commands: seq<SetexCommand>

    constructor ()
      ensures entries == map[] && commands == []
    {
      entries := map[];
      commands := [];
    }

    /** `setex(key, seconds, value)`: store `value` under `key`, to expire after `seconds`. */
    method Setex(key: string, seconds: int, value: string)
      modifies this
      ensures entries == old(entries)[key := CacheEntry(value, seconds)]
      ensures commands == old(commands) + [SetexCommand(key, seconds, value)]
    {
      entries := entries[key := CacheEntry(value, seconds)];
      commands := commands + [SetexCommand(key, seconds, value)];
    }
  }

  /** `scan` lists every row of `urls` exactly once: what `Urls.scan()` yields. */
  predicate IsScanOf(scan: seq<UrlRow>, urls: map<string, UrlRow>) {
    && (forall i :: 0 <= i < |scan| ==> scan[i].shortUrl in urls && urls[scan[i].shortUrl] == scan[i])
    && (forall k :: k in urls ==> exists i :: 0 <= i < |scan| && scan[i].shortUrl == k)
    && (forall i, j :: 0 <= i < j < |scan| ==> scan[i] != scan[j])
  }

  /** The command warming up sends for one scanned row. */
  function CommandFor(row: UrlRow, seconds: int): SetexCommand {
    SetexCommand(row.shortUrl, seconds, row.longUrl)
  }

  /** The commands that warming up from `scan` sends: one per row, in scan order. */
  function SetexCommands(scan: seq<UrlRow>, seconds: int): (cs: seq<SetexCommand>)
    ensures |cs| == |scan|
    ensures forall i :: 0 <= i < |scan| ==> cs[i] == CommandFor(scan[i], seconds)
  {
    seq(|scan|, i requires 0 <= i < |scan| => CommandFor(scan[i], seconds))
  }

  /** The cache after the `setex` commands for the first `n` scanned rows. */
  ghost function WarmedBy(entries: map<string, CacheEntry>, scan: seq<UrlRow>, n: nat, seconds: int): map<string, CacheEntry>
    requires n <= |scan|
  {
    if n == 0 then entries
    else WarmedBy(entries, scan, n - 1, seconds)[scan[n - 1].shortUrl := CacheEntry(scan[n - 1].longUrl, seconds)]
  }

  /**
   * With distinct keys, after the first `n` commands each of those rows'
   * short URLs holds that row's long URL, and every other key is as before.
   */
  lemma {:induction false} WarmedByContents(entries: map<string, CacheEntry>, scan: seq<UrlRow>, n: nat, seconds: int)
    requires n <= |scan|
    requires forall i, j :: 0 <= i < j < |scan| ==> scan[i].shortUrl != scan[j].shortUrl
    ensures forall j :: 0 <= j < n ==>
      scan[j].shortUrl in WarmedBy(entries, scan, n, seconds) &&
      WarmedBy(entries, scan, n, seconds)[scan[j].shortUrl] == CacheEntry(scan[j].longUrl, seconds)
    ensures forall k :: (forall j :: 0 <= j < n ==> scan[j].shortUrl != k) ==>
      (k in WarmedBy(entries, scan, n, seconds) <==> k in entries) &&
      (k in entries ==> WarmedBy(entries, scan, n, seconds)[k] == entries[k])
  {
    if n > 0 {
      WarmedByContents(entries, scan, n - 1, seconds);
    }
  }

  /**
   * Because `short_url` is the table's hash key, a scan meets each short URL
   * once, so no cache key is written twice.
   */
  lemma ScanKeysDistinct(scan: seq<UrlRow>, urls: map<string, UrlRow>)
    requires IsScanOf(scan, urls)
    ensures forall i, j :: 0 <= i < j < |scan| ==> scan[i].shortUrl != scan[j].shortUrl
  {
  }

  /**
   * `populate_cache_from_database(redis_client, Urls)`: one `setex` per
   * scanned row. Afterwards each short URL of the table maps to its long URL
   * with the configured time-to-live, and every other key is as it was.
   */
  method PopulateCacheFromDatabase(cache: RedisCache, db: Store, scan: seq<UrlRow>, expirationTime: int)
    requires IsScanOf(scan, db.urls)
    modifies cache
    ensures cache.commands == old(cache.commands) + SetexCommands(scan, expirationTime)
    ensures forall k :: k in db.urls ==>
      k in cache.entries && cache.entries[k] == CacheEntry(db.urls[k].longUrl, expirationTime)
    ensures forall k :: k !in db.urls ==>
      (k in cache.entries <==> k in old(cache.entries)) &&
      (k in cache.entries ==> cache.entries[k] == old(cache.entries)[k])
  {
    ScanKeysDistinct(scan, db.urls);
    var i := 0;
    while i < |scan|
      invariant 0 <= i <= |scan|
      invariant cache.commands == old(cache.commands) + SetexCommands(scan[..i], expirationTime)
      invariant cache.entries == WarmedBy(old(cache.entries), scan, i, expirationTime)
    {
      SetexCommandsExtend(scan, i, expirationTime);
      cache.Setex(scan[i].shortUrl, expirationTime, scan[i].longUrl);
      i := i + 1;
    }
    assert scan[..i] == scan;
    WarmedCoversTable(old(cache.entries), db.urls, scan, expirationTime);
  }

  lemma SetexCommandsExtend(scan: seq<UrlRow>, i: nat, seconds: int)
    requires i < |scan|
    ensures SetexCommands(scan[..i + 1], seconds) == SetexCommands(scan[..i], seconds) + [CommandFor(scan[i], seconds)]
  {
  }

  /** A full scan of the table warms every short URL of the table and no other key. */
  lemma WarmedCoversTable(entries: map<string, CacheEntry>, urls: map<string, UrlRow>, scan: seq<UrlRow>, seconds: int)
    requires IsScanOf(scan, urls)
    ensures forall k :: k in urls ==>
      k in WarmedBy(entries, scan, |scan|, seconds) &&
      WarmedBy(entries, scan, |scan|, seconds)[k] == CacheEntry(urls[k].longUrl, seconds)
    ensures forall k :: k !in urls ==>
      (k in WarmedBy(entries, scan, |scan|, seconds) <==> k in entries) &&
      (k in entries ==> WarmedBy(entries, scan, |scan|, seconds)[k] == entries[k])
  {
    ScanKeysDistinct(scan, urls);
    WarmedByContents(entries, scan, |scan|, seconds);
    forall k | k in urls
      ensures k in WarmedBy(entries, scan, |scan|, seconds) &&
        WarmedBy(entries, scan, |scan|, seconds)[k] == CacheEntry(urls[k].longUrl, seconds)
    {
      var j :| 0 <= j < |scan| && scan[j].shortUrl == k;
    }
  }
}
