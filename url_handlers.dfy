/**
 * Shortening and redirecting (app/api/url_handlers.py): `to_shorten`, with
 * its authentication check, per-user quota, generation loop, collision check
 * and the two writes, and `getLongUrl`.
 *
 * The random generator `randomID` of the application's id-generator module is
 * not part of this model; its successive results are the `candidates`
 * argument, read from the front.
 */
module UrlHandlers {
  import opened Wrappers
  import opened Http
  import opened Schemas
  import opened Database

  /** `candidates[i]` is the identifier the generation loop stops at when the table is `taken`. */
  ghost predicate FirstFreshAt(candidates: seq<string>, taken: map<string, UrlRow>, i: int) {
    && 0 <= i < |candidates|
    && candidates[i] !in taken
    && forall j :: 0 <= j < i ==> candidates[j] in taken
  }

  /**
   * Lines 54-57 of `to_shorten`: draw identifiers until one is not a key of
   * the `Urls` table. The result is the first such candidate; `None` means
   * every supplied candidate was taken.
   */
  method DrawFreshShortUrl(db: Store, candidates: seq<string>) returns (r: Option<string>)
    ensures r.Some? ==> r.value !in db.urls
    ensures r.Some? ==> exists i :: FirstFreshAt(candidates, db.urls, i) && candidates[i] == r.value
    ensures r.None? <==> forall j :: 0 <= j < |candidates| ==> candidates[j] in db.urls
  {
    var i := 0;
    while i < |candidates| && candidates[i] in db.urls
      invariant 0 <= i <= |candidates|
      invariant forall j :: 0 <= j < i ==> candidates[j] in db.urls
    {
      i := i + 1;
    }
    if i == |candidates| {
      r := None;
    } else {
      assert FirstFreshAt(candidates, db.urls, i);
      r := Some(candidates[i]);
    }
  }

  /**
   * `to_shorten(long_url, current_user, short_url)`. `longUrl` is the string
   * form of the validated long URL.
   */
  method ToShorten(
    db: Store,
    longUrl: string,
    caller: Option<UserRow>,
    shortUrl: Option<ShortUrl>,
    candidates: seq<string>)
    returns (r: Response<string>)
    requires db.Valid()
    modifies db
    ensures db.Valid()
    // authentication, then the quota, before anything else
    ensures caller.None? ==> r == HttpError(Unauthorized)
    ensures caller.Some? && |caller.value.urls| >= caller.value.urlLimit ==> r == HttpError(BadRequest)
    // a supplied identifier is refused exactly when it is taken
    ensures caller.Some? && |caller.value.urls| < caller.value.urlLimit && shortUrl.Some? ==>
      r == if shortUrl.value in old(db.urls) then HttpError(BadRequest) else Ok(shortUrl.value)
    // a generated identifier is the first free candidate, passed through the validator
    ensures caller.Some? && |caller.value.urls| < caller.value.urlLimit && shortUrl.None? ==>
      && ((forall j :: 0 <= j < |candidates| ==> candidates[j] in old(db.urls)) ==> r == OutOfCandidates)
      && (forall i :: FirstFreshAt(candidates, old(db.urls), i) ==>
            r == if IsValid(candidates[i]).Success? then Ok(candidates[i]) else HttpError(InternalServerError))
    // a failed request writes nothing
    ensures !r.Ok? ==> db.urls == old(db.urls) && db.users == old(db.users)
    // a successful one adds exactly one row and appends exactly one pair to the caller's list
    ensures r.Ok? ==>
      && caller.Some?
      && |caller.value.urls| < caller.value.urlLimit
      && r.value !in old(db.urls)
      && WellFormedShortId(r.value)
      && db.urls == old(db.urls)[r.value := UrlRow(r.value, longUrl, caller.value.email)]
      && db.users == old(db.users)[caller.value.email :=
           caller.value.(urls := caller.value.urls + [UrlPair(r.value, longUrl)])]
    ensures old(WithinQuota(db.users)) ==> WithinQuota(db.users)
    ensures caller.Some? && old(db.IsStored(caller.value)) && old(Mirrors(db.users, db.urls)) ==>
      Mirrors(db.users, db.urls)
  {
    if caller.None? {
      return HttpError(Unauthorized);
    }
    var user := caller.value;
    if |user.urls| >= user.urlLimit {
      return HttpError(BadRequest);
    }
    var short: string;
    if shortUrl.None? {
      var drawn := DrawFreshShortUrl(db, candidates);
      if drawn.None? {
        return OutOfCandidates;
      }
      match IsValid(drawn.value)
      case Failure(_) =>
        return HttpError(InternalServerError);
      case Success(v) =>
        short := v;
    } else {
      short := shortUrl.value;
    }
    if short in db.urls {
      return HttpError(BadRequest);
    }
    if db.IsStored(user) && Mirrors(db.users, db.urls) {
      AppendKeepsMirror(db.users, db.urls, user, short, longUrl);
    }
    // url_pair.save(), then current_user.urls.append(…) and current_user.save()
    db.urls := db.urls[short := UrlRow(short, longUrl, user.email)];
    var saved := user.(urls := user.urls + [UrlPair(short, longUrl)]);
    db.users := db.users[user.email := saved];
    r := Ok(short);
  }

  /** Adding a fresh row and appending its pair to its creator's list keeps every list backed. */
  lemma AppendKeepsMirror(
    users: map<string, UserRow>, urls: map<string, UrlRow>, u: UserRow, short: string, longUrl: string)
    requires Mirrors(users, urls)
    requires u.email in users && users[u.email] == u
    requires short !in urls
    ensures Mirrors(
      users[u.email := u.(urls := u.urls + [UrlPair(short, longUrl)])],
      urls[short := UrlRow(short, longUrl, u.email)])
  {
    var users' := users[u.email := u.(urls := u.urls + [UrlPair(short, longUrl)])];
    var urls' := urls[short := UrlRow(short, longUrl, u.email)];
    forall e, i | e in users' && 0 <= i < |users'[e].urls|
      ensures Records(urls', users'[e].urls[i], e)
    {
      if e == u.email && i == |u.urls| {
      } else {
        assert users'[e].urls[i] == users[e].urls[i];
        assert Records(urls, users[e].urls[i], e);
      }
    }
  }

  /**
   * `getLongUrl(shorturl)`: the redirect target stored for `shortUrl`, or 400
   * when the table has no such key. The argument is not validated.
   */
  function GetLongUrl(db: Store, shortUrl: string): (r: Response<string>)
    reads db
    ensures r.HttpError? <==> shortUrl !in db.urls
    ensures r.HttpError? ==> r.status == BadRequest
    ensures r.Ok? ==> shortUrl in db.urls && r.value == db.urls[shortUrl].longUrl
    ensures shortUrl in db.urls ==> r == Ok(db.urls[shortUrl].longUrl)
  {
    if shortUrl in db.urls then Ok(db.urls[shortUrl].longUrl) else HttpError(BadRequest)
  }

  /** Shortening a URL and then following the returned identifier leads back to that URL. */
  method ShortenThenRedirect(
    db: Store,
    longUrl: string,
    caller: Option<UserRow>,
    shortUrl: Option<ShortUrl>,
    candidates: seq<string>)
    returns (shortened: Response<string>, redirect: Response<string>)
    requires db.Valid()
    modifies db
    ensures shortened.Ok? ==> redirect == Ok(longUrl)
    ensures shortened.Ok? && shortUrl.Some? ==> shortened.value == shortUrl.value
  {
    shortened := ToShorten(db, longUrl, caller, shortUrl, candidates);
    if shortened.Ok? {
      redirect := GetLongUrl(db, shortened.value);
    } else {
      redirect := HttpError(BadRequest);
    }
  }
}
