/**
 * The administrators' endpoints (app/api/admin_handlers.py). Neither handler
 * tests for a missing caller: reading `is_admin` of `None` raises an
 * `AttributeError`, which the framework answers with status 500.
 */
module AdminHandlers {
  import opened Wrappers
  import opened Http
  import opened Database

  /**
   * `get_all_urls`: for an administrator, the set of all rows of the `Urls`
   * table as (short URL, long URL, creator) triples.
   */
  function GetAllUrls(db: Store, caller: Option<UserRow>): (r: Response<set<UrlRow>>)
    reads db
    requires UrlsKeyed(db.urls)
    ensures caller.None? ==> r == HttpError(InternalServerError)
    ensures caller.Some? && !caller.value.isAdmin ==> r == HttpError(Forbidden)
    ensures caller.Some? && caller.value.isAdmin ==> r.Ok?
    ensures r.Ok? ==> forall row :: row in r.value <==> row.shortUrl in db.urls && db.urls[row.shortUrl] == row
    ensures r.Ok? ==> |r.value| == |db.urls|
  {
    match caller
    case None => HttpError(InternalServerError)
    case Some(u) =>
      if !u.isAdmin then HttpError(Forbidden)
      else
        RowsCount(db.urls);
        Ok(Rows(db.urls))
  }

  /**
   * `update_url_limit(user_email, new_limit)`: only an administrator may set
   * another user's limit, and never below the number of short URLs that user
   * already holds (a limit equal to it is accepted).
   */
  method UpdateUrlLimit(db: Store, caller: Option<UserRow>, userEmail: string, newLimit: int)
    returns (r: Response<()>)
    requires db.Valid()
    modifies db
    ensures db.Valid()
    ensures caller.None? ==> r == HttpError(InternalServerError)
    ensures caller.Some? && !caller.value.isAdmin ==> r == HttpError(Forbidden)
    ensures caller.Some? && caller.value.isAdmin ==>
      r == if userEmail !in old(db.users) then HttpError(NotFound)
           else if newLimit < |old(db.users)[userEmail].urls| then HttpError(BadRequest)
           else Ok(())
    ensures caller.Some? && caller.value.isAdmin && userEmail in old(db.users) && newLimit < 0 ==>
      r == HttpError(BadRequest)
    ensures !r.Ok? ==> db.urls == old(db.urls) && db.users == old(db.users)
    ensures r.Ok? ==>
      && userEmail in old(db.users)
      && db.urls == old(db.urls)
      && db.users == old(db.users)[userEmail := old(db.users)[userEmail].(urlLimit := newLimit)]
      && |db.users[userEmail].urls| <= db.users[userEmail].urlLimit
    ensures old(WithinQuota(db.users)) ==> WithinQuota(db.users)
    ensures old(Mirrors(db.users, db.urls)) ==> Mirrors(db.users, db.urls)
  {
    if caller.None? {
      return HttpError(InternalServerError);
    }
    if !caller.value.isAdmin {
      return HttpError(Forbidden);
    }
    if userEmail !in db.users {
      return HttpError(NotFound);
    }
    var user := db.users[userEmail];
    if newLimit < |user.urls| {
      return HttpError(BadRequest);
    }
    ghost var before := db.users;
    db.users := db.users[userEmail := user.(urlLimit := newLimit)];
    assert forall e :: e in db.users ==> db.users[e].urls == before[e].urls;
    r := Ok(());
  }
}
