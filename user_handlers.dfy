/**
 * The account endpoints (app/api/user_handlers.py). The password hash is the
 * `hashPassword` argument, standing for `hash_password` (bcrypt), whose
 * workings are not part of this model; `authenticate_user` is likewise
 * represented by the user it returned.
 */
module UserHandlers {
  import opened Wrappers
  import opened Http
  import opened Schemas
  import opened Database
  import UrlHandlers

  /**
   * `create_user(user_email, user_password)`: refuses an email that already
   * has a record; otherwise stores a new record with the hashed password and
   * the defaults (not an administrator, limit 20, no short URLs).
   */
  method CreateUser(db: Store, email: string, password: Password, hashPassword: string -> string)
    returns (r: Response<()>)
    requires db.Valid()
    modifies db
    ensures db.Valid()
    ensures email in old(db.users) ==> r == HttpError(BadRequest) && db.users == old(db.users)
    ensures email !in old(db.users) ==>
      && r == Ok(())
      && db.users == old(db.users)[email := NewUser(email, hashPassword(password))]
    ensures forall e :: e in old(db.users) ==> e in db.users && db.users[e] == old(db.users)[e]
    ensures db.urls == old(db.urls)
    ensures old(WithinQuota(db.users)) ==> WithinQuota(db.users)
    ensures old(Mirrors(db.users, db.urls)) ==> Mirrors(db.users, db.urls)
  {
    if email in db.users {
      return HttpError(BadRequest);
    }
    var hashed := hashPassword(password);
    db.users := db.users[email := NewUser(email, hashed)];
    r := Ok(());
  }

  /**
   * The failure branch of `login_for_access_token`: no user from
   * authentication gives 401. On success the token's subject is the user's
   * email; issuing the token itself is not part of this model.
   */
  function LoginForAccessToken(authenticated: Option<UserRow>): (r: Response<string>)
    ensures r == HttpError(Unauthorized) <==> authenticated.None?
    ensures authenticated.Some? ==> r == Ok(authenticated.value.email)
  {
    match authenticated
    case None => HttpError(Unauthorized)
    case Some(u) => Ok(u.email)
  }

  /** `list_my_urls`: the caller's own list, read from the caller's record with no table scan. */
  function ListMyUrls(caller: Option<UserRow>): (r: Response<seq<UrlPair>>)
    ensures caller.None? <==> r == HttpError(Unauthorized)
    ensures caller.Some? ==> r == Ok(caller.value.urls)
  {
    match caller
    case None => HttpError(Unauthorized)
    case Some(u) => Ok(u.urls)
  }

  /**
   * While every user's list is backed by the `Urls` table, each short URL the
   * caller lists redirects to the long URL listed beside it.
   */
  lemma ListedUrlsRedirect(db: Store, caller: UserRow)
    requires db.IsStored(caller) && Mirrors(db.users, db.urls)
    ensures ListMyUrls(Some(caller)).Ok?
    ensures forall p :: p in ListMyUrls(Some(caller)).value ==>
      UrlHandlers.GetLongUrl(db, p.shortUrl) == Ok(p.longUrl)
  {
    forall p | p in caller.urls
      ensures UrlHandlers.GetLongUrl(db, p.shortUrl) == Ok(p.longUrl)
    {
      var i :| 0 <= i < |caller.urls| && caller.urls[i] == p;
      assert Records(db.urls, db.users[caller.email].urls[i], caller.email);
    }
  }

  /**
   * `change_password(password)`: an unauthenticated caller gets 401, a weak
   * password 400 with nothing changed; otherwise the caller's record is saved
   * with only its password hash replaced.
   */
  method ChangePassword(db: Store, caller: Option<UserRow>, password: string, hashPassword: string -> string)
    returns (r: Response<()>)
    requires db.Valid()
    modifies db
    ensures db.Valid()
    ensures caller.None? ==> r == HttpError(Unauthorized)
    ensures caller.Some? ==> (r == HttpError(BadRequest) <==> !StrongPassword(password))
    ensures caller.Some? ==> r == if StrongPassword(password) then Ok(()) else HttpError(BadRequest)
    ensures !r.Ok? ==> db.users == old(db.users)
    ensures r.Ok? ==>
      && caller.Some?
      && StrongPassword(password)
      && db.users == old(db.users)[caller.value.email := caller.value.(passwordHash := hashPassword(password))]
    ensures r.Ok? && old(db.IsStored(caller.value)) ==>
      db.users[caller.value.email] == old(db.users)[caller.value.email].(passwordHash := hashPassword(password))
    ensures db.urls == old(db.urls)
    ensures caller.Some? && old(db.IsStored(caller.value)) ==>
      (old(WithinQuota(db.users)) ==> WithinQuota(db.users)) &&
      (old(Mirrors(db.users, db.urls)) ==> Mirrors(db.users, db.urls))
  {
    if caller.None? {
      return HttpError(Unauthorized);
    }
    var user := caller.value;
    match CheckPassword(password)
    case Failure(_) =>
      return HttpError(BadRequest);
    case Success(newPassword) =>
      var hashed := hashPassword(newPassword);
      db.users := db.users[user.email := user.(passwordHash := hashed)];
      r := Ok(());
  }
}
