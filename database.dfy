/**
 * The two DynamoDB tables of the web application (app/models/database.py),
 * held as maps from their hash key to the row, and the invariants the
 * handlers keep on them.
 */
module Database {

  /** `url_limit`'s default for a new user. */
  const DefaultUrlLimit := 20

  /** A row of the `Urls` table: a short URL, its long URL and the email of its creator. */
  datatype UrlRow = UrlRow(shortUrl: string, longUrl: string, creatorEmail: string)

  /** An element of a user's `urls` list, the dictionary `{"short_url": …, "long_url": …}`. */
  datatype UrlPair = UrlPair(shortUrl: string, longUrl: string)

  /** A row of the `Users` table. */
  datatype UserRow = UserRow(
    email: string,
    passwordHash: string,
    isAdmin: bool,
    urlLimit: int,
    urls: seq<UrlPair>)

  /** `Users(email=…, password_hash=…)`: every other attribute takes its default. */
  function NewUser(email: string, passwordHash: string): UserRow {
    UserRow(email, passwordHash, false, DefaultUrlLimit, [])
  }

  /** `short_url` is the hash key of `Urls`: each row is stored under its own short URL. */
  predicate UrlsKeyed(urls: map<string, UrlRow>) {
    forall k :: k in urls ==> urls[k].shortUrl == k
  }

  /** `email` is the hash key of `Users`: each row is stored under its own email. */
  predicate UsersKeyed(users: map<string, UserRow>) {
    forall e :: e in users ==> users[e].email == e
  }

  /** No user holds more short URLs than their limit. */
  predicate WithinQuota(users: map<string, UserRow>) {
    forall e :: e in users ==> |users[e].urls| <= users[e].urlLimit
  }

  /** `p` is backed by the row `owner` created for it. */
  predicate Records(urls: map<string, UrlRow>, p: UrlPair, owner: string) {
    p.shortUrl in urls && urls[p.shortUrl] == UrlRow(p.shortUrl, p.longUrl, owner)
  }

  /** Every pair in a user's `urls` list is backed by a row of `Urls` that this user created. */
  predicate Mirrors(users: map<string, UserRow>, urls: map<string, UrlRow>) {
    forall e, i :: e in users && 0 <= i < |users[e].urls| ==> Records(urls, users[e].urls[i], e)
  }

  /** The rows of the `Urls` table. */
  function Rows(urls: map<string, UrlRow>): set<UrlRow> {
    set k | k in urls :: urls[k]
  }

  /** Because the table is keyed by short URL, two rows with the same short URL are the same row. */
  lemma OneRowPerShortUrl(urls: map<string, UrlRow>, a: UrlRow, b: UrlRow)
    requires UrlsKeyed(urls)
    requires a in Rows(urls) && b in Rows(urls)
    requires a.shortUrl == b.shortUrl
    ensures a == b
  {
  }

  /** A keyed table has exactly one row per key, so it has as many rows as keys. */
  lemma {:induction false} RowsCount(urls: map<string, UrlRow>)
    requires UrlsKeyed(urls)
    ensures |Rows(urls)| == |urls|
    decreases |urls|
  {
    if urls != map[] {
      var k :| k in urls;
      var rest := urls - {k};
      RowsCount(rest);
      forall x | x in Rows(urls) ensures x in Rows(rest) + {urls[k]} {
        var j :| j in urls && urls[j] == x;
        if j != k { assert j in rest; }
      }
      forall x | x in Rows(rest) ensures x in Rows(urls) {
        var j :| j in rest && rest[j] == x;
        assert j in urls;
      }
      assert Rows(urls) == Rows(rest) + {urls[k]};
      assert urls[k] !in Rows(rest);
      assert |urls| == |rest| + 1;
    }
  }

  /** The two tables, changed in place by the request handlers. */
  class Store {
    var urls: map<string, UrlRow>
    var users: map<string, UserRow>

    ghost predicate Valid()
      reads this
    {
      UrlsKeyed(urls) && UsersKeyed(users)
    }

    /** The record the authentication layer hands to a handler is the one stored under its email. */
    predicate IsStored(u: UserRow)
      reads this
    {
      u.email in users && users[u.email] == u
    }

    constructor ()
      ensures Valid()
      ensures urls == map[] && users == map[]
    {
      urls := map[];
      users := map[];
    }
  }
}
