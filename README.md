# URL shortener back end — Dafny model

This project models the core of a small URL-shortener service written in
Python with FastAPI, PynamoDB (DynamoDB) and Redis. It covers two versions.

The web application (`app/`):
- the input validators for short identifiers and passwords;
- the `Urls` and `Users` tables;
- shortening with a per-user quota, and redirecting;
- the administrators' listing and limit update;
- the account operations;
- warming the Redis cache from the `Urls` table.

The earlier in-memory version (`api/`, `service/`, `models/`):
- a module-level dictionary `urlMap` with its own identifier generator and validator.

Both tables are maps from their hash key to the row. The `Store` class holds
them, and the handlers change it in place. The authenticated caller is an
`Option<UserRow>`. A handler's answer is a `Response`: a value, or an
`HttpError` with the status code the handler raises. Random identifier
generation takes a supplied, finite sequence of candidates. `hash_password`
is a function argument.

Modules, one per source file:
- `Wrappers`: `Option`, `Result`.
- `Http`: `Response` and the status codes.
- `Schemas`: app/models/schemas.py.
- `LegacySchemas`: models/schemas.py.
- `Database`: app/models/database.py, plus the table invariants.
- `UrlHandlers`, `AdminHandlers`, `UserHandlers`: app/api/*_handlers.py.
- `IdGenerator`: service/idgenerator.py, with the `urlMap` dictionary.
- `LegacyApi`: api/api_handlers.py.
- `CachePopulation`: app/service/cache_population.py.

Invariants kept across the handlers:
- `UrlsKeyed` and `UsersKeyed`: each row is stored under its own hash key. This is part of `Store.Valid()`.
- `WithinQuota`: no user holds more short URLs than the user's `url_limit`.
- `Mirrors`: every pair in a user's `urls` list is backed by the `Urls` row that user created.

`create_user`, `update_url_limit` and `to_shorten` keep `WithinQuota` whenever
it held before. `create_user` and `update_url_limit` keep `Mirrors` likewise.
`to_shorten` keeps `Mirrors` only when the caller record is the stored one,
which is what the authentication layer hands over. `change_password` needs that
same condition for both `WithinQuota` and `Mirrors`, because it saves the
caller's record over the stored one.

In the code:
- a taken user-supplied identifier gets status 400 (404 in the in-memory version);
- an unknown identifier on redirect gets 400;
- the generation loop has no retry bound and consults only the table, not the cache;
- shortening does not write the cache;
- no delete or cache-aside lookup handler exists.

## Model

| member | source | states |
|---|---|---|
| `Schemas.IsValidAsWritten` | app/models/schemas.py:13-20 | accepts exactly the strings of length 10–15 that Python's `re.match("^[A-Za-z0-9_-]*$")` accepts, and returns them unchanged; a length error carries the length, and a character error only happens at an allowed length (length is checked first) |
| `Schemas.IsValid` | app/models/schemas.py:13-20 | the rule as its comment intends: accepts exactly the strings of length 10–15 over `[A-Za-z0-9_-]`, returned unchanged; length is checked before characters |
| `Schemas.AsWrittenDiffersOnlyOnTrailingNewline` | app/models/schemas.py:17 | the written and intended rules differ exactly on strings of allowed length that end in a newline and are otherwise valid |
| `Schemas.AsWrittenAcceptsTrailingNewline` | app/models/schemas.py:17 | `"abcdefghi\n"` passes the rule as written and fails the intended one with a character error |
| `Schemas.ShortUrlExamples` | tests/test_schemas.py:18-37 | the test's valid identifier is returned unchanged; the too-short and too-long ones get length errors; the one with `&`, `#`, `)` and `(` gets a character error |
| `Schemas.ValidateShortUrl` | app/models/schemas.py:61-69 | `None` for an absent or empty argument; otherwise the identifier itself when it is well formed, and `None` when it is refused |
| `Schemas.CheckPassword` | app/models/schemas.py:31-50 | accepts exactly the passwords with no blank, at least 8 characters, and an upper-case letter, a lower-case letter and a digit; returns them unchanged; a refusal names a requirement the password fails |
| `Schemas.PasswordChecksInOrder` | app/models/schemas.py:35-48 | a refused password meets every requirement checked before the one it is refused for; strength means meeting all five requirements |
| `Schemas.StrongPasswordExample` | tests/test_schemas.py:47-56 | the test's valid password is accepted and returned unchanged |
| `Schemas.WeakPasswordExamples` | tests/test_schemas.py:58-72 | the test's passwords with a blank, with 6 characters and with no upper-case letter get those errors |
| `Schemas.NoLowercaseExample` | tests/test_schemas.py:66-68 | the test's password with no lower-case letter gets that error |
| `Schemas.NoDigitExample` | tests/test_schemas.py:74-76 | the test's password with no digit gets that error |
| `LegacySchemas.IsValidAsWritten` | models/schemas.py:13-19 | the older validator, with the pattern scanned one character at a time; whatever it accepts has length 10–15 and is returned unchanged |
| `LegacySchemas.IsValid` | models/schemas.py:13-19 | the older validator without the trailing-newline allowance; whatever it accepts has length 10–15 and is returned unchanged |
| `LegacySchemas.AllowedFromIsAllShortIdChars` | models/schemas.py:17 | scanning a string character by character for `[A-Za-z0-9_-]` agrees with every character being allowed |
| `LegacySchemas.MatchesFromIsPatternAsWritten` | models/schemas.py:17 | the character scan of `^[A-Za-z0-9_-]*$` with Python's `$` agrees with "all allowed, or all allowed but a final newline" |
| `LegacySchemas.SameRuleAsApplication` | models/schemas.py:12-19 | the older validator gives the same result as the application's on every string, both as written and as intended |
| `LegacySchemas.AsWrittenAcceptsTrailingNewline` | models/schemas.py:17 | `"abcdefghi\n"` passes the older rule as written and fails it as intended |
| `Database.OneRowPerShortUrl` | app/models/database.py:24 | in a table keyed by `short_url`, two rows with the same short URL are the same row |
| `Database.RowsCount` | app/models/database.py:24 | a table keyed by `short_url` has as many distinct rows as keys |
| `UrlHandlers.DrawFreshShortUrl` | app/api/url_handlers.py:53-57 | the generation loop returns the first candidate that is not a key of `Urls`, every earlier candidate being taken; `None` exactly when every candidate is taken |
| `UrlHandlers.ToShorten` | app/api/url_handlers.py:22-72 | 401 with no caller; 400 when the caller's list is at its limit; a supplied identifier gives 400 exactly when it is taken; a generated one is the first free candidate and gives 500 if the validator refuses it; every failure writes nothing; success adds exactly the row (id, long URL, caller's email), appends exactly (id, long URL) to the caller's list, returns a fresh well-formed id, and keeps the quota and the list/table correspondence |
| `UrlHandlers.AppendKeepsMirror` | app/api/url_handlers.py:65-70 | adding a fresh row and appending its pair to its creator's list keeps every list backed by the table |
| `UrlHandlers.GetLongUrl` | app/api/url_handlers.py:77-98 | 400 exactly when the table has no such key; a present key always gives the stored long URL |
| `UrlHandlers.ShortenThenRedirect` | app/api/url_handlers.py:65-98 | after a successful shortening, redirecting on the returned id leads to the original long URL, and a supplied id is the one returned |
| `AdminHandlers.GetAllUrls` | app/api/admin_handlers.py:16-31 | 500 with no caller, 403 for a non-administrator; for an administrator, exactly the rows of `Urls` as (short URL, long URL, creator) triples, one per key |
| `AdminHandlers.UpdateUrlLimit` | app/api/admin_handlers.py:35-74 | 500 with no caller, then 403 for a non-administrator, then 404 for an unknown email, then 400 when the new limit is below the user's count (so any negative limit); a limit equal to the count is accepted; failures change nothing; success changes only that user's `url_limit`, leaves the count within it, and keeps the invariants |
| `UserHandlers.CreateUser` | app/api/user_handlers.py:13-38 | 400 with nothing changed for an email already registered; otherwise adds exactly the record `NewUser` gives for that email and the hashed password (no admin right, limit 20, no URLs); existing users and the `Urls` table are untouched |
| `UserHandlers.LoginForAccessToken` | app/api/user_handlers.py:42-63 | 401 exactly when authentication returned no user; otherwise the token's subject is the user's email |
| `UserHandlers.ListMyUrls` | app/api/user_handlers.py:67-84 | 401 exactly when there is no caller; otherwise the caller's own list, unchanged |
| `UserHandlers.ListedUrlsRedirect` | app/api/user_handlers.py:82-84 | while lists are backed by the table, every short URL the caller lists redirects to the long URL listed beside it |
| `UserHandlers.ChangePassword` | app/api/user_handlers.py:89-115 | 401 with no caller; for a signed-in caller, success exactly when the new password is strong and 400 otherwise, with nothing changed; success replaces only the caller's password hash, by the hash of the new password, and keeps the invariants |
| `IdGenerator.RandomId` | service/idgenerator.py:6-11 | the first nanoid draw that is not a key of `urlMap`, every earlier draw being taken; it has length 15 and passes the short-identifier rule; a fresh first draw is returned with no retry; `urlMap` is only read |
| `LegacyApi.GetAll` | api/api_handlers.py:17-18 | the whole dictionary: same keys, same values |
| `LegacyApi.ToShorten` | api/api_handlers.py:23-35 | a supplied id gets 404 exactly when it is already a key, otherwise it is mapped to the URL; without one, the first free draw is mapped to the URL and has length 15; a success adds exactly that key and changes no other; a failure changes nothing |
| `LegacyApi.GetLongUrl` | api/api_handlers.py:40-43 | 404 exactly when the key is absent; a present key always gives the stored URL |
| `LegacyApi.ShortenThenRedirect` | api/api_handlers.py:28-43 | after a successful `toShorten`, looking up the returned id gives back the URL |
| `CachePopulation.RedisCache.Setex` | app/service/cache_population.py:10 | one `setex` stores the value and time-to-live under the key, and is recorded as the next command |
| `CachePopulation.ScanKeysDistinct` | app/models/database.py:24 | a scan of the keyed `Urls` table meets each short URL once, so no cache key is written twice |
| `CachePopulation.PopulateCacheFromDatabase` | app/service/cache_population.py:7-10 | one `setex` per scanned row, in scan order, all with the configured time-to-live; afterwards every short URL of the table maps to its long URL; every other cache key is as it was |

## Findings

| source | as written | input that shows it | evidently intended | confidence | as-written member | corrected member |
|---|---|---|---|---|---|---|
| app/models/schemas.py:17 | `re.match("^[A-Za-z0-9_-]*$", s)`: without MULTILINE, `$` also matches before a final newline | `"abcdefghi\n"` (10 characters) is accepted | only letters, digits, `_` and `-`, as the comment on line 18 says | high; not executed | `Schemas.IsValidAsWritten` (`Schemas.AsWrittenAcceptsTrailingNewline`) | `Schemas.IsValid` |
| models/schemas.py:17 | the same pattern, with the same reading of `$` | `"abcdefghi\n"` is accepted | only letters, digits, `_` and `-`, as the comment on line 17 says | high; not executed | `LegacySchemas.IsValidAsWritten` (`LegacySchemas.AsWrittenAcceptsTrailingNewline`) | `LegacySchemas.IsValid` |

The rest of the model uses the corrected validators. The pydantic-typed
parameters `shortURL` and `Password` become the subset types
`Schemas.ShortUrl`, `LegacySchemas.ShortUrl` and `Schemas.Password`.

## Left out

- Schemas.ValidateShortUrl: uses the corrected rule `Schemas.IsValid`, not the rule as written. So `"abcdefghi\n"` gives `None` here, while app/models/schemas.py:65 returns it as a `shortURL`. The difference is exactly a final newline after an otherwise valid identifier (`Schemas.AsWrittenDiffersOnlyOnTrailingNewline`); see "## Findings".
- UrlHandlers.ToShorten: the supplied identifier has type `Schemas.ShortUrl`, and a generated one is checked with `Schemas.IsValid`, both the corrected rule. The program as written also accepts, stores and returns an identifier of allowed length that ends in a newline (app/api/url_handlers.py:25 and :58). The model refuses such an identifier, and a generated one gets 500; see "## Findings".
- LegacyApi.ToShorten: the supplied identifier has type `LegacySchemas.ShortUrl`, the corrected rule. The program as written also stores a supplied identifier such as `"abcdefghi\n"` (api/api_handlers.py:23 and :34). The model excludes it; see "## Findings".
- Schemas.CheckPassword: `str.isupper`, `str.islower` and `str.isdigit` are modelled on ASCII letters and digits only. Python also counts other Unicode upper-case letters, lower-case letters and digits.
- `longURL` and `Email` validation uses pydantic's `HttpUrl` and `EmailStr`, which are not part of this model. Long URLs and emails are plain strings that the framework has already validated. A long URL is taken in the string form `str(HttpUrl)` produces.
- Request validation by the framework is not modelled. The framework answers 422 before a handler runs when a typed parameter fails its validator. The model states this through the subset types instead.
- `validateLongUrl`, `validateEmail` and `validatePassword` are not modelled. Each only wraps a validator and prints or re-raises.
- The older `validateShortUrl` and `validateLongUrl` (models/schemas.py:22-34) are not modelled. They return nothing and only print.
- Authentication (app/auth/auth.py) is not modelled: JWT decoding, token expiry, bcrypt verification and `create_access_token`. A handler receives the caller, or for login the result of `authenticate_user`.
- `hash_password` (bcrypt, with a random salt) is the argument `hashPassword`.
- Randomness is not modelled: each generator's draws are a supplied finite sequence. When every supplied draw is taken, the model answers `OutOfCandidates`. The program would keep drawing forever.
- The application's `randomID` (app.service.idgenerator) is not part of this model. Its draws are arbitrary strings. A draw the validator refuses at app/api/url_handlers.py:58 raises a `ValidationError`, which the model answers with 500.
- Concurrency is not modelled. This includes the race between the collision check and the write (app/api/url_handlers.py:61-66) and the non-atomic second save (line 70). Handlers run one at a time.
- Store and cache failures, timeouts and exceptions raised by `save()` or `setex` are not modelled.
- The caller is a value, not a PynamoDB object. `current_user.save()` overwrites the caller's stored record with the caller's updated value.
- Cache-aside resolution, `/lookupURL` and URL deletion are not modelled. Clients call them, but no server implementation exists in the source.
- The creator email's default `''` (app/models/database.py:26) is not exercised: every row the modelled handlers write carries its creator.
- `CACHE_EXPIRE_TIME` is read from the environment as text. The model takes it as a number of seconds and does not model Redis refusing an invalid time-to-live. The Redis client setup and the FastAPI wiring are not modelled.
- The `/` test endpoints, the command-line clients, the interactive script and the table-creation script are not modelled. None has logic beyond calling the handlers and validators above.
- In the in-memory version, `urlMap` stores the `HttpUrl` object. The model stores its string.
