# URL shortener: a Dafny model of its request handlers and URL table

The service stores long URLs in one table (`url`, named after the `URL` model) and hands out a short
identifier for each. Three request handlers act on that table:

- `shorten` takes a URL from the request body. It strips it and rejects it
  when it is missing (400) or when `urlparse` does not give an `http`/`https`
  scheme and a host (400). A URL already in the table comes back with its
  existing identifier (200, `duplicate`). Otherwise the handler draws up to
  seven random 6-character identifiers and keeps the first one no row uses.
  It fails with 500 when all seven are taken, and inserts the new row
  otherwise (201). A failed commit also gives 500.
- `redirect_short` looks up an identifier. It answers 404 when no row has it.
  Otherwise it adds one to that row's click count and redirects (302) to the
  row's URL.
- `list_all` is meant to return every row, newest (highest id) first. As
  written it fails with 500 as soon as the table holds a row (see Findings).

The model:

| file | module | what it holds |
|---|---|---|
| `wrappers.dfy` | `Wrappers` | `Option` |
| `text.dfy` | `PyText` | Python's `str.strip()` and its notion of whitespace; ASCII letters and digits |
| `short_id.dfy` | `ShortId` | `_generate_short_id`, with the random choices as a parameter |
| `url_check.dfy` | `UrlCheck` | `_is_valid_url`, with `urlparse` as a parameter; `SplitUrl`, a simplified `urlsplit` used for concrete statements |
| `url_table.dfy` | `UrlTable` | the row of `app/models.py`, its column constraints, the `filter_by(...).first()` query, insert, click, and the ordering by id |
| `routes.dfy` | `Routes` | each handler as a function of the table (`ShortenResult`, `RedirectResult`), and the class `UrlStore`, whose methods update the table in place and are proved equal to those functions |
| `route_properties.dfy` | `RouteProperties` | what the handlers promise, as lemmas about those functions |
| `app_factory.dfy` | `AppFactory` | whether `create_app` leaves the `url` table in place, and what the handlers answer when it does not |

Inputs the handlers get from outside are parameters:

- the request body's `url` and `original_url` fields;
- `urlparse`, a function giving a scheme and a network location, or failing;
- the random choices: seven attempts of six picks each;
- whether `db.session.commit()` succeeds;
- the insert time that `created_at` takes.

Points where the code does less than a reader might expect, modelled as
written:

- `shorten` does not reject URLs that contain whitespace. It strips the ends,
  and the only other check is on the scheme and host (app/routes.py:15-20).
- An `IntegrityError` on commit returns 500 (app/routes.py:58-60). The handler
  does not look the row up again to answer it as a duplicate.
- `redirect_short` increments `click_count` only. `last_accessed` is never
  written (app/routes.py:77-78), so it stays empty for every row.
- The comment at app/routes.py:32 calls `original_url` not unique at the
  database level, but app/models.py:6 declares it `unique=True`. The model
  takes the declaration.
- The comment at app/routes.py:47 speaks of 10 characters. The column is
  `String(16)` (app/models.py:7).

## Model

| member | source | states |
|---|---|---|
| `PyText.StripLeft` | app/routes.py:25 | `lstrip()`: the result is a suffix of the input, the part removed is all whitespace (Python's `isspace` set), and the result is empty or starts with a non-space character |
| `PyText.StripRight` | app/routes.py:25 | `rstrip()`: the result is a prefix of the input, the part removed is all whitespace, and the result is empty or ends with a non-space character |
| `PyText.Strip` | app/routes.py:25 | the stripped URL is empty exactly when the submitted text is all whitespace; otherwise it starts and ends with a non-space character |
| `PyText.StripIsLeftThenRight` | app/routes.py:25 | `strip()` is `lstrip()` followed by `rstrip()`, so the stripped URL is exactly the input without its leading and trailing whitespace |
| `PyText.StripIdempotent` | app/routes.py:25 | stripping an already stripped URL changes nothing |
| `ShortId.AlphabetIsAlnum` | app/routes.py:12 | `ascii_letters + digits` has 62 distinct characters, and a character is in it exactly when it is an ASCII letter or digit |
| `ShortId.GenerateShortId` | app/routes.py:11-13 | the identifier has exactly `k` characters, all ASCII letters or digits, and its i-th character is the alphabet entry picked by the i-th choice |
| `ShortId.GenerateShortIdReachesEveryAlnumString` | app/routes.py:11-13 | every string of letters and digits is what the generator returns for some choices, so "length k, alphanumeric" describes its outputs exactly |
| `UrlCheck.IsValidUrl` | app/routes.py:15-20 | `_is_valid_url` itself, with `urlparse` as a parameter: an exception (`Unparsable`) refuses the URL, otherwise the scheme must be exactly `http` or `https` and the network location non-empty. No contract of its own; the three lemmas below state what it accepts |
| `UrlCheck.SplitUrl` | app/routes.py:17 | the simplified stand-in for `urlparse`: a parsed network location holds no `/`, `?` or `#` and no lone bracket, the scheme is lower-cased, and a non-empty scheme means the URL starts with a letter |
| `UrlCheck.SplitUrlValidIff` | app/routes.py:15-20 | with the simplified split standing in for `urlparse`, a URL is accepted exactly when it starts with `http` or `https` (any case), then `://`, then a non-empty host without a lone bracket |
| `UrlCheck.HttpUrlWithHostIsValid` | app/routes.py:15-20 | every `http://` or `https://` URL with a non-empty host without brackets, followed by nothing or by a path, query or fragment, is accepted |
| `UrlCheck.NoColonIsInvalid` | app/routes.py:15-20 | a URL without `:` has no scheme and is refused |
| `UrlTable.First` | app/routes.py:33 | `filter_by(...).first()` returns the first matching row, and returns nothing only when no row matches |
| `UrlTable.Insert` | app/routes.py:54-57 | `db.session.add(row)` and a successful commit: the table keeps its rows and gains one at the end, holding the submitted URL, the identifier and the insert time, with the id `NextId` assigns (above every existing id), `click_count` 0 (app/models.py:11) and no `last_accessed` (app/models.py:12) |
| `UrlTable.Click` | app/routes.py:77 | `row.click_count += 1`: the table keeps its length, that row's click count grows by one, its other fields and every other row stay the same |
| `UrlTable.NextId` | app/models.py:5 | the id the database assigns is at least 1 and larger than every id in the table |
| `UrlTable.WellformedMeetsTableConstraints` | app/models.py:5-7 | the table the handlers keep meets the column declarations: unique ids, unique `short_id`, unique `original_url`, identifiers within `String(16)` |
| `UrlTable.OriginalUrlLocatesOneRow` | app/models.py:6 | because `original_url` is unique, a URL lookup finds exactly the one row holding it |
| `UrlTable.ShortIdLocatesOneRow` | app/models.py:7 | because `short_id` is unique, an identifier lookup finds exactly the one row holding it |
| `UrlTable.InsertKeepsWellformed` | app/routes.py:54-57 | adding a URL not yet in the table, under a generated identifier not yet in use, keeps ids ascending and URLs and identifiers unique |
| `UrlTable.ClickKeepsWellformed` | app/routes.py:77 | incrementing a click count keeps the table well formed |
| `UrlTable.ClickAddsOneToTotal` | app/routes.py:77 | one click adds exactly one to the sum of all click counts |
| `UrlTable.ByIdDescending` | app/routes.py:83 | the listing holds the table's rows, as a multiset, in strictly descending id order |
| `UrlTable.DescendingOrderIsUnique` | app/routes.py:83 | any two strictly-descending-id orderings of the same rows are the same sequence, so the listing is the one `ORDER BY id DESC` defines |
| `UrlTable.EachRowOnce` | app/models.py:5 | with ids in strictly ascending order (as inserted), each row occurs exactly once |
| `Routes.SubmittedUrl` | app/routes.py:24-25 | `data.get("url") or data.get("original_url") or ""`: empty exactly when neither field is present and non-empty; `url` wins when it is non-empty, and otherwise the result is one of the two fields |
| `Routes.ShortenResult` | app/routes.py:22-69 | `shorten` as a function from the table before the request to the response and the table after it. No contract of its own; the `RouteProperties` lemmas state what it promises |
| `Routes.RedirectResult` | app/routes.py:71-79 | `redirect_short` as a function of the table: 404 with no change when no row has the identifier, otherwise a 302 to the first matching row and a click on it. No contract of its own; `UnknownShortIdIsNotFound`, `RedirectCountsOneClick` and `RedirectsAccumulate` state what it promises |
| `Routes.FirstFreeAttempt` | app/routes.py:44-50 | the attempt chosen is the first whose candidate no row uses, and every earlier candidate is in use; there is none only when every candidate is in use |
| `Routes.UrlStore.PickShortId` | app/routes.py:45-50 | the loop returns the first candidate not in use, a 6-character alphanumeric string; it returns nothing exactly when every attempt collides |
| `Routes.UrlStore.constructor` | app/__init__.py:18-19 | the table, once it exists, starts with no rows and well formed (whether it exists is `AppFactory`'s concern) |
| `Routes.UrlStore.Shorten` | app/routes.py:22-69 | the in-place handler keeps the table well formed and gives the response and table that `ShortenResult` gives |
| `Routes.UrlStore.RedirectShort` | app/routes.py:71-79 | the in-place handler keeps the table well formed and gives the response and table that `RedirectResult` gives |
| `Routes.UrlStore.ListAll` | app/routes.py:81-84 | `list_all` with the rows themselves as the payload returns every row exactly once, in strictly descending id order |
| `Routes.ListAllAsWritten` | app/routes.py:84 | `list_all` as written lists only an empty table; any row makes it fail |
| `RouteProperties.MissingUrlIsRejected` | app/routes.py:25-28 | the response is "missing url" exactly when the submitted text is absent, empty or whitespace only; it is 400 and the table is unchanged |
| `RouteProperties.InvalidUrlIsRejected` | app/routes.py:29-30 | the response is "invalid url" exactly when a non-blank URL fails `_is_valid_url`; it is 400 and the table is unchanged |
| `RouteProperties.SchemelessUrlIsInvalid` | app/routes.py:29-30 | with the simplified split, a URL without `:` (such as `not-a-url`) gets 400 and leaves the table unchanged |
| `RouteProperties.EmptyBodyIsMissingUrl` | tests/test_smoke.py:12-17 | a body with neither field gets "missing url" (400) and leaves the table unchanged |
| `RouteProperties.ShortenStatus` | app/routes.py:27-69 | the status of every `shorten` response from the request and the table alone: 400 exactly when the URL is blank or refused, 200 exactly when an accepted URL is already stored, 500 exactly when a new URL finds all seven candidates taken or the commit fails, 201 otherwise; the four cases exclude each other and cover every request |
| `RouteProperties.OnlyCreationChangesTable` | app/routes.py:27-69 | status 201 is returned exactly for a creation, and every other response leaves the table unchanged |
| `RouteProperties.DuplicateReturnsExistingRow` | app/routes.py:33-42 | a URL already in the table returns 200 with that row's identifier and URL, and adds nothing |
| `RouteProperties.ShortenTwiceReturnsSameShortId` | app/routes.py:33-42 | once a URL is created or found, submitting it again, with any randomness and at any time, returns the same identifier as a duplicate and changes nothing |
| `RouteProperties.ShortIdAllocation` | app/routes.py:44-52 | for a new URL the response is "could not generate unique short id" (500) exactly when all seven candidates are in use, and the table is unchanged; a created identifier is one of the seven and was not in use |
| `RouteProperties.ShortenedAddsOneRow` | app/routes.py:54-69 | a 201 appends exactly one row and leaves the earlier rows unchanged. The new row holds the stripped URL, a fresh 6-character alphanumeric identifier that fits the column, the insert time, 0 clicks and no last access. Its id is above every existing id |
| `RouteProperties.ShortenKeepsWellformed` | app/routes.py:44-57 | every outcome of `shorten` keeps ids ascending and identifiers and URLs unique |
| `RouteProperties.UnknownShortIdIsNotFound` | app/routes.py:73-75 | the response is 404 exactly when no row has the identifier, and the table is unchanged |
| `RouteProperties.RedirectCountsOneClick` | app/routes.py:76-79 | a known identifier redirects (302) to its row's URL. That row's click count grows by exactly one and its other fields stay the same, `last_accessed` included. No other row changes, and total clicks grow by one |
| `RouteProperties.RedirectKeepsWellformed` | app/routes.py:73-78 | a redirect keeps the table well formed |
| `RouteProperties.RedirectsAccumulate` | app/routes.py:77 | after n redirects through a row's identifier its click count has grown by n and nothing else has changed |
| `RouteProperties.HandlersKeepRowIdentity` | app/routes.py:54-78 | no handler removes, renumbers or edits an existing row, except that a redirect raises the click count of at most one row, by exactly one |
| `RouteProperties.FirstUrlOnEmptyTable` | app/routes.py:22-79 | on an empty table and with a successful commit, an accepted URL is created (201) under a 6-character identifier. Following that identifier redirects to the URL and leaves the table as that one row with 1 click |
| `RouteProperties.ShortenThenRedirect` | app/routes.py:22-79 | the same, with a successful commit, for every `http`/`https` URL with a bracket-free host, e.g. `https://example.com/page`, with the simplified split as the parser |
| `RouteProperties.ListAllFailsOnceAUrlIsShortened` | app/routes.py:81-84 | after any successful `shorten`, `list_all` as written fails, while the intended listing starts with the new row |
| `AppFactory.CreateAppAsWritten` | app/__init__.py:18-21 | `create_app()` as written: afterwards the model is registered, and the table exists exactly when it already existed or the model was registered by an earlier call in the same process |
| `AppFactory.CreateApp` | app/__init__.py:18-21 | `create_app()` with the model imported before `db.create_all()`: the table always exists afterwards, and an existing database is left as it was |
| `AppFactory.ShortenServed` | app/routes.py:27-33 | with the table missing, `shorten` fails exactly for a non-blank URL that `_is_valid_url` accepts, since its first query comes after both checks; otherwise it answers as `ShortenResult` |
| `AppFactory.RedirectServed` | app/routes.py:73 | with the table missing, every redirect fails, since the query is its first statement; otherwise it answers as `RedirectResult` |
| `AppFactory.FirstCreateAppCreatesNoTable` | app/__init__.py:18-21 | after the first `create_app()` of a fresh process the table is missing: every redirect and every acceptable URL sent to `shorten` fail with 500. A second `create_app()` in the same process creates the table |
| `AppFactory.EmptyBodyIsRefusedWithoutTable` | tests/test_smoke.py:12-17 | the smoke test's empty body gets its 400 even on a fresh process, because the handler refuses it before any query |
| `AppFactory.CreateAppAlwaysHasTable` | app/__init__.py:18-21 | with the model imported first, no handler ever meets a missing table: `shorten` and `redirect_short` answer as `ShortenResult` and `RedirectResult` |

## Findings

| source | as written | input that shows it | evidently intended | confidence | as-written member | corrected member |
|---|---|---|---|---|---|---|
| app/__init__.py:18-21 | `db.create_all()` runs before `from .routes import bp`, and that import is what first loads app/models.py, so the first `create_app()` of a process finds no registered model and creates no table | a fresh process with no `database.db`: `create_app()`, then `GET /abc123` or `POST /shorten` with `{"url": "https://example.com"}` | the `url` table created on start-up (import `.models` before `db.create_all()`) | high (not executed) | `AppFactory.FirstCreateAppCreatesNoTable` | `AppFactory.CreateAppAlwaysHasTable` |
| app/routes.py:84 | each row is serialised with `r.to_dict()`, which the `URL` model (app/models.py:4-12) does not define, so the comprehension raises `AttributeError` and the request fails with 500 | any table with one row, e.g. after one successful `POST /shorten` | a JSON array of all rows, newest first | high (not executed) | `RouteProperties.ListAllFailsOnceAUrlIsShortened` | `Routes.UrlStore.ListAll` |

## Left out

- Flask plumbing is not modelled: the blueprint and `request.get_json`/`request.form`. The body is reduced to its two optional string fields. An empty JSON object falls back to the (empty) form, and the model takes both as "no fields".
- A non-string JSON value in `url` or `original_url` that is truthy, such as a non-zero number, makes `.strip()` raise (a falsy one falls through to the next field, or to `""`), which gives a 500. It is not modelled: the fields are strings.
- Response bodies are reduced to the fields a client acts on. `short_url` (`request.host_url + short_id`), the messages' wording, the `redirect` response object and the `print` at app/routes.py:63 are not modelled.
- The random choices are a parameter, so the model does not state the uniform distribution of `random.choices`.
- `urllib.parse.urlparse` is a parameter because its source is not part of this model. `SplitUrl` skips four things `urlsplit` does: removing tab and newline characters, removing leading control characters, the netloc normalisation check, and the bracketed-host check of Python 3.11.4 and later (a host in `[...]` must be an IPv6 or `v...` literal, with nothing before the `[` and only a `:port` after the `]`). `SplitUrl` refuses only a lone bracket, so it accepts `http://[abc]/`, which the real parser refuses; `SplitUrlValidIff` describes the simplified split, not `urlparse`, in that respect. `SplitUrl` is used only in the concrete lemmas.
- The race between concurrent requests is not modelled. An `IntegrityError` on commit is the parameter `commitOk`. The `commit()` of `redirect_short` (app/routes.py:78) is taken to succeed.
- `created_at` is the caller-supplied `now`. Wall-clock time is not modelled.
- The table has no length constraint on `original_url`. The handler never checks the declared `String(2048)`, and SQLite, the default engine (app/__init__.py:10), does not enforce declared string lengths. `TableConstraints` states the `String(16)` bound on `short_id` only, and generated identifiers always meet it.
- Integer width is not modelled: `id` and `click_count` are unbounded, while SQLite stores 64-bit integers. At 2^63-1 a click's commit would fail and new ids would no longer be the largest plus one; no table reaches that size.
- Ids follow SQLite's rule for an integer primary key: one more than the largest id. Rows are never deleted, so this keeps ids ascending in insertion order.
- `index=True` on the columns only speeds lookups and has no model.
- Of the app factory only table creation is modelled (`AppFactory`). A database file left by an earlier process is the `tableExists` flag. Not modelled: configuration, extensions and the rate limiter (app/extensions.py, config.py). The rate limiter is not applied to any route.
- `test_home_route` (tests/test_smoke.py:6-10) requests `/`, which no route serves. It has no counterpart.
