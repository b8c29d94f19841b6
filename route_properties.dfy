/**
  What the handlers of app/routes.py promise, stated over `ShortenResult`
  and `RedirectResult` (and so over `UrlStore.Shorten` and
  `UrlStore.RedirectShort`, which are proved equal to them).
 */
module RouteProperties {
  import opened Wrappers
  import opened PyText
  import opened ShortId
  import opened UrlCheck
  import opened UrlTable
  import opened Routes

  // ---------------------------------------------------------------------
  // shorten: rejected input
  // ---------------------------------------------------------------------

  /** A missing, empty or whitespace-only URL is refused with 400 and the table is untouched. */
  lemma MissingUrlIsRejected(rows: seq<Row>, req: ShortenRequest, urlparse: string -> UrlParts,
                             draws: seq<seq<nat>>, commitOk: bool, now: Timestamp)
    requires IsRandomSupply(draws)
    ensures var o := ShortenResult(rows, req, urlparse, draws, commitOk, now);
      && (o.response == MissingUrl <==> IsBlank(SubmittedUrl(req)))
      && (o.response == MissingUrl ==> o.response.Status() == 400 && o.rows == rows)
  {
    var url := RequestedUrl(req);
    assert url == [] <==> IsBlank(SubmittedUrl(req));
    if url != [] {
      assert ShortenResult(rows, req, urlparse, draws, commitOk, now).response != MissingUrl;
    }
  }

  /** A present URL that `_is_valid_url` refuses is refused with 400 and the table is untouched. */
  lemma InvalidUrlIsRejected(rows: seq<Row>, req: ShortenRequest, urlparse: string -> UrlParts,
                             draws: seq<seq<nat>>, commitOk: bool, now: Timestamp)
    requires IsRandomSupply(draws)
    ensures var o := ShortenResult(rows, req, urlparse, draws, commitOk, now);
      && (o.response == InvalidUrl <==>
            !IsBlank(SubmittedUrl(req)) && !IsValidUrl(urlparse, RequestedUrl(req)))
      && (o.response == InvalidUrl ==> o.response.Status() == 400 && o.rows == rows)
  {
  }

  /** Only a 201 changes the table; every other response leaves it as it was. */
  lemma OnlyCreationChangesTable(rows: seq<Row>, req: ShortenRequest, urlparse: string -> UrlParts,
                                 draws: seq<seq<nat>>, commitOk: bool, now: Timestamp)
    requires IsRandomSupply(draws)
    ensures var o := ShortenResult(rows, req, urlparse, draws, commitOk, now);
      && (o.response.Shortened? <==> o.response.Status() == 201)
      && (!o.response.Shortened? ==> o.rows == rows)
  {
    var url := RequestedUrl(req);
    if url != [] && IsValidUrl(urlparse, url) && First(rows, OriginalUrlIs(url)).None? {
      match FreeShortId(rows, draws)
      case None =>
      case Some(shortId) =>
    }
  }

  /**
    Unfolds `ShortenResult` into its cases, for the proofs below that reason
    about every outcome at once.
   */
  lemma ShortenCases(rows: seq<Row>, req: ShortenRequest, urlparse: string -> UrlParts,
                     draws: seq<seq<nat>>, commitOk: bool, now: Timestamp)
    requires IsRandomSupply(draws)
    ensures var o := ShortenResult(rows, req, urlparse, draws, commitOk, now);
      var url := RequestedUrl(req);
      if url == [] then o == ShortenOutcome(MissingUrl, rows)
      else if !IsValidUrl(urlparse, url) then o == ShortenOutcome(InvalidUrl, rows)
      else if First(rows, OriginalUrlIs(url)).Some? then
        var k := First(rows, OriginalUrlIs(url)).value;
        o == ShortenOutcome(AlreadyShortened(rows[k].shortId, rows[k].originalUrl), rows)
      else if FreeShortId(rows, draws).None? then o == ShortenOutcome(NoUniqueShortId, rows)
      else if !commitOk then o == ShortenOutcome(ShortIdCollision, rows)
      else
        var shortId := FreeShortId(rows, draws).value;
        o == ShortenOutcome(Shortened(shortId, url), Insert(rows, url, shortId, now))
  {
    var url := RequestedUrl(req);
    if url != [] && IsValidUrl(urlparse, url) && First(rows, OriginalUrlIs(url)).None? {
      match FreeShortId(rows, draws)
      case None =>
      case Some(shortId) =>
    }
  }

  /**
    The status of every `shorten` response, in terms of the request and the
    table alone: 400 when the URL is missing or refused, 200 when the table
    already holds it, 500 when all seven candidates are taken or the commit
    fails, and 201 otherwise. The four cases exclude each other and cover
    every request.
   */
  lemma ShortenStatus(rows: seq<Row>, req: ShortenRequest, urlparse: string -> UrlParts,
                      draws: seq<seq<nat>>, commitOk: bool, now: Timestamp)
    requires IsRandomSupply(draws)
    ensures var o := ShortenResult(rows, req, urlparse, draws, commitOk, now);
      var url := RequestedUrl(req);
      var accepted := !IsBlank(SubmittedUrl(req)) && IsValidUrl(urlparse, url);
      var stored := exists j | 0 <= j < |rows| :: rows[j].originalUrl == url;
      var exhausted := forall j | 0 <= j < MaxAttempts :: InUse(rows, Candidate(draws[j]));
      && (o.response.Status() == 400 <==> !accepted)
      && (o.response.Status() == 200 <==> accepted && stored)
      && (o.response.Status() == 500 <==> accepted && !stored && (exhausted || !commitOk))
      && (o.response.Status() == 201 <==> accepted && !stored && !exhausted && commitOk)
  {
    var url := RequestedUrl(req);
    if url != [] && IsValidUrl(urlparse, url) {
      match First(rows, OriginalUrlIs(url))
      case Some(i) =>
        assert rows[i].originalUrl == url;
      case None =>
        assert !exists j | 0 <= j < |rows| :: rows[j].originalUrl == url;
        match FirstFreeAttempt(rows, draws)
        case None =>
        case Some(k) =>
          assert !InUse(rows, Candidate(draws[k]));
    }
  }

  // ---------------------------------------------------------------------
  // shorten: duplicates
  // ---------------------------------------------------------------------

  /** Submitting a URL the table already holds returns 200 with that row's identifier, and adds nothing. */
  lemma DuplicateReturnsExistingRow(rows: seq<Row>, req: ShortenRequest, urlparse: string -> UrlParts,
                                    draws: seq<seq<nat>>, commitOk: bool, now: Timestamp, i: nat)
    requires Wellformed(rows) && IsRandomSupply(draws)
    requires i < |rows| && RequestedUrl(req) == rows[i].originalUrl
    requires RequestedUrl(req) != [] && IsValidUrl(urlparse, RequestedUrl(req))
    ensures var o := ShortenResult(rows, req, urlparse, draws, commitOk, now);
      && o.response == AlreadyShortened(rows[i].shortId, rows[i].originalUrl)
      && o.response.Status() == 200
      && o.rows == rows
  {
    OriginalUrlLocatesOneRow(rows, i);
  }

  /**
    Shortening is idempotent by content: once a URL has been shortened (or
    found), submitting it again, with whatever randomness and at whatever
    time, returns the same identifier as a duplicate and changes nothing.
   */
  lemma ShortenTwiceReturnsSameShortId(
    rows: seq<Row>, req: ShortenRequest, urlparse: string -> UrlParts,
    draws: seq<seq<nat>>, commitOk: bool, now: Timestamp,
    draws': seq<seq<nat>>, commitOk': bool, now': Timestamp)
    requires Wellformed(rows) && IsRandomSupply(draws) && IsRandomSupply(draws')
    requires ShortenResult(rows, req, urlparse, draws, commitOk, now).response.Shortened? ||
             ShortenResult(rows, req, urlparse, draws, commitOk, now).response.AlreadyShortened?
    ensures var o := ShortenResult(rows, req, urlparse, draws, commitOk, now);
      var o' := ShortenResult(o.rows, req, urlparse, draws', commitOk', now');
      && o'.response == AlreadyShortened(o.response.shortId, RequestedUrl(req))
      && o'.rows == o.rows
  {
    var o := ShortenResult(rows, req, urlparse, draws, commitOk, now);
    var url := RequestedUrl(req);
    ShortenCases(rows, req, urlparse, draws, commitOk, now);
    ShortenKeepsWellformed(rows, req, urlparse, draws, commitOk, now);
    var i: nat;
    if o.response.Shortened? {
      i := |rows|;
      assert o.rows[i] == NewRow(rows, url, o.response.shortId, now);
    } else {
      i := First(rows, OriginalUrlIs(url)).value;
    }
    DuplicateReturnsExistingRow(o.rows, req, urlparse, draws', commitOk', now', i);
  }

  // ---------------------------------------------------------------------
  // shorten: identifier allocation and insertion
  // ---------------------------------------------------------------------

  /**
    For a new URL, at most the seven drawn candidates are tried: the request
    fails with 500 exactly when every one of them is in use, and otherwise the
    identifier chosen is one of them and is not in use.
   */
  lemma ShortIdAllocation(rows: seq<Row>, req: ShortenRequest, urlparse: string -> UrlParts,
                          draws: seq<seq<nat>>, commitOk: bool, now: Timestamp)
    requires IsRandomSupply(draws)
    requires RequestedUrl(req) != [] && IsValidUrl(urlparse, RequestedUrl(req))
    requires First(rows, OriginalUrlIs(RequestedUrl(req))).None?
    ensures var o := ShortenResult(rows, req, urlparse, draws, commitOk, now);
      && (o.response == NoUniqueShortId <==>
            forall j | 0 <= j < MaxAttempts :: InUse(rows, Candidate(draws[j])))
      && (o.response == NoUniqueShortId ==> o.response.Status() == 500 && o.rows == rows)
      && (o.response.Shortened? ==>
            !InUse(rows, o.response.shortId) &&
            exists j | 0 <= j < MaxAttempts :: o.response.shortId == Candidate(draws[j]))
  {
    var o := ShortenResult(rows, req, urlparse, draws, commitOk, now);
    if o.response.Shortened? {
      var k := FirstFreeAttempt(rows, draws).value;
      assert o.response.shortId == Candidate(draws[k]);
    }
  }

  /**
    A successful `shorten` appends exactly one row: the stripped URL, a fresh
    6-character identifier of letters and digits, the insert time, 0 clicks,
    no last access, and an id above every existing one; the rows already there
    stay as they were.
   */
  lemma ShortenedAddsOneRow(rows: seq<Row>, req: ShortenRequest, urlparse: string -> UrlParts,
                            draws: seq<seq<nat>>, commitOk: bool, now: Timestamp)
    requires IsRandomSupply(draws)
    ensures var o := ShortenResult(rows, req, urlparse, draws, commitOk, now);
      o.response.Shortened? ==>
        var shortId := o.response.shortId;
        && o.response.originalUrl == RequestedUrl(req)
        && |o.rows| == |rows| + 1
        && o.rows[..|rows|] == rows
        && o.rows[|rows|] == Row(o.rows[|rows|].id, RequestedUrl(req), shortId, now, 0, None)
        && (forall j | 0 <= j < |rows| :: rows[j].id < o.rows[|rows|].id)
        && (forall j | 0 <= j < |rows| :: rows[j].originalUrl != RequestedUrl(req))
        && !InUse(rows, shortId)
        && |shortId| == ShortIdLength && IsAsciiAlnumString(shortId)
        && |shortId| <= ShortIdColumnWidth
  {
  }

  /** `shorten` keeps the table well formed: unique ids, identifiers and URLs. */
  lemma ShortenKeepsWellformed(rows: seq<Row>, req: ShortenRequest, urlparse: string -> UrlParts,
                               draws: seq<seq<nat>>, commitOk: bool, now: Timestamp)
    requires Wellformed(rows) && IsRandomSupply(draws)
    ensures Wellformed(ShortenResult(rows, req, urlparse, draws, commitOk, now).rows)
  {
    var o := ShortenResult(rows, req, urlparse, draws, commitOk, now);
    if o.response.Shortened? {
      InsertKeepsWellformed(rows, RequestedUrl(req), o.response.shortId, now);
    }
  }

  // ---------------------------------------------------------------------
  // redirect_short
  // ---------------------------------------------------------------------

  /** An identifier no row has gives 404 and leaves the table untouched. */
  lemma UnknownShortIdIsNotFound(rows: seq<Row>, shortId: string)
    ensures var o := RedirectResult(rows, shortId);
      && (o.response == NotFound <==> forall j | 0 <= j < |rows| :: rows[j].shortId != shortId)
      && (o.response == NotFound ==> o.response.Status() == 404 && o.rows == rows)
  {
  }

  /**
    Redirecting through a known identifier answers 302 with the row's URL, adds
    exactly one to that row's click count, and changes nothing else: not its
    other fields (`last_accessed` included) and not any other row.
   */
  lemma RedirectCountsOneClick(rows: seq<Row>, i: nat)
    requires ShortIdsUnique(rows) && i < |rows|
    ensures var o := RedirectResult(rows, rows[i].shortId);
      && o.response == RedirectTo(rows[i].originalUrl)
      && o.response.Status() == 302
      && |o.rows| == |rows|
      && o.rows[i].clickCount == rows[i].clickCount + 1
      && o.rows[i].(clickCount := rows[i].clickCount) == rows[i]
      && o.rows[i].lastAccessed == rows[i].lastAccessed
      && (forall j | 0 <= j < |rows| && j != i :: o.rows[j] == rows[j])
      && TotalClicks(o.rows) == TotalClicks(rows) + 1
  {
    ShortIdLocatesOneRow(rows, i);
    ClickAddsOneToTotal(rows, i);
  }

  lemma RedirectKeepsWellformed(rows: seq<Row>, shortId: string)
    requires Wellformed(rows)
    ensures Wellformed(RedirectResult(rows, shortId).rows)
  {
    match First(rows, ShortIdIs(shortId))
    case None =>
    case Some(i) => ClickKeepsWellformed(rows, i);
  }

  /** The table after `n` redirects through the same identifier. */
  function RedirectTimes(rows: seq<Row>, shortId: string, n: nat): seq<Row>
  {
    if n == 0 then rows else RedirectResult(RedirectTimes(rows, shortId, n - 1), shortId).rows
  }

  /** After `n` redirects through a row's identifier its click count has grown by `n`, and nothing else has changed. */
  lemma {:induction false} RedirectsAccumulate(rows: seq<Row>, i: nat, n: nat)
    requires ShortIdsUnique(rows) && i < |rows|
    ensures var after := RedirectTimes(rows, rows[i].shortId, n);
      && |after| == |rows|
      && after[i] == rows[i].(clickCount := rows[i].clickCount + n)
      && (forall j | 0 <= j < |rows| && j != i :: after[j] == rows[j])
  {
    if n > 0 {
      RedirectsAccumulate(rows, i, n - 1);
      var before := RedirectTimes(rows, rows[i].shortId, n - 1);
      assert ShortIdsUnique(before) by {
        forall a, b | 0 <= a < b < |before| ensures before[a].shortId != before[b].shortId {
          assert before[a].shortId == rows[a].shortId && before[b].shortId == rows[b].shortId;
        }
      }
      RedirectCountsOneClick(before, i);
    }
  }

  // ---------------------------------------------------------------------
  // Click counts and creation times
  // ---------------------------------------------------------------------

  /** No handler lowers a click count, renumbers a row, or changes its URL, identifier or creation time. */
  lemma HandlersKeepRowIdentity(rows: seq<Row>, req: ShortenRequest, urlparse: string -> UrlParts,
                                draws: seq<seq<nat>>, commitOk: bool, now: Timestamp, shortId: string)
    requires IsRandomSupply(draws)
    ensures var s := ShortenResult(rows, req, urlparse, draws, commitOk, now).rows;
      var r := RedirectResult(rows, shortId).rows;
      && |s| >= |rows| && |r| == |rows|
      && (forall j | 0 <= j < |rows| ::
            && s[j] == rows[j]
            && rows[j].clickCount <= r[j].clickCount <= rows[j].clickCount + 1
            && r[j] == rows[j].(clickCount := r[j].clickCount))
      && (forall j, k | 0 <= j < k < |rows| :: r[j] == rows[j] || r[k] == rows[k])
  {
    ShortenCases(rows, req, urlparse, draws, commitOk, now);
    match First(rows, ShortIdIs(shortId))
    case None =>
    case Some(i) => assert RedirectResult(rows, shortId).rows == Click(rows, i);
  }

  // ---------------------------------------------------------------------
  // Scenarios, with the simplified `urlsplit` standing in for `urlparse`
  // ---------------------------------------------------------------------

  /** An empty request body is refused with 400. */
  lemma EmptyBodyIsMissingUrl(rows: seq<Row>, urlparse: string -> UrlParts,
                              draws: seq<seq<nat>>, commitOk: bool, now: Timestamp)
    requires IsRandomSupply(draws)
    ensures ShortenResult(rows, ShortenRequest(None, None), urlparse, draws, commitOk, now)
            == ShortenOutcome(MissingUrl, rows)
  {
  }

  /**
    A URL without a ':' ("not-a-url", say) has no scheme, so it is refused
    with 400 and the table is untouched.
   */
  lemma SchemelessUrlIsInvalid(rows: seq<Row>, req: ShortenRequest,
                               draws: seq<seq<nat>>, commitOk: bool, now: Timestamp)
    requires IsRandomSupply(draws)
    requires RequestedUrl(req) != []
    requires forall i | 0 <= i < |RequestedUrl(req)| :: RequestedUrl(req)[i] != ':'
    ensures ShortenResult(rows, req, SplitUrl, draws, commitOk, now) == ShortenOutcome(InvalidUrl, rows)
  {
    NoColonIsInvalid(RequestedUrl(req));
  }

  /**
    Shortening an http(s) URL with a host on an empty table creates it under a
    6-character identifier; following that identifier redirects to the URL
    and leaves its click count at 1. ("https://example.com/page" is one such
    URL: scheme "https", host "example.com", path "/page".)
   */
  lemma ShortenThenRedirect(url: string, scheme: string, host: string, path: string,
                            draws: seq<seq<nat>>, now: Timestamp)
    requires url == scheme + "://" + host + path
    requires scheme == "http" || scheme == "https"
    requires host != []
    requires forall i | 0 <= i < |host| :: !EndsNetloc(host[i]) && host[i] != '[' && host[i] != ']'
    requires path == [] || EndsNetloc(path[0])
    requires !IsSpace(url[|url| - 1])
    requires IsRandomSupply(draws)
    ensures var o := ShortenResult([], ShortenRequest(Some(url), None), SplitUrl, draws, true, now);
      && o.response.Shortened?
      && o.response.Status() == 201
      && |o.response.shortId| == 6
      && var r := RedirectResult(o.rows, o.response.shortId);
      && r.response == RedirectTo(url)
      && r.response.Status() == 302
      && r.rows == [Row(1, url, o.response.shortId, now, 1, None)]
  {
    WebUrlIsAccepted(url, scheme, host, path);
    FirstUrlOnEmptyTable(ShortenRequest(Some(url), None), SplitUrl, draws, now);
  }

  lemma WebUrlIsAccepted(url: string, scheme: string, host: string, path: string)
    requires url == scheme + "://" + host + path
    requires scheme == "http" || scheme == "https"
    requires host != []
    requires forall i | 0 <= i < |host| :: !EndsNetloc(host[i]) && host[i] != '[' && host[i] != ']'
    requires path == [] || EndsNetloc(path[0])
    requires !IsSpace(url[|url| - 1])
    ensures RequestedUrl(ShortenRequest(Some(url), None)) == url
    ensures IsValidUrl(SplitUrl, url)
  {
    assert url[0] == 'h';
    TrimmedUrlIsRequested(url);
    HttpUrlWithHostIsValid(scheme, host, path);
  }

  lemma TrimmedUrlIsRequested(url: string)
    requires url != [] && !IsSpace(url[0]) && !IsSpace(url[|url| - 1])
    ensures RequestedUrl(ShortenRequest(Some(url), None)) == url
  {
    StripTrimmed(url);
  }

  /**
    On an empty table, any accepted URL is created (201) under a 6-character
    identifier, and the first redirect through it reaches the URL and counts 1.
   */
  lemma FirstUrlOnEmptyTable(req: ShortenRequest, urlparse: string -> UrlParts,
                             draws: seq<seq<nat>>, now: Timestamp)
    requires RequestedUrl(req) != [] && IsValidUrl(urlparse, RequestedUrl(req))
    requires IsRandomSupply(draws)
    ensures var o := ShortenResult([], req, urlparse, draws, true, now);
      && o.response.Shortened?
      && o.response.Status() == 201
      && |o.response.shortId| == 6
      && var r := RedirectResult(o.rows, o.response.shortId);
      && r.response == RedirectTo(RequestedUrl(req))
      && r.response.Status() == 302
      && r.rows == [Row(1, RequestedUrl(req), o.response.shortId, now, 1, None)]
  {
    FirstShortenOnEmptyTable(req, urlparse, draws, now);
    RedirectOnSingleRow(Row(1, RequestedUrl(req), Candidate(draws[0]), now, 0, None));
  }

  lemma FirstShortenOnEmptyTable(req: ShortenRequest, urlparse: string -> UrlParts,
                                 draws: seq<seq<nat>>, now: Timestamp)
    requires RequestedUrl(req) != [] && IsValidUrl(urlparse, RequestedUrl(req))
    requires IsRandomSupply(draws)
    ensures ShortenResult([], req, urlparse, draws, true, now)
         == ShortenOutcome(Shortened(Candidate(draws[0]), RequestedUrl(req)),
                           [Row(1, RequestedUrl(req), Candidate(draws[0]), now, 0, None)])
  {
    var shortId := Candidate(draws[0]);
    assert FreeShortId([], draws) == Some(shortId);
    assert NextId([]) == 1;
  }

  lemma RedirectOnSingleRow(row: Row)
    ensures var r := RedirectResult([row], row.shortId);
      && r.response == RedirectTo(row.originalUrl)
      && r.rows == [row.(clickCount := row.clickCount + 1)]
  {
    assert First([row], ShortIdIs(row.shortId)) == Some(0);
  }

  /**
    `list_all` as written fails with 500 as soon as one URL has been
    shortened, where the intended listing holds that URL's row.
   */
  lemma ListAllFailsOnceAUrlIsShortened(rows: seq<Row>, req: ShortenRequest, urlparse: string -> UrlParts,
                                        draws: seq<seq<nat>>, now: Timestamp)
    requires Wellformed(rows) && IsRandomSupply(draws)
    requires ShortenResult(rows, req, urlparse, draws, true, now).response.Shortened?
    ensures var after := ShortenResult(rows, req, urlparse, draws, true, now).rows;
      && Wellformed(after)
      && ListAllAsWritten(after) == ServerError
      && ByIdDescending(after)[0].originalUrl == RequestedUrl(req)
  {
    var after := ShortenResult(rows, req, urlparse, draws, true, now).rows;
    ShortenKeepsWellformed(rows, req, urlparse, draws, true, now);
    assert ByIdDescending(after)[0] == after[|after| - 1];
  }
}
