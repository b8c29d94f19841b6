/**
  The three handlers of app/routes.py — `shorten`, `redirect_short` and
  `list_all` — acting on the `url` table (named after the `URL` model).

  Each handler is given twice: as a function from the table before the
  request to the response and the table after it (`ShortenResult`,
  `RedirectResult`), and as a method of `UrlStore`, which holds the table and
  updates it in place the way the handler does, proved to agree with the
  function. The properties of the handlers are lemmas about the functions
  (module RouteProperties).

  What the handlers get from outside is a parameter: the request body's two
  URL fields, `urlparse`, the random choices of the seven identifier
  attempts, whether the database accepts the commit, and the time of the
  insert.
 */
module Routes {
  import opened Wrappers
  import opened PyText
  import opened ShortId
  import opened UrlCheck
  import opened UrlTable

  /** The two fields of the submitted JSON body or form that `shorten` reads: `url` and `original_url`. */
  datatype ShortenRequest = ShortenRequest(url: Option<string>, originalUrl: Option<string>)

  /** `data.get("url") or data.get("original_url") or ""`: the first field that is present and non-empty. */
  function SubmittedUrl(req: ShortenRequest): (submitted: string)
    ensures submitted == [] <==>
      (req.url.None? || req.url.value == []) && (req.originalUrl.None? || req.originalUrl.value == [])
    ensures submitted != [] && req.url.Some? && req.url.value != [] ==> submitted == req.url.value
    ensures submitted != [] ==>
      (req.url.Some? && submitted == req.url.value) || (req.originalUrl.Some? && submitted == req.originalUrl.value)
  {
    if req.url.Some? && req.url.value != [] then req.url.value
    else if req.originalUrl.Some? && req.originalUrl.value != [] then req.originalUrl.value
    else []
  }

  /** The URL `shorten` works with: the submitted one, stripped. */
  function RequestedUrl(req: ShortenRequest): string {
    Strip(SubmittedUrl(req))
  }

  /** The responses of `shorten`; the JSON bodies are reduced to the fields a client acts on. */
  datatype ShortenResponse =
    | MissingUrl                                              // "Missing 'url'"
    | InvalidUrl                                              // "Invalid URL. Use http(s)://..."
    | AlreadyShortened(shortId: string, originalUrl: string)  // "URL already shortened", duplicate: true
    | NoUniqueShortId                                         // "Could not generate unique short id"
    | ShortIdCollision                                        // "Collision on short id, try again"
    | Shortened(shortId: string, originalUrl: string)
  {
    function Status(): int {
      match this
      case MissingUrl => 400
      case InvalidUrl => 400
      case AlreadyShortened(_, _) => 200
      case NoUniqueShortId => 500
      case ShortIdCollision => 500
      case Shortened(_, _) => 201
    }
  }

  datatype ShortenOutcome = ShortenOutcome(response: ShortenResponse, rows: seq<Row>)

  /** The responses of `redirect_short`. */
  datatype RedirectResponse = NotFound | RedirectTo(location: string) {
    function Status(): int {
      match this
      case NotFound => 404
      case RedirectTo(_) => 302
    }
  }

  datatype RedirectOutcome = RedirectOutcome(response: RedirectResponse, rows: seq<Row>)

  // ---------------------------------------------------------------------
  // Choosing a fresh short identifier
  // ---------------------------------------------------------------------

  /** Every attempt draws `ShortIdLength` choices. */
  predicate DrawsShaped(draws: seq<seq<nat>>) {
    forall i | 0 <= i < |draws| :: |draws[i]| == ShortIdLength
  }

  /** The random choices for `range(7)` attempts. */
  predicate IsRandomSupply(draws: seq<seq<nat>>) {
    |draws| == MaxAttempts && DrawsShaped(draws)
  }

  /** The identifier `_generate_short_id(6)` returns for the given choices. */
  function Candidate(picks: seq<nat>): string
    requires |picks| == ShortIdLength
  {
    GenerateShortId(ShortIdLength, picks)
  }

  /** `URL.query.filter_by(short_id=s).first()` finds a row. */
  predicate InUse(rows: seq<Row>, shortId: string) {
    First(rows, ShortIdIs(shortId)).Some?
  }

  /** The first attempt whose candidate is not in use, if any. */
  function FirstFreeAttempt(rows: seq<Row>, draws: seq<seq<nat>>): (k: Option<nat>)
    requires DrawsShaped(draws)
    ensures k.Some? ==>
      k.value < |draws| && !InUse(rows, Candidate(draws[k.value])) &&
      forall j | 0 <= j < k.value :: InUse(rows, Candidate(draws[j]))
    ensures k.None? ==> forall j | 0 <= j < |draws| :: InUse(rows, Candidate(draws[j]))
  {
    if draws == [] then None
    else if !InUse(rows, Candidate(draws[0])) then Some(0)
    else
      var later := FirstFreeAttempt(rows, draws[1..]);
      assert forall j | 0 <= j < |draws| - 1 :: draws[1..][j] == draws[j + 1];
      if later.None? then None else Some(later.value + 1)
  }

  function FreeShortId(rows: seq<Row>, draws: seq<seq<nat>>): Option<string>
    requires DrawsShaped(draws)
  {
    match FirstFreeAttempt(rows, draws)
    case Some(k) => Some(Candidate(draws[k]))
    case None => None
  }

  // ---------------------------------------------------------------------
  // The handlers as functions of the table
  // ---------------------------------------------------------------------

  /** `shorten()`; `commitOk` is false when `db.session.commit()` raises `IntegrityError`. */
  function ShortenResult(rows: seq<Row>, req: ShortenRequest, urlparse: string -> UrlParts,
                         draws: seq<seq<nat>>, commitOk: bool, now: Timestamp): ShortenOutcome
    requires IsRandomSupply(draws)
  {
    var url := RequestedUrl(req);
    if url == [] then ShortenOutcome(MissingUrl, rows)
    else if !IsValidUrl(urlparse, url) then ShortenOutcome(InvalidUrl, rows)
    else match First(rows, OriginalUrlIs(url))
      case Some(i) => ShortenOutcome(AlreadyShortened(rows[i].shortId, rows[i].originalUrl), rows)
      case None =>
        match FreeShortId(rows, draws)
        case None => ShortenOutcome(NoUniqueShortId, rows)
        case Some(shortId) =>
          if commitOk then ShortenOutcome(Shortened(shortId, url), Insert(rows, url, shortId, now))
          else ShortenOutcome(ShortIdCollision, rows)
  }

  /** `redirect_short(short_id)`. */
  function RedirectResult(rows: seq<Row>, shortId: string): RedirectOutcome {
    match First(rows, ShortIdIs(shortId))
    case None => RedirectOutcome(NotFound, rows)
    case Some(i) => RedirectOutcome(RedirectTo(rows[i].originalUrl), Click(rows, i))
  }

  /** Results of `list_all`. */
  datatype ListResponse = Listing(rows: seq<Row>) | ServerError

  /**
    `list_all` as written: it serialises each row with `r.to_dict()`, a method
    the `URL` model does not define, so the first row raises `AttributeError`
    and the request fails with 500; only an empty table lists.
   */
  function ListAllAsWritten(rows: seq<Row>): (response: ListResponse)
    ensures response.Listing? <==> rows == []
  {
    if rows == [] then Listing([]) else ServerError
  }

  // ---------------------------------------------------------------------
  // The store
  // ---------------------------------------------------------------------

  /** The `url` table, holding its rows in insertion order. */
  class UrlStore {
    var rows: seq<Row>

    ghost predicate Valid()
      reads this
    {
      Wellformed(rows)
    }

    /** The table, once it exists, before any row is inserted. */
    constructor ()
      ensures Valid() && rows == []
    {
      rows := [];
    }

    /**
      The identifier loop of `shorten`: try the candidates in turn and keep
      the first one no row uses.
     */
    method PickShortId(draws: seq<seq<nat>>) returns (shortId: Option<string>)
      requires DrawsShaped(draws)
      ensures shortId == FreeShortId(rows, draws)
      ensures shortId.Some? ==>
        !InUse(rows, shortId.value) && |shortId.value| == ShortIdLength && IsAsciiAlnumString(shortId.value)
      ensures shortId.None? <==> forall j | 0 <= j < |draws| :: InUse(rows, Candidate(draws[j]))
    {
      shortId := None;
      var attempt := 0;
      while attempt < |draws|
        invariant 0 <= attempt <= |draws|
        invariant forall j | 0 <= j < attempt :: InUse(rows, Candidate(draws[j]))
      {
        var candidate := GenerateShortId(ShortIdLength, draws[attempt]);
        if First(rows, ShortIdIs(candidate)).None? {
          shortId := Some(candidate);
          break;
        }
        attempt := attempt + 1;
      }
    }

    method Shorten(req: ShortenRequest, urlparse: string -> UrlParts,
                   draws: seq<seq<nat>>, commitOk: bool, now: Timestamp)
      returns (response: ShortenResponse)
      requires Valid() && IsRandomSupply(draws)
      modifies this
      ensures Valid()
      ensures ShortenOutcome(response, rows) == ShortenResult(old(rows), req, urlparse, draws, commitOk, now)
    {
      var originalUrl := Strip(SubmittedUrl(req));
      if originalUrl == [] {
        return MissingUrl;
      }
      if !IsValidUrl(urlparse, originalUrl) {
        return InvalidUrl;
      }
      var existing := First(rows, OriginalUrlIs(originalUrl));
      if existing.Some? {
        var row := rows[existing.value];
        return AlreadyShortened(row.shortId, row.originalUrl);
      }
      var shortId := PickShortId(draws);
      if shortId.None? {
        return NoUniqueShortId;
      }
      if !commitOk {
        return ShortIdCollision;
      }
      InsertKeepsWellformed(rows, originalUrl, shortId.value, now);
      rows := Insert(rows, originalUrl, shortId.value, now);
      response := Shortened(shortId.value, originalUrl);
    }

    method RedirectShort(shortId: string) returns (response: RedirectResponse)
      requires Valid()
      modifies this
      ensures Valid()
      ensures RedirectOutcome(response, rows) == RedirectResult(old(rows), shortId)
    {
      var found := First(rows, ShortIdIs(shortId));
      if found.None? {
        return NotFound;
      }
      var i := found.value;
      ClickKeepsWellformed(rows, i);
      rows := rows[i := rows[i].(clickCount := rows[i].clickCount + 1)];
      response := RedirectTo(rows[i].originalUrl);
    }

    /** `list_all`, serialising the rows themselves: every row exactly once, newest first. */
    function ListAll(): (listing: seq<Row>)
      reads this
      requires Valid()
      ensures IdsDescending(listing)
      ensures multiset(listing) == multiset(rows)
      ensures forall i | 0 <= i < |rows| :: multiset(listing)[rows[i]] == 1
    {
      EachRowOnce(rows);
      ByIdDescending(rows)
    }
  }
}
