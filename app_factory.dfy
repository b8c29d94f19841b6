/**
  `create_app` of app/__init__.py, as far as it decides whether the `url`
  table exists when the handlers run.

  `db.create_all()` creates the tables of the models registered with
  `db.Model` so far. A model registers when its module is first imported, and
  the registration lasts for the rest of the Python process. app/__init__.py
  imports only `.extensions` at the top; app/models.py is first imported by
  `from .routes import bp`, which runs after `db.create_all()`. So the first
  `create_app()` of a process with no database file creates no table; a later
  `create_app()` in the same process does.

  A handler whose query reaches a missing table raises `OperationalError`, and
  Flask answers 500.
 */
module AppFactory {
  import opened Wrappers
  import opened PyText
  import opened UrlCheck
  import opened UrlTable
  import opened Routes

  /** What survives between `create_app()` calls: the model registry of the process and the database file. */
  datatype Process = Process(modelRegistered: bool, tableExists: bool)

  /** A new process with no database file. */
  const FreshProcess := Process(false, false)

  /** `create_app()` as written: `create_all()` runs before `.routes` imports `.models`. */
  function CreateAppAsWritten(p: Process): (q: Process)
    ensures q.modelRegistered
    ensures q.tableExists <==> p.tableExists || p.modelRegistered
  {
    Process(true, p.tableExists || p.modelRegistered)
  }

  /** `create_app()` with `.models` imported before `db.create_all()`: the table always exists afterwards. */
  function CreateApp(p: Process): (q: Process)
    ensures q.modelRegistered && q.tableExists
    ensures p.tableExists ==> q == p.(modelRegistered := true)
  {
    Process(true, true)
  }

  /** A response, or the 500 of a query against a missing table. */
  datatype Served<T> = Handled(outcome: T) | MissingTable

  /**
    `shorten` when the table may be missing: the first query is the duplicate
    lookup (app/routes.py:33), so a missing or refused URL still gets its 400.
   */
  function ShortenServed(tableExists: bool, rows: seq<Row>, req: ShortenRequest, urlparse: string -> UrlParts,
                         draws: seq<seq<nat>>, commitOk: bool, now: Timestamp): (s: Served<ShortenOutcome>)
    requires IsRandomSupply(draws)
    ensures s.MissingTable? <==> !tableExists && RequestedUrl(req) != [] && IsValidUrl(urlparse, RequestedUrl(req))
    ensures s.Handled? ==> s.outcome == ShortenResult(rows, req, urlparse, draws, commitOk, now)
  {
    var url := RequestedUrl(req);
    if !tableExists && url != [] && IsValidUrl(urlparse, url) then MissingTable
    else Handled(ShortenResult(rows, req, urlparse, draws, commitOk, now))
  }

  /** `redirect_short` when the table may be missing: its first statement is the query (app/routes.py:73). */
  function RedirectServed(tableExists: bool, rows: seq<Row>, shortId: string): (s: Served<RedirectOutcome>)
    ensures s.MissingTable? <==> !tableExists
    ensures s.Handled? ==> s.outcome == RedirectResult(rows, shortId)
  {
    if tableExists then Handled(RedirectResult(rows, shortId)) else MissingTable
  }

  /**
    As written, the first `create_app()` of a fresh process leaves the table
    missing: every redirect and every acceptable URL sent to `shorten` fails
    with 500. A second `create_app()` in the same process creates it.
   */
  lemma FirstCreateAppCreatesNoTable(req: ShortenRequest, urlparse: string -> UrlParts,
                                     draws: seq<seq<nat>>, commitOk: bool, now: Timestamp, shortId: string)
    requires IsRandomSupply(draws)
    requires RequestedUrl(req) != [] && IsValidUrl(urlparse, RequestedUrl(req))
    ensures var p := CreateAppAsWritten(FreshProcess);
      && !p.tableExists
      && ShortenServed(p.tableExists, [], req, urlparse, draws, commitOk, now).MissingTable?
      && RedirectServed(p.tableExists, [], shortId).MissingTable?
      && CreateAppAsWritten(p).tableExists
  {
  }

  /**
    The smoke test's empty body still gets its 400 on a fresh process: the
    handler refuses it before the first query.
   */
  lemma EmptyBodyIsRefusedWithoutTable(urlparse: string -> UrlParts, draws: seq<seq<nat>>,
                                       commitOk: bool, now: Timestamp)
    requires IsRandomSupply(draws)
    ensures var p := CreateAppAsWritten(FreshProcess);
      ShortenServed(p.tableExists, [], ShortenRequest(None, None), urlparse, draws, commitOk, now)
        == Handled(ShortenOutcome(MissingUrl, []))
  {
  }

  /**
    With `.models` imported first, every `create_app()` leaves the table in
    place, so no handler meets a missing table: on a fresh process a redirect
    is an ordinary 404 and an acceptable URL is handled by `shorten`.
   */
  lemma CreateAppAlwaysHasTable(p: Process, rows: seq<Row>, req: ShortenRequest, urlparse: string -> UrlParts,
                                draws: seq<seq<nat>>, commitOk: bool, now: Timestamp, shortId: string)
    requires IsRandomSupply(draws)
    ensures var q := CreateApp(p);
      && ShortenServed(q.tableExists, rows, req, urlparse, draws, commitOk, now)
           == Handled(ShortenResult(rows, req, urlparse, draws, commitOk, now))
      && RedirectServed(q.tableExists, rows, shortId) == Handled(RedirectResult(rows, shortId))
  {
  }
}
