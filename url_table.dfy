/**
  The `url` table of app/models.py (named after the `URL` model), as the handlers of app/routes.py use it.

  A row is a value; the table is the sequence of its rows in the order they
  were inserted. The store (class `Routes.UrlStore`) holds that sequence and
  replaces it when a handler adds a row or changes one.
 */
module UrlTable {
  import opened Wrappers
  import opened PyText
  import opened ShortId

  /** A `datetime`; the model only stores and compares them. */
  type Timestamp = int

  /** Declared width of the `short_id` column: `db.String(16)`. */
  const ShortIdColumnWidth: nat := 16

  /**
    One row of the table. Every column but `last_accessed` is non-null, so
    only that one is an Option.
   */
  datatype Row = Row(
    id: nat,
    originalUrl: string,
    shortId: string,
    createdAt: Timestamp,
    clickCount: nat,
    lastAccessed: Option<Timestamp>)

  /** The two `filter_by` queries the handlers issue. */
  datatype Filter = OriginalUrlIs(url: string) | ShortIdIs(shortId: string)

  predicate Matches(row: Row, f: Filter) {
    match f
    case OriginalUrlIs(u) => row.originalUrl == u
    case ShortIdIs(s) => row.shortId == s
  }

  /** `URL.query.filter_by(...).first()`: the position of the first matching row, if any. */
  function First(rows: seq<Row>, f: Filter): (found: Option<nat>)
    ensures found.Some? ==>
      found.value < |rows| && Matches(rows[found.value], f) &&
      forall j | 0 <= j < found.value :: !Matches(rows[j], f)
    ensures found.None? ==> forall j | 0 <= j < |rows| :: !Matches(rows[j], f)
  {
    if rows == [] then None
    else if Matches(rows[0], f) then Some(0)
    else match First(rows[1..], f)
      case None => None
      case Some(k) => Some(k + 1)
  }

  // ---------------------------------------------------------------------
  // Constraints. `TableConstraints` is what the column declarations
  // enforce; `Wellformed` is what the handlers keep on top of them.
  // ---------------------------------------------------------------------

  /** `id` is the primary key. */
  predicate IdsUnique(rows: seq<Row>) {
    forall i, j | 0 <= i < j < |rows| :: rows[i].id != rows[j].id
  }

  /** `short_id` is declared `unique=True`. */
  predicate ShortIdsUnique(rows: seq<Row>) {
    forall i, j | 0 <= i < j < |rows| :: rows[i].shortId != rows[j].shortId
  }

  /** `original_url` is declared `unique=True`. */
  predicate OriginalUrlsUnique(rows: seq<Row>) {
    forall i, j | 0 <= i < j < |rows| :: rows[i].originalUrl != rows[j].originalUrl
  }

  predicate ShortIdsFitColumn(rows: seq<Row>) {
    forall i | 0 <= i < |rows| :: |rows[i].shortId| <= ShortIdColumnWidth
  }

  predicate TableConstraints(rows: seq<Row>) {
    IdsUnique(rows) && ShortIdsUnique(rows) && OriginalUrlsUnique(rows) && ShortIdsFitColumn(rows)
  }

  /** Rows are kept in insertion order, and each new id is larger than every earlier one. */
  predicate IdsAscending(rows: seq<Row>) {
    forall i, j | 0 <= i < j < |rows| :: rows[i].id < rows[j].id
  }

  /** Every identifier in the table came from `_generate_short_id(6)`. */
  predicate ShortIdsGenerated(rows: seq<Row>) {
    forall i | 0 <= i < |rows| :: |rows[i].shortId| == ShortIdLength && IsAsciiAlnumString(rows[i].shortId)
  }

  predicate Wellformed(rows: seq<Row>) {
    IdsAscending(rows) && ShortIdsUnique(rows) && OriginalUrlsUnique(rows) && ShortIdsGenerated(rows)
  }

  /** What the handlers keep implies what the columns declare: in particular a 6-character identifier fits `String(16)`. */
  lemma WellformedMeetsTableConstraints(rows: seq<Row>)
    requires Wellformed(rows)
    ensures TableConstraints(rows)
  {
  }

  /** Under the uniqueness of `original_url`, at most one row matches a URL. */
  lemma OriginalUrlLocatesOneRow(rows: seq<Row>, i: nat)
    requires OriginalUrlsUnique(rows) && i < |rows|
    ensures First(rows, OriginalUrlIs(rows[i].originalUrl)) == Some(i)
  {
  }

  /** Under the uniqueness of `short_id`, at most one row matches an identifier. */
  lemma ShortIdLocatesOneRow(rows: seq<Row>, i: nat)
    requires ShortIdsUnique(rows) && i < |rows|
    ensures First(rows, ShortIdIs(rows[i].shortId)) == Some(i)
  {
  }

  // ---------------------------------------------------------------------
  // Insert
  // ---------------------------------------------------------------------

  /** The largest id in the table, 0 when it is empty. */
  function MaxId(rows: seq<Row>): (m: nat)
    ensures forall i | 0 <= i < |rows| :: rows[i].id <= m
    ensures rows == [] ==> m == 0
    ensures rows != [] ==> exists i | 0 <= i < |rows| :: rows[i].id == m
  {
    if rows == [] then 0
    else
      var rest := MaxId(rows[..|rows| - 1]);
      var last := rows[|rows| - 1].id;
      if last < rest then rest else last
  }

  /** The id the database gives a new row: one more than the largest id in use (SQLite's rule for an integer primary key). */
  function NextId(rows: seq<Row>): (id: nat)
    ensures id >= 1
    ensures forall i | 0 <= i < |rows| :: rows[i].id < id
  {
    MaxId(rows) + 1
  }

  /** `URL(original_url=..., short_id=...)` committed at time `now`: `click_count` takes its default 0, `last_accessed` has none. */
  function NewRow(rows: seq<Row>, url: string, shortId: string, now: Timestamp): Row {
    Row(NextId(rows), url, shortId, now, 0, None)
  }

  /** The table after the commit: the rows already there, then the new one. */
  function Insert(rows: seq<Row>, url: string, shortId: string, now: Timestamp): (after: seq<Row>)
    ensures |after| == |rows| + 1 && after[..|rows|] == rows
    ensures after[|rows|].id == NextId(rows)
    ensures after[|rows|].originalUrl == url && after[|rows|].shortId == shortId
    ensures after[|rows|].createdAt == now && after[|rows|].clickCount == 0 && after[|rows|].lastAccessed.None?
  {
    rows + [NewRow(rows, url, shortId, now)]
  }

  /** Inserting a URL that is not in the table under a generated identifier that is not in use keeps the table well formed. */
  lemma InsertKeepsWellformed(rows: seq<Row>, url: string, shortId: string, now: Timestamp)
    requires Wellformed(rows)
    requires First(rows, OriginalUrlIs(url)).None? && First(rows, ShortIdIs(shortId)).None?
    requires |shortId| == ShortIdLength && IsAsciiAlnumString(shortId)
    ensures Wellformed(Insert(rows, url, shortId, now))
  {
  }

  // ---------------------------------------------------------------------
  // Click
  // ---------------------------------------------------------------------

  /** `row.click_count += 1` on the row at position `i`; nothing else changes. */
  function Click(rows: seq<Row>, i: nat): (after: seq<Row>)
    requires i < |rows|
    ensures |after| == |rows|
    ensures after[i].clickCount == rows[i].clickCount + 1
    ensures after[i].(clickCount := rows[i].clickCount) == rows[i]
    ensures forall j | 0 <= j < |rows| && j != i :: after[j] == rows[j]
  {
    rows[i := rows[i].(clickCount := rows[i].clickCount + 1)]
  }

  lemma ClickKeepsWellformed(rows: seq<Row>, i: nat)
    requires Wellformed(rows) && i < |rows|
    ensures Wellformed(Click(rows, i))
  {
  }

  /** The clicks recorded in the whole table. */
  function TotalClicks(rows: seq<Row>): nat {
    if rows == [] then 0 else TotalClicks(rows[..|rows| - 1]) + rows[|rows| - 1].clickCount
  }

  /** A click adds exactly one to the clicks of the whole table. */
  lemma {:induction false} ClickAddsOneToTotal(rows: seq<Row>, i: nat)
    requires i < |rows|
    ensures TotalClicks(Click(rows, i)) == TotalClicks(rows) + 1
    decreases |rows|
  {
    var n := |rows| - 1;
    var after := Click(rows, i);
    assert after[..n] == if i < n then Click(rows[..n], i) else rows[..n];
    if i < n {
      ClickAddsOneToTotal(rows[..n], i);
    }
  }

  // ---------------------------------------------------------------------
  // Listing: `URL.query.order_by(URL.id.desc()).all()`
  // ---------------------------------------------------------------------

  predicate IdsDescending(rows: seq<Row>) {
    forall i, j | 0 <= i < j < |rows| :: rows[i].id > rows[j].id
  }

  function Reverse(rows: seq<Row>): (r: seq<Row>)
    ensures |r| == |rows|
    ensures forall i | 0 <= i < |rows| :: r[i] == rows[|rows| - 1 - i]
  {
    if rows == [] then [] else [rows[|rows| - 1]] + Reverse(rows[..|rows| - 1])
  }

  lemma {:induction false} ReverseKeepsRows(rows: seq<Row>)
    ensures multiset(Reverse(rows)) == multiset(rows)
    decreases |rows|
  {
    if rows != [] {
      var n := |rows| - 1;
      ReverseKeepsRows(rows[..n]);
      assert rows == rows[..n] + [rows[n]];
    }
  }

  /** The table ordered by descending id: every row, newest first. */
  function ByIdDescending(rows: seq<Row>): (listing: seq<Row>)
    requires IdsAscending(rows)
    ensures IdsDescending(listing)
    ensures multiset(listing) == multiset(rows)
  {
    ReverseKeepsRows(rows);
    Reverse(rows)
  }

  /** Two orderings of the same rows by strictly descending id are the same sequence: the order is fully determined. */
  lemma {:induction false} DescendingOrderIsUnique(a: seq<Row>, b: seq<Row>)
    requires IdsDescending(a) && IdsDescending(b)
    requires multiset(a) == multiset(b)
    ensures a == b
    decreases |a|
  {
    if a == [] {
      assert |multiset(b)| == 0;
    } else {
      assert |b| == |multiset(b)| == |multiset(a)| == |a|;
      SameFirstRow(a, b);
      DropFirstRow(a, b);
      DescendingOrderIsUnique(a[1..], b[1..]);
    }
  }

  /** The row with the largest id comes first in both orderings. */
  lemma SameFirstRow(a: seq<Row>, b: seq<Row>)
    requires IdsDescending(a) && IdsDescending(b)
    requires multiset(a) == multiset(b) && a != [] && b != []
    ensures a[0] == b[0]
  {
    assert a[0] in multiset(b);
    var k :| 0 <= k < |b| && b[k] == a[0];
    assert b[0] in multiset(a);
    var m :| 0 <= m < |a| && a[m] == b[0];
    assert b[0].id >= b[k].id == a[0].id >= a[m].id == b[0].id;
    assert m == 0;
  }

  lemma DropFirstRow(a: seq<Row>, b: seq<Row>)
    requires multiset(a) == multiset(b) && a != [] && b != [] && a[0] == b[0]
    ensures multiset(a[1..]) == multiset(b[1..])
  {
    assert a == [a[0]] + a[1..];
    assert b == [b[0]] + b[1..];
    assert multiset(a) == multiset{a[0]} + multiset(a[1..]);
    assert multiset(b) == multiset{a[0]} + multiset(b[1..]);
    forall r ensures multiset(a[1..])[r] == multiset(b[1..])[r] {
      assert multiset(a)[r] == multiset(b)[r];
    }
  }

  /** With distinct ids, every row occurs exactly once. */
  lemma {:induction false} EachRowOnce(rows: seq<Row>)
    requires IdsAscending(rows)
    ensures forall i | 0 <= i < |rows| :: multiset(rows)[rows[i]] == 1
    decreases |rows|
  {
    if rows != [] {
      var n := |rows| - 1;
      EachRowOnce(rows[..n]);
      assert rows == rows[..n] + [rows[n]];
      assert rows[n] !in rows[..n];
      forall i | 0 <= i < |rows| ensures multiset(rows)[rows[i]] == 1 {
        if i < n {
          assert rows[i] == rows[..n][i];
        }
      }
    }
  }
}
