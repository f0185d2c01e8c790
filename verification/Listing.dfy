/**
 The colors listing in the words of its request: which queries are accepted, how many colors a page
 has, and which of two colors comes first, read off the query text and the fields of the response
 (internal/storage/color_sort.go, internal/handlers/color_handler.go).
 */
module Listing {
  import opened Text
  import opened Timestamp
  import opened ColorSort
  import opened Paging

  // ---- the order asked for ----

  /** The hex `a` is earlier in the alphabet: at the first character that differs. */
  ghost predicate Alphabetical(a: string, b: string) {
    exists n :: DiffersBelow(a, b, n)
  }

  /** `a` is the smaller color under the column `sort` names, ties broken by the hex. */
  ghost predicate Smaller(sort: string, feel: string -> int, a: Color, b: Color) {
    if sort == "hex" then Alphabetical(a.hex, b.hex)
    else if sort == "color" then
      feel(a.hex) < feel(b.hex) || (feel(a.hex) == feel(b.hex) && Alphabetical(a.hex, b.hex))
    else
      || Instant(a.createdAt) < Instant(b.createdAt)
      || (Instant(a.createdAt) == Instant(b.createdAt) && Alphabetical(a.hex, b.hex))
  }

  /** `a` comes before `b`: smallest first for "asc", largest first for "desc" and when nothing is said. */
  ghost predicate Precedes(q: Query, feel: string -> int, a: Color, b: Color) {
    if q.order == "asc" then Smaller(q.sort, feel, a, b) else Smaller(q.sort, feel, b, a)
  }

  /** The colors are in the order asked for. */
  ghost predicate InAskedOrder(q: Query, feel: string -> int, colors: seq<Color>) {
    forall i, j | 0 <= i < j < |colors| :: Precedes(q, feel, colors[i], colors[j])
  }

  /** A query that a server accepts from the first page on. */
  predicate IsAcceptable(q: Query) {
    && (q.limit.None? || 1 <= q.limit.value <= 100)
    && (q.sort == "" || q.sort == "created_at" || q.sort == "hex" || q.sort == "color")
    && (q.order == "" || q.order == "asc" || q.order == "desc")
  }

  /** How many colors a page may have: what is asked for, or fifty. */
  function PageSize(q: Query): int {
    if q.limit.None? then 50 else q.limit.value
  }

  /** Rows as the store keeps them, for the listing asked for. */
  ghost predicate StoredFor(rows: seq<Row>, q: Query, feel: string -> int) {
    Stored(rows, if q.sort == "" then "created_at" else q.sort, feel)
  }

  // ---- which queries are accepted ----

  /**
   A query without a cursor is accepted if and only if its limit is in 1 to 100 and its sort and order
   are known or left out; otherwise the error names the first of the three that is bad.
   */
  lemma {:induction false} FirstPageAccepted(q: Query)
    requires q.cursor == ""
    ensures ParamsOf(q).Ok? <==> IsAcceptable(q)
    ensures !(1 <= PageSize(q) <= 100) ==> ParamsOf(q) == Err(BadLimit)
    ensures ParamsOf(q).Err? && 1 <= PageSize(q) <= 100 ==>
              ParamsOf(q) == Err(BadParam(if q.sort !in {"", "created_at", "hex", "color"} then InvalidSort(q.sort)
                                          else InvalidOrder(q.order)))
  {}

  /** What an accepted query asks for. */
  lemma {:induction false} AskedFor(q: Query, feel: string -> int) returns (k: Keyset, limit: nat)
    requires ParamsOf(q).Ok?
    ensures IsAcceptable(q) && Asks(q, k, limit, feel) && limit == PageSize(q)
    ensures k.sort == if q.sort == "" then "created_at" else q.sort
    ensures k.boundary.None? <==> q.cursor == ""
  {
    ParamsAreSound(q, feel);
    k, limit := KeysetOf(ParamsOf(q).value, feel).value, ParamsOf(q).value.limit;
  }

  /** The order the query runs by is the order its text asks for. */
  lemma {:induction false} BeforeIsPrecedes(q: Query, k: Keyset, limit: nat, feel: string -> int, a: Color, b: Color)
    requires Asks(q, k, limit, feel)
    ensures k.Before(KeyOfColor(k, feel, a), KeyOfColor(k, feel, b)) <==> Precedes(q, feel, a, b)
  {
    LessIsAlphabetical(a.hex, b.hex);
    LessIsAlphabetical(b.hex, a.hex);
  }

  // ---- any number of requests ----

  /**
   Whatever is added and deleted between the requests, all pages together are in the order the text of
   the request asks for.
   */
  lemma {:induction false} PagesInAskedOrder(tables: seq<seq<Row>>, q: Query, feel: string -> int)
    requires forall t | t in tables :: AllPrintable(t)
    requires forall i | 0 <= i < |tables| :: StoredFor(tables[i], q, feel)
    requires ParamsOf(q).Ok?
    ensures InAskedOrder(q, feel, Flat(Follow(tables, q, feel).pages))
  {
    var k, limit := AskedFor(q, feel);
    PagesInOrderOf(tables, q, k, limit, feel, Flat(Follow(tables, q, feel).pages));
  }

  lemma {:induction false} PagesInOrderOf(
      tables: seq<seq<Row>>, q: Query, k: Keyset, limit: nat, feel: string -> int, got: seq<Color>)
    requires forall t | t in tables :: AllPrintable(t)
    requires forall i | 0 <= i < |tables| :: Stored(tables[i], k.sort, feel)
    requires Asks(q, k, limit, feel) && got == Flat(Follow(tables, q, feel).pages)
    ensures InAskedOrder(q, feel, got)
  {
    TraversalIsMonotone(tables, q, k, limit, feel);
    OrderInWords(q, k, limit, feel, got);
  }

  lemma {:induction false} OrderInWords(q: Query, k: Keyset, limit: nat, feel: string -> int, got: seq<Color>)
    requires Asks(q, k, limit, feel)
    requires forall i, j | 0 <= i < j < |got| :: k.Before(KeyOfColor(k, feel, got[i]), KeyOfColor(k, feel, got[j]))
    ensures InAskedOrder(q, feel, got)
  {
    forall i, j | 0 <= i < j < |got| ensures Precedes(q, feel, got[i], got[j]) {
      BeforeIsPrecedes(q, k, limit, feel, got[i], got[j]);
    }
  }

  /** What a response shows of a row. */
  function Shown(r: Row): Color { Color(r.hex, UTC(r.createdAt)) }

  /** Each page but the last has `limit` colors, and there are as many pages as that takes, one for nothing. */
  ghost predicate CutEvery<T>(pages: seq<seq<T>>, limit: nat, n: nat) {
    && (forall i | 0 <= i < |pages| - 1 :: |pages[i]| == limit)
    && (n == 0 ==> |pages| == 1)
    && (n > 0 ==> (|pages| - 1) * limit < n <= |pages| * limit)
  }

  /**
   The listing of a collection that does not change: every color once, in the order the text of the
   request asks for, in pages of the size it asks for.
   */
  lemma {:induction false} ListingInWords(tables: seq<seq<Row>>, rows: seq<Row>, q: Query, feel: string -> int)
    requires IsAcceptable(q) && q.cursor == "" && StoredFor(rows, q, feel)
    requires forall i | 0 <= i < |tables| :: tables[i] == rows
    requires tables != [] && |tables| * PageSize(q) >= |rows|
    ensures forall t | t in tables :: AllPrintable(t)
    ensures var w := Follow(tables, q, feel);
            var all := Flat(w.pages);
            && w.done && CutEvery(w.pages, PageSize(q), |rows|)
            && InAskedOrder(q, feel, all) && |all| == |rows|
            && forall c :: c in all <==> exists r :: r in rows && c == Shown(r)
  {
    FirstPageAccepted(q);
    var k, limit := AskedFor(q, feel);
    SameSnapshots(tables, rows, k.sort, feel);
    TraversalOfUnchanged(tables, rows, q, k, limit, feel);
    PagesInAskedOrder(tables, q, feel);
    ChunksAre(Project(OrderBy(k, rows)), limit);
    OrderBySorts(k, rows);
    ProjectShows(OrderBy(k, rows), rows);
  }

  lemma {:induction false} ProjectShows(sorted: seq<Row>, rows: seq<Row>)
    requires forall r :: r in sorted <==> r in rows
    ensures forall c :: c in Project(sorted) <==> exists r :: r in rows && c == Shown(r)
  {
    forall c ensures c in Project(sorted) <==> exists r :: r in rows && c == Shown(r) {
      if c in Project(sorted) {
        var i :| 0 <= i < |sorted| && Project(sorted)[i] == c;
        assert sorted[i] in rows && c == Shown(sorted[i]);
      }
      if r :| r in rows && c == Shown(r) {
        var i :| 0 <= i < |sorted| && sorted[i] == r;
        assert Project(sorted)[i] == c;
      }
    }
  }

  // ---- one request ----

  /** The row is behind the place the cursor of the request names, in the order asked for. */
  ghost predicate BehindCursor(q: Query, feel: string -> int, r: Row)
    requires ParamsOf(q).Ok?
  {
    var after := ParamsOf(q).value.after;
    after.Some? ==> Precedes(q, feel, Color(after.value.hex, after.value.createdAt), Shown(r))
  }

  lemma {:induction false} BehindIsAfter(q: Query, k: Keyset, limit: nat, feel: string -> int, r: Row)
    requires Asks(q, k, limit, feel) && Valid(r.createdAt) && r.colorKey == feel(r.hex)
    ensures k.AfterBoundary(r) <==> BehindCursor(q, feel, r)
    ensures KeyOfColor(k, feel, Shown(r)) == k.KeyOf(r)
  {
    UTCKeepsInstant(r.createdAt);
    var after := ParamsOf(q).value.after;
    if after.Some? {
      BeforeIsPrecedes(q, k, limit, feel, Color(after.value.hex, after.value.createdAt), Shown(r));
    }
  }

  /** What one page holds, and what it leaves for the next. */
  ghost predicate IsPage(rows: seq<Row>, q: Query, feel: string -> int, resp: Response)
    requires ParamsOf(q).Ok?
  {
    && resp.limit == PageSize(q) && |resp.colors| <= resp.limit
    && (resp.nextCursor != "" ==> |resp.colors| == resp.limit)
    && InAskedOrder(q, feel, resp.colors)
    && (forall c | c in resp.colors :: exists r :: r in rows && c == Shown(r))
    && (forall r | r in rows ::
          if Shown(r) in resp.colors then BehindCursor(q, feel, r)
          else !BehindCursor(q, feel, r)
               || (resp.nextCursor != "" && forall c | c in resp.colors :: Precedes(q, feel, c, Shown(r))))
  }

  /**
   One request, with a cursor or without: the first colors behind the cursor, in the order the text of
   the request asks for and as many as it asks for; a row left out comes after all of them, and then
   there is a cursor for the next page.
   */
  lemma {:induction false} PageInWords(rows: seq<Row>, q: Query, feel: string -> int)
    requires ParamsOf(q).Ok? && StoredFor(rows, q, feel)
    ensures HandleListColors(rows, q, feel).Ok? && IsPage(rows, q, feel, HandleListColors(rows, q, feel).value)
  {
    var k, limit := AskedFor(q, feel);
    var resp := HandleListColors(rows, q, feel).value;
    HandlerReturnsPage(rows, q, k, limit, feel);
    var page, rest := PageSplits(k, rows, limit);
    PrefixSorted(k, page, rest);
    ProjectShows(page, page);
    forall r | r in rows ensures KeyOfColor(k, feel, Shown(r)) == k.KeyOf(r) {
      BehindIsAfter(q, k, limit, feel, r);
    }
    PageInOrder(q, k, limit, feel, rows, page);
    forall r | r in rows
      ensures if Shown(r) in resp.colors then BehindCursor(q, feel, r)
              else !BehindCursor(q, feel, r)
                   || (rest != [] && forall c | c in resp.colors :: Precedes(q, feel, c, Shown(r)))
    {
      BehindIsAfter(q, k, limit, feel, r);
      RowOnPage(q, k, limit, feel, rows, page, rest, r);
    }
  }

  lemma {:induction false} PageInOrder(
      q: Query, k: Keyset, limit: nat, feel: string -> int, rows: seq<Row>, page: seq<Row>)
    requires Asks(q, k, limit, feel) && Sorted(k, page) && forall r | r in page :: r in rows
    requires forall r | r in rows :: KeyOfColor(k, feel, Shown(r)) == k.KeyOf(r)
    ensures InAskedOrder(q, feel, Project(page))
  {
    forall i, j | 0 <= i < j < |page| ensures Precedes(q, feel, Project(page)[i], Project(page)[j]) {
      assert page[i] in page && page[j] in page;
      BeforeIsPrecedes(q, k, limit, feel, Shown(page[i]), Shown(page[j]));
    }
  }

  /** A row is shown exactly when it is on the page; one left for later comes after all that are. */
  lemma {:induction false} RowOnPage(
      q: Query, k: Keyset, limit: nat, feel: string -> int, rows: seq<Row>, page: seq<Row>, rest: seq<Row>, r: Row)
    requires Asks(q, k, limit, feel) && DistinctHexes(rows) && r in rows && Sorted(k, page + rest)
    requires forall x :: x in page + rest <==> x in rows && k.AfterBoundary(x)
    requires forall x | x in rows :: KeyOfColor(k, feel, Shown(x)) == k.KeyOf(x)
    ensures Shown(r) in Project(page) <==> r in page
    ensures r in page ==> k.AfterBoundary(r)
    ensures r !in page && k.AfterBoundary(r) ==>
              rest != [] && forall c | c in Project(page) :: Precedes(q, feel, c, Shown(r))
  {
    ShownOnce(rows, page, r);
    if r in page { assert r in page + rest; }
    if r !in page && k.AfterBoundary(r) {
      assert r in page + rest;
      var j :| 0 <= j < |rest| && rest[j] == r;
      forall c | c in Project(page) ensures Precedes(q, feel, c, Shown(r)) {
        var i :| 0 <= i < |page| && Project(page)[i] == c;
        assert (page + rest)[i] == page[i] && (page + rest)[|page| + j] == r;
        assert page[i] in page + rest;
        BeforeIsPrecedes(q, k, limit, feel, Shown(page[i]), Shown(r));
      }
    }
  }

  lemma {:induction false} ShownOnce(rows: seq<Row>, page: seq<Row>, r: Row)
    requires DistinctHexes(rows) && r in rows && forall x | x in page :: x in rows
    ensures Shown(r) in Project(page) <==> r in page
  {
    if Shown(r) in Project(page) {
      var i :| 0 <= i < |page| && Project(page)[i] == Shown(r);
      assert page[i] in page && page[i].hex == r.hex;
    }
    if r in page {
      var i :| 0 <= i < |page| && page[i] == r;
      assert Project(page)[i] == Shown(r);
    }
  }
}
