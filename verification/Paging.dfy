/**
 Keyset paging of a collection: the listing query of internal/storage/color_repo.go, the handler
 that mints the next cursor, and a client that follows cursors while rows come and go.
 */
module Paging {
  import opened Text
  import opened Timestamp
  import opened ColorSort
  import opened Hexes
  import Cursor

  // ---- ORDER BY and WHERE ----

  function Insert(k: Keyset, r: Row, s: seq<Row>): seq<Row> {
    if s == [] || k.Before(k.KeyOf(r), k.KeyOf(s[0])) then [r] + s else [s[0]] + Insert(k, r, s[1..])
  }

  /** The rows in listing order. */
  function OrderBy(k: Keyset, rows: seq<Row>): seq<Row> {
    if rows == [] then [] else Insert(k, rows[0], OrderBy(k, rows[1..]))
  }

  function Where(k: Keyset, rows: seq<Row>): (s: seq<Row>)
    ensures forall r :: r in s <==> r in rows && k.AfterBoundary(r)
  {
    if rows == [] then []
    else (if k.AfterBoundary(rows[0]) then [rows[0]] else []) + Where(k, rows[1..])
  }

  datatype RowPage = RowPage(rows: seq<Row>, hasMore: bool)

  /** One extra row is fetched; whether it came is what HasMore reads. */
  function FetchPage(k: Keyset, rows: seq<Row>, limit: nat): RowPage {
    var all := OrderBy(k, Where(k, rows));
    var fetched := if |all| > limit + 1 then all[..limit + 1] else all;
    if |fetched| > limit then RowPage(fetched[..limit], true) else RowPage(fetched, false)
  }

  /** SELECT hex, created_at */
  function Select(rows: seq<Row>): (s: seq<Color>)
    ensures |s| == |rows|
    ensures forall i | 0 <= i < |rows| :: s[i] == Color(rows[i].hex, rows[i].createdAt)
  {
    seq(|rows|, i requires 0 <= i < |rows| => Color(rows[i].hex, rows[i].createdAt))
  }

  /** What a response shows of rows: each time in UTC. */
  function Project(rows: seq<Row>): (s: seq<Color>)
    ensures |s| == |rows|
    ensures forall i | 0 <= i < |rows| :: s[i] == Color(rows[i].hex, UTC(rows[i].createdAt))
  {
    InUTC(Select(rows))
  }

  function InUTC(colors: seq<Color>): (s: seq<Color>)
    ensures |s| == |colors|
    ensures forall i | 0 <= i < |colors| :: s[i] == Color(colors[i].hex, UTC(colors[i].createdAt))
  {
    seq(|colors|, i requires 0 <= i < |colors| => Color(colors[i].hex, UTC(colors[i].createdAt)))
  }

  datatype ColorPage = ColorPage(colors: seq<Color>, hasMore: bool)

  function ListColors(rows: seq<Row>, params: ListColorsParams, feel: string -> int): Result<ColorPage, Error> {
    var p := Normalized(params);
    match KeysetOf(p, feel)
    case Err(e) => Err(e)
    case Ok(k) =>
      var page := FetchPage(k, rows, p.limit);
      Ok(ColorPage(Select(page.rows), page.hasMore))
  }

  // ---- the handler ----

  datatype Query = Query(limit: Option<int>, sort: string, order: string, cursor: string)

  datatype RequestError = BadLimit | BadParam(param: Error) | BadCursor(cursor: Cursor.CursorError)

  /** Every parameter is optional; the cursor is checked against the sort and order asked for. */
  function ParamsOf(q: Query): Result<ListColorsParams, RequestError> {
    var limit := if q.limit.Some? then q.limit.value else DEFAULT_COLOR_LIMIT;
    var sort, order := SortOf(q), OrderOf(q);
    if !(1 <= limit <= MAX_COLOR_LIMIT) then Err(BadLimit)
    else if !IsSort(sort) then Err(BadParam(InvalidSort(sort)))
    else if !IsOrder(order) then Err(BadParam(InvalidOrder(order)))
    else if q.cursor == "" then Ok(ListColorsParams(sort, order, None, limit))
    else
      match Cursor.DecodeCursor(q.cursor, sort, order)
      case Err(e) => Err(BadCursor(e))
      case Ok(after) => Ok(ListColorsParams(sort, order, Some(after), limit))
  }

  /** `nextCursor` is "" on the last page. */
  datatype Response = Response(colors: seq<Color>, limit: int, nextCursor: string)

  predicate AllPrintable(rows: seq<Row>) {
    forall r | r in rows :: IsHex(r.hex) && Valid(r.createdAt)
  }

  function HandleListColors(rows: seq<Row>, q: Query, feel: string -> int): Result<Response, RequestError>
    requires AllPrintable(rows)
  {
    match ParamsOf(q)
    case Err(e) => Err(e)
    case Ok(p) =>
      match ListColors(rows, p, feel)
      case Err(e) => Err(BadParam(e))
      case Ok(page) =>
        var k := KeysetOf(p, feel).value;
        PageIsFromTable(k, rows, p.limit);
        var next :=
          if page.hasMore && |page.colors| > 0
          then Cursor.EncodeCursor(p.sort, p.order, page.colors[|page.colors| - 1])
          else "";
        Ok(Response(InUTC(page.colors), p.limit, next))
  }

  /** listColorsParams: the struct is filled field by field, and the first bad parameter ends it. */
  method FillParams(q: Query) returns (r: Result<ListColorsParams, RequestError>)
    ensures r == ParamsOf(q)
  {
    var params := ListColorsParams(SORT_BY_CREATED_AT, ORDER_DESC, None, 0);
    var limit := if q.limit.Some? then q.limit.value else DEFAULT_COLOR_LIMIT;
    if limit < 1 || limit > MAX_COLOR_LIMIT { return Err(BadLimit); }
    params := params.(limit := limit);
    if q.sort != "" {
      if !IsSort(q.sort) { return Err(BadParam(InvalidSort(q.sort))); }
      params := params.(sort := q.sort);
    }
    if q.order != "" {
      if !IsOrder(q.order) { return Err(BadParam(InvalidOrder(q.order))); }
      params := params.(order := q.order);
    }
    if q.cursor != "" {
      var after := Cursor.DecodeCursor(q.cursor, params.sort, params.order);
      if after.Err? { return Err(BadCursor(after.error)); }
      params := params.(after := Some(after.value));
    }
    return Ok(params);
  }

  /** Parameters that pass are ones the listing query takes as they are, with no default left to fill in. */
  lemma {:induction false} ParamsAreSound(q: Query, feel: string -> int)
    requires ParamsOf(q).Ok?
    ensures var p := ParamsOf(q).value;
            && 1 <= p.limit <= MAX_COLOR_LIMIT && IsSort(p.sort) && IsOrder(p.order) && Normalized(p) == p
            && (p.after.Some? <==> q.cursor != "") && (p.after.Some? ==> IsHex(p.after.value.hex))
            && KeysetOf(p, feel).Ok? && (KeysetOf(p, feel).value.boundary.Some? <==> q.cursor != "")
  {}

  /** What an empty sort or order stands for. */
  function SortOf(q: Query): string { if q.sort == "" then SORT_BY_CREATED_AT else q.sort }

  function OrderOf(q: Query): string { if q.order == "" then ORDER_DESC else q.order }

  /** Changing sort or order in the middle of a listing is an error, not a wrong page. */
  lemma {:induction false} CursorBindsListing(q: Query, sort: string, order: string, last: Color)
    requires IsSort(sort) && IsOrder(order) && Cursor.Printable(last)
    requires q.cursor == Cursor.EncodeCursor(sort, order, last) && q.cursor != ""
    requires IsSort(SortOf(q)) && IsOrder(OrderOf(q)) && (q.limit.Some? ==> 1 <= q.limit.value <= MAX_COLOR_LIMIT)
    ensures ParamsOf(q).Ok? <==> SortOf(q) == sort && OrderOf(q) == order
    ensures ParamsOf(q).Err? ==> ParamsOf(q).error == BadCursor(Cursor.OtherListing(sort, order))
    ensures ParamsOf(q).Ok? ==> ParamsOf(q).value.after.value.hex == last.hex
  {
    Cursor.CursorRoundTrip(sort, order, last, SortOf(q), OrderOf(q));
  }

  /** The loop of HandleListColors: each row is appended with its time in UTC. */
  method AppendRows(colors: seq<Color>) returns (out: seq<Color>)
    ensures out == InUTC(colors)
  {
    out := [];
    for i := 0 to |colors|
      invariant out == InUTC(colors)[..i]
    {
      out := out + [Color(colors[i].hex, UTC(colors[i].createdAt))];
    }
  }

  /** HandleListColors: the rows are appended, then the cursor is minted from the last one as it was stored. */
  method ServeColors(rows: seq<Row>, q: Query, feel: string -> int) returns (r: Result<Response, RequestError>)
    requires AllPrintable(rows)
    ensures r == HandleListColors(rows, q, feel)
  {
    var params := FillParams(q);
    if params.Err? { return Err(params.error); }
    var p := params.value;
    var listed := ListColors(rows, p, feel);
    if listed.Err? { return Err(BadParam(listed.error)); }
    var page := listed.value;
    PageIsFromTable(KeysetOf(p, feel).value, rows, p.limit);
    var colors := AppendRows(page.colors);
    var next := "";
    if page.hasMore && |page.colors| > 0 {
      next := Cursor.EncodeCursor(p.sort, p.order, page.colors[|page.colors| - 1]);
    }
    return Ok(Response(colors, p.limit, next));
  }

  // ---- the listing query, described without its algorithm ----

  ghost predicate Sorted(k: Keyset, s: seq<Row>) {
    forall i, j | 0 <= i < j < |s| :: k.Before(k.KeyOf(s[i]), k.KeyOf(s[j]))
  }

  /** The primary key: one row a hex. */
  ghost predicate DistinctHexes(rows: seq<Row>) {
    forall i, j | 0 <= i < j < |rows| :: rows[i].hex != rows[j].hex
  }

  lemma {:induction false} InsertKeeps(k: Keyset, r: Row, s: seq<Row>)
    requires Sorted(k, s) && forall x | x in s :: x.hex != r.hex
    ensures Sorted(k, Insert(k, r, s))
    ensures forall x :: x in Insert(k, r, s) <==> x == r || x in s
    ensures |Insert(k, r, s)| == |s| + 1
  {
    if s != [] {
      KeyTrichotomy(k.KeyOf(r), k.KeyOf(s[0]));
      if k.Before(k.KeyOf(r), k.KeyOf(s[0])) {
        forall j | 0 <= j < |s| ensures k.Before(k.KeyOf(r), k.KeyOf(s[j])) {
          if j > 0 { BeforeTransitive(k, k.KeyOf(r), k.KeyOf(s[0]), k.KeyOf(s[j])); }
        }
      } else {
        InsertKeeps(k, r, s[1..]);
        var rest := Insert(k, r, s[1..]);
        forall j | 0 <= j < |rest| ensures k.Before(k.KeyOf(s[0]), k.KeyOf(rest[j])) {
          assert rest[j] in rest;
        }
      }
    }
  }

  lemma {:induction false} OrderBySorts(k: Keyset, rows: seq<Row>)
    requires DistinctHexes(rows)
    ensures Sorted(k, OrderBy(k, rows))
    ensures forall x :: x in OrderBy(k, rows) <==> x in rows
    ensures |OrderBy(k, rows)| == |rows|
  {
    if rows != [] {
      OrderBySorts(k, rows[1..]);
      InsertKeeps(k, rows[0], OrderBy(k, rows[1..]));
    }
  }

  lemma {:induction false} WhereKeepsDistinct(k: Keyset, rows: seq<Row>)
    requires DistinctHexes(rows)
    ensures DistinctHexes(Where(k, rows))
  {
    if rows != [] {
      var rest := Where(k, rows[1..]);
      WhereKeepsDistinct(k, rows[1..]);
      forall j | 0 <= j < |rest| ensures rest[j].hex != rows[0].hex {
        assert rest[j] in rows[1..];
      }
    }
  }

  lemma {:induction false} TailMembers(k: Keyset, s: seq<Row>, x: Row)
    requires Sorted(k, s) && s != []
    ensures x in s[1..] <==> x in s && x != s[0]
  {
    KeyTrichotomy(k.KeyOf(x), k.KeyOf(x));
    if x in s[1..] {
      var i :| 1 <= i < |s| && s[i] == x;
      assert k.Before(k.KeyOf(s[0]), k.KeyOf(s[i]));
    }
  }

  lemma {:induction false} EmptyOrNot(s: seq<Row>)
    ensures s == [] || exists x :: x in s
  {
    if s != [] { assert s[0] in s; }
  }

  /** A listing order lists a set of rows in one way only. */
  lemma {:induction false} SortedUnique(k: Keyset, a: seq<Row>, b: seq<Row>)
    requires Sorted(k, a) && Sorted(k, b) && forall x :: x in a <==> x in b
    ensures a == b
  {
    if a == [] {
      EmptyOrNot(b);
    } else {
      assert a[0] in b;
      assert b[0] in a;
      FirstIsFirst(k, a, b);
      forall x ensures x in a[1..] <==> x in b[1..] {
        TailMembers(k, a, x);
        TailMembers(k, b, x);
      }
      SortedUnique(k, a[1..], b[1..]);
    }
  }

  lemma {:induction false} FirstIsFirst(k: Keyset, a: seq<Row>, b: seq<Row>)
    requires Sorted(k, a) && Sorted(k, b) && a != [] && b != [] && a[0] in b && b[0] in a
    ensures a[0] == b[0]
  {
    var i :| 0 <= i < |b| && b[i] == a[0];
    var j :| 0 <= j < |a| && a[j] == b[0];
    FirstIsBefore(k, b, i);
    FirstIsBefore(k, a, j);
    KeyTrichotomy(k.KeyOf(a[0]), k.KeyOf(b[0]));
  }

  lemma {:induction false} FirstIsBefore(k: Keyset, s: seq<Row>, i: nat)
    requires Sorted(k, s) && i < |s|
    ensures i == 0 || k.Before(k.KeyOf(s[0]), k.KeyOf(s[i]))
  {}

  /** The whole listing after the boundary. */
  function Listing(k: Keyset, rows: seq<Row>): seq<Row> {
    OrderBy(k, Where(k, rows))
  }

  lemma {:induction false} ListingIs(k: Keyset, rows: seq<Row>)
    requires DistinctHexes(rows)
    ensures Sorted(k, Listing(k, rows))
    ensures forall r :: r in Listing(k, rows) <==> r in rows && k.AfterBoundary(r)
  {
    WhereKeepsDistinct(k, rows);
    OrderBySorts(k, Where(k, rows));
  }

  lemma {:induction false} InsertMembers(k: Keyset, r: Row, s: seq<Row>)
    ensures forall x :: x in Insert(k, r, s) <==> x == r || x in s
  {
    if s != [] && !k.Before(k.KeyOf(r), k.KeyOf(s[0])) {
      InsertMembers(k, r, s[1..]);
    }
  }

  lemma {:induction false} OrderByMembers(k: Keyset, rows: seq<Row>)
    ensures forall x :: x in OrderBy(k, rows) <==> x in rows
  {
    if rows != [] {
      OrderByMembers(k, rows[1..]);
      InsertMembers(k, rows[0], OrderBy(k, rows[1..]));
    }
  }

  lemma {:induction false} PageIsFromTable(k: Keyset, rows: seq<Row>, limit: nat)
    ensures forall r | r in FetchPage(k, rows, limit).rows :: r in rows
  {
    OrderByMembers(k, Where(k, rows));
  }

  // ---- a client following cursors ----

  /** The pages a client got, and whether the last one came without a cursor. */
  datatype Walk<T> = Walk(pages: seq<seq<T>>, done: bool)

  function Flat<T>(pages: seq<seq<T>>): seq<T> {
    if pages == [] then [] else pages[0] + Flat(pages[1..])
  }

  /** Page i is read from `tables[i]`, the collection as it stands at that request. */
  function Follow(tables: seq<seq<Row>>, q: Query, feel: string -> int): Walk<Color>
    requires forall t | t in tables :: AllPrintable(t)
  {
    if tables == [] then Walk([], false)
    else
      match HandleListColors(tables[0], q, feel)
      case Err(_) => Walk([], false)
      case Ok(resp) =>
        if resp.nextCursor == "" then Walk([resp.colors], true)
        else
          var rest := Follow(tables[1..], q.(cursor := resp.nextCursor), feel);
          Walk([resp.colors] + rest.pages, rest.done)
  }

  /** The keyset of the page after `page`. */
  function Next(k: Keyset, page: seq<Row>): Keyset
    requires page != []
  {
    k.(boundary := Some(k.KeyOf(page[|page| - 1])))
  }

  /** The same walk on rows and keys, with no cursor text in between. */
  function FollowRows(tables: seq<seq<Row>>, k: Keyset, limit: nat): Walk<Row>
    requires limit >= 1
  {
    if tables == [] then Walk([], false)
    else
      var page := FetchPage(k, tables[0], limit);
      if !page.hasMore then Walk([page.rows], true)
      else
        var rest := FollowRows(tables[1..], Next(k, page.rows), limit);
        Walk([page.rows] + rest.pages, rest.done)
  }

  // ---- any number of rows added and deleted between the pages ----

  lemma {:induction false} FlatCons<T>(page: seq<T>, pages: seq<seq<T>>)
    ensures Flat([page] + pages) == page + Flat(pages)
  {
    assert ([page] + pages)[1..] == pages;
  }

  /** A page is a prefix of the listing; what it leaves out comes after its last row. */
  lemma {:induction false} PageSplitsListing(k: Keyset, rows: seq<Row>, limit: nat)
    requires DistinctHexes(rows) && limit >= 1
    ensures var page := FetchPage(k, rows, limit);
            var all := Listing(k, rows);
            && page.hasMore == (|all| > limit)
            && page.rows == (if page.hasMore then all[..limit] else all)
            && Sorted(k, page.rows)
            && (forall r | r in page.rows :: r in rows && k.AfterBoundary(r))
  {
    ListingIs(k, rows);
  }

  /** The page and what the listing holds behind it. */
  lemma {:induction false} PageSplits(k: Keyset, rows: seq<Row>, limit: nat) returns (page: seq<Row>, rest: seq<Row>)
    requires DistinctHexes(rows) && limit >= 1
    ensures FetchPage(k, rows, limit) == RowPage(page, rest != []) && Listing(k, rows) == page + rest
    ensures Sorted(k, page + rest) && (rest != [] ==> |page| == limit)
    ensures forall r :: r in page + rest <==> r in rows && k.AfterBoundary(r)
  {
    var all := Listing(k, rows);
    PageSplitsListing(k, rows, limit);
    ListingIs(k, rows);
    page := FetchPage(k, rows, limit).rows;
    rest := all[|page|..];
    assert all == page + rest;
  }

  lemma {:induction false} BehindLast(k: Keyset, page: seq<Row>, rest: seq<Row>, r: Row)
    requires page != [] && Sorted(k, page + rest) && r in rest
    ensures k.Before(k.KeyOf(page[|page| - 1]), k.KeyOf(r))
  {
    var i :| 0 <= i < |rest| && rest[i] == r;
    var all := page + rest;
    assert all[|page| - 1] == page[|page| - 1] && all[|page| + i] == r;
  }

  lemma {:induction false} UpToLast(k: Keyset, page: seq<Row>, r: Row)
    requires page != [] && Sorted(k, page) && r in page
    ensures !k.Before(k.KeyOf(page[|page| - 1]), k.KeyOf(r))
  {
    var i :| 0 <= i < |page| && page[i] == r;
    KeyTrichotomy(k.KeyOf(page[|page| - 1]), k.KeyOf(r));
    assert i == |page| - 1 || k.Before(k.KeyOf(page[i]), k.KeyOf(page[|page| - 1]));
  }

  /** The key of the last row of a page separates the page from the rest of its listing. */
  lemma {:induction false} BoundaryCuts(k: Keyset, page: seq<Row>, rest: seq<Row>, r: Row)
    requires page != [] && Sorted(k, page + rest) && r in page + rest
    ensures r in rest <==> k.Before(k.KeyOf(page[|page| - 1]), k.KeyOf(r))
    ensures r in page <==> r !in rest
  {
    PrefixSorted(k, page, rest);
    if r in page { UpToLast(k, page, r); }
    if r in rest { BehindLast(k, page, rest, r); }
  }

  lemma {:induction false} PrefixSorted(k: Keyset, page: seq<Row>, rest: seq<Row>)
    requires Sorted(k, page + rest)
    ensures Sorted(k, page) && Sorted(k, rest)
  {
    var all := page + rest;
    assert forall i | 0 <= i < |page| :: all[i] == page[i];
    forall i, j | 0 <= i < j < |rest| ensures k.Before(k.KeyOf(rest[i]), k.KeyOf(rest[j])) {
      assert all[|page| + i] == rest[i] && all[|page| + j] == rest[j];
    }
  }

  lemma {:induction false} SortedAppend(k: Keyset, a: seq<Row>, b: seq<Row>)
    requires Sorted(k, a) && Sorted(k, b) && a != []
    requires forall r | r in b :: k.Before(k.KeyOf(a[|a| - 1]), k.KeyOf(r))
    ensures Sorted(k, a + b)
  {
    var s := a + b;
    forall i, j | 0 <= i < j < |s| ensures k.Before(k.KeyOf(s[i]), k.KeyOf(s[j])) {
      if i < |a| <= j {
        assert s[j] in b;
        if i < |a| - 1 { BeforeTransitive(k, k.KeyOf(s[i]), k.KeyOf(a[|a| - 1]), k.KeyOf(s[j])); }
      }
    }
  }

  /** What is ahead of the next page was ahead of this one. */
  lemma {:induction false} WasAhead(k: Keyset, page: seq<Row>, r: Row)
    requires page != [] && k.AfterBoundary(page[|page| - 1]) && Next(k, page).AfterBoundary(r)
    ensures k.Before(k.KeyOf(page[|page| - 1]), k.KeyOf(r)) && k.AfterBoundary(r)
  {
    var last := page[|page| - 1];
    if k.boundary.Some? { BeforeTransitive(k, k.boundary.value, k.KeyOf(last), k.KeyOf(r)); }
  }

  /** A page and what came after its boundary. */
  lemma {:induction false} PagesJoin(k: Keyset, page: seq<Row>, got: seq<Row>)
    requires page != [] && Sorted(k, page) && forall r | r in page :: k.AfterBoundary(r)
    requires Sorted(Next(k, page), got) && forall r | r in got :: Next(k, page).AfterBoundary(r)
    ensures Sorted(k, page + got) && forall r | r in page + got :: k.AfterBoundary(r)
  {
    var last := page[|page| - 1];
    var next := Next(k, page);
    assert Sorted(k, got) by {
      forall i, j | 0 <= i < j < |got| ensures k.Before(k.KeyOf(got[i]), k.KeyOf(got[j])) {
        assert next.Before(next.KeyOf(got[i]), next.KeyOf(got[j]));
      }
    }
    assert last in page && k.AfterBoundary(last);
    forall r | r in got ensures k.Before(k.KeyOf(last), k.KeyOf(r)) && k.AfterBoundary(r) {
      WasAhead(k, page, r);
    }
    SortedAppend(k, page, got);
  }

  /** Whatever happens between the pages, the rows come in listing order and from the boundary on. */
  lemma {:induction false} RowsComeInOrder(tables: seq<seq<Row>>, k: Keyset, limit: nat)
    requires limit >= 1 && forall i | 0 <= i < |tables| :: DistinctHexes(tables[i])
    ensures var got := Flat(FollowRows(tables, k, limit).pages);
            Sorted(k, got) && forall r | r in got :: k.AfterBoundary(r)
  {
    if tables != [] {
      var page := FetchPage(k, tables[0], limit);
      PageSplitsListing(k, tables[0], limit);
      if page.hasMore {
        var rest := FollowRows(tables[1..], Next(k, page.rows), limit);
        RowsComeInOrder(tables[1..], Next(k, page.rows), limit);
        FlatCons(page.rows, rest.pages);
        PagesJoin(k, page.rows, Flat(rest.pages));
      } else {
        FlatCons(page.rows, []);
      }
    }
  }

  /** A row of the table that a page leaves out is still ahead of the next page. */
  lemma {:induction false} LeftOutIsAhead(k: Keyset, rows: seq<Row>, limit: nat, r: Row)
    requires DistinctHexes(rows) && limit >= 1 && r in rows && k.AfterBoundary(r)
    ensures var page := FetchPage(k, rows, limit);
            r in page.rows || (page.hasMore && Next(k, page.rows).AfterBoundary(r))
  {
    var page, rest := PageSplits(k, rows, limit);
    if r !in page { LeftOver(k, page, rest, r); }
  }

  lemma {:induction false} LeftOver(k: Keyset, page: seq<Row>, rest: seq<Row>, r: Row)
    requires Sorted(k, page + rest) && r in page + rest && r !in page && (rest != [] ==> page != [])
    ensures rest != [] && Next(k, page).AfterBoundary(r)
  {
    assert r in rest;
    BehindLast(k, page, rest, r);
  }

  /** A row that is there at every request of a finished walk is among the rows returned. */
  lemma {:induction false} StayingRowsCome(tables: seq<seq<Row>>, k: Keyset, limit: nat, r: Row)
    requires limit >= 1 && forall i | 0 <= i < |tables| :: DistinctHexes(tables[i])
    requires FollowRows(tables, k, limit).done && k.AfterBoundary(r)
    requires forall i | 0 <= i < |FollowRows(tables, k, limit).pages| && i < |tables| :: r in tables[i]
    ensures r in Flat(FollowRows(tables, k, limit).pages)
  {
    var page := FetchPage(k, tables[0], limit);
    LeftOutIsAhead(k, tables[0], limit, r);
    if page.hasMore {
      PageSplitsListing(k, tables[0], limit);
      var rest := FollowRows(tables[1..], Next(k, page.rows), limit);
      FlatCons(page.rows, rest.pages);
      if r !in page.rows {
        forall i | 0 <= i < |rest.pages| && i < |tables[1..]| ensures r in tables[1..][i] {
          assert r in tables[i + 1];
        }
        StayingRowsCome(tables[1..], Next(k, page.rows), limit, r);
      }
    } else {
      FlatCons(page.rows, []);
    }
  }

  // ---- an unchanging collection ----

  /** `s` cut every `n` elements; one empty chunk for nothing. */
  function Chunks<T>(s: seq<T>, n: nat): (cs: seq<seq<T>>)
    requires n >= 1
    ensures cs != []
  {
    if |s| <= n then [s] else [s[..n]] + Chunks(s[n..], n)
  }

  /**
   The chunks put together are `s`, all but the last have `n` elements, and their number is `|s| / n`
   rounded up, one for nothing.
   */
  lemma {:induction false} ChunksAre<T>(s: seq<T>, n: nat)
    requires n >= 1
    ensures Flat(Chunks(s, n)) == s
    ensures s == [] ==> |Chunks(s, n)| == 1
    ensures s != [] ==> (|Chunks(s, n)| - 1) * n < |s| <= |Chunks(s, n)| * n
    ensures forall i | 0 <= i < |Chunks(s, n)| - 1 :: |Chunks(s, n)[i]| == n
  {
    if |s| <= n {
      FlatCons(s, []);
    } else {
      var m := |Chunks(s[n..], n)|;
      ChunksAre(s[n..], n);
      FlatCons(s[..n], Chunks(s[n..], n));
      OneChunkMore(m, n, |s| - n);
    }
  }

  lemma OneChunkMore(m: nat, n: nat, rest: nat)
    requires m >= 1 && (m - 1) * n < rest <= m * n
    ensures m * n < rest + n <= (m + 1) * n
  {}

  /** What is ahead of the next page is what this one left out. */
  lemma {:induction false} RestIsAhead(k: Keyset, page: seq<Row>, rest: seq<Row>, rows: seq<Row>, r: Row)
    requires page != [] && Sorted(k, page + rest)
    requires forall x :: x in page + rest <==> x in rows && k.AfterBoundary(x)
    ensures r in rows && Next(k, page).AfterBoundary(r) <==> r in rest
  {
    if r in rows && Next(k, page).AfterBoundary(r) {
      assert page[|page| - 1] in page + rest;
      WasAhead(k, page, r);
      BoundaryCuts(k, page, rest, r);
    } else if r in rest {
      BoundaryCuts(k, page, rest, r);
    }
  }

  lemma {:induction false} RestIsListing(k: Keyset, page: seq<Row>, rest: seq<Row>, rows: seq<Row>)
    requires page != [] && Sorted(k, page + rest) && DistinctHexes(rows)
    requires forall x :: x in page + rest <==> x in rows && k.AfterBoundary(x)
    ensures Listing(Next(k, page), rows) == rest
  {
    var next := Next(k, page);
    PrefixSorted(k, page, rest);
    SameOrder(k, next, rest);
    ListingIs(next, rows);
    forall r ensures r in Listing(next, rows) <==> r in rest {
      RestIsAhead(k, page, rest, rows, r);
    }
    SortedUnique(next, Listing(next, rows), rest);
  }

  /** The boundary has no say in the order. */
  lemma {:induction false} SameOrder(k: Keyset, next: Keyset, s: seq<Row>)
    requires Sorted(k, s) && next == k.(boundary := next.boundary)
    ensures Sorted(next, s)
  {
    forall i, j | 0 <= i < j < |s| ensures next.Before(next.KeyOf(s[i]), next.KeyOf(s[j])) {
      assert k.Before(k.KeyOf(s[i]), k.KeyOf(s[j]));
    }
  }

  /** The listing behind the boundary of a page is the rest of the listing. */
  lemma {:induction false} RestOfListing(k: Keyset, rows: seq<Row>, limit: nat)
    requires DistinctHexes(rows) && limit >= 1 && FetchPage(k, rows, limit).hasMore
    ensures Listing(Next(k, FetchPage(k, rows, limit).rows), rows) == Listing(k, rows)[limit..]
  {
    var page, rest := PageSplits(k, rows, limit);
    RestIsListing(k, page, rest, rows);
    assert (page + rest)[limit..] == rest;
  }

  /** On a collection that does not change, the pages are the listing cut every `limit` rows. */
  lemma {:induction false} RowsComeInChunks(tables: seq<seq<Row>>, rows: seq<Row>, k: Keyset, limit: nat)
    requires limit >= 1 && DistinctHexes(rows) && forall i | 0 <= i < |tables| :: tables[i] == rows
    requires |tables| >= |Chunks(Listing(k, rows), limit)|
    ensures FollowRows(tables, k, limit) == Walk(Chunks(Listing(k, rows), limit), true)
    decreases |tables|
  {
    var page := FetchPage(k, rows, limit);
    PageSplitsListing(k, rows, limit);
    if page.hasMore {
      RestOfListing(k, rows, limit);
      var next := Next(k, page.rows);
      RowsComeInChunks(tables[1..], rows, next, limit);
    }
  }

  // ---- from cursor text to keys ----

  /** Rows as the store keeps them and pgx returns them, for a listing by `sort`. */
  ghost predicate Stored(rows: seq<Row>, sort: string, feel: string -> int) {
    && DistinctHexes(rows)
    && AllPrintable(rows)
    && (forall r | r in rows :: r.colorKey == feel(r.hex))
    && (sort == SORT_BY_CREATED_AT ==> forall r | r in rows :: r.createdAt.offset % 60 == 0)
  }

  /** The query `q` asks for the listing `k` in pages of `limit`. */
  ghost predicate Asks(q: Query, k: Keyset, limit: nat, feel: string -> int) {
    && ParamsOf(q).Ok?
    && KeysetOf(ParamsOf(q).value, feel) == Ok(k)
    && ParamsOf(q).value.limit == limit && 1 <= limit <= MAX_COLOR_LIMIT
    && IsSort(k.sort)
  }

  lemma {:induction false} EncodedIsNotEmpty(sort: string, order: string, last: Color)
    requires IsSort(sort) && IsOrder(order) && Cursor.Printable(last)
    ensures Cursor.EncodeCursor(sort, order, last) != ""
  {
    assert |Cursor.Fields(sort, order, last)[0]| > 0;
  }

  /** A minted cursor adds its boundary to the parameters it was minted under. */
  lemma {:induction false} CursorParams(q: Query, p: ListColorsParams, token: string, last: Color)
    requires ParamsOf(q) == Ok(p) && Cursor.Printable(last)
    requires token == Cursor.EncodeCursor(p.sort, p.order, last)
    ensures var r := Cursor.DecodeCursor(token, p.sort, p.order);
            && r.Ok? && r.value.hex == last.hex
            && (p.sort == SORT_BY_CREATED_AT && last.createdAt.offset % 60 == 0 ==>
                  Instant(r.value.createdAt) == Instant(last.createdAt))
            && ParamsOf(q.(cursor := token)) == Ok(p.(after := Some(r.value)))
  {
    EncodedIsNotEmpty(p.sort, p.order, last);
    Cursor.CursorRoundTrip(p.sort, p.order, last, p.sort, p.order);
  }

  /** The cursor minted from the last row of a page asks for the page after it. */
  lemma {:induction false} CursorAsksForNext(
      q: Query, p: ListColorsParams, k: Keyset, limit: nat, last: Row, token: string, feel: string -> int)
    requires Asks(q, k, limit, feel) && ParamsOf(q) == Ok(p) && IsHex(last.hex) && Valid(last.createdAt)
    requires last.colorKey == feel(last.hex) && (k.sort == SORT_BY_CREATED_AT ==> last.createdAt.offset % 60 == 0)
    requires token == Cursor.EncodeCursor(p.sort, p.order, Color(last.hex, last.createdAt))
    ensures Asks(q.(cursor := token), k.(boundary := Some(k.KeyOf(last))), limit, feel)
  {
    CursorParams(q, p, token, Color(last.hex, last.createdAt));
  }

  /** One request: the page of the listing, and a cursor exactly when there is more. */
  lemma {:induction false} HandlerReturnsPage(rows: seq<Row>, q: Query, k: Keyset, limit: nat, feel: string -> int)
    requires Stored(rows, k.sort, feel) && Asks(q, k, limit, feel)
    ensures var page := FetchPage(k, rows, limit);
            var r := HandleListColors(rows, q, feel);
            && r.Ok? && r.value.colors == Project(page.rows) && r.value.limit == limit
            && (r.value.nextCursor != "" <==> page.hasMore)
            && (page.hasMore ==> Asks(q.(cursor := r.value.nextCursor), Next(k, page.rows), limit, feel))
  {
    var p := ParamsOf(q).value;
    assert Normalized(p) == p;
    PageIsFromTable(k, rows, limit);
    if FetchPage(k, rows, limit).hasMore { MoreAsksForNext(rows, q, k, limit, feel, p); }
  }

  lemma {:induction false} MoreAsksForNext(
      rows: seq<Row>, q: Query, k: Keyset, limit: nat, feel: string -> int, p: ListColorsParams)
    requires Stored(rows, k.sort, feel) && Asks(q, k, limit, feel) && FetchPage(k, rows, limit).hasMore
    requires ParamsOf(q) == Ok(p)
    ensures var page := FetchPage(k, rows, limit).rows;
            && page != [] && page[|page| - 1] in rows
            && var last := Color(page[|page| - 1].hex, page[|page| - 1].createdAt);
            && Cursor.EncodeCursor(p.sort, p.order, last) != ""
            && Asks(q.(cursor := Cursor.EncodeCursor(p.sort, p.order, last)), Next(k, page), limit, feel)
  {
    PageIsFromTable(k, rows, limit);
    var page := FetchPage(k, rows, limit).rows;
    var last := page[|page| - 1];
    assert last in page;
    EncodedIsNotEmpty(p.sort, p.order, Color(last.hex, last.createdAt));
    CursorAsksForNext(
      q, p, k, limit, last, Cursor.EncodeCursor(p.sort, p.order, Color(last.hex, last.createdAt)), feel);
  }

  function ProjectAll(pages: seq<seq<Row>>): (s: seq<seq<Color>>)
    ensures |s| == |pages|
  {
    if pages == [] then [] else [Project(pages[0])] + ProjectAll(pages[1..])
  }

  /** Following cursor text is following keys. */
  lemma {:induction false} FollowIsByKey(tables: seq<seq<Row>>, q: Query, k: Keyset, limit: nat, feel: string -> int)
    requires forall t | t in tables :: AllPrintable(t)
    requires forall i | 0 <= i < |tables| :: Stored(tables[i], k.sort, feel)
    requires Asks(q, k, limit, feel)
    ensures var w := FollowRows(tables, k, limit);
            Follow(tables, q, feel) == Walk(ProjectAll(w.pages), w.done)
    decreases |tables|
  {
    if tables != [] {
      var page := FetchPage(k, tables[0], limit);
      HandlerReturnsPage(tables[0], q, k, limit, feel);
      if page.hasMore {
        var r := HandleListColors(tables[0], q, feel).value;
        var next := Next(k, page.rows);
        FollowIsByKey(tables[1..], q.(cursor := r.nextCursor), next, limit, feel);
        var rest := FollowRows(tables[1..], next, limit);
        assert ([page.rows] + rest.pages)[1..] == rest.pages;
      }
    }
  }

  // ---- what a client sees ----

  /** The ordering key of a returned color. */
  function KeyOfColor(k: Keyset, feel: string -> int, c: Color): Key {
    k.KeyOf(Row(c.hex, c.createdAt, feel(c.hex)))
  }

  lemma {:induction false} ProjectAppend(a: seq<Row>, b: seq<Row>)
    ensures Project(a + b) == Project(a) + Project(b)
  {}

  lemma {:induction false} FlatOfProjected(pages: seq<seq<Row>>)
    ensures Flat(ProjectAll(pages)) == Project(Flat(pages))
  {
    if pages != [] {
      FlatOfProjected(pages[1..]);
      ProjectAppend(pages[0], Flat(pages[1..]));
      assert ProjectAll(pages)[1..] == ProjectAll(pages[1..]);
    }
  }

  lemma {:induction false} RowsComeFromTables(tables: seq<seq<Row>>, k: Keyset, limit: nat, r: Row)
    requires limit >= 1 && r in Flat(FollowRows(tables, k, limit).pages)
    ensures exists i :: 0 <= i < |tables| && r in tables[i]
  {
    if tables != [] {
      var page := FetchPage(k, tables[0], limit);
      PageIsFromTable(k, tables[0], limit);
      if page.hasMore {
        var rest := FollowRows(tables[1..], Next(k, page.rows), limit);
        FlatCons(page.rows, rest.pages);
        if r !in page.rows {
          RowsComeFromTables(tables[1..], Next(k, page.rows), limit, r);
          var i :| 0 <= i < |tables[1..]| && r in tables[1..][i];
          assert r in tables[i + 1];
        }
      } else {
        FlatCons(page.rows, []);
      }
    }
  }

  /**
   Rows may be added and deleted between any two requests: the colors still come in strictly
   increasing listing order over all pages, so no key comes twice. Under the hex and color sorts
   that means no hex comes twice.
   */
  lemma {:induction false} TraversalIsMonotone(
      tables: seq<seq<Row>>, q: Query, k: Keyset, limit: nat, feel: string -> int)
    requires forall t | t in tables :: AllPrintable(t)
    requires forall i | 0 <= i < |tables| :: Stored(tables[i], k.sort, feel)
    requires Asks(q, k, limit, feel)
    ensures var got := Flat(Follow(tables, q, feel).pages);
            && (forall i, j | 0 <= i < j < |got| ::
                  k.Before(KeyOfColor(k, feel, got[i]), KeyOfColor(k, feel, got[j])))
            && (k.sort != SORT_BY_CREATED_AT ==> forall i, j | 0 <= i < j < |got| :: got[i].hex != got[j].hex)
  {
    var rows := Flat(FollowRows(tables, k, limit).pages);
    var got := Flat(Follow(tables, q, feel).pages);
    FollowIsByKey(tables, q, k, limit, feel);
    FlatOfProjected(FollowRows(tables, k, limit).pages);
    RowsComeInOrder(tables, k, limit);
    forall i | 0 <= i < |got| ensures KeyOfColor(k, feel, got[i]) == k.KeyOf(rows[i]) {
      RowsComeFromTables(tables, k, limit, rows[i]);
      UTCKeepsInstant(rows[i].createdAt);
    }
    forall i, j | 0 <= i < j < |got|
      ensures k.Before(KeyOfColor(k, feel, got[i]), KeyOfColor(k, feel, got[j]))
      ensures KeyOfColor(k, feel, got[i]) != KeyOfColor(k, feel, got[j])
    {
      assert k.Before(k.KeyOf(rows[i]), k.KeyOf(rows[j]));
      KeyTrichotomy(k.KeyOf(rows[i]), k.KeyOf(rows[j]));
    }
  }

  /**
   A row that is in the collection at every request of a finished traversal is returned exactly
   once, whatever happens to the other rows.
   */
  lemma {:induction false} TraversalIsComplete(
      tables: seq<seq<Row>>, q: Query, k: Keyset, limit: nat, feel: string -> int, r: Row)
    requires forall t | t in tables :: AllPrintable(t)
    requires forall i | 0 <= i < |tables| :: Stored(tables[i], k.sort, feel)
    requires Asks(q, k, limit, feel) && k.boundary.None? && Follow(tables, q, feel).done
    requires forall i | 0 <= i < |Follow(tables, q, feel).pages| && i < |tables| :: r in tables[i]
    ensures var got := Flat(Follow(tables, q, feel).pages);
            exists i :: 0 <= i < |got| && got[i] == Color(r.hex, UTC(r.createdAt))
                        && forall j | 0 <= j < |got| && got[j] == got[i] :: j == i
  {
    var got := Flat(Follow(tables, q, feel).pages);
    FollowIsByKey(tables, q, k, limit, feel);
    FlatOfProjected(FollowRows(tables, k, limit).pages);
    StayingRowsCome(tables, k, limit, r);
    TraversalIsMonotone(tables, q, k, limit, feel);
    var rows := Flat(FollowRows(tables, k, limit).pages);
    var i :| 0 <= i < |rows| && rows[i] == r;
    OnlyOnce(k, feel, got, i);
  }

  lemma {:induction false} OnlyOnce(k: Keyset, feel: string -> int, got: seq<Color>, i: nat)
    requires i < |got|
    requires forall a, b | 0 <= a < b < |got| :: k.Before(KeyOfColor(k, feel, got[a]), KeyOfColor(k, feel, got[b]))
    ensures forall j | 0 <= j < |got| && got[j] == got[i] :: j == i
  {
    forall j | 0 <= j < |got| && got[j] == got[i] ensures j == i {
      var a, b := KeyOfColor(k, feel, got[i]), KeyOfColor(k, feel, got[j]);
      KeyTrichotomy(a, b);
      assert i < j ==> k.Before(a, b);
      assert j < i ==> k.Before(b, a);
    }
  }

  lemma {:induction false} ProjectedChunks(s: seq<Row>, n: nat)
    requires n >= 1
    ensures ProjectAll(Chunks(s, n)) == Chunks(Project(s), n)
  {
    if |s| > n {
      ProjectedChunks(s[n..], n);
      assert Project(s)[..n] == Project(s[..n]) && Project(s)[n..] == Project(s[n..]);
      assert ([s[..n]] + Chunks(s[n..], n))[1..] == Chunks(s[n..], n);
    }
  }

  lemma {:induction false} NoBoundaryNoFilter(k: Keyset, rows: seq<Row>)
    requires k.boundary.None?
    ensures Where(k, rows) == rows
  {
    if rows != [] { NoBoundaryNoFilter(k, rows[1..]); }
  }

  lemma {:induction false} TimesMonotone(a: int, b: int, n: nat)
    ensures a <= b ==> a * n <= b * n
  {}

  lemma {:induction false} EnoughPages(have: nat, need: nat, limit: nat, n: nat)
    requires limit >= 1 && have >= 1 && have * limit >= n
    requires (n == 0 && need == 1) || (need - 1) * limit < n
    ensures have >= need
  {
    TimesMonotone(have, need - 1, limit);
  }

  /**
   On a collection that does not change, following cursors from the first page returns the whole
   sorted listing cut every `limit` colors: as many pages as `n / limit` rounded up, one for an
   empty collection, and no page after them. The cursor of `sort=color` carries no key; that this
   works rests on every stored color_key being the key of its hex.
   */
  lemma {:induction false} TraversalOfUnchanged(
    tables: seq<seq<Row>>, rows: seq<Row>, q: Query, k: Keyset, limit: nat, feel: string -> int)
    requires Stored(rows, k.sort, feel) && forall i | 0 <= i < |tables| :: tables[i] == rows
    requires Asks(q, k, limit, feel) && k.boundary.None? && |tables| * limit >= |rows| && tables != []
    ensures var all := Project(OrderBy(k, rows));
            && Follow(tables, q, feel) == Walk(Chunks(all, limit), true)
            && Flat(Chunks(all, limit)) == all && |all| == |rows|
            && (rows == [] ==> |Chunks(all, limit)| == 1)
            && (rows != [] ==> (|Chunks(all, limit)| - 1) * limit < |rows| <= |Chunks(all, limit)| * limit)
  {
    ChunkCounts(rows, k, limit);
    UnchangedWalk(tables, rows, q, k, limit, feel, Chunks(Project(OrderBy(k, rows)), limit));
  }

  lemma {:induction false} ChunkCounts(rows: seq<Row>, k: Keyset, limit: nat)
    requires limit >= 1 && DistinctHexes(rows)
    ensures var all := Project(OrderBy(k, rows));
            var n := |Chunks(all, limit)|;
            && Flat(Chunks(all, limit)) == all && |all| == |rows|
            && (rows == [] ==> n == 1) && (rows != [] ==> (n - 1) * limit < |rows| <= n * limit)
  {
    OrderBySorts(k, rows);
    ChunksAre(Project(OrderBy(k, rows)), limit);
  }

  lemma {:induction false} UnchangedWalk(
      tables: seq<seq<Row>>, rows: seq<Row>, q: Query, k: Keyset, limit: nat, feel: string -> int,
      chunks: seq<seq<Color>>)
    requires Stored(rows, k.sort, feel) && forall i | 0 <= i < |tables| :: tables[i] == rows
    requires Asks(q, k, limit, feel) && k.boundary.None? && |tables| * limit >= |rows| && tables != []
    requires chunks == Chunks(Project(OrderBy(k, rows)), limit)
    ensures (forall t | t in tables :: AllPrintable(t)) && Follow(tables, q, feel) == Walk(chunks, true)
  {
    ChunkCounts(rows, k, limit);
    EnoughPages(|tables|, |chunks|, limit, |rows|);
    WholeListing(tables, rows, k, limit);
    SameSnapshots(tables, rows, k.sort, feel);
    FollowIsByKey(tables, q, k, limit, feel);
  }

  lemma {:induction false} SameSnapshots(tables: seq<seq<Row>>, rows: seq<Row>, sort: string, feel: string -> int)
    requires Stored(rows, sort, feel) && forall i | 0 <= i < |tables| :: tables[i] == rows
    ensures forall t | t in tables :: AllPrintable(t)
    ensures forall i | 0 <= i < |tables| :: Stored(tables[i], sort, feel)
  {}

  lemma {:induction false} WholeListing(tables: seq<seq<Row>>, rows: seq<Row>, k: Keyset, limit: nat)
    requires limit >= 1 && DistinctHexes(rows) && k.boundary.None?
    requires forall i | 0 <= i < |tables| :: tables[i] == rows
    requires |tables| >= |Chunks(Project(OrderBy(k, rows)), limit)|
    ensures var w := FollowRows(tables, k, limit);
            w.done && ProjectAll(w.pages) == Chunks(Project(OrderBy(k, rows)), limit)
  {
    NoBoundaryNoFilter(k, rows);
    ProjectedChunks(OrderBy(k, rows), limit);
    RowsComeInChunks(tables, rows, k, limit);
  }
}
