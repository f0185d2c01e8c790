/**
 When a hex can come twice in one traversal: it is returned, deleted, saved again, and its new row
 sorts after the boundary. No key comes twice (module Paging), so this takes a key that saving again
 changes.
 */
module HexTwice {
  import opened Text
  import opened Timestamp
  import opened ColorSort
  import opened Hexes
  import opened Paging
  import opened Listing

  ghost predicate NoHexTwice(colors: seq<Color>) {
    forall i, j | 0 <= i < j < |colors| :: colors[i].hex != colors[j].hex
  }

  /** The collection as it stands at each request of one traversal. */
  ghost predicate Snapshots(tables: seq<seq<Row>>, sort: string, feel: string -> int) {
    && (forall t | t in tables :: AllPrintable(t))
    && (forall i | 0 <= i < |tables| :: Stored(tables[i], sort, feel))
  }

  /** A color saved again is never older than it was before. */
  ghost predicate TimesGoOn(tables: seq<seq<Row>>) {
    forall i, j, a, b | 0 <= i <= j < |tables| && a in tables[i] && b in tables[j] && a.hex == b.hex ::
      Instant(a.createdAt) <= Instant(b.createdAt)
  }

  /** No traversal of snapshots, of those that go on in time if `monotone`, returns a hex twice. */
  ghost predicate NeverTwice(q: Query, sort: string, feel: string -> int, monotone: bool) {
    forall tables: seq<seq<Row>> | Snapshots(tables, sort, feel) && (monotone ==> TimesGoOn(tables)) ::
      NoHexTwice(Flat(Follow(tables, q, feel).pages))
  }

  // ---- when it cannot ----

  lemma {:induction false} ComesFromOne(tables: seq<seq<Row>>, k: Keyset, limit: nat, r: Row) returns (p: nat)
    requires limit >= 1 && r in Flat(FollowRows(tables, k, limit).pages)
    ensures p < |tables| && r in tables[p]
  {
    RowsComeFromTables(tables, k, limit, r);
    p :| 0 <= p < |tables| && r in tables[p];
  }

  /** What a walk returns, row by row. */
  function Walked(tables: seq<seq<Row>>, k: Keyset, limit: nat): seq<Row>
    requires limit >= 1
  {
    Flat(FollowRows(tables, k, limit).pages)
  }

  /** A walk is its first page and the walk that goes on from there. */
  lemma {:induction false} PageThenRest(tables: seq<seq<Row>>, k: Keyset, limit: nat, page: seq<Row>)
    requires limit >= 1 && tables != [] && page == FetchPage(k, tables[0], limit).rows
    ensures FetchPage(k, tables[0], limit).hasMore ==>
              page != [] && Walked(tables, k, limit) == page + Walked(tables[1..], Next(k, page), limit)
    ensures !FetchPage(k, tables[0], limit).hasMore ==> Walked(tables, k, limit) == page
  {
    if FetchPage(k, tables[0], limit).hasMore {
      FlatCons(page, FollowRows(tables[1..], Next(k, page), limit).pages);
    } else {
      FlatCons(page, []);
      assert [page] + [] == [page] && page + [] == page;
    }
  }

  /** Two rows of a walk are from these two snapshots, in this order. */
  ghost predicate InOrder(tables: seq<seq<Row>>, walked: seq<Row>, i: nat, j: nat, p: nat, p': nat) {
    p <= p' < |tables| && i < |walked| && j < |walked| && walked[i] in tables[p] && walked[j] in tables[p']
  }

  /** Rows come in the order of the requests: a later one is from the same snapshot or a later one. */
  lemma {:induction false} ComeInTime(tables: seq<seq<Row>>, k: Keyset, limit: nat, i: nat, j: nat)
    returns (p: nat, p': nat)
    requires limit >= 1 && i < j < |Walked(tables, k, limit)|
    ensures InOrder(tables, Walked(tables, k, limit), i, j, p, p')
    decreases |tables|, 1
  {
    var page := FetchPage(k, tables[0], limit);
    PageThenRest(tables, k, limit, page.rows);
    if j < |page.rows| {
      OnFirstPage(tables, k, limit, i);
      OnFirstPage(tables, k, limit, j);
      p, p' := 0, 0;
    } else if i < |page.rows| {
      p, p' := FirstAndLater(tables, k, limit, i, j);
    } else {
      p, p' := BothLater(tables, k, limit, i, j, page.rows);
    }
  }

  lemma {:induction false} BothLater(
      tables: seq<seq<Row>>, k: Keyset, limit: nat, i: nat, j: nat, page: seq<Row>)
    returns (p: nat, p': nat)
    requires limit >= 1 && tables != [] && FetchPage(k, tables[0], limit) == RowPage(page, true)
    requires |page| <= i < j < |Walked(tables, k, limit)|
    ensures InOrder(tables, Walked(tables, k, limit), i, j, p, p')
    decreases |tables|, 0
  {
    PageThenRest(tables, k, limit, page);
    var q, q' := ComeInTime(tables[1..], Next(k, page), limit, i - |page|, j - |page|);
    Later(tables, page, Walked(tables[1..], Next(k, page), limit), i - |page|, j - |page|, q, q');
    p, p' := q + 1, q' + 1;
  }

  lemma {:induction false} Later(
      tables: seq<seq<Row>>, page: seq<Row>, rest: seq<Row>, i: nat, j: nat, p: nat, p': nat)
    requires tables != [] && InOrder(tables[1..], rest, i, j, p, p')
    ensures InOrder(tables, page + rest, |page| + i, |page| + j, p + 1, p' + 1)
  {}

  lemma {:induction false} OnFirstPage(tables: seq<seq<Row>>, k: Keyset, limit: nat, i: nat)
    requires limit >= 1 && tables != [] && i < |FetchPage(k, tables[0], limit).rows|
    ensures i < |Walked(tables, k, limit)| && Walked(tables, k, limit)[i] in tables[0]
  {
    var page := FetchPage(k, tables[0], limit).rows;
    PageIsFromTable(k, tables[0], limit);
    PageThenRest(tables, k, limit, page);
    assert page[i] in page;
  }

  /** A row of the first page and one behind it. */
  lemma {:induction false} FirstAndLater(tables: seq<seq<Row>>, k: Keyset, limit: nat, i: nat, j: nat)
    returns (p: nat, p': nat)
    requires limit >= 1 && tables != []
    requires i < |FetchPage(k, tables[0], limit).rows| <= j < |Walked(tables, k, limit)|
    ensures InOrder(tables, Walked(tables, k, limit), i, j, p, p')
  {
    var page := FetchPage(k, tables[0], limit).rows;
    OnFirstPage(tables, k, limit, i);
    PageThenRest(tables, k, limit, page);
    p' := RestComesFromOne(tables, k, limit, page, Walked(tables[1..], Next(k, page), limit), j - |page|);
    p, p' := 0, p' + 1;
  }

  lemma {:induction false} RestComesFromOne(
      tables: seq<seq<Row>>, k: Keyset, limit: nat, page: seq<Row>, rest: seq<Row>, j: nat) returns (p: nat)
    requires limit >= 1 && tables != [] && page != [] && rest == Walked(tables[1..], Next(k, page), limit)
    requires j < |rest|
    ensures p + 1 < |tables| && rest[j] in tables[p + 1]
  {
    p := ComesFromOne(tables[1..], Next(k, page), limit, rest[j]);
  }

  lemma {:induction false} HexOnceByRows(tables: seq<seq<Row>>, k: Keyset, limit: nat)
    requires limit >= 1 && (forall i | 0 <= i < |tables| :: DistinctHexes(tables[i])) && TimesGoOn(tables)
    requires k.sort == SORT_BY_CREATED_AT && k.descending
    ensures var rows := Flat(FollowRows(tables, k, limit).pages);
            forall i, j | 0 <= i < j < |rows| :: rows[i].hex != rows[j].hex
  {
    var rows := Walked(tables, k, limit);
    RowsComeInOrder(tables, k, limit);
    forall i, j | 0 <= i < j < |rows| ensures rows[i].hex != rows[j].hex {
      var p, p' := ComeInTime(tables, k, limit, i, j);
      assert k.Before(k.KeyOf(rows[i]), k.KeyOf(rows[j]));
      LessTrichotomy(rows[i].hex, rows[j].hex);
    }
  }

  /** Newest first, as listings are by default, a color saved again is behind the client. */
  lemma {:induction false} NewestFirst(
      tables: seq<seq<Row>>, q: Query, k: Keyset, limit: nat, feel: string -> int)
    requires Snapshots(tables, k.sort, feel) && TimesGoOn(tables) && Asks(q, k, limit, feel)
    requires k.sort == SORT_BY_CREATED_AT && k.descending
    ensures NoHexTwice(Flat(Follow(tables, q, feel).pages))
  {
    FollowIsByKey(tables, q, k, limit, feel);
    FlatOfProjected(FollowRows(tables, k, limit).pages);
    HexOnceByRows(tables, k, limit);
  }

  // ---- when it can ----

  /** Distinct hexes, as many as a page may hold and more. */
  function HexNumber(i: nat): string
    requires i < 256
  {
    "#0000" + [DIGITS[i / 16], DIGITS[i % 16]]
  }

  lemma HexNumberIsHex(i: nat)
    requires i < 256
    ensures IsHex(HexNumber(i)) && ChannelByte(HexNumber(i), 5) == i
  {
    DigitOfValue(i / 16);
    DigitOfValue(i % 16);
  }

  function NumberedRow(i: nat, t: Time, feel: string -> int): Row
    requires i < 256
  {
    Row(HexNumber(i), t, feel(HexNumber(i)))
  }

  /** n colors saved at the time t. */
  function NumberedRows(n: nat, t: Time, feel: string -> int): (rows: seq<Row>)
    requires n <= 256
    ensures |rows| == n && forall i | 0 <= i < n :: rows[i] == NumberedRow(i, t, feel)
  {
    seq(n, i requires 0 <= i < n => NumberedRow(i, t, feel))
  }

  lemma NumberedRowsAreStored(n: nat, t: Time, sort: string, feel: string -> int)
    requires n <= 256 && Valid(t) && t.offset == 0
    ensures Stored(NumberedRows(n, t, feel), sort, feel)
  {
    var rows := NumberedRows(n, t, feel);
    forall i | 0 <= i < n ensures IsHex(rows[i].hex) {
      HexNumberIsHex(i);
    }
    forall i, j | 0 <= i < j < n ensures rows[i].hex != rows[j].hex {
      HexNumbersDiffer(i, j);
    }
    StoredByIndex(rows, sort, feel);
  }

  lemma StoredByIndex(rows: seq<Row>, sort: string, feel: string -> int)
    requires DistinctHexes(rows)
    requires forall i | 0 <= i < |rows| :: IsHex(rows[i].hex) && rows[i].colorKey == feel(rows[i].hex)
    requires forall i | 0 <= i < |rows| :: Valid(rows[i].createdAt) && rows[i].createdAt.offset == 0
    ensures Stored(rows, sort, feel)
  {}

  lemma HexNumbersDiffer(i: nat, j: nat)
    requires i < j < 256
    ensures HexNumber(i) != HexNumber(j)
  {
    HexNumberIsHex(i);
    HexNumberIsHex(j);
  }

  lemma SavedAgainIsStored(r: Row, t: Time, sort: string, feel: string -> int)
    requires IsHex(r.hex) && r.colorKey == feel(r.hex) && Valid(t) && t.offset == 0
    ensures Stored([r.(createdAt := t)], sort, feel)
  {}

  /** A single row ahead of the boundary is a page of its own. */
  lemma OneRowPage(k: Keyset, r: Row, limit: nat)
    requires limit >= 1 && k.AfterBoundary(r)
    ensures FetchPage(k, [r], limit) == RowPage([r], false)
  {
    assert Where(k, []) == [] && [r][1..] == [];
    assert Where(k, [r]) == [r];
    assert OrderBy(k, [r]) == [r];
  }

  lemma {:induction false} FullPage(k: Keyset, rows: seq<Row>, limit: nat) returns (page: seq<Row>)
    requires k.boundary.None? && limit >= 1 && DistinctHexes(rows) && |rows| == limit + 1
    ensures FetchPage(k, rows, limit) == RowPage(page, true) && |page| == limit
    ensures forall r | r in page :: r in rows
  {
    OrderBySorts(k, rows);
    NoBoundaryNoFilter(k, rows);
    PageIsFromTable(k, rows, limit);
    page := FetchPage(k, rows, limit).rows;
  }

  /** Two requests: a full page of `rows`, and then nothing but its first row, saved again. */
  lemma {:induction false} FirstComesBack(k: Keyset, rows: seq<Row>, limit: nat, t: Time) returns (first: Row)
    requires k.sort == SORT_BY_CREATED_AT && k.boundary.None? && limit >= 1
    requires DistinctHexes(rows) && |rows| == limit + 1
    requires forall r | r in rows :: if k.descending then Instant(t) < Instant(r.createdAt)
                                     else Instant(r.createdAt) < Instant(t)
    ensures first in rows
    ensures var got := Walked([rows, [first.(createdAt := t)]], k, limit);
            |got| == limit + 1 && got[0].hex == got[limit].hex
  {
    var page := FullPage(k, rows, limit);
    first := page[0];
    assert page[limit - 1] in page && page[0] in page;
    TwoPages(k, rows, page, limit, first.(createdAt := t));
  }

  lemma {:induction false} TwoPages(k: Keyset, rows: seq<Row>, page: seq<Row>, limit: nat, again: Row)
    requires limit >= 1 && page != [] && FetchPage(k, rows, limit) == RowPage(page, true)
    requires Next(k, page).AfterBoundary(again)
    ensures Walked([rows, [again]], k, limit) == page + [again]
  {
    var next := Next(k, page);
    OneRowPage(next, again, limit);
    PageThenRest([rows, [again]], k, limit, page);
    assert [rows, [again]][1..] == [[again]];
    PageThenRest([[again]], next, limit, [again]);
  }

  /** The clock of the witness: `late` is an hour after ZERO. */
  const LATE: Time := ZERO.(hour := 1)

  lemma Clock()
    ensures Valid(ZERO) && Valid(LATE) && Instant(ZERO) < Instant(LATE)
  {}

  lemma {:induction false} ProjectedHexes(rows: seq<Row>, i: nat, j: nat)
    requires i < j < |rows| && rows[i].hex == rows[j].hex
    ensures !NoHexTwice(Project(rows))
  {
    assert Project(rows)[i].hex == Project(rows)[j].hex;
  }

  /** A hex two rows of the walk share is returned twice. */
  lemma {:induction false} SeenTwice(
      tables: seq<seq<Row>>, q: Query, k: Keyset, limit: nat, feel: string -> int, i: nat, j: nat)
    requires Snapshots(tables, k.sort, feel) && Asks(q, k, limit, feel)
    requires var got := Walked(tables, k, limit); i < j < |got| && got[i].hex == got[j].hex
    ensures !NoHexTwice(Flat(Follow(tables, q, feel).pages))
  {
    FollowIsByKey(tables, q, k, limit, feel);
    FlatOfProjected(FollowRows(tables, k, limit).pages);
    ProjectedHexes(Walked(tables, k, limit), i, j);
  }

  lemma {:induction false} TwoSnapshots(rows: seq<Row>, again: seq<Row>, sort: string, feel: string -> int)
    requires Stored(rows, sort, feel) && Stored(again, sort, feel)
    ensures Snapshots([rows, again], sort, feel)
  {}

  /** A full page saved at one time, and its first row saved again at another that is ahead of it. */
  lemma {:induction false} Witness(k: Keyset, limit: nat, before: Time, after: Time, feel: string -> int)
    returns (rows: seq<Row>, first: Row)
    requires k.sort == SORT_BY_CREATED_AT && k.boundary.None? && 1 <= limit <= MAX_COLOR_LIMIT
    requires Valid(before) && before.offset == 0
    requires if k.descending then Instant(after) < Instant(before) else Instant(before) < Instant(after)
    ensures first in rows && Stored(rows, k.sort, feel) && forall r | r in rows :: r.createdAt == before
    ensures var got := Walked([rows, [first.(createdAt := after)]], k, limit);
            |got| == limit + 1 && got[0].hex == got[limit].hex
  {
    rows := NumberedRows(limit + 1, before, feel);
    NumberedRowsAreStored(limit + 1, before, k.sort, feel);
    SavedAt(rows, limit + 1, before, feel);
    first := FirstComesBack(k, rows, limit, after);
  }

  lemma SavedAt(rows: seq<Row>, n: nat, t: Time, feel: string -> int)
    requires n <= 256 && rows == NumberedRows(n, t, feel)
    ensures forall r | r in rows :: r.createdAt == t
  {}

  /** Under created_at, whatever the order and the page size, some traversal returns a hex twice. */
  lemma {:induction false} TwiceByTime(q: Query, k: Keyset, limit: nat, feel: string -> int)
    returns (tables: seq<seq<Row>>)
    requires Asks(q, k, limit, feel) && k.boundary.None? && k.sort == SORT_BY_CREATED_AT
    ensures Snapshots(tables, k.sort, feel) && (!k.descending ==> TimesGoOn(tables))
    ensures !NoHexTwice(Flat(Follow(tables, q, feel).pages))
  {
    var before, after := if k.descending then LATE else ZERO, if k.descending then ZERO else LATE;
    Clock();
    var rows, first := Witness(k, limit, before, after, feel);
    var again := [first.(createdAt := after)];
    SavedAgainIsStored(first, after, k.sort, feel);
    tables := [rows, again];
    TwoSnapshots(rows, again, k.sort, feel);
    SavedAgainGoesOn(rows, first, before, after);
    SeenTwice(tables, q, k, limit, feel, 0, limit);
  }

  lemma {:induction false} SavedAgainGoesOn(rows: seq<Row>, first: Row, before: Time, after: Time)
    requires DistinctHexes(rows) && forall r | r in rows :: r.createdAt == before
    ensures Instant(before) <= Instant(after) ==> TimesGoOn([rows, [first.(createdAt := after)]])
  {}

  // ---- the exact conditions ----

  /** The sort a listing is by, read off the query. */
  function SortAsked(q: Query): string { if q.sort == "" then "created_at" else q.sort }

  /**
   Whatever times rows carry, no traversal from the first page returns a hex twice if and only if the
   request asks for a sort other than created_at.
   */
  lemma {:induction false} HexOnceUnlessByTime(q: Query, feel: string -> int)
    requires IsAcceptable(q) && q.cursor == ""
    ensures NeverTwice(q, SortAsked(q), feel, false) <==> q.sort == "hex" || q.sort == "color"
  {
    FirstPageAccepted(q);
    var k, limit := AskedFor(q, feel);
    if k.sort == SORT_BY_CREATED_AT {
      var tables := TwiceByTime(q, k, limit, feel);
    } else {
      forall tables: seq<seq<Row>> | Snapshots(tables, k.sort, feel)
        ensures NoHexTwice(Flat(Follow(tables, q, feel).pages))
      {
        TraversalIsMonotone(tables, q, k, limit, feel);
      }
    }
  }

  /**
   As long as a color saved again is never older than before, no traversal from the first page returns
   a hex twice if and only if the request does not ask for created_at, named or left out, in the order
   "asc".
   */
  lemma {:induction false} HexOnceUnlessOldestFirst(q: Query, feel: string -> int)
    requires IsAcceptable(q) && q.cursor == ""
    ensures NeverTwice(q, SortAsked(q), feel, true) <==> !((q.sort == "" || q.sort == "created_at") && q.order == "asc")
  {
    FirstPageAccepted(q);
    var k, limit := AskedFor(q, feel);
    DirectionAsked(q, k, limit, feel);
    if k.sort == SORT_BY_CREATED_AT && !k.descending {
      var tables := TwiceByTime(q, k, limit, feel);
    } else {
      forall tables: seq<seq<Row>> | Snapshots(tables, k.sort, feel) && TimesGoOn(tables)
        ensures NoHexTwice(Flat(Follow(tables, q, feel).pages))
      {
        if k.sort == SORT_BY_CREATED_AT {
          NewestFirst(tables, q, k, limit, feel);
        } else {
          TraversalIsMonotone(tables, q, k, limit, feel);
        }
      }
    }
  }

  lemma {:induction false} DirectionAsked(q: Query, k: Keyset, limit: nat, feel: string -> int)
    requires Asks(q, k, limit, feel)
    ensures k.descending <==> q.order != "asc"
  {}
}
