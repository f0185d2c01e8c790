/** The parameters of a colors listing (internal/storage/color_sort.go, internal/storage/sort.go). */
module ColorSort {
  import opened Text
  import opened Timestamp

  const SORT_BY_CREATED_AT := "created_at"
  const SORT_BY_HEX := "hex"
  const SORT_BY_COLOR := "color"
  const ORDER_ASC := "asc"
  const ORDER_DESC := "desc"
  const DEFAULT_COLOR_LIMIT := 50
  const MAX_COLOR_LIMIT := 100

  predicate IsSort(s: string) {
    s == SORT_BY_CREATED_AT || s == SORT_BY_HEX || s == SORT_BY_COLOR
  }

  predicate IsOrder(s: string) {
    s == ORDER_ASC || s == ORDER_DESC
  }

  datatype Error = InvalidSort(sort: string) | InvalidOrder(order: string)
  datatype Result<+T, +E> = Ok(value: T) | Err(error: E)

  /** One entry of a collection as a listing returns it. */
  datatype Color = Color(hex: string, createdAt: Time)

  /** The ordering key of the last row of the previous page. */
  datatype ColorCursor = ColorCursor(createdAt: Time, hex: string)

  datatype ListColorsParams = ListColorsParams(sort: string, order: string, after: Option<ColorCursor>, limit: int)

  /** A zero value means the defaults. */
  function Normalized(p: ListColorsParams): (r: ListColorsParams)
    ensures 1 <= r.limit <= MAX_COLOR_LIMIT
    ensures p.sort != "" && p.order != "" && 1 <= p.limit <= MAX_COLOR_LIMIT ==> r == p
  {
    p.(sort := if p.sort == "" then SORT_BY_CREATED_AT else p.sort,
       order := if p.order == "" then ORDER_DESC else p.order,
       limit := if p.limit <= 0 then DEFAULT_COLOR_LIMIT
                else if p.limit > MAX_COLOR_LIMIT then MAX_COLOR_LIMIT else p.limit)
  }

  /** A stored row of collection_colors. */
  datatype Row = Row(hex: string, createdAt: Time, colorKey: int)

  /** What a listing orders by: one numeric column, 0 when the hex stands alone, then the hex. */
  datatype Key = Key(num: int, hex: string)

  predicate KeyLess(a: Key, b: Key) {
    a.num < b.num || (a.num == b.num && Less(a.hex, b.hex))
  }

  /** The ORDER BY columns, the direction, and the bound values of the keyset comparison. */
  datatype Keyset = Keyset(sort: string, descending: bool, boundary: Option<Key>) {
    function KeyOf(r: Row): Key {
      if sort == SORT_BY_CREATED_AT then Key(Instant(r.createdAt), r.hex)
      else if sort == SORT_BY_HEX then Key(0, r.hex)
      else Key(r.colorKey, r.hex)
    }

    /** `a` comes before `b` in the listing. */
    predicate Before(a: Key, b: Key) {
      if descending then KeyLess(b, a) else KeyLess(a, b)
    }

    /** The WHERE clause the cursor adds. */
    predicate AfterBoundary(r: Row) {
      boundary.Some? ==> Before(boundary.value, KeyOf(r))
    }
  }

  /** The color_key a cursor stands for is recomputed from its hex. */
  function KeysetOf(p: ListColorsParams, feel: string -> int): Result<Keyset, Error> {
    if !IsSort(p.sort) then Err(InvalidSort(p.sort))
    else if !IsOrder(p.order) then Err(InvalidOrder(p.order))
    else
      var boundary :=
        if p.after.None? then None
        else if p.sort == SORT_BY_CREATED_AT then Some(Key(Instant(p.after.value.createdAt), p.after.value.hex))
        else if p.sort == SORT_BY_HEX then Some(Key(0, p.after.value.hex))
        else Some(Key(feel(p.after.value.hex), p.after.value.hex));
      Ok(Keyset(p.sort, p.order == ORDER_DESC, boundary))
  }

  // ---- the listing order is a strict total order ----

  lemma KeyTrichotomy(a: Key, b: Key)
    ensures KeyLess(a, b) || KeyLess(b, a) || a == b
    ensures !(KeyLess(a, b) && KeyLess(b, a))
    ensures a == b ==> !KeyLess(a, b)
  {
    LessTrichotomy(a.hex, b.hex);
  }

  lemma KeyTransitive(a: Key, b: Key, c: Key)
    requires KeyLess(a, b) && KeyLess(b, c)
    ensures KeyLess(a, c)
  {
    if a.num == b.num == c.num {
      LessTransitive(a.hex, b.hex, c.hex);
    }
  }

  lemma BeforeTransitive(k: Keyset, a: Key, b: Key, c: Key)
    requires k.Before(a, b) && k.Before(b, c)
    ensures k.Before(a, c)
  {
    if k.descending { KeyTransitive(c, b, a); } else { KeyTransitive(a, b, c); }
  }
}
