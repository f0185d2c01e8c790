/**
 The opaque cursor of a colors listing (internal/handlers/cursor.go):
 base64url("<sort>|<order>|<key...>"), unpadded.
 */
module Cursor {
  import opened Text
  import opened Timestamp
  import opened ColorSort
  import opened Hexes
  import Base64Url

  const CURSOR_SEP := '|'
  const CURSOR_HEADER_PARTS := 2

  datatype CursorError =
    | NotBase64
    | TooFewFields
    | OtherListing(sort: string, order: string)
    | WrongFieldCount
    | BadTimestamp
    | BadHex
    | UnknownSort

  /** A row as Postgres returns it: a stored hex and a time RFC 3339 can write. */
  predicate Printable(last: Color) {
    IsHex(last.hex) && Valid(last.createdAt)
  }

  function CursorKey(sort: string, last: Color): seq<string>
    requires Printable(last)
  {
    if sort == SORT_BY_CREATED_AT then [Format(last.createdAt), last.hex]
    else if sort == SORT_BY_HEX || sort == SORT_BY_COLOR then [last.hex]
    else []
  }

  /** Printable ASCII other than the separator. */
  predicate Plain(s: string) {
    forall i | 0 <= i < |s| :: ' ' <= s[i] <= '~' && s[i] != CURSOR_SEP
  }

  lemma {:induction false} PlainConcat(a: string, b: string)
    requires Plain(a) && Plain(b)
    ensures Plain(a + b)
  {}

  lemma {:induction false} DigitsArePlain(s: string)
    requires AllDigits(s)
    ensures Plain(s)
  {
    forall i | 0 <= i < |s| ensures ' ' <= s[i] <= '~' && s[i] != CURSOR_SEP {
      assert IsDigit(s[i]);
    }
  }

  lemma {:induction false} CivilIsPlain(t: Time)
    requires Valid(t)
    ensures Plain(Civil(t))
  {
    assert Pow10(4) == 10_000 && Pow10(2) == 100;
  }

  lemma {:induction false} FractionIsPlain(nano: int)
    requires 0 <= nano < Pow10(9)
    ensures Plain(Fraction(nano))
  {
    NanosOfFraction(nano);
    DigitsArePlain(TrimZeros(Pad(nano, 9)));
  }

  lemma {:induction false} ZoneIsPlain(offset: int)
    requires -86_400 < offset < 86_400
    ensures Plain(Zone(offset))
  {
    assert Pow10(2) == 100;
  }

  lemma {:induction false} TimeIsPlain(t: Time)
    requires Valid(t)
    ensures Plain(Format(t))
  {
    assert Pow10(9) == 1_000_000_000;
    CivilIsPlain(t);
    FractionIsPlain(t.nano);
    ZoneIsPlain(t.offset);
    PlainConcat(Fraction(t.nano), Zone(t.offset));
    PlainConcat(Civil(t), Fraction(t.nano) + Zone(t.offset));
  }

  lemma {:induction false} HexIsPlain(h: string)
    requires IsHex(h)
    ensures Plain(h)
  {
    forall i | 0 <= i < |h| ensures ' ' <= h[i] <= '~' && h[i] != CURSOR_SEP {
      assert i == 0 || IsHexDigit(h[i]);
    }
  }

  lemma {:induction false} NamesArePlain(sort: string, order: string)
    requires IsSort(sort) && IsOrder(order)
    ensures Plain(sort) && Plain(order)
  {}

  lemma {:induction false} KeyIsPlain(sort: string, last: Color)
    requires Printable(last)
    ensures forall p | p in CursorKey(sort, last) :: Plain(p)
  {
    HexIsPlain(last.hex);
    TimeIsPlain(last.createdAt);
  }

  /** The fields of a cursor, none of which holds the separator. */
  function Fields(sort: string, order: string, last: Color): (parts: seq<string>)
    requires IsSort(sort) && IsOrder(order) && Printable(last)
    ensures |parts| == if sort == SORT_BY_CREATED_AT then 4 else 3
    ensures forall p | p in parts :: Plain(p)
  {
    NamesArePlain(sort, order);
    KeyIsPlain(sort, last);
    [sort, order] + CursorKey(sort, last)
  }

  lemma {:induction false} PlainJoinIsBytes(parts: seq<string>)
    requires parts != [] && forall p | p in parts :: Plain(p)
    ensures Base64Url.IsBytes(Join(parts, CURSOR_SEP))
  {
    assert Plain(parts[0]);
    if |parts| > 1 {
      PlainJoinIsBytes(parts[1..]);
    }
  }

  function EncodeCursor(sort: string, order: string, last: Color): string
    requires IsSort(sort) && IsOrder(order) && Printable(last)
  {
    PlainJoinIsBytes(Fields(sort, order, last));
    Base64Url.Encode(Join(Fields(sort, order, last), CURSOR_SEP))
  }

  /** Untrusted input; `sort` and `order` are the ones the request asks for. */
  function DecodeCursor(token: string, sort: string, order: string): (r: Result<ColorCursor, CursorError>)
    ensures r.Ok? ==> IsHex(r.value.hex)
  {
    var raw := Base64Url.Decode(token);
    if raw.None? then Err(NotBase64) else DecodeFields(Split(raw.value, CURSOR_SEP), sort, order)
  }

  function DecodeFields(parts: seq<string>, sort: string, order: string): (r: Result<ColorCursor, CursorError>)
    ensures r.Ok? ==> IsHex(r.value.hex)
  {
    if |parts| <= CURSOR_HEADER_PARTS then Err(TooFewFields)
    else if parts[0] != sort || parts[1] != order then Err(OtherListing(parts[0], parts[1]))
    else
      var key := parts[CURSOR_HEADER_PARTS..];
      if sort == SORT_BY_CREATED_AT then
        if |key| != 2 then Err(WrongFieldCount)
        else
          var createdAt, hex := Parse(key[0]), NewHex(key[1]);
          if createdAt.None? then Err(BadTimestamp)
          else if hex.None? then Err(BadHex)
          else Ok(ColorCursor(createdAt.value, hex.value))
      else if sort == SORT_BY_HEX || sort == SORT_BY_COLOR then
        if |key| != 1 then Err(WrongFieldCount)
        else
          var hex := NewHex(key[0]);
          if hex.None? then Err(BadHex) else Ok(ColorCursor(ZERO, hex.value))
      else Err(UnknownSort)
  }

  /** The fields of a cursor survive the encoding. */
  lemma {:induction false} FieldsRoundTrip(
      sort: string, order: string, last: Color, askedSort: string, askedOrder: string)
    requires IsSort(sort) && IsOrder(order) && Printable(last)
    ensures DecodeCursor(EncodeCursor(sort, order, last), askedSort, askedOrder)
         == DecodeFields(Fields(sort, order, last), askedSort, askedOrder)
  {
    var parts := Fields(sort, order, last);
    PlainJoinIsBytes(parts);
    Base64Url.RoundTrip(Join(parts, CURSOR_SEP));
    assert forall p | p in parts :: CURSOR_SEP !in p;
    SplitJoin(parts, CURSOR_SEP);
  }

  /**
   A cursor is accepted under the sort and order it was made for, where it names the row it was made
   from: the same hex, and under created_at the same instant, provided the zone the time was printed
   in is a whole number of minutes off UTC. Under any other sort or order it is refused.
   */
  lemma {:induction false} CursorRoundTrip(
      sort: string, order: string, last: Color, askedSort: string, askedOrder: string)
    requires IsSort(sort) && IsOrder(order) && Printable(last)
    ensures var r := DecodeCursor(EncodeCursor(sort, order, last), askedSort, askedOrder);
            && (r.Ok? <==> askedSort == sort && askedOrder == order)
            && (r.Err? ==> r.error == OtherListing(sort, order))
            && (r.Ok? ==> r.value.hex == last.hex)
            && (r.Ok? && sort == SORT_BY_CREATED_AT ==>
                  (Instant(r.value.createdAt) == Instant(last.createdAt) <==> last.createdAt.offset % 60 == 0))
  {
    FieldsRoundTrip(sort, order, last, askedSort, askedOrder);
    NewHexFixes(last.hex);
    ParseOfFormat(last.createdAt);
  }

  lemma {:induction false} JoinThree(a: string, b: string, c: string)
    ensures Join([a, b, c], CURSOR_SEP) == a + "|" + b + "|" + c
  {
    assert [a, b, c][1..] == [b, c] && [b, c][1..] == [c];
    assert Join([b, c], CURSOR_SEP) == b + "|" + c;
  }

  lemma {:induction false} JoinFour(a: string, b: string, c: string, d: string)
    ensures Join([a, b, c, d], CURSOR_SEP) == a + "|" + b + "|" + c + "|" + d
  {
    assert [a, b, c, d][1..] == [b, c, d];
    JoinThree(b, c, d);
  }

  /** What a cursor says once decoded: sort, order, and the place, with bars between them. */
  function PlainText(sort: string, order: string, last: Color): string
    requires Printable(last)
  {
    if sort == "created_at" then sort + "|" + order + "|" + Format(last.createdAt) + "|" + last.hex
    else sort + "|" + order + "|" + last.hex
  }

  lemma {:induction false} FieldsJoined(sort: string, order: string, last: Color)
    requires IsSort(sort) && IsOrder(order) && Printable(last)
    ensures Join(Fields(sort, order, last), CURSOR_SEP) == PlainText(sort, order, last)
  {
    if sort == "created_at" {
      JoinFour(sort, order, Format(last.createdAt), last.hex);
    } else {
      JoinThree(sort, order, last.hex);
    }
  }

  lemma {:induction false} CursorText(sort: string, order: string, last: Color)
    requires IsSort(sort) && IsOrder(order) && Printable(last)
    ensures Base64Url.Decode(EncodeCursor(sort, order, last)) == Some(PlainText(sort, order, last))
  {
    var parts := Fields(sort, order, last);
    PlainJoinIsBytes(parts);
    Base64Url.RoundTrip(Join(parts, CURSOR_SEP));
    FieldsJoined(sort, order, last);
  }
}
