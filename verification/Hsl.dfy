/**
 HSL on the gamma encoded channels (internal/color/hsl.go), over exact reals: both conversions as the
 Go code branches, and their meaning as a color on a wheel of six ramps.
 */
module Hsl {
  import opened Reals

  datatype Rgb = Rgb(red: real, green: real, blue: real)
  datatype Color = Color(hue: real, saturation: real, lightness: real)

  predicate InUnit(c: Rgb) {
    0.0 <= c.red <= 1.0 && 0.0 <= c.green <= 1.0 && 0.0 <= c.blue <= 1.0
  }

  function High(c: Rgb): real { Max(Max(c.red, c.green), c.blue) }

  function Low(c: Rgb): real { Min(Min(c.red, c.green), c.blue) }

  function Span(c: Rgb): real { High(c) - Low(c) }

  /** Hue in degrees; a gray has none. */
  function HueDegrees(c: Rgb): real
    requires Span(c) != 0.0
  {
    var span := Span(c);
    var sixth :=
      if High(c) == c.red then Mod((c.green - c.blue) / span, 6.0)
      else if High(c) == c.green then (c.blue - c.red) / span + 2.0
      else (c.red - c.green) / span + 4.0;
    var hue := sixth * 60.0;
    if hue < 0.0 then hue + 360.0 else hue
  }

  /** What full saturation leaves between the highest and the lowest channel at this lightness. */
  function Room(lightness: real): real {
    1.0 - Abs(2.0 * lightness - 1.0)
  }

  /** hexToHSL on channels. */
  function RgbToHsl(c: Rgb): Color
    requires InUnit(c)
  {
    var lightness := (High(c) + Low(c)) / 2.0;
    if Span(c) == 0.0 then Color(0.0, 0.0, lightness)
    else
      RoomHoldsSpan(c);
      Color(HueDegrees(c), Min(Span(c) / Room(lightness), 1.0), lightness)
  }

  function WrapHue(hue: real): real {
    Mod(Mod(hue, 360.0) + 360.0, 360.0)
  }

  function Rise(t: real): real {
    1.0 - Abs(Mod(t, 2.0) - 1.0)
  }

  /** The second of the channels that differ from the base, at t sixths of a turn. */
  function Second(chroma: real, t: real): real {
    Times(chroma, Rise(t))
  }

  function Times(a: real, b: real): real { a * b }


  /** The switch of hslToHex: channels by sixth of a turn, raised to the base. */
  function Draw(t: real, chroma: real, second: real, base: real): Rgb {
    var c :=
      match Trunc(t)
      case 0 => Rgb(chroma, second, 0.0)
      case 1 => Rgb(second, chroma, 0.0)
      case 2 => Rgb(0.0, chroma, second)
      case 3 => Rgb(0.0, second, chroma)
      case 4 => Rgb(second, 0.0, chroma)
      case _ => Rgb(chroma, 0.0, second);
    Rgb(c.red + base, c.green + base, c.blue + base)
  }

  /** The channels at t sixths of a turn, given the span of the color. */
  function FromChroma(t: real, chroma: real, lightness: real): Rgb {
    Draw(t, chroma, Second(chroma, t), lightness - chroma / 2.0)
  }

  function Chroma(saturation: real, lightness: real): real {
    Room(lightness) * saturation
  }

  /** hslToHex up to the channels it prints. */
  function HslToRgb(hue: real, saturation: real, lightness: real): Rgb {
    FromChroma(WrapHue(hue) / 60.0, Chroma(saturation, lightness), lightness)
  }

  // ---- the wheel ----

  /** How far into its sector a turn is, measured from the sector's primary. */
  function Inward(t: real): real {
    if t <= 1.0 then t else if t <= 2.0 then 2.0 - t else if t <= 3.0 then t - 2.0
    else if t <= 4.0 then 4.0 - t else if t <= 5.0 then t - 4.0 else 6.0 - t
  }

  /** The color of each sector: the highest channel, the lowest, and one `part` above the lowest. */
  function Sector(t: real, low: real, span: real, part: real): Rgb {
    var high, mid := low + span, low + part;
    if t <= 1.0 then Rgb(high, mid, low) else if t <= 2.0 then Rgb(mid, high, low)
    else if t <= 3.0 then Rgb(low, high, mid) else if t <= 4.0 then Rgb(low, mid, high)
    else if t <= 5.0 then Rgb(mid, low, high) else Rgb(high, low, mid)
  }

  lemma RoomHoldsSpan(c: Rgb)
    requires InUnit(c)
    ensures Span(c) <= Room((High(c) + Low(c)) / 2.0)
    ensures Span(c) != 0.0 ==> Span(c) > 0.0
  {}

  lemma PartRange(span: real, share: real, part: real)
    requires span > 0.0 && 0.0 <= share <= 1.0 && part == Times(span, share)
    ensures 0.0 <= part <= span && part / span == share && -part / span == -share
    ensures share < 1.0 ==> part < span
  {
    Scale(0.0, share, span);
    Scale(share, 1.0, span);
    Scale(1.0, share, span);
    Share(part, span, share);
    assert -part == span * -share;
    Share(-part, span, -share);
  }

  lemma Share(part: real, span: real, share: real)
    requires span > 0.0 && part == Times(span, share)
    ensures part / span == share
  {}

  lemma SectorEnds(t: real, low: real, span: real, part: real)
    requires 0.0 <= part <= span
    ensures var c := Sector(t, low, span, part); Low(c) == low && High(c) == low + span && Span(c) == span
  {}

  /** The hue read off a sector, given what its middle channel is worth. */
  lemma HueOfSector(t: real, low: real, span: real, part: real)
    requires 0.0 <= t < 6.0 && 0.0 <= part <= span && span > 0.0
    requires part / span == Inward(t) && -part / span == -Inward(t)
    requires Inward(t) < 1.0 ==> part < span
    ensures Span(Sector(t, low, span, part)) == span
    ensures HueDegrees(Sector(t, low, span, part)) == 60.0 * t
  {
    SectorEnds(t, low, span, part);
    ModBelow(Inward(t));
    ModBelow(-Inward(t));
  }

  /** The hue of a color on the wheel is its turn. */
  lemma HueOfWheel(c: Rgb, t: real, low: real, span: real, part: real)
    requires 0.0 <= t < 6.0 && span > 0.0
    requires part == Second(span, t) && c == Sector(t, low, span, part)
    ensures Span(c) == span && Low(c) == low && HueDegrees(c) == 60.0 * t
  {
    SecondIs(t, span, part, Inward(t));
    SectorEnds(t, low, span, part);
    HueOfSector(t, low, span, part);
  }

  lemma ModBelow(x: real)
    requires -6.0 < x < 6.0
    ensures Mod(x, 6.0) == x
  {
    assert -1.0 < x / 6.0 < 1.0;
  }

  /** The difference a hue is read from, signed. */
  function HuePart(c: Rgb): real {
    if High(c) == c.red then c.green - c.blue
    else if High(c) == c.green then c.blue - c.red
    else c.red - c.green
  }

  /** Every color that is not a gray is in the sector of its own hue. */
  lemma OnSector(c: Rgb, part: real, x: real, t: real)
    requires Span(c) > 0.0 && -1.0 <= x <= 1.0 && x == part / Span(c)
    requires part == HuePart(c) && t == HueDegrees(c) / 60.0
    requires (part < 0.0 <==> x < 0.0) && (part == Span(c) <==> x == 1.0) && (part == -Span(c) <==> x == -1.0)
    ensures 0.0 <= t < 6.0
    ensures Inward(t) == Abs(x)
    ensures Sector(t, Low(c), Span(c), Abs(part)) == c
  {
    ModBelow(x);
  }

  /** Every color that is not a gray is the color of the wheel at its own hue. */
  lemma OnTheWheel(c: Rgb, span: real, t: real)
    requires Span(c) != 0.0 && span == Span(c) && t == HueDegrees(c) / 60.0
    ensures 0.0 <= t < 6.0 && c == Sector(t, Low(c), span, Second(span, t))
  {
    var signed := HuePart(c);
    SpanCovers(c);
    PartOfSpan(signed, span);
    var x := signed / span;
    OnSector(c, signed, x, t);
    SecondOf(t, span, x, signed);
  }

  lemma SecondOf(t: real, span: real, x: real, signed: real)
    requires 0.0 <= t < 6.0 && Inward(t) == Abs(x) && Times(x, span) == signed && (signed < 0.0 <==> x < 0.0)
    ensures Second(span, t) == Abs(signed)
  {
    RiseIsInward(t);
    AbsTimes(x, span, signed);
  }

  lemma AbsTimes(x: real, span: real, signed: real)
    requires Times(x, span) == signed && (signed < 0.0 <==> x < 0.0)
    ensures Times(span, Abs(x)) == Abs(signed)
  {
    Negated(x, span);
  }

  lemma Negated(x: real, span: real)
    ensures Times(span, x) == Times(x, span) && Times(span, -x) == -Times(x, span)
  {}

  lemma SpanCovers(c: Rgb)
    ensures Span(c) >= 0.0 && -Span(c) <= HuePart(c) <= Span(c)
  {}

  lemma PartOfSpan(part: real, span: real)
    requires span > 0.0 && -span <= part <= span
    ensures var x := part / span;
            && -1.0 <= x <= 1.0 && Times(x, span) == part && (part < 0.0 <==> x < 0.0)
            && (part == span <==> x == 1.0) && (part == -span <==> x == -1.0)
  {
    var q := part / span;
    assert q * span == part;
    Scale(q, 1.0, span);
    Scale(-1.0, q, span);
    Scale(0.0, q, span);
    Scale(1.0, q, span);
    Scale(q, -1.0, span);
  }

  // ---- the formula is the wheel ----

  /** Folding a period of two measures how far into its sector a turn is. */
  lemma RiseIsInward(t: real)
    requires 0.0 <= t < 6.0
    ensures Rise(t) == Inward(t)
  {
    var k: nat := if t < 2.0 then 0 else if t < 4.0 then 1 else 2;
    ModOf(t, 2.0, k);
  }

  /** A hue once around is left as it is. */
  lemma WrapKeeps(hue: real)
    requires 0.0 <= hue < 360.0
    ensures WrapHue(hue) == hue
  {
    ModOf(hue, 360.0, 0);
    ModOf(hue + 360.0, 360.0, 1);
  }

  /** Every hue is brought once around by whole turns. */
  lemma WrapTurns(hue: real) returns (turns: int)
    ensures 0.0 <= WrapHue(hue) < 360.0 && hue == WrapHue(hue) + 360.0 * turns as real
  {
    var k := Trunc(hue / 360.0);
    var first := Mod(hue, 360.0);
    assert -360.0 < first < 360.0;
    if first >= 0.0 {
      ModOf(first + 360.0, 360.0, 1);
      turns := k;
    } else {
      ModOf(first + 360.0, 360.0, 0);
      turns := k - 1;
    }
  }

  /** Hues whole turns apart are the same. */
  lemma WrapUnique(a: real, b: real, turns: int)
    requires a == b + 360.0 * turns as real
    ensures WrapHue(a) == WrapHue(b)
  {
    var i := WrapTurns(a);
    var j := WrapTurns(b);
    var d := turns + j - i;
    assert WrapHue(a) - WrapHue(b) == 360.0 * d as real;
    assert -1 < d < 1;
  }

  lemma DrawIsSector(t: real, chroma: real, second: real, base: real)
    requires 0.0 <= t < 6.0
    requires (Inward(t) == 0.0 ==> second == 0.0) && (Inward(t) == 1.0 ==> second == chroma)
    ensures Draw(t, chroma, second, base) == Sector(t, base, chroma, second)
  {}

  // ---- the two conversions are inverse ----

  lemma RgbParts(c: Rgb, hsl: Color)
    requires InUnit(c) && Span(c) != 0.0 && hsl == RgbToHsl(c)
    ensures hsl.hue == HueDegrees(c) && 0.0 < hsl.saturation <= 1.0 && 0.0 < hsl.lightness < 1.0
    ensures hsl.saturation == Span(c) / Room(hsl.lightness) && 0.0 < Span(c) <= Room(hsl.lightness)
    ensures hsl.lightness - Span(c) / 2.0 == Low(c)
  {
    RoomHoldsSpan(c);
    var room := Room((High(c) + Low(c)) / 2.0);
    PartOfSpan(Span(c), room);
  }

  lemma ChromaIs(saturation: real, lightness: real, span: real)
    requires 0.0 < span <= Room(lightness) && saturation == span / Room(lightness)
    ensures Chroma(saturation, lightness) == span
  {}

  /** The clamp of the saturation never acts on exact channels. */
  lemma {:induction false} SaturationInRange(c: Rgb)
    requires InUnit(c) && Span(c) != 0.0
    ensures Span(c) / Room(RgbToHsl(c).lightness) <= 1.0
  {
    RgbParts(c, RgbToHsl(c));
  }

  lemma FromParts(hsl: Color, t: real, span: real)
    requires t == WrapHue(hsl.hue) / 60.0 && span == Chroma(hsl.saturation, hsl.lightness)
    ensures HslToRgb(hsl.hue, hsl.saturation, hsl.lightness) == FromChroma(t, span, hsl.lightness)
  {}

  lemma SecondIs(t: real, span: real, part: real, x: real)
    requires 0.0 <= t < 6.0 && part == Second(span, t) && x == Inward(t)
    ensures (x == 0.0 ==> part == 0.0) && (x == 1.0 ==> part == span)
    ensures span > 0.0 ==>
              && 0.0 <= part <= span && part / span == x && -part / span == -x
              && (x < 1.0 ==> part < span)
  {
    RiseIsInward(t);
    if span > 0.0 { PartRange(span, x, part); }
  }

  /** hslToHex draws the sector its hue is in. */
  lemma DrawnSector(t: real, span: real, lightness: real, part: real)
    requires 0.0 <= t < 6.0 && part == Second(span, t)
    ensures FromChroma(t, span, lightness) == Sector(t, lightness - span / 2.0, span, part)
  {
    SecondIs(t, span, part, Inward(t));
    DrawIsSector(t, span, part, lightness - span / 2.0);
  }

  lemma GrayParts(c: Rgb)
    requires InUnit(c) && Span(c) == 0.0
    ensures RgbToHsl(c) == Color(0.0, 0.0, Low(c)) && c == Rgb(Low(c), Low(c), Low(c))
    ensures Chroma(0.0, Low(c)) == 0.0
  {}

  /** What a color drawn at its own saturation and lightness but another hue is. */
  lemma Redrawn(c: Rgb, hsl: Color, hue: real, t: real)
    requires InUnit(c) && hsl == RgbToHsl(c) && t == WrapHue(hue) / 60.0
    ensures hsl.lightness - Span(c) / 2.0 == Low(c)
    ensures HslToRgb(hue, hsl.saturation, hsl.lightness) == FromChroma(t, Span(c), hsl.lightness)
  {
    if Span(c) != 0.0 {
      RgbParts(c, hsl);
      ChromaIs(hsl.saturation, hsl.lightness, Span(c));
    } else {
      GrayParts(c);
    }
  }

  lemma TurnRange(hue: real)
    ensures 0.0 <= WrapHue(hue) / 60.0 < 6.0
  {
    var turns := WrapTurns(hue);
  }

  /** The color c turned to `hue` on its wheel. */
  lemma {:induction false} TurnedTo(c: Rgb, span: real, hue: real, t: real, part: real)
    requires InUnit(c) && span == Span(c) && t == WrapHue(hue) / 60.0 && part == Second(span, t)
    ensures 0.0 <= t < 6.0
    ensures HslToRgb(hue, RgbToHsl(c).saturation, RgbToHsl(c).lightness) == Sector(t, Low(c), span, part)
  {
    TurnRange(hue);
    Redrawn(c, RgbToHsl(c), hue, t);
    DrawnSector(t, span, RgbToHsl(c).lightness, part);
  }

  /** A color is the sector of its own hue. */
  lemma AtOwnHue(c: Rgb, span: real, t: real)
    requires Span(c) != 0.0 && span == Span(c) && t == WrapHue(HueDegrees(c)) / 60.0
    ensures HueDegrees(c) == 60.0 * t && 0.0 <= t < 6.0 && c == Sector(t, Low(c), span, Second(span, t))
  {
    OnTheWheel(c, span, HueDegrees(c) / 60.0);
    WrapKeeps(HueDegrees(c));
  }

  lemma GraySector(c: Rgb, t: real, part: real)
    requires Span(c) == 0.0 && part == Second(0.0, t)
    ensures Sector(t, Low(c), 0.0, part) == c
  {
    assert part == 0.0;
  }

  /** rgb to hsl to rgb. */
  lemma RgbRoundTrip(c: Rgb)
    requires InUnit(c)
    ensures HslToRgb(RgbToHsl(c).hue, RgbToHsl(c).saturation, RgbToHsl(c).lightness) == c
  {
    var hue, span := RgbToHsl(c).hue, Span(c);
    var t := WrapHue(hue) / 60.0;
    TurnedTo(c, span, hue, t, Second(span, t));
    if span != 0.0 {
      RgbParts(c, RgbToHsl(c));
      AtOwnHue(c, span, t);
    } else {
      GraySector(c, t, Second(span, t));
    }
  }

  /** hsl to rgb to hsl, for a color that has a hue. */
  lemma HslRoundTrip(hsl: Color)
    requires 0.0 <= hsl.hue < 360.0 && 0.0 < hsl.saturation <= 1.0 && 0.0 < hsl.lightness < 1.0
    ensures var c := HslToRgb(hsl.hue, hsl.saturation, hsl.lightness);
            InUnit(c) && RgbToHsl(c) == hsl
  {
    var t, span := hsl.hue / 60.0, Chroma(hsl.saturation, hsl.lightness);
    WrapKeeps(hsl.hue);
    ChromaRange(hsl, span);
    FromParts(hsl, t, span);
    ReadBack(hsl, t, span);
  }

  lemma ReadBack(hsl: Color, t: real, span: real)
    requires 0.0 <= t < 6.0 && hsl.hue == 60.0 * t
    requires 0.0 < span <= Room(hsl.lightness) && hsl.saturation == span / Room(hsl.lightness) <= 1.0
    ensures var c := FromChroma(t, span, hsl.lightness); InUnit(c) && RgbToHsl(c) == hsl
  {
    var part := Second(span, t);
    DrawnSector(t, span, hsl.lightness, part);
    SectorToHsl(Sector(t, hsl.lightness - span / 2.0, span, part), hsl, t, span, part);
  }

  lemma ChromaRange(hsl: Color, span: real)
    requires 0.0 < hsl.saturation <= 1.0 && 0.0 < hsl.lightness < 1.0
    requires span == Chroma(hsl.saturation, hsl.lightness)
    ensures 0.0 < span <= Room(hsl.lightness) && span / Room(hsl.lightness) == hsl.saturation
  {
    var room := Room(hsl.lightness);
    PartRange(room, hsl.saturation, span);
    Scale(hsl.saturation, 0.0, room);
  }

  lemma SectorToHsl(c: Rgb, hsl: Color, t: real, span: real, part: real)
    requires 0.0 <= t < 6.0 && hsl.hue == 60.0 * t
    requires 0.0 < span <= Room(hsl.lightness) && hsl.saturation == span / Room(hsl.lightness) <= 1.0
    requires part == Second(span, t) && c == Sector(t, hsl.lightness - span / 2.0, span, part)
    ensures InUnit(c) && RgbToHsl(c) == hsl
  {
    HueOfWheel(c, t, hsl.lightness - span / 2.0, span, part);
    EndsInUnit(c, hsl.lightness, span);
  }

  lemma EndsInUnit(c: Rgb, lightness: real, span: real)
    requires 0.0 < span <= Room(lightness)
    requires Low(c) == lightness - span / 2.0 && Span(c) == span
    ensures InUnit(c) && (High(c) + Low(c)) / 2.0 == lightness
  {}

  // ---- HSV ----

  datatype Hsv = Hsv(hue: real, saturation: real, value: real)

  /** hexToHSV on channels. */
  function RgbToHsv(c: Rgb): Hsv
    requires InUnit(c)
  {
    if Span(c) == 0.0 then Hsv(0.0, 0.0, High(c))
    else
      SpanCovers(c);
      Hsv(HueDegrees(c), Span(c) / High(c), High(c))
  }

  lemma HsvParts(c: Rgb, hsv: Hsv)
    requires InUnit(c) && hsv == RgbToHsv(c)
    ensures 0.0 <= hsv.saturation <= 1.0 && hsv.value == High(c) && Times(hsv.saturation, hsv.value) == Span(c)
    ensures hsv.saturation == 0.0 <==> Span(c) == 0.0
  {
    SpanCovers(c);
    if Span(c) != 0.0 { PartOfSpan(Span(c), High(c)); }
  }

  lemma HsvHue(c: Rgb)
    requires InUnit(c)
    ensures RgbToHsv(c).hue == RgbToHsl(c).hue
    ensures Span(c) != 0.0 ==> RgbToHsv(c).hue == HueDegrees(c)
  {
    SpanCovers(c);
  }

  /** The HSV reading tells colors apart, and its hue is the one HSL reads. */
  lemma HsvTellsApart(c: Rgb, d: Rgb)
    requires InUnit(c) && InUnit(d) && RgbToHsv(c) == RgbToHsv(d)
    ensures c == d && RgbToHsv(c).hue == RgbToHsl(c).hue
  {
    var hsv := RgbToHsv(c);
    HsvHue(c);
    HsvHue(d);
    SameHsv(c, d, hsv);
    SameReading(c, d, Span(c), Span(d));
  }

  lemma SameHsv(c: Rgb, d: Rgb, hsv: Hsv)
    requires InUnit(c) && InUnit(d) && hsv == RgbToHsv(c) && hsv == RgbToHsv(d)
    ensures Span(c) == Span(d) && High(c) == High(d)
  {
    HsvParts(c, hsv);
    HsvParts(d, hsv);
  }

  lemma SameReading(c: Rgb, d: Rgb, span: real, span': real)
    requires span == Span(c) && span' == Span(d) && span == span' && High(c) == High(d)
    requires Span(c) != 0.0 ==> HueDegrees(c) == HueDegrees(d)
    ensures c == d
  {
    if span != 0.0 {
      OnTheWheel(c, span, HueDegrees(c) / 60.0);
      OnTheWheel(d, span, HueDegrees(d) / 60.0);
      SameLow(c, d);
    }
  }

  lemma SameLow(c: Rgb, d: Rgb)
    requires Span(c) == Span(d) && High(c) == High(d)
    ensures Low(c) == Low(d)
  {}

  // ---- rotation ----

  function Turn(hsl: Color, degrees: real): Rgb {
    HslToRgb(hsl.hue + degrees, hsl.saturation, hsl.lightness)
  }

  /** rotateHSL on channels: the hue moves, saturation and lightness are held. */
  function Rotate(c: Rgb, degrees: real): Rgb
    requires InUnit(c)
  {
    Turn(RgbToHsl(c), degrees)
  }

  lemma EndsOfTurned(c: Rgb, span: real, t: real, part: real)
    requires 0.0 <= t < 6.0 && span == Span(c) && part == Second(span, t)
    ensures var r := Sector(t, Low(c), span, part); Low(r) == Low(c) && Span(r) == span
  {
    SpanCovers(c);
    if span != 0.0 {
      SecondIs(t, span, part, Inward(t));
      SectorEnds(t, Low(c), span, part);
    } else {
      GraySector(c, t, part);
    }
  }

  /** A rotated color as a sector of its wheel, with the ends it had. */
  lemma RotatedSector(c: Rgb, degrees: real) returns (r: Rgb)
    requires InUnit(c)
    ensures r == Rotate(c, degrees) && Low(r) == Low(c) && Span(r) == Span(c)
  {
    var hue, span := RgbToHsl(c).hue + degrees, Span(c);
    var t := WrapHue(hue) / 60.0;
    var part := Second(span, t);
    TurnedTo(c, span, hue, t, part);
    EndsOfTurned(c, span, t, part);
    r := Sector(t, Low(c), span, part);
  }

  /** A rotation keeps the highest and the lowest channel, so nothing is left for a clamp to do. */
  lemma RotateKeepsEnds(c: Rgb, degrees: real)
    requires InUnit(c)
    ensures var r := Rotate(c, degrees);
            Low(r) == Low(c) && High(r) == High(c) && InUnit(r)
  {
    var r := RotatedSector(c, degrees);
    InUnitByEnds(c, r);
  }

  lemma InUnitByEnds(c: Rgb, r: Rgb)
    requires InUnit(c) && Low(r) == Low(c) && Span(r) == Span(c)
    ensures InUnit(r) && High(r) == High(c)
  {}

  lemma SameWrap(a: real, b: real, saturation: real, lightness: real)
    requires WrapHue(a) == WrapHue(b)
    ensures HslToRgb(a, saturation, lightness) == HslToRgb(b, saturation, lightness)
  {}

  /** The hue of a turned color is the sum, brought once around. */
  lemma RotatedHue(c: Rgb, hsl: Color, degrees: real)
    requires InUnit(c) && Span(c) != 0.0 && hsl == RgbToHsl(c)
    ensures var r := Turn(hsl, degrees);
            InUnit(r) && RgbToHsl(r) == Color(WrapHue(hsl.hue + degrees), hsl.saturation, hsl.lightness)
  {
    var hue := WrapHue(hsl.hue + degrees);
    RgbParts(c, hsl);
    var turns := WrapTurns(hsl.hue + degrees);
    WrapKeeps(hue);
    SameWrap(hsl.hue + degrees, hue, hsl.saturation, hsl.lightness);
    HslRoundTrip(Color(hue, hsl.saturation, hsl.lightness));
  }

  lemma GrayStays(c: Rgb, degrees: real)
    requires InUnit(c) && Span(c) == 0.0
    ensures Rotate(c, degrees) == c
  {
    var t := WrapHue(RgbToHsl(c).hue + degrees) / 60.0;
    TurnedTo(c, 0.0, RgbToHsl(c).hue + degrees, t, Second(0.0, t));
    GraySector(c, t, Second(0.0, t));
  }

  /** Rotations add up, over any angles: negative ones and ones of more than a turn. */
  lemma RotateComposes(c: Rgb, a: real, b: real)
    requires InUnit(c)
    ensures InUnit(Rotate(c, a)) && Rotate(Rotate(c, a), b) == Rotate(c, a + b)
  {
    if Span(c) == 0.0 {
      GrayStays(c, a);
      GrayStays(c, b);
      GrayStays(c, a + b);
    } else {
      RotatedHue(c, RgbToHsl(c), a);
      TurnAdds(RgbToHsl(c), a, b);
    }
  }

  lemma TurnAdds(hsl: Color, a: real, b: real)
    ensures Turn(Color(WrapHue(hsl.hue + a), hsl.saturation, hsl.lightness), b) == Turn(hsl, a + b)
  {
    WrapAdds(hsl.hue, a, b);
    SameWrap(WrapHue(hsl.hue + a) + b, hsl.hue + (a + b), hsl.saturation, hsl.lightness);
  }

  lemma WrapAdds(hue: real, a: real, b: real)
    ensures WrapHue(WrapHue(hue + a) + b) == WrapHue(hue + (a + b))
  {
    var turns := WrapTurns(hue + a);
    WrapUnique(hue + (a + b), WrapHue(hue + a) + b, turns);
  }

  /** Whole turns give the color back. */
  lemma WholeTurns(c: Rgb, degrees: real, turns: int)
    requires InUnit(c) && degrees == 360.0 * turns as real
    ensures Rotate(c, degrees) == c
  {
    TurnedWholly(RgbToHsl(c), degrees, turns);
    RgbRoundTrip(c);
  }

  lemma TurnedWholly(hsl: Color, degrees: real, turns: int)
    requires degrees == 360.0 * turns as real
    ensures Turn(hsl, degrees) == HslToRgb(hsl.hue, hsl.saturation, hsl.lightness)
  {
    WrapUnique(hsl.hue + degrees, hsl.hue, turns);
    SameWrap(hsl.hue + degrees, hsl.hue, hsl.saturation, hsl.lightness);
  }

  /** Where a color that has a hue is before and after a rotation by `sixths` of a turn. */
  lemma {:induction false} TurnedBy(c: Rgb, span: real, degrees: real, sixths: real, t: real, t': real)
    requires InUnit(c) && Span(c) != 0.0 && span == Span(c) && degrees == 60.0 * sixths && 0.0 <= sixths < 6.0
    requires t == WrapHue(HueDegrees(c)) / 60.0 && t' == if t + sixths < 6.0 then t + sixths else t + sixths - 6.0
    ensures 0.0 <= t < 6.0 && c == Sector(t, Low(c), span, Second(span, t))
    ensures Rotate(c, degrees) == Sector(t', Low(c), span, Second(span, t'))
  {
    var hue := HueDegrees(c);
    RgbParts(c, RgbToHsl(c));
    AtOwnHue(c, span, t);
    WrapKeeps(60.0 * t');
    WrapUnique(hue + degrees, 60.0 * t', if t + sixths < 6.0 then 0 else 1);
    TurnedTo(c, span, hue + degrees, t', Second(span, t'));
  }

  /** A third of a turn moves every channel one place on. */
  lemma ThirdOfATurn(c: Rgb)
    requires InUnit(c)
    ensures Rotate(c, 120.0) == Rgb(c.blue, c.red, c.green)
  {
    if Span(c) == 0.0 {
      GrayStays(c, 120.0);
      GrayParts(c);
    } else {
      var t := WrapHue(HueDegrees(c)) / 60.0;
      var t' := if t + 2.0 < 6.0 then t + 2.0 else t + 2.0 - 6.0;
      TurnedBy(c, Span(c), 120.0, 2.0, t, t');
      SameSecond(Span(c), t, t');
      SecondIs(t, Span(c), Second(Span(c), t), Inward(t));
      MovedSector(t, t', Low(c), Span(c), Second(Span(c), t));
    }
  }

  lemma SameSecond(span: real, t: real, t': real)
    requires 0.0 <= t < 6.0 && t' == if t + 2.0 < 6.0 then t + 2.0 else t + 2.0 - 6.0
    ensures Second(span, t) == Second(span, t')
  {
    RiseIsInward(t);
    RiseIsInward(t');
    assert Rise(t) == Rise(t');
  }

  lemma MovedSector(t: real, t': real, low: real, span: real, part: real)
    requires 0.0 <= t < 6.0 && t' == if t + 2.0 < 6.0 then t + 2.0 else t + 2.0 - 6.0
    requires (Inward(t) == 0.0 ==> part == 0.0) && (Inward(t) == 1.0 ==> part == span)
    ensures var c := Sector(t, low, span, part);
            Sector(t', low, span, part) == Rgb(c.blue, c.red, c.green)
  {}

  /** Half a turn mirrors every channel between the lowest and the highest. */
  lemma HalfATurn(c: Rgb)
    requires InUnit(c)
    ensures var sum := High(c) + Low(c);
            Rotate(c, 180.0) == Rgb(sum - c.red, sum - c.green, sum - c.blue)
  {
    if Span(c) == 0.0 {
      GrayStays(c, 180.0);
      GrayParts(c);
    } else {
      var t := WrapHue(HueDegrees(c)) / 60.0;
      var t' := if t + 3.0 < 6.0 then t + 3.0 else t + 3.0 - 6.0;
      TurnedBy(c, Span(c), 180.0, 3.0, t, t');
      Opposite(Span(c), t, t');
      SecondIs(t, Span(c), Second(Span(c), t), Inward(t));
      MirroredSector(t, t', Low(c), Span(c), Second(Span(c), t), Second(Span(c), t'));
    }
  }

  lemma Opposite(span: real, t: real, t': real)
    requires 0.0 <= t < 6.0 && t' == if t + 3.0 < 6.0 then t + 3.0 else t + 3.0 - 6.0
    ensures Second(span, t) + Second(span, t') == span
  {
    RiseIsInward(t);
    RiseIsInward(t');
    Halves(span, Rise(t), Rise(t'));
  }

  lemma Halves(span: real, a: real, b: real)
    requires a + b == 1.0
    ensures Times(span, a) + Times(span, b) == span
  {
    assert span * (a + b) == span * a + span * b;
  }

  lemma MirroredSector(t: real, t': real, low: real, span: real, part: real, part': real)
    requires 0.0 <= t < 6.0 && t' == if t + 3.0 < 6.0 then t + 3.0 else t + 3.0 - 6.0
    requires part + part' == span
    requires (Inward(t) == 0.0 ==> part == 0.0) && (Inward(t) == 1.0 ==> part == span)
    ensures var c := Sector(t, low, span, part);
            var sum := low + low + span;
            Sector(t', low, span, part') == Rgb(sum - c.red, sum - c.green, sum - c.blue)
  {}
}
