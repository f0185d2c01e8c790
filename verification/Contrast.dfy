/** WCAG contrast (internal/color/contrast.go) over exact reals. */
module Contrast {
  import opened Reals
  import opened Hexes
  import opened Hsl
  import opened Oklab

  datatype Level = AAA | AA | AALarge | Fail

  const WHITE := 1.0
  const BLACK := 0.0

  datatype Reading = Reading(ratio: real, level: Level)

  function LevelOf(ratio: real): Level {
    if ratio >= 7.0 then AAA
    else if ratio >= 4.5 then AA
    else if ratio >= 3.0 then AALarge
    else Fail
  }

  function ContrastRatio(a: real, b: real): real
    requires 0.0 <= a && 0.0 <= b
  {
    (Max(a, b) + 0.05) / (Min(a, b) + 0.05)
  }

  /** The ratio cut to two decimals, and the level read off the cut. */
  function ContrastOf(ratio: real): Reading {
    var cut := Trunc(ratio * 100.0) as real / 100.0;
    Reading(cut, LevelOf(cut))
  }

  function RelativeLuminance(m: Math, h: string): real
    requires |h| == HEX_LEN
  {
    var c := LinearOf(m, Channels(h));
    0.2126 * c.red + 0.7152 * c.green + 0.0722 * c.blue
  }

  lemma LuminanceRange(m: Math, h: string)
    requires Lawful(m) && |h| == HEX_LEN
    ensures 0.0 <= RelativeLuminance(m, h) <= 1.0
  {
    var c := Channels(h);
    LinearInUnit(m, c.red);
    LinearInUnit(m, c.green);
    LinearInUnit(m, c.blue);
  }

  /** A channel printed alone, and the hex all of whose channels are this byte. */
  function Alone(v: int, i: nat): string
    requires 0 <= v <= 255 && i < 3
  {
    HexOf(if i == 0 then v else 0, if i == 1 then v else 0, if i == 2 then v else 0)
  }

  function Gray(v: int): string
    requires 0 <= v <= 255
  {
    HexOf(v, v, v)
  }

  lemma ChannelsOfBytes(m: Math, r: int, g: int, b: int)
    requires 0 <= r <= 255 && 0 <= g <= 255 && 0 <= b <= 255
    ensures LinearOf(m, Channels(HexOf(r, g, b)))
         == Rgb(SrgbToLinear(m, r as real / 255.0), SrgbToLinear(m, g as real / 255.0),
                SrgbToLinear(m, b as real / 255.0))
  {
    BytesRead(r, g, b);
  }

  /** Luminance adds up over the channels, and of a gray it is the linear value of its byte. */
  lemma LuminanceAdds(m: Math, r: int, g: int, b: int)
    requires 0 <= r <= 255 && 0 <= g <= 255 && 0 <= b <= 255
    ensures RelativeLuminance(m, HexOf(r, g, b))
         == RelativeLuminance(m, Alone(r, 0)) + RelativeLuminance(m, Alone(g, 1)) + RelativeLuminance(m, Alone(b, 2))
    ensures RelativeLuminance(m, Gray(r)) == SrgbToLinear(m, r as real / 255.0)
  {
    ChannelsOfBytes(m, r, g, b);
    ChannelsOfBytes(m, r, 0, 0);
    ChannelsOfBytes(m, 0, g, 0);
    ChannelsOfBytes(m, 0, 0, b);
    ChannelsOfBytes(m, r, r, r);
    assert SrgbToLinear(m, 0 as real / 255.0) == 0.0;
  }

  /** The luminances of black, white and the three primaries. */
  lemma LuminanceOfPrimaries(m: Math)
    requires Lawful(m)
    ensures RelativeLuminance(m, Gray(0)) == 0.0 && RelativeLuminance(m, Gray(255)) == 1.0
    ensures RelativeLuminance(m, Alone(255, 0)) == 0.2126
    ensures RelativeLuminance(m, Alone(255, 1)) == 0.7152
    ensures RelativeLuminance(m, Alone(255, 2)) == 0.0722
  {
    LinearEnds(m);
    PrimariesByEnds(m);
  }

  lemma PrimariesByEnds(m: Math)
    requires SrgbToLinear(m, 0 as real / 255.0) == 0.0 && SrgbToLinear(m, 255 as real / 255.0) == 1.0
    ensures RelativeLuminance(m, Gray(0)) == 0.0 && RelativeLuminance(m, Gray(255)) == 1.0
    ensures RelativeLuminance(m, Alone(255, 0)) == 0.2126
    ensures RelativeLuminance(m, Alone(255, 1)) == 0.7152
    ensures RelativeLuminance(m, Alone(255, 2)) == 0.0722
  {
    LuminanceAdds(m, 0, 0, 0);
    LuminanceAdds(m, 255, 0, 0);
    AlonesAre(m, 255);
  }

  lemma LinearEnds(m: Math)
    requires Lawful(m)
    ensures SrgbToLinear(m, 0 as real / 255.0) == 0.0 && SrgbToLinear(m, 255 as real / 255.0) == 1.0
  {
    assert (255 as real / 255.0 + 0.055) / 1.055 == 1.0;
  }

  /** A channel alone is its weight of the gray of its byte. */
  lemma ChannelWeighs(m: Math, v: int, i: nat)
    requires 0 <= v <= 255 && i < 3
    ensures RelativeLuminance(m, Alone(v, i))
         == (if i == 0 then 0.2126 else if i == 1 then 0.7152 else 0.0722) * RelativeLuminance(m, Gray(v))
  {
    LuminanceAdds(m, v, 0, 0);
    AlonesAre(m, v);
  }

  lemma AlonesAre(m: Math, v: int)
    requires 0 <= v <= 255
    ensures RelativeLuminance(m, Alone(v, 0)) == 0.2126 * SrgbToLinear(m, v as real / 255.0)
    ensures RelativeLuminance(m, Alone(v, 1)) == 0.7152 * SrgbToLinear(m, v as real / 255.0)
    ensures RelativeLuminance(m, Alone(v, 2)) == 0.0722 * SrgbToLinear(m, v as real / 255.0)
  {
    ChannelsOfBytes(m, v, 0, 0);
    ChannelsOfBytes(m, 0, v, 0);
    ChannelsOfBytes(m, 0, 0, v);
    assert SrgbToLinear(m, 0 as real / 255.0) == 0.0;
  }

  /** The ratio of two luminances is symmetric and between 1 and 21. */
  lemma RatioRange(a: real, b: real)
    requires 0.0 <= a <= 1.0 && 0.0 <= b <= 1.0
    ensures 1.0 <= ContrastRatio(a, b) <= 21.0 && ContrastRatio(a, b) == ContrastRatio(b, a)
    ensures ContrastRatio(a, b) == 1.0 <==> a == b
  {
    var high, low := Max(a, b) + 0.05, Min(a, b) + 0.05;
    QuotientOrder(high, low, 1.0);
    QuotientOrder(high, low, 21.0);
  }

  /** Contrast against white and contrast against black multiply to the whole range. */
  lemma WhiteTimesBlack(luminance: real)
    requires 0.0 <= luminance <= 1.0
    ensures ContrastRatio(luminance, WHITE) * ContrastRatio(luminance, BLACK) == 21.0
    ensures ContrastRatio(luminance, BLACK) * 0.05 == luminance + 0.05
  {
    var x := luminance + 0.05;
    assert ContrastRatio(luminance, WHITE) == 1.05 / x;
    assert ContrastRatio(luminance, BLACK) == x / 0.05;
    assert 1.05 / x * x == 1.05;
  }

  /**
   Cutting to two decimals never moves a ratio to another level: AAA is from 7 on, AA from 4.5, AA for
   large text from 3; what is cut is a number of hundredths and loses less than one.
   */
  lemma CutKeepsLevel(ratio: real)
    requires 1.0 <= ratio
    ensures ContrastOf(ratio).level == AAA <==> 7.0 <= ratio
    ensures ContrastOf(ratio).level == AA <==> 4.5 <= ratio < 7.0
    ensures ContrastOf(ratio).level == AALarge <==> 3.0 <= ratio < 4.5
    ensures ContrastOf(ratio).level == Fail <==> ratio < 3.0
    ensures 0.0 <= ratio - ContrastOf(ratio).ratio < 0.01
    ensures ContrastOf(ratio).ratio * 100.0 == (ratio * 100.0).Floor as real
  {}

  lemma OneIsLarge(white: real, black: real)
    requires 0.0 < white && 0.0 < black && white * black == 21.0
    ensures white >= 4.5 || black >= 4.5
  {
    if white < 4.5 && black < 4.5 {
      SmallProduct(white, black);
    }
  }

  lemma SmallProduct(a: real, b: real)
    requires 0.0 < a < 4.5 && 0.0 < b < 4.5
    ensures a * b < 20.25
  {
    Scale(4.5, b, a);
    assert a * b < a * 4.5;
  }

  /** Every color reaches at least AA against black or against white. */
  lemma {:induction false} AlwaysReadable(luminance: real)
    requires 0.0 <= luminance <= 1.0
    ensures var white := ContrastOf(ContrastRatio(luminance, WHITE));
            var black := ContrastOf(ContrastRatio(luminance, BLACK));
            white.level in {AA, AAA} || black.level in {AA, AAA}
  {
    RatioRange(luminance, WHITE);
    RatioRange(luminance, BLACK);
    WhiteTimesBlack(luminance);
    OneIsReadable(ContrastRatio(luminance, WHITE), ContrastRatio(luminance, BLACK));
  }

  lemma {:induction false} OneIsReadable(white: real, black: real)
    requires 1.0 <= white && 1.0 <= black && white * black == 21.0
    ensures ContrastOf(white).level in {AA, AAA} || ContrastOf(black).level in {AA, AAA}
  {
    OneIsLarge(white, black);
    CutKeepsLevel(white);
    CutKeepsLevel(black);
  }

  /** contrastsOfBW on a hex: one of the two answers is AA or better. */
  lemma HexAlwaysReadable(m: Math, h: string)
    requires Lawful(m) && |h| == HEX_LEN
    ensures 0.0 <= RelativeLuminance(m, h) <= 1.0
    ensures var white := ContrastOf(ContrastRatio(RelativeLuminance(m, h), WHITE));
            var black := ContrastOf(ContrastRatio(RelativeLuminance(m, h), BLACK));
            white.level in {AA, AAA} || black.level in {AA, AAA}
  {
    LuminanceRange(m, h);
    AlwaysReadable(RelativeLuminance(m, h));
  }
}
