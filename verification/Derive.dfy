/** Colors derived from one color (internal/color/derive.go): hue rotations on either wheel, and the two scales. */
module Derive {
  import opened Reals
  import opened Hexes
  import opened Hsl
  import opened Oklab
  import opened Gamut
  import opened Wheel

  const RAMP_STEPS := 7
  const RAMP_DARKEST := 0.3
  const RAMP_LIGHTEST := 0.9
  const TONE_STEPS := RAMP_STEPS

  // ---- the HSL wheel ----

  /** The cutoff both wheels share: a color below it has no hue worth turning. */
  predicate Neutral(m: Math, h: string)
    requires |h| == HEX_LEN
  {
    ChromaOf(m, HexToOklab(m, h)) < NEUTRAL_CHROMA
  }

  function RotateHSL(m: Math, h: string, degrees: real): string {
    if |h| != HEX_LEN then h
    else if Neutral(m, h) then h
    else RotatedHex(Channels(h), degrees)
  }

  /** Reading HSL, turning, and printing. */
  function RotatedHex(c: Rgb, degrees: real): string
    requires InUnit(c)
  {
    SrgbToHex(Rotate(c, degrees))
  }

  function Byte(h: string, i: nat): int
    requires |h| == HEX_LEN && i < 3
  {
    ChannelByte(h, 1 + 2 * i)
  }

  function HighByte(h: string): int
    requires |h| == HEX_LEN
  {
    var r, g, b := Byte(h, 0), Byte(h, 1), Byte(h, 2);
    if r >= g && r >= b then r else if g >= b then g else b
  }

  function LowByte(h: string): int
    requires |h| == HEX_LEN
  {
    var r, g, b := Byte(h, 0), Byte(h, 1), Byte(h, 2);
    if r <= g && r <= b then r else if g <= b then g else b
  }

  lemma ChannelsEnds(h: string)
    requires |h| == HEX_LEN
    ensures InUnit(Channels(h))
    ensures High(Channels(h)) == HighByte(h) as real / 255.0 && Low(Channels(h)) == LowByte(h) as real / 255.0
  {}

  /** Rounding keeps the order of channels, so it keeps which is highest and which is lowest. */
  lemma QuantizedEnds(c: Rgb, high: int, low: int)
    requires 0 <= low <= high <= 255 && High(c) == high as real / 255.0 && Low(c) == low as real / 255.0
    ensures low <= Quantize(c.red) <= high && low <= Quantize(c.green) <= high && low <= Quantize(c.blue) <= high
    ensures high in {Quantize(c.red), Quantize(c.green), Quantize(c.blue)}
    ensures low in {Quantize(c.red), Quantize(c.green), Quantize(c.blue)}
  {
    QuantizeByte(high);
    QuantizeByte(low);
    Quantized(c.red, high, low);
    Quantized(c.green, high, low);
    Quantized(c.blue, high, low);
  }

  lemma Quantized(c: real, high: int, low: int)
    requires 0 <= low <= high <= 255 && low as real / 255.0 <= c <= high as real / 255.0
    ensures low <= Quantize(c) <= high
  {
    QuantizeByte(high);
    QuantizeByte(low);
    QuantizeOrder(c, high as real / 255.0);
    QuantizeOrder(low as real / 255.0, c);
  }

  lemma PrintedEnds(c: Rgb, high: int, low: int)
    requires 0 <= low <= high <= 255 && High(c) == high as real / 255.0 && Low(c) == low as real / 255.0
    ensures HighByte(SrgbToHex(c)) == high && LowByte(SrgbToHex(c)) == low
  {
    QuantizedEnds(c, high, low);
    HexReads(c);
    EndsOfBytes(SrgbToHex(c), Quantize(c.red), Quantize(c.green), Quantize(c.blue), high, low);
  }

  lemma EndsOfBytes(h: string, r: int, g: int, b: int, high: int, low: int)
    requires |h| == HEX_LEN && ChannelByte(h, 1) == r && ChannelByte(h, 3) == g && ChannelByte(h, 5) == b
    requires low <= r <= high && low <= g <= high && low <= b <= high
    requires high in {r, g, b} && low in {r, g, b}
    ensures HighByte(h) == high && LowByte(h) == low
  {}

  lemma QuantizeOrder(c: real, d: real)
    requires c <= d
    ensures Quantize(c) <= Quantize(d)
  {}

  /** Over any angle a rotation gives a normalized hex with the highest and lowest byte it was given. */
  lemma HslRotationKeepsEnds(m: Math, h: string, degrees: real)
    requires IsHex(h)
    ensures var r := RotateHSL(m, h, degrees);
            IsHex(r) && HighByte(r) == HighByte(h) && LowByte(r) == LowByte(h)
  {
    if !Neutral(m, h) {
      var c := Channels(h);
      ChannelsEnds(h);
      RotateKeepsEnds(c, degrees);
      HexReads(Rotate(c, degrees));
      PrintedEnds(Rotate(c, degrees), HighByte(h), LowByte(h));
    }
  }

  /** Reading a hex as HSL and printing it again gives the hex. */
  lemma HexToHslToHex(h: string)
    requires IsHex(h)
    ensures InUnit(Channels(h))
    ensures var hsl := RgbToHsl(Channels(h));
            SrgbToHex(HslToRgb(hsl.hue, hsl.saturation, hsl.lightness)) == h
  {
    ChannelsEnds(h);
    RgbRoundTrip(Channels(h));
    BytesToHex(Channels(h), h);
  }

  lemma UnturnedHex(h: string, c: Rgb, degrees: real)
    requires IsHex(h) && c == Channels(h) && InUnit(c) && Rotate(c, degrees) == c
    ensures RotatedHex(c, degrees) == h
  {
    BytesToHex(c, h);
  }

  /** Whole turns give the color back. */
  lemma HslWholeTurns(m: Math, h: string, degrees: real, turns: int)
    requires IsHex(h) && degrees == 360.0 * turns as real
    ensures RotateHSL(m, h, degrees) == h
  {
    ChannelsEnds(h);
    WholeTurns(Channels(h), degrees, turns);
    UnturnedHex(h, Channels(h), degrees);
  }

  lemma ChannelsAre(h: string)
    requires IsHex(h)
    ensures Channels(h) == Rgb(ChannelOf(h, 0), ChannelOf(h, 1), ChannelOf(h, 2)) && InUnit(Channels(h))
  {}

  lemma ThirdOfHex(h: string)
    requires IsHex(h) && InUnit(Channels(h))
    ensures RotatedHex(Channels(h), 120.0) == "#" + h[5..7] + h[1..3] + h[3..5]
  {
    ChannelsAre(h);
    ThirdOfATurn(Channels(h));
    PrintedPairs(h, 2, 0, 1);
  }

  lemma TwoThirdsOfHex(h: string)
    requires IsHex(h) && InUnit(Channels(h))
    ensures RotatedHex(Channels(h), 240.0) == "#" + h[3..5] + h[5..7] + h[1..3]
  {
    ChannelsAre(h);
    TwoThirdsOfATurn(Channels(h));
    PrintedPairs(h, 1, 2, 0);
  }

  /** The triad needs no rounding: the three bytes move one place on, and two. */
  lemma HslTriad(m: Math, h: string)
    requires IsHex(h) && !Neutral(m, h)
    ensures RotateHSL(m, h, 120.0) == "#" + h[5..7] + h[1..3] + h[3..5]
    ensures RotateHSL(m, h, 240.0) == "#" + h[3..5] + h[5..7] + h[1..3]
  {
    ChannelsAre(h);
    ThirdOfHex(h);
    TwoThirdsOfHex(h);
  }

  lemma TwoThirdsOfATurn(c: Rgb)
    requires InUnit(c)
    ensures Rotate(c, 240.0) == Rgb(c.green, c.blue, c.red)
  {
    var third := Rgb(c.blue, c.red, c.green);
    ThirdOfATurn(c);
    ThirdOfATurn(third);
    RotateComposes(c, 120.0, 120.0);
  }

  function ChannelOf(h: string, i: nat): real
    requires |h| == HEX_LEN && i < 3
  {
    Byte(h, i) as real / 255.0
  }

  lemma PrintedPairs(h: string, i: nat, j: nat, k: nat)
    requires IsHex(h) && i < 3 && j < 3 && k < 3
    ensures SrgbToHex(Rgb(ChannelOf(h, i), ChannelOf(h, j), ChannelOf(h, k)))
         == "#" + h[1 + 2 * i..3 + 2 * i] + h[1 + 2 * j..3 + 2 * j] + h[1 + 2 * k..3 + 2 * k]
  {
    PrintedPair(h, i);
    PrintedPair(h, j);
    PrintedPair(h, k);
  }

  lemma PrintedPair(h: string, i: nat)
    requires IsHex(h) && i < 3
    ensures Pair(Quantize(ChannelOf(h, i))) == h[1 + 2 * i..3 + 2 * i]
  {
    QuantizeByte(Byte(h, i));
    PairOfDigits(h, 1 + 2 * i);
  }

  /** Half a turn needs no rounding: every byte is mirrored between the lowest and the highest. */
  lemma HslHalf(m: Math, h: string)
    requires IsHex(h) && !Neutral(m, h)
    ensures var r := RotateHSL(m, h, 180.0);
            var sum := HighByte(h) + LowByte(h);
            && IsHex(r)
            && Byte(r, 0) == sum - Byte(h, 0) && Byte(r, 1) == sum - Byte(h, 1) && Byte(r, 2) == sum - Byte(h, 2)
  {
    ChannelsEnds(h);
    BytesAre(h, Byte(h, 0), Byte(h, 1), Byte(h, 2));
    HalfOfHex(Channels(h), Byte(h, 0), Byte(h, 1), Byte(h, 2), HighByte(h), LowByte(h));
  }

  lemma BytesAre(h: string, r: int, g: int, b: int)
    requires |h| == HEX_LEN && r == Byte(h, 0) && g == Byte(h, 1) && b == Byte(h, 2)
    ensures Channels(h) == Rgb(r as real / 255.0, g as real / 255.0, b as real / 255.0)
  {}

  lemma HalfOfHex(c: Rgb, r: int, g: int, b: int, high: int, low: int)
    requires InUnit(c) && c == Rgb(r as real / 255.0, g as real / 255.0, b as real / 255.0)
    requires High(c) == high as real / 255.0 && Low(c) == low as real / 255.0
    ensures var h := RotatedHex(c, 180.0);
            && IsHex(h)
            && Byte(h, 0) == high + low - r && Byte(h, 1) == high + low - g && Byte(h, 2) == high + low - b
  {
    HalfATurn(c);
    MirroredBytes(c, r, g, b, high, low, Rotate(c, 180.0));
    PrintedBytes(Rotate(c, 180.0), high + low - r, high + low - g, high + low - b);
  }

  lemma PrintedBytes(c: Rgb, r: int, g: int, b: int)
    requires Quantize(c.red) == r && Quantize(c.green) == g && Quantize(c.blue) == b
    ensures var h := SrgbToHex(c);
            IsHex(h) && Byte(h, 0) == r && Byte(h, 1) == g && Byte(h, 2) == b
  {
    HexReads(c);
  }

  lemma MirroredBytes(c: Rgb, r: int, g: int, b: int, high: int, low: int, half: Rgb)
    requires InUnit(c) && c == Rgb(r as real / 255.0, g as real / 255.0, b as real / 255.0)
    requires High(c) == high as real / 255.0 && Low(c) == low as real / 255.0
    requires var sum := High(c) + Low(c);
             half == Rgb(sum - c.red, sum - c.green, sum - c.blue)
    ensures Quantize(half.red) == high + low - r
    ensures Quantize(half.green) == high + low - g
    ensures Quantize(half.blue) == high + low - b
  {
    BytesWithin(r, g, b, high, low, c);
    MirroredByte(high + low, r, half.red);
    MirroredByte(high + low, g, half.green);
    MirroredByte(high + low, b, half.blue);
  }

  lemma BytesWithin(r: int, g: int, b: int, high: int, low: int, c: Rgb)
    requires InUnit(c) && c == Rgb(r as real / 255.0, g as real / 255.0, b as real / 255.0)
    requires High(c) == high as real / 255.0 && Low(c) == low as real / 255.0
    ensures 0 <= low <= r <= high <= 255 && low <= g <= high && low <= b <= high
  {}

  lemma MirroredByte(sum: int, byte: int, x: real)
    requires x == sum as real / 255.0 - byte as real / 255.0 && 0 <= sum - byte <= 255
    ensures Quantize(x) == sum - byte
  {
    QuantizeByte(sum - byte);
    assert x == (sum - byte) as real / 255.0;
  }

  // ---- the OkLCh wheel ----

  function LinearToHex(m: Math, c: Rgb): string {
    SrgbToHex(Rgb(SrgbFromLinear(m, c.red), SrgbFromLinear(m, c.green), SrgbFromLinear(m, c.blue)))
  }

  /** The two exponents undo each other. */
  lemma RootOfPower(m: Math, x: real)
    requires Lawful(m) && 0.0 <= x
    ensures m.root(m.power(x)) == x
  {
    var p := m.power(x);
    assert Pow(m.power(x), 5) == Pow(x, 12) && p >= 0.0;
    var r := m.root(p);
    assert Pow(m.root(p), 12) == Pow(p, 5) && r >= 0.0;
    PowOrder(r, x, 12);
    PowOrder(x, r, 12);
  }

  /** The power of 2.4 is past the linear stretch of the transfer function before the eleventh byte. */
  lemma PastLinear(m: Math, x: real)
    requires Lawful(m) && 0.093 <= x
    ensures 0.0031308 < m.power(x)
  {
    var p := m.power(0.093);
    assert m.power(0.093) <= m.power(x);
    assert Pow(m.power(0.093), 5) == Pow(0.093, 12);
    assert Pow(0.093, 12) > Pow(0.0031308, 5);
    if p <= 0.0031308 { PowMonotone(p, 0.0031308, 5); }
  }

  /**
   The two halves of the transfer function do not meet exactly, but no byte falls into the gap: every
   channel of a hex survives becoming linear and back.
   */
  lemma ByteThroughLinear(m: Math, v: int)
    requires Lawful(m) && 0 <= v <= 255
    ensures SrgbFromLinear(m, SrgbToLinear(m, v as real / 255.0)) == v as real / 255.0
  {
    var c := v as real / 255.0;
    if v >= 11 {
      var x := (c + 0.055) / 1.055;
      assert x >= 0.093;
      PastLinear(m, x);
      RootOfPower(m, x);
    }
  }

  /** colorAt. */
  function ColorAt(m: Math, lightness: real, chroma: real, hue: Hue): string {
    LinearToHex(m, OklabToLinear(At(lightness, chroma, hue)))
  }

  /** colorAt as a value: lightness, chroma and hue to the color printed. */
  type Painter = (real, real, Hue) -> string

  function Paint(m: Math): Painter {
    (lightness: real, chroma: real, hue: Hue) => ColorAt(m, lightness, chroma, hue)
  }

  /**
   `gamut` is the test of oklabToLinear hue by hue, `paint` is colorAt. The hue is the one at which the
   color's own lightness and chroma give the color turned.
   */
  method RotateOkLCh(m: Math, gamut: Hue -> Test, paint: Painter, h: string, degrees: real)
    returns (out: string, ghost hue: Hue, ghost l: real, ghost c: real)
    requires Lawful(m)
    ensures |h| != HEX_LEN || Neutral(m, h) ==> out == h
    ensures |h| == HEX_LEN && !Neutral(m, h) ==>
              var lab := HexToOklab(m, h);
              && IsTurn(m, lab, degrees, At(lab.lightness, ChromaOf(m, lab), hue))
              && Fitted(gamut(hue), lab.lightness, ChromaOf(m, lab), l, c) && out == paint(l, c, hue)
  {
    hue, l, c := Hue(1.0, 0.0), 0.0, 0.0;
    if |h| != HEX_LEN { return h, hue, l, c; }
    var lab := HexToOklab(m, h);
    var chroma := ChromaOf(m, lab);
    if chroma < NEUTRAL_CHROMA { return h, hue, l, c; }
    var turned := TurnedHue(m, lab, degrees);
    var lightness, held := FitToSRGB(gamut(turned), lab.lightness, chroma);
    out := paint(lightness, held, turned);
    TurnedHueTurns(m, lab, degrees);
    hue, l, c := turned, lightness, held;
  }

  /** The neutral gate: a color within 0.02 of the gray axis. */
  lemma NeutralMeans(m: Math, h: string, lab: Lab)
    requires Lawful(m) && |h| == HEX_LEN && lab == HexToOklab(m, h)
    ensures Neutral(m, h) <==> Square(lab.a) + Square(lab.b) < 0.0004
  {
    var chroma := ChromaOf(m, lab);
    ChromaSquared(m, lab);
    assert Square(0.02) == 0.0004;
    if chroma < 0.02 { SquareIncreases(chroma, 0.02); } else if chroma > 0.02 { SquareIncreases(0.02, chroma); }
  }

  lemma SquareIncreases(x: real, y: real)
    requires 0.0 <= x < y
    ensures Square(x) < Square(y)
  {
    Positive(y - x, y + x, Square(y) - Square(x));
  }

  /**
   A rotation in OkLCh ends in the gamut with at most its own chroma, for every hue turned to along
   which chroma is lost only upwards: all three linear channels are in [0, 1], to within a billionth.
   A color that sRGB can show at the hue turned to is not moved.
   */
  lemma {:induction false} OkLChRotationIsShown(
      m: Math, h: string, lab: Lab, hue: Hue, shown: Test, l: real, c: real, own: Rgb, linear: Rgb)
    requires Lawful(m) && |h| == HEX_LEN && lab == HexToOklab(m, h) && IsGamutTest(shown, hue)
    requires Fitted(shown, lab.lightness, ChromaOf(m, lab), l, c)
    requires IsLinear(own, At(lab.lightness, ChromaOf(m, lab), hue)) && IsLinear(linear, At(l, c, hue))
    ensures InSrgb(own) ==> l == lab.lightness && c == ChromaOf(m, lab) && linear == own
    ensures LosesUpwards(shown) ==> InSrgb(linear) && 0.0 <= l <= 1.0 && 0.0 <= c <= ChromaOf(m, lab)
  {
    HexLightnessRange(m, h);
    ChromaSquared(m, lab);
    FitInSrgb(shown, hue, lab.lightness, ChromaOf(m, lab), l, c, own, linear);
  }

  /** `out` prints the linear channels `c`: a normalized hex, each byte that of its encoded channel. */
  predicate Prints(m: Math, out: string, c: Rgb) {
    && IsHex(out)
    && IsByteOf(Byte(out, 0), SrgbFromLinear(m, c.red))
    && IsByteOf(Byte(out, 1), SrgbFromLinear(m, c.green))
    && IsByteOf(Byte(out, 2), SrgbFromLinear(m, c.blue))
  }

  lemma LinearToHexPrints(m: Math, c: Rgb)
    ensures Prints(m, LinearToHex(m, c), c)
  {
    var encoded := Rgb(SrgbFromLinear(m, c.red), SrgbFromLinear(m, c.green), SrgbFromLinear(m, c.blue));
    HexReads(encoded);
    QuantizeError(encoded.red);
    QuantizeError(encoded.green);
    QuantizeError(encoded.blue);
  }

  /** The painter paints what colorAt returns. */
  ghost predicate IsPainter(paint: Painter, m: Math) {
    forall l, c, hue {:trigger ColorAt(m, l, c, hue)} :: paint(l, c, hue) == ColorAt(m, l, c, hue)
  }

  lemma PaintIsPainter(m: Math)
    ensures IsPainter(Paint(m), m)
  {}

  lemma PaintPrints(m: Math, paint: Painter, l: real, c: real, hue: Hue, linear: Rgb)
    requires IsPainter(paint, m) && IsLinear(linear, At(l, c, hue))
    ensures Prints(m, paint(l, c, hue), linear)
  {
    assert paint(l, c, hue) == ColorAt(m, l, c, hue);
    assert OklabToLinear(At(l, c, hue)) == linear;
    LinearToHexPrints(m, linear);
  }

  /**
   `out` prints the color at lightness l and chroma c in the direction of `hue`, where h's own lightness
   and chroma are h turned by `degrees`: h turned, if sRGB can show that, else what the fit settles on,
   which sRGB can show wherever chroma is lost only upwards along the hue.
   */
  ghost predicate PrintsTurned(
    m: Math, h: string, degrees: real, out: string, hue: Hue, l: real, c: real, shown: Test, own: Rgb, linear: Rgb)
    requires |h| == HEX_LEN
  {
    var lab := HexToOklab(m, h);
    var chroma := ChromaOf(m, lab);
    && IsTurn(m, lab, degrees, At(lab.lightness, chroma, hue))
    && IsLinear(own, At(lab.lightness, chroma, hue)) && IsLinear(linear, At(l, c, hue))
    && Prints(m, out, linear)
    && IsGamutTest(shown, hue) && Fitted(shown, lab.lightness, chroma, l, c)
    && (InSrgb(own) ==> linear == own)
    && (LosesUpwards(shown) ==> InSrgb(linear) && 0.0 <= c <= chroma)
  }

  ghost predicate IsTurned(m: Math, h: string, degrees: real, out: string)
    requires |h| == HEX_LEN
  {
    if Neutral(m, h) then out == h
    else exists hue, l, c, shown, own, linear :: PrintsTurned(m, h, degrees, out, hue, l, c, shown, own, linear)
  }

  lemma TurnedPrints(
      m: Math, h: string, degrees: real, hue: Hue, shown: Test, paint: Painter, l: real, c: real, own: Rgb, linear: Rgb)
    requires Lawful(m) && |h| == HEX_LEN && IsGamutTest(shown, hue) && IsPainter(paint, m)
    requires IsTurn(m, HexToOklab(m, h), degrees,
                    At(HexToOklab(m, h).lightness, ChromaOf(m, HexToOklab(m, h)), hue))
    requires IsLinear(own, At(HexToOklab(m, h).lightness, ChromaOf(m, HexToOklab(m, h)), hue))
    requires IsLinear(linear, At(l, c, hue))
    requires Fitted(shown, HexToOklab(m, h).lightness, ChromaOf(m, HexToOklab(m, h)), l, c)
    ensures PrintsTurned(m, h, degrees, paint(l, c, hue), hue, l, c, shown, own, linear)
  {
    PaintPrints(m, paint, l, c, hue, linear);
    OkLChRotationIsShown(m, h, HexToOklab(m, h), hue, shown, l, c, own, linear);
  }

  /** rotateOkLCh with the test of oklabToLinear and with colorAt. */
  method TurnOkLCh(m: Math, h: string, degrees: real) returns (out: string)
    requires Lawful(m)
    ensures |h| != HEX_LEN ==> out == h
    ensures |h| == HEX_LEN ==> IsTurned(m, h, degrees, out)
  {
    ghost var hue, l, c;
    out, hue, l, c := RotateOkLCh(m, (hue: Hue) => Shown(hue), Paint(m), h, degrees);
    if |h| == HEX_LEN && !Neutral(m, h) {
      ghost var lab := HexToOklab(m, h);
      ghost var own := OklabToLinear(At(lab.lightness, ChromaOf(m, lab), hue));
      ghost var linear := OklabToLinear(At(l, c, hue));
      ShownIsGamutTest(hue);
      PaintIsPainter(m);
      LinearIs(At(lab.lightness, ChromaOf(m, lab), hue));
      LinearIs(At(l, c, hue));
      TurnedPrints(m, h, degrees, hue, Shown(hue), Paint(m), l, c, own, linear);
      assert PrintsTurned(m, h, degrees, out, hue, l, c, Shown(hue), own, linear);
    }
  }

  datatype Space = SpaceOkLab | SpaceHSL

  /** What rotate promises on either wheel. */
  ghost predicate IsRotated(m: Math, space: Space, h: string, degrees: real, out: string) {
    if |h| != HEX_LEN then out == h
    else if space.SpaceHSL? then out == RotateHSL(m, h, degrees)
    else IsTurned(m, h, degrees, out)
  }

  /** rotate: the wheel is chosen by the space. */
  method RotateOn(m: Math, space: Space, h: string, degrees: real) returns (out: string)
    requires Lawful(m)
    ensures IsRotated(m, space, h, degrees, out)
  {
    if space.SpaceHSL? { return RotateHSL(m, h, degrees); }
    out := TurnOkLCh(m, h, degrees);
  }

  ghost predicate AreRotated(m: Math, space: Space, h: string, degs: seq<real>, out: seq<string>) {
    |out| <= |degs| && forall i | 0 <= i < |out| :: IsRotated(m, space, h, degs[i], out[i])
  }

  lemma OneMoreRotated(m: Math, space: Space, h: string, degs: seq<real>, out: seq<string>, next: string)
    requires AreRotated(m, space, h, degs, out) && |out| < |degs|
    requires IsRotated(m, space, h, degs[|out|], next)
    ensures AreRotated(m, space, h, degs, out + [next])
  {}

  /** A harmony that is a list of angles: the slice is filled angle by angle. */
  method Rotations(m: Math, space: Space, h: string, degs: seq<real>) returns (out: array<string>)
    requires Lawful(m)
    ensures fresh(out) && out.Length == |degs|
    ensures AreRotated(m, space, h, degs, out[..])
  {
    out := new string[|degs|] (_ => "");
    for i := 0 to |degs|
      invariant AreRotated(m, space, h, degs, out[..i])
    {
      var turned := RotateOn(m, space, h, degs[i]);
      OneMoreRotated(m, space, h, degs, out[..i], turned);
      out[i] := turned;
      assert out[..i + 1] == out[..i] + [turned];
    }
    assert out[..|degs|] == out[..];
  }

  /**
   A rotation in OkLCh keeps the chroma, only the direction moves, unless no sampled lightness of the
   hue turned to holds it.
   */
  lemma OkLChRotationKeepsChroma(
      m: Math, lab: Lab, degrees: real, hue: Hue, shown: Test, l: real, c: real)
    requires Lawful(m) && hue == TurnedHue(m, lab, degrees) && IsGamutTest(shown, hue)
    requires Fitted(shown, lab.lightness, ChromaOf(m, lab), l, c)
    requires !NoneHolds(shown, LIGHTNESS_SAMPLES + 1, ChromaOf(m, lab))
    ensures c == ChromaOf(m, lab)
    ensures Square(At(l, c, hue).a) + Square(At(l, c, hue).b) == Square(lab.a) + Square(lab.b)
  {
    ChromaSquared(m, lab);
    UnitDirection(m, lab, degrees);
    AtHasChroma(l, c, hue);
    if !shown(lab.lightness, ChromaOf(m, lab)) {
      var k, edge := FitKeepsChroma(shown, lab.lightness, ChromaOf(m, lab), l, c);
    }
  }

  // ---- scales ----

  function RampLightness(i: nat): real {
    RAMP_DARKEST + (RAMP_LIGHTEST - RAMP_DARKEST) / 6.0 * i as real
  }

  function RampChroma(shown: Test, chroma: real, i: nat): real {
    Min(chroma, MaxChroma(shown, RampLightness(i)))
  }

  function RampStep(paint: Painter, shown: Test, chroma: real, hue: Hue, i: nat): string {
    paint(RampLightness(i), RampChroma(shown, chroma, i), hue)
  }

  /** The hue holds `held` at this lightness, and a 2^21st more it does not, or that is the ceiling of 0.5. */
  ghost predicate IsCeiling(shown: Test, lightness: real, held: real) {
    && 0.0 <= held && (held > 0.0 || shown(lightness, 0.0) ==> shown(lightness, held))
    && (held + 1.0 / 2097152.0 == 0.5 || !shown(lightness, held + 1.0 / 2097152.0))
  }

  /**
   `out` prints a color of h's hue at the i-th of seven lightnesses, three tenths and a tenth more each,
   with h's own chroma or, if that is less, what the hue holds there.
   */
  ghost predicate PrintsRampStep(m: Math, h: string, i: nat, out: string, held: real, shown: Test, linear: Rgb)
    requires |h| == HEX_LEN
  {
    var lab := HexToOklab(m, h);
    var hue, l := UnitHue(m, lab), 0.3 + 0.1 * i as real;
    var c := if held < ChromaOf(m, lab) then held else ChromaOf(m, lab);
    && IsGamutTest(shown, hue) && IsCeiling(shown, l, held)
    && IsLinear(linear, At(l, c, hue)) && Prints(m, out, linear)
    && (DownClosed(shown, l) ==> InSrgb(linear))
  }

  ghost predicate IsRampStep(m: Math, h: string, i: nat, out: string)
    requires |h| == HEX_LEN
  {
    exists held, shown, linear :: PrintsRampStep(m, h, i, out, held, shown, linear)
  }

  method Ramp(m: Math, h: string) returns (out: array<string>)
    requires Lawful(m)
    ensures fresh(out) && out.Length == 7
    ensures |h| != HEX_LEN ==> forall i | 0 <= i < RAMP_STEPS :: out[i] == h
    ensures |h| == HEX_LEN ==> forall i | 0 <= i < RAMP_STEPS :: IsRampStep(m, h, i, out[i])
  {
    out := new string[RAMP_STEPS] (_ => h);
    if |h| == HEX_LEN {
      var lab := HexToOklab(m, h);
      var hue := UnitHue(m, lab);
      FillRamp(Paint(m), Shown(hue), ChromaOf(m, lab), hue, out);
      ShownIsGamutTest(hue);
      PaintIsPainter(m);
      forall i | 0 <= i < RAMP_STEPS ensures IsRampStep(m, h, i, out[i]) {
        RampStepPrints(m, h, Paint(m), Shown(hue), hue, i);
      }
    }
  }

  /** The loop of ramp: lightness swept, chroma clamped to what the hue holds there. */
  method FillRamp(paint: Painter, shown: Test, chroma: real, hue: Hue, out: array<string>)
    requires out.Length == RAMP_STEPS
    modifies out
    ensures forall i | 0 <= i < RAMP_STEPS :: out[i] == RampStep(paint, shown, chroma, hue, i)
  {
    for i := 0 to RAMP_STEPS
      invariant forall j | 0 <= j < i :: out[j] == RampStep(paint, shown, chroma, hue, j)
    {
      var step := PaintStep(paint, shown, chroma, hue, i);
      out[i] := step;
    }
  }

  method PaintStep(paint: Painter, shown: Test, chroma: real, hue: Hue, i: nat) returns (step: string)
    ensures step == RampStep(paint, shown, chroma, hue, i)
  {
    var lightness := RampLightness(i);
    var held := MaxChromaAt(shown, lightness);
    step := paint(lightness, Min(chroma, held), hue);
  }

  /** The steps are a tenth apart, from three tenths to nine. */
  lemma RampLightnessIs(i: nat)
    ensures RampLightness(i) == 0.3 + 0.1 * i as real
  {}

  lemma CeilingIs(shown: Test, lightness: real)
    ensures IsCeiling(shown, lightness, MaxChroma(shown, lightness))
  {
    MaxChromaIsShown(shown, lightness);
  }

  /** Every step of a ramp can be shown, with the chroma asked for or less. */
  lemma RampIsShown(shown: Test, chroma: real, i: nat)
    requires ShowsGrays(shown) && 0.0 <= chroma && i < RAMP_STEPS && DownClosed(shown, RampLightness(i))
    ensures shown(RampLightness(i), RampChroma(shown, chroma, i)) && RampChroma(shown, chroma, i) <= chroma
    ensures RAMP_DARKEST <= RampLightness(i) <= RAMP_LIGHTEST
  {
    MaxChromaIsShown(shown, RampLightness(i));
    MaxChromaIsMaximal(shown, RampLightness(i), RampChroma(shown, chroma, i));
  }

  /** Every step of the ramp of a hex is in the gamut: its linear channels are in [0, 1], to within a billionth. */
  lemma RampInGamut(m: Math, lab: Lab, hue: Hue, shown: Test, i: nat, linear: Rgb)
    requires Lawful(m) && IsGamutTest(shown, hue) && i < RAMP_STEPS && DownClosed(shown, RampLightness(i))
    requires IsLinear(linear, At(RampLightness(i), RampChroma(shown, ChromaOf(m, lab), i), hue))
    ensures InSrgb(linear)
  {
    ChromaSquared(m, lab);
    GraysAreShown(shown, hue);
    RampIsShown(shown, ChromaOf(m, lab), i);
    ShownMeans(shown, hue, RampLightness(i), RampChroma(shown, ChromaOf(m, lab), i), linear);
  }

  lemma RampStepPrints(m: Math, h: string, paint: Painter, shown: Test, hue: Hue, i: nat)
    requires Lawful(m) && |h| == HEX_LEN && i < RAMP_STEPS && hue == UnitHue(m, HexToOklab(m, h))
    requires IsGamutTest(shown, hue) && IsPainter(paint, m)
    ensures IsRampStep(m, h, i, RampStep(paint, shown, ChromaOf(m, HexToOklab(m, h)), hue, i))
  {
    var lab := HexToOklab(m, h);
    var held := MaxChroma(shown, RampLightness(i));
    var c := if held < ChromaOf(m, lab) then held else ChromaOf(m, lab);
    var linear := OklabToLinear(At(RampLightness(i), c, hue));
    LinearIs(At(RampLightness(i), c, hue));
    assert c == RampChroma(shown, ChromaOf(m, lab), i);
    if DownClosed(shown, RampLightness(i)) { RampInGamut(m, lab, hue, shown, i, linear); }
    RampLightnessIs(i);
    PaintPrints(m, paint, RampLightness(i), c, hue, linear);
    CeilingIs(shown, RampLightness(i));
    StepPrints(m, h, paint(RampLightness(i), c, hue), shown, hue, i, RampLightness(i), held, c, linear);
    assert PrintsRampStep(m, h, i, paint(RampLightness(i), c, hue), held, shown, linear);
  }

  lemma StepPrints(
      m: Math, h: string, out: string, shown: Test, hue: Hue, i: nat, l: real, held: real, c: real, linear: Rgb)
    requires |h| == HEX_LEN && hue == UnitHue(m, HexToOklab(m, h)) && l == 0.3 + 0.1 * i as real
    requires IsGamutTest(shown, hue) && Prints(m, out, linear) && IsLinear(linear, At(l, c, hue))
    requires IsCeiling(shown, l, held) && (DownClosed(shown, l) ==> InSrgb(linear))
    requires c == if held < ChromaOf(m, HexToOklab(m, h)) then held else ChromaOf(m, HexToOklab(m, h))
    ensures PrintsRampStep(m, h, i, out, held, shown, linear)
  {}

  function ToneShare(held: real, i: nat): real { held / 6.0 * i as real }

  function ToneChroma(shown: Test, lightness: real, i: nat): real {
    ToneShare(MaxChroma(shown, lightness), i)
  }

  function ToneStep(paint: Painter, shown: Test, lightness: real, hue: Hue, i: nat): string {
    paint(lightness, ToneChroma(shown, lightness, i), hue)
  }

  /** `out` prints a color of h's own lightness and hue with i sixths of the chroma `held`. */
  ghost predicate PrintsToneStep(m: Math, h: string, i: nat, out: string, held: real, shown: Test, c: real, linear: Rgb)
    requires |h| == HEX_LEN
  {
    var lab := HexToOklab(m, h);
    && 6.0 * c == i as real * held
    && IsLinear(linear, At(lab.lightness, c, UnitHue(m, lab))) && Prints(m, out, linear)
    && (DownClosed(shown, lab.lightness) ==> InSrgb(linear))
  }

  ghost predicate IsToneStep(m: Math, h: string, i: nat, out: string, held: real, shown: Test)
    requires |h| == HEX_LEN
  {
    exists c, linear :: PrintsToneStep(m, h, i, out, held, shown, c, linear)
  }

  /** `held` is the most chroma sRGB holds at the lightness and hue of h. */
  ghost predicate IsMost(m: Math, h: string, held: real, shown: Test)
    requires |h| == HEX_LEN
  {
    var lab := HexToOklab(m, h);
    IsGamutTest(shown, UnitHue(m, lab)) && IsCeiling(shown, lab.lightness, held) && shown(lab.lightness, held)
  }

  method Tones(m: Math, h: string) returns (out: array<string>, ghost held: real, ghost shown: Test)
    requires Lawful(m)
    ensures fresh(out) && out.Length == 7
    ensures |h| != HEX_LEN || Neutral(m, h) ==> forall i | 0 <= i < TONE_STEPS :: out[i] == h
    ensures |h| == HEX_LEN && !Neutral(m, h) ==>
              && IsMost(m, h, held, shown)
              && forall i | 0 <= i < TONE_STEPS :: IsToneStep(m, h, i, out[i], held, shown)
  {
    out := new string[TONE_STEPS] (_ => h);
    held, shown := 0.0, (lightness: real, chroma: real) => false;
    var lab := if |h| == HEX_LEN then HexToOklab(m, h) else Lab(0.0, 0.0, 0.0);
    OriginIsNeutral(m);
    if ChromaOf(m, lab) < NEUTRAL_CHROMA { return; }
    var hue := UnitHue(m, lab);
    FillTones(Paint(m), Shown(hue), lab.lightness, hue, out);
    held, shown := MaxChroma(Shown(hue), lab.lightness), Shown(hue);
    ShownIsGamutTest(hue);
    PaintIsPainter(m);
    ToneCeiling(m, h, shown);
    forall i | 0 <= i < TONE_STEPS ensures IsToneStep(m, h, i, out[i], held, shown) {
      ToneStepPrints(m, h, Paint(m), shown, hue, i);
    }
  }

  /** The loop of tones: chroma swept from zero to what the lightness holds. */
  method FillTones(paint: Painter, shown: Test, lightness: real, hue: Hue, out: array<string>)
    requires out.Length == TONE_STEPS
    modifies out
    ensures forall i | 0 <= i < TONE_STEPS :: out[i] == ToneStep(paint, shown, lightness, hue, i)
  {
    var held := MaxChromaAt(shown, lightness);
    for i := 0 to TONE_STEPS
      invariant forall j | 0 <= j < i :: out[j] == ToneStep(paint, shown, lightness, hue, j)
    {
      out[i] := paint(lightness, ToneShare(held, i), hue);
    }
  }

  lemma OriginIsNeutral(m: Math)
    requires Lawful(m)
    ensures ChromaOf(m, Lab(0.0, 0.0, 0.0)) == 0.0
  {
    assert Square(m.sqrt(0.0)) == 0.0;
    SquareSign(m.sqrt(0.0));
  }

  lemma ToneCeiling(m: Math, h: string, shown: Test)
    requires Lawful(m) && |h| == HEX_LEN && IsGamutTest(shown, UnitHue(m, HexToOklab(m, h)))
    ensures IsMost(m, h, MaxChroma(shown, HexToOklab(m, h).lightness), shown)
  {
    HexLightnessRange(m, h);
    GraysAreShown(shown, UnitHue(m, HexToOklab(m, h)));
    CeilingIs(shown, HexToOklab(m, h).lightness);
  }

  /** Every step of a tone scale can be shown; it starts at zero and ends at the most the lightness holds. */
  lemma TonesAreShown(shown: Test, lightness: real, i: nat)
    requires shown(lightness, 0.0) && DownClosed(shown, lightness) && i < TONE_STEPS
    ensures shown(lightness, ToneChroma(shown, lightness, i))
    ensures ToneChroma(shown, lightness, 0) == 0.0
    ensures ToneChroma(shown, lightness, TONE_STEPS - 1) == MaxChroma(shown, lightness)
  {
    MaxChromaIsShown(shown, lightness);
    ToneShares(MaxChroma(shown, lightness), i);
    MaxChromaIsMaximal(shown, lightness, ToneChroma(shown, lightness, i));
  }

  lemma ToneShares(held: real, i: nat)
    requires i <= 6 && 0.0 <= held
    ensures 0.0 <= ToneShare(held, i) <= held && ToneShare(held, 0) == 0.0 && ToneShare(held, 6) == held
  {
    Shrinks(held, i as real / 6.0);
    assert ToneShare(held, i) == held * (i as real / 6.0);
  }

  /**
   Every step of the tones of a hex is in the gamut, its linear channels in [0, 1] to within a billionth:
   the lightness of a hex is in [0, 1).
   */
  lemma {:induction false} TonesInGamut(m: Math, h: string, lab: Lab, hue: Hue, shown: Test, i: nat, linear: Rgb)
    requires Lawful(m) && |h| == HEX_LEN && lab == HexToOklab(m, h) && i < TONE_STEPS
    requires IsGamutTest(shown, hue) && DownClosed(shown, lab.lightness)
    requires IsLinear(linear, At(lab.lightness, ToneChroma(shown, lab.lightness, i), hue))
    ensures InSrgb(linear)
  {
    HexLightnessRange(m, h);
    GraysAreShown(shown, hue);
    TonesAreShown(shown, lab.lightness, i);
    ShownMeans(shown, hue, lab.lightness, ToneChroma(shown, lab.lightness, i), linear);
  }

  lemma ToneStepPrints(m: Math, h: string, paint: Painter, shown: Test, hue: Hue, i: nat)
    requires Lawful(m) && |h| == HEX_LEN && i < TONE_STEPS && hue == UnitHue(m, HexToOklab(m, h))
    requires IsGamutTest(shown, hue) && IsPainter(paint, m)
    ensures var lightness := HexToOklab(m, h).lightness;
            IsToneStep(m, h, i, ToneStep(paint, shown, lightness, hue, i), MaxChroma(shown, lightness), shown)
  {
    var lab := HexToOklab(m, h);
    var held := MaxChroma(shown, lab.lightness);
    var c := ToneChroma(shown, lab.lightness, i);
    var linear := OklabToLinear(At(lab.lightness, c, hue));
    LinearIs(At(lab.lightness, c, hue));
    PaintPrints(m, paint, lab.lightness, c, hue, linear);
    if DownClosed(shown, lab.lightness) { TonesInGamut(m, h, lab, hue, shown, i, linear); }
    SixShares(held, i);
    assert PrintsToneStep(m, h, i, ToneStep(paint, shown, lab.lightness, hue, i), held, shown, c, linear);
  }

  lemma SixShares(held: real, i: nat)
    ensures 6.0 * ToneShare(held, i) == i as real * held
  {}

  /** A tone of no chroma is the gray of its lightness. */
  lemma FirstToneIsGray(m: Math, lightness: real, hue: Hue)
    ensures var h := Paint(m)(lightness, 0.0, hue);
            IsHex(h) && Byte(h, 0) == Byte(h, 1) == Byte(h, 2)
  {
    assert At(lightness, 0.0, hue) == Lab(lightness, 0.0, 0.0);
    GrayIsCube(lightness);
    var g := SrgbFromLinear(m, Cube(lightness));
    HexReads(Rgb(g, g, g));
  }
}
