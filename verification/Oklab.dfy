/**
 OkLab and the sRGB transfer function (internal/color/oklab.go) over exact reals. The library
 functions of Go's math package are parameters, of which only their laws are known.
 */
module Oklab {
  import opened Reals
  import opened Hexes
  import opened Hsl

  /** `power` is the exponent 2.4, `root` the exponent 1/2.4. */
  datatype Math = Math(
    cbrt: real -> real,
    sqrt: real -> real,
    power: real -> real,
    root: real -> real,
    atan2: (real, real) -> real,
    cos: real -> real,
    sin: real -> real,
    pi: real)

  function Cube(x: real): real { x * x * x }

  /** The point at the angle and the distance of (x, y). */
  function Polar(m: Math, y: real, x: real): (real, real) {
    var distance, angle := m.sqrt(Square(x) + Square(y)), m.atan2(y, x);
    (distance * m.cos(angle), distance * m.sin(angle))
  }

  /** The addition theorems of cosine and sine. */
  ghost predicate Adds(m: Math, x: real, y: real) {
    && m.cos(x + y) == m.cos(x) * m.cos(y) - m.sin(x) * m.sin(y)
    && m.sin(x + y) == m.sin(x) * m.cos(y) + m.cos(x) * m.sin(y)
  }

  ghost predicate Lawful(m: Math) {
    && (forall x {:trigger Cube(m.cbrt(x))} :: Cube(m.cbrt(x)) == x)
    && (forall x {:trigger Square(m.sqrt(x))} :: x >= 0.0 ==> m.sqrt(x) >= 0.0 && Square(m.sqrt(x)) == x)
    && (forall x, y :: 0.0 <= x <= y ==> m.power(x) <= m.power(y))
    && m.power(0.0) == 0.0 && m.power(1.0) == 1.0
    && (forall x {:trigger Pow(m.power(x), 5)} :: x >= 0.0 ==> m.power(x) >= 0.0 && Pow(m.power(x), 5) == Pow(x, 12))
    && (forall x {:trigger Pow(m.root(x), 12)} :: x >= 0.0 ==> m.root(x) >= 0.0 && Pow(m.root(x), 12) == Pow(x, 5))
    && m.pi > 0.0
    && (forall y, x :: -m.pi < m.atan2(y, x) <= m.pi)
    && (forall y, x {:trigger Polar(m, y, x)} :: Polar(m, y, x) == (x, y))
    && (forall x {:trigger Square(m.cos(x))} {:trigger Square(m.sin(x))} :: Square(m.cos(x)) + Square(m.sin(x)) == 1.0)
    && (forall x, y :: Adds(m, x, y))
    && m.cos(0.0) == 1.0 && m.sin(0.0) == 0.0 && m.cos(m.pi / 2.0) == 0.0 && m.sin(m.pi / 2.0) == 1.0
  }

  const NEUTRAL_CHROMA := 0.02

  datatype Lab = Lab(lightness: real, a: real, b: real)

  // ---- hex to OkLab ----

  function SrgbToLinear(m: Math, c: real): real {
    if c <= 0.04045 then c / 12.92 else m.power((c + 0.055) / 1.055)
  }

  function SrgbFromLinear(m: Math, c: real): real {
    if c <= 0.0031308 then c * 12.92 else 1.055 * m.root(c) - 0.055
  }

  /**
   The transfer function of sRGB, as the standard states it: linear up to 0.04045, the power 12/5 of a
   shifted channel from there on.
   */
  lemma DecodesBySrgb(m: Math, c: real, linear: real)
    requires Lawful(m) && linear == SrgbToLinear(m, c)
    ensures c <= 0.04045 ==> linear * 12.92 == c
    ensures c > 0.04045 ==> linear >= 0.0 && Pow(linear, 5) == Pow((c + 0.055) / 1.055, 12)
  {
    if c > 0.04045 {
      var x := (c + 0.055) / 1.055;
      assert x >= 0.0;
      assert Pow(m.power(x), 5) == Pow(x, 12);
    }
  }

  /** Its inverse: linear up to 0.0031308, the power 5/12 from there on. */
  lemma EncodesBySrgb(m: Math, linear: real, c: real)
    requires Lawful(m) && c == SrgbFromLinear(m, linear)
    ensures linear <= 0.0031308 ==> c == linear * 12.92
    ensures linear > 0.0031308 ==> c >= -0.055 && Pow((c + 0.055) / 1.055, 12) == Pow(linear, 5)
  {
    if linear > 0.0031308 {
      assert Pow(m.root(linear), 12) == Pow(linear, 5);
      assert (c + 0.055) / 1.055 == m.root(linear);
    }
  }

  function Channels(h: string): Rgb
    requires |h| == HEX_LEN
  {
    Rgb(ChannelNormalized(h, 1), ChannelNormalized(h, 3), ChannelNormalized(h, 5))
  }

  function LinearOf(m: Math, c: Rgb): Rgb {
    Rgb(SrgbToLinear(m, c.red), SrgbToLinear(m, c.green), SrgbToLinear(m, c.blue))
  }

  /** The responses of the three cones before their cube roots. */
  function Long(c: Rgb): real { 0.4122214708 * c.red + 0.5363325363 * c.green + 0.0514459929 * c.blue }
  function Med(c: Rgb): real { 0.2119034982 * c.red + 0.6806995451 * c.green + 0.1073969566 * c.blue }
  function Short(c: Rgb): real { 0.0883024619 * c.red + 0.2817188376 * c.green + 0.6299787005 * c.blue }

  function LabOf(long: real, med: real, short: real): Lab {
    Lab(0.2104542553 * long + 0.7936177850 * med - 0.0040720468 * short,
        1.9779984951 * long - 2.4285922050 * med + 0.4505937099 * short,
        0.0259040371 * long + 0.7827717662 * med - 0.8086757660 * short)
  }

  function HexToOklab(m: Math, h: string): Lab
    requires |h| == HEX_LEN
  {
    var c := LinearOf(m, Channels(h));
    LabOf(m.cbrt(Long(c)), m.cbrt(Med(c)), m.cbrt(Short(c)))
  }

  /** math.Hypot, and the chroma of the sort key. */
  function ChromaOf(m: Math, lab: Lab): real {
    m.sqrt(Square(lab.a) + Square(lab.b))
  }

  // ---- OkLab to linear sRGB ----

  const GAMUT_EPSILON := 0.000000001

  predicate Fits(c: real) { -GAMUT_EPSILON <= c <= 1.0 + GAMUT_EPSILON }

  function OklabToLinear(lab: Lab): Rgb {
    var long := Cube(lab.lightness + 0.3963377774 * lab.a + 0.2158037573 * lab.b);
    var med := Cube(lab.lightness - 0.1055613458 * lab.a - 0.0638541728 * lab.b);
    var short := Cube(lab.lightness - 0.0894841775 * lab.a - 1.2914855480 * lab.b);
    Rgb(4.0767416621 * long - 3.3077115913 * med + 0.2309699292 * short,
        -1.2684380046 * long + 2.6097574011 * med - 0.3413193965 * short,
        -0.0041960863 * long - 0.7034186147 * med + 1.7076147010 * short)
  }

  /** The inGamut result of oklabToLinear. */
  predicate InGamut(lab: Lab) {
    var c := OklabToLinear(lab);
    Fits(c.red) && Fits(c.green) && Fits(c.blue)
  }

  /** `linear` is what oklabToLinear makes of `lab`. */
  ghost predicate IsLinear(linear: Rgb, lab: Lab) {
    forall x {:trigger OklabToLinear(x)} :: x == lab ==> OklabToLinear(x) == linear
  }

  lemma LinearIs(lab: Lab)
    ensures IsLinear(OklabToLinear(lab), lab)
  {}

  /** Linear channels that sRGB can show: all three in [0, 1], give or take a billionth. */
  predicate InSrgb(linear: Rgb) {
    && -0.000000001 <= linear.red <= 1.000000001
    && -0.000000001 <= linear.green <= 1.000000001
    && -0.000000001 <= linear.blue <= 1.000000001
  }

  /** The test accepts a point if and only if every channel of its color is in [0, 1] to within a billionth. */
  lemma InGamutMeans(lab: Lab, linear: Rgb)
    requires IsLinear(linear, lab)
    ensures InGamut(lab) <==> InSrgb(linear)
  {
    assert OklabToLinear(lab) == linear;
  }

  // ---- printing ----

  function Quantize(c: real): (v: int)
    ensures 0 <= v <= 255
  {
    Round(Clamp(c) * 255.0)
  }

  function Pair(v: int): string
    requires 0 <= v <= 255
  {
    [DIGITS[v / 16], DIGITS[v % 16]]
  }

  function HexOf(red: int, green: int, blue: int): string
    requires 0 <= red <= 255 && 0 <= green <= 255 && 0 <= blue <= 255
  {
    "#" + Pair(red) + Pair(green) + Pair(blue)
  }

  function SrgbToHex(c: Rgb): string {
    HexOf(Quantize(c.red), Quantize(c.green), Quantize(c.blue))
  }

  /** srgbToHex: the bytes are filled in place, two per channel. */
  method FillHex(c: Rgb) returns (out: array<char>)
    ensures fresh(out) && out[..] == SrgbToHex(c)
  {
    out := new char[HEX_LEN] (_ => '0');
    out[0] := '#';
    var channels := [c.red, c.green, c.blue];
    ghost var printed := SrgbToHex(c);
    for i := 0 to 3
      invariant out.Length == HEX_LEN && channels == [c.red, c.green, c.blue]
      invariant forall k | 0 <= k < 1 + 2 * i :: out[k] == printed[k]
    {
      var v := Quantize(channels[i]);
      PrintedAt(c, i);
      out[1 + 2 * i] := DIGITS[v / 16];
      out[2 + 2 * i] := DIGITS[v % 16];
    }
    assert out[..] == printed;
  }

  lemma PrintedAt(c: Rgb, i: nat)
    requires i < 3
    ensures var v := Quantize([c.red, c.green, c.blue][i]);
            SrgbToHex(c)[1 + 2 * i] == DIGITS[v / 16] && SrgbToHex(c)[2 + 2 * i] == DIGITS[v % 16]
  {}

  /** Printing a byte gives two digits, and reading them gives the byte. */
  lemma PairReads(v: int)
    requires 0 <= v <= 255
    ensures IsHexDigit(Pair(v)[0]) && IsHexDigit(Pair(v)[1])
    ensures HexDigit(Pair(v)[0]) * 16 + HexDigit(Pair(v)[1]) == v
  {
    DigitOfValue(v / 16);
    DigitOfValue(v % 16);
  }

  lemma PairOfDigits(h: string, i: nat)
    requires i + 1 < |h| && IsHexDigit(h[i]) && IsHexDigit(h[i + 1])
    ensures Pair(ChannelByte(h, i)) == h[i..i + 2]
  {
    ValueOfDigit(h[i]);
    ValueOfDigit(h[i + 1]);
    Nibbles(HexDigit(h[i]), HexDigit(h[i + 1]), ChannelByte(h, i));
    assert h[i..i + 2] == [h[i], h[i + 1]];
  }

  lemma Nibbles(high: int, low: int, v: int)
    requires 0 <= high < 16 && 0 <= low < 16 && v == high * 16 + low
    ensures v / 16 == high && v % 16 == low
  {}

  lemma BytesRead(red: int, green: int, blue: int)
    requires 0 <= red <= 255 && 0 <= green <= 255 && 0 <= blue <= 255
    ensures var h := HexOf(red, green, blue);
            IsHex(h) && ChannelByte(h, 1) == red && ChannelByte(h, 3) == green && ChannelByte(h, 5) == blue
  {
    PairReads(red);
    PairReads(green);
    PairReads(blue);
    var h := HexOf(red, green, blue);
    assert h[1] == Pair(red)[0] && h[2] == Pair(red)[1];
    assert h[3] == Pair(green)[0] && h[4] == Pair(green)[1];
    assert h[5] == Pair(blue)[0] && h[6] == Pair(blue)[1];
  }

  /** Whatever the channels are, the result is a normalized hex that reads back as the bytes. */
  lemma HexReads(c: Rgb)
    ensures var h := SrgbToHex(c);
            && IsHex(h)
            && ChannelByte(h, 1) == Quantize(c.red)
            && ChannelByte(h, 3) == Quantize(c.green)
            && ChannelByte(h, 5) == Quantize(c.blue)
  {
    BytesRead(Quantize(c.red), Quantize(c.green), Quantize(c.blue));
  }

  lemma QuantizeByte(v: int)
    requires 0 <= v <= 255
    ensures Quantize(v as real / 255.0) == v
  {}

  lemma ChannelPrints(h: string, i: nat)
    requires i + 1 < |h|
    ensures Quantize(ChannelNormalized(h, i)) == ChannelByte(h, i)
  {
    QuantizeByte(ChannelByte(h, i));
  }

  lemma BytesToHex(c: Rgb, h: string)
    requires IsHex(h) && c == Channels(h)
    ensures SrgbToHex(c) == h
  {
    ChannelPrints(h, 1);
    ChannelPrints(h, 3);
    ChannelPrints(h, 5);
    BytesPrint(h);
  }

  lemma BytesPrint(h: string)
    requires IsHex(h)
    ensures HexOf(ChannelByte(h, 1), ChannelByte(h, 3), ChannelByte(h, 5)) == h
  {
    assert IsHexDigit(h[1]) && IsHexDigit(h[2]) && IsHexDigit(h[3]) && IsHexDigit(h[4]);
    assert IsHexDigit(h[5]) && IsHexDigit(h[6]);
    PairOfDigits(h, 1);
    PairOfDigits(h, 3);
    PairOfDigits(h, 5);
    assert h == "#" + h[1..3] + h[3..5] + h[5..7];
  }

  function Clamp(c: real): real { Min(Max(c, 0.0), 1.0) }

  /** A byte is the value of its channel to within half a step. */
  predicate IsByteOf(v: int, c: real) {
    -0.5 <= v as real - Clamp(c) * 255.0 <= 0.5
  }

  lemma QuantizeError(c: real)
    ensures IsByteOf(Quantize(c), c)
  {}

  // ---- gray ----

  /** Chroma zero is exactly the gray of its lightness, which sRGB holds for lightnesses in [0, 1]. */
  lemma GrayIsCube(lightness: real)
    ensures var g := Cube(lightness);
            OklabToLinear(Lab(lightness, 0.0, 0.0)) == Rgb(g, g, g)
    ensures 0.0 <= lightness <= 1.0 ==> InGamut(Lab(lightness, 0.0, 0.0))
  {
    if 0.0 <= lightness <= 1.0 { CubeInUnit(lightness); }
  }

  lemma Shrinks(a: real, x: real)
    requires 0.0 <= a && 0.0 <= x <= 1.0
    ensures 0.0 <= a * x <= a
  {
    assert a * (1.0 - x) >= 0.0;
  }

  lemma CubeInUnit(x: real)
    requires 0.0 <= x <= 1.0
    ensures 0.0 <= Cube(x) <= 1.0
  {
    Shrinks(x, x);
    Shrinks(x * x, x);
  }

  // ---- the lightness of a hex ----

  lemma LinearInUnit(m: Math, c: real)
    requires Lawful(m) && 0.0 <= c <= 1.0
    ensures 0.0 <= SrgbToLinear(m, c) <= 1.0
  {
    if c > 0.04045 {
      var x := (c + 0.055) / 1.055;
      assert 0.0 <= x <= 1.0;
      assert m.power(0.0) <= m.power(x) <= m.power(1.0);
    }
  }

  lemma QuadraticPositive(x: real, y: real, q: real)
    requires x < y && q == y * y + y * x + x * x
    ensures q > 0.0
  {
    SquareSign(x);
    SquareSign(y);
    SquareSign(x + y);
    assert Square(x + y) == Square(x) + 2.0 * (x * y) + Square(y);
  }

  lemma CubeIncreases(x: real, y: real)
    requires x < y
    ensures Cube(x) < Cube(y)
  {
    var q := y * y + y * x + x * x;
    QuadraticPositive(x, y, q);
    DifferenceOfCubes(y, x);
    Positive(y - x, q, Cube(y) - Cube(x));
  }

  /** Cubes order numbers as the numbers are ordered. */
  lemma CubeOrder(x: real, y: real)
    ensures Cube(x) <= Cube(y) ==> x <= y
  {
    if y < x { CubeIncreases(y, x); }
  }

  lemma DifferenceOfCubes(x: real, y: real)
    ensures Cube(x) - Cube(y) == (x - y) * (x * x + x * y + y * y)
  {}

  /** The cube root between its chord and its tangent at 1. */
  lemma RootBounds(m: Math, x: real)
    requires Lawful(m) && 0.0 <= x <= 1.0
    ensures x <= m.cbrt(x) <= (2.0 + x) / 3.0
    ensures 0.0 <= m.cbrt(x) <= 1.0
  {
    var r := m.cbrt(x);
    assert Cube(r) == x && Cube(0.0) == 0.0 && Cube(1.0) == 1.0;
    CubeOrder(0.0, r);
    CubeOrder(r, 1.0);
    CubeBelow(r);
    Tangent(r);
  }

  lemma CubeBelow(r: real)
    requires 0.0 <= r <= 1.0
    ensures Cube(r) <= r
  {
    Shrinks(r, r);
    Shrinks(r * r, r);
  }

  lemma Tangent(r: real)
    requires 0.0 <= r <= 1.0
    ensures 3.0 * r <= 2.0 + Cube(r)
  {
    var d := 1.0 - r;
    assert d * d >= 0.0;
    var e := r + 2.0;
    assert (d * d) * e >= 0.0;
    assert (d * d) * e == 2.0 + Cube(r) - 3.0 * r;
  }

  lemma ConeRange(c: Rgb)
    requires InUnit(c)
    ensures 0.0 <= Long(c) <= 1.0 && 0.0 <= Med(c) <= 1.0 && 0.0 <= Short(c) <= 1.0
    ensures Short(c) <= 8.0 * Med(c)
    ensures 0.2104542553 * (2.0 + Long(c)) / 3.0 + 0.7936177850 * (2.0 + Med(c)) / 3.0 - 0.0040720468 * Short(c) < 1.0
  {}

  lemma TwiceCubed(x: real)
    ensures Cube(2.0 * x) == 8.0 * Cube(x)
  {}

  lemma CubeBelowTwice(s: real, d: real)
    requires Cube(s) <= 8.0 * Cube(d)
    ensures s <= 2.0 * d
  {
    TwiceCubed(d);
    CubeOrder(s, 2.0 * d);
  }

  /** The short cone answers at most twice what the medium one does. */
  lemma {:induction false} ShortByMed(m: Math, c: Rgb)
    requires Lawful(m) && InUnit(c)
    ensures m.cbrt(Short(c)) <= 2.0 * m.cbrt(Med(c))
  {
    var s, d := m.cbrt(Short(c)), m.cbrt(Med(c));
    ConeRange(c);
    assert Cube(m.cbrt(Short(c))) == Short(c);
    assert Cube(m.cbrt(Med(c))) == Med(c);
    CubeBelowTwice(s, d);
  }

  lemma LightnessOf(c: Rgb, long: real, med: real, short: real)
    requires InUnit(c)
    requires 0.0 <= long <= (2.0 + Long(c)) / 3.0 && 0.0 <= med <= (2.0 + Med(c)) / 3.0
    requires Short(c) <= short <= 2.0 * med
    ensures 0.0 <= LabOf(long, med, short).lightness < 1.0
  {
    ConeRange(c);
  }

  /** Every color of sRGB has a lightness in [0, 1). */
  lemma {:induction false} LightnessRange(m: Math, c: Rgb)
    requires Lawful(m) && InUnit(c)
    ensures 0.0 <= LabOf(m.cbrt(Long(c)), m.cbrt(Med(c)), m.cbrt(Short(c))).lightness < 1.0
  {
    ConeRange(c);
    RootBounds(m, Long(c));
    RootBounds(m, Med(c));
    RootBounds(m, Short(c));
    ShortByMed(m, c);
    LightnessOf(c, m.cbrt(Long(c)), m.cbrt(Med(c)), m.cbrt(Short(c)));
  }

  lemma HexLightnessRange(m: Math, h: string)
    requires Lawful(m) && |h| == HEX_LEN
    ensures 0.0 <= HexToOklab(m, h).lightness < 1.0
  {
    var c := Channels(h);
    LinearInUnit(m, c.red);
    LinearInUnit(m, c.green);
    LinearInUnit(m, c.blue);
    LightnessRange(m, LinearOf(m, c));
  }
}
