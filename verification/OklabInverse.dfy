/**
 From a hex to OkLab and back (internal/color/oklab.go). The published matrices are rounded, so the way
 back misses the linear channels, by less than 3 millionths; no byte notices.
 */
module OklabInverse {
  import opened Reals
  import opened Hexes
  import opened Hsl
  import opened Oklab
  import opened Wheel
  import opened Derive

  const LINEAR_ERROR := 0.000003

  predicate Near(x: real, y: real, error: real) { -error <= x - y <= error }

  // ---- the matrices ----

  /** oklabToLinear before and behind its cubes. */
  function LongRoot(lab: Lab): real { lab.lightness + 0.3963377774 * lab.a + 0.2158037573 * lab.b }
  function MedRoot(lab: Lab): real { lab.lightness - 0.1055613458 * lab.a - 0.0638541728 * lab.b }
  function ShortRoot(lab: Lab): real { lab.lightness - 0.0894841775 * lab.a - 1.2914855480 * lab.b }

  function FromCones(long: real, med: real, short: real): Rgb {
    Rgb(4.0767416621 * long - 3.3077115913 * med + 0.2309699292 * short,
        -1.2684380046 * long + 2.6097574011 * med - 0.3413193965 * short,
        -0.0041960863 * long - 0.7034186147 * med + 1.7076147010 * short)
  }

  /** The inner pair of matrices: the cone roots come back to within 7e-8. */
  lemma RootsComeBack(long: real, med: real, short: real)
    requires 0.0 <= long <= 1.0 && 0.0 <= med <= 1.0 && 0.0 <= short <= 1.0
    ensures var lab := LabOf(long, med, short);
            && Near(LongRoot(lab), long, 0.00000007)
            && Near(MedRoot(lab), med, 0.00000007)
            && Near(ShortRoot(lab), short, 0.00000007)
  {}

  /** The outer pair: cone responses off by 2.2e-7 give channels off by less than 3e-6. */
  lemma ChannelsComeBack(c: Rgb, long: real, med: real, short: real)
    requires InUnit(c)
    requires Near(long, Long(c), 0.00000022) && Near(med, Med(c), 0.00000022) && Near(short, Short(c), 0.00000022)
    ensures var back := FromCones(long, med, short);
            && Near(back.red, c.red, LINEAR_ERROR)
            && Near(back.green, c.green, LINEAR_ERROR)
            && Near(back.blue, c.blue, LINEAR_ERROR)
  {}

  lemma CubeNear(x: real, y: real)
    requires 0.0 <= x <= 1.0 && Near(y, x, 0.00000007)
    ensures Near(Cube(y), Cube(x), 0.00000022)
  {
    var d := y - x;
    var q := y * y + y * x + x * x;
    DifferenceOfCubes(y, x);
    FactorRange(x, y, q);
    assert Cube(y) - Cube(x) == d * q;
    ErrorTimes(d, q);
  }

  lemma FactorRange(x: real, y: real, q: real)
    requires 0.0 <= x <= 1.0 && Near(y, x, 0.00000007) && q == y * y + y * x + x * x
    ensures 0.0 <= q <= 3.01
  {
    SquareSign(x);
    SquareSign(y);
    SquareSign(x + y);
    assert 2.0 * q == Square(x) + Square(y) + Square(x + y);
    SquareBelow(x, 1.0);
    SquareBelow(y, 1.001);
    SquareBelow(x + y, 2.001);
  }

  lemma SquareBelow(x: real, bound: real)
    requires -bound <= x <= bound
    ensures Square(x) <= Square(bound)
  {
    NonNegative(bound - x, bound + x, Square(bound) - Square(x));
  }

  lemma ErrorTimes(d: real, q: real)
    requires -0.00000007 <= d <= 0.00000007 && 0.0 <= q <= 3.01
    ensures -0.00000022 <= d * q <= 0.00000022
  {
    NonNegative(0.00000007 - d, q, 0.00000007 * q - d * q);
    NonNegative(0.00000007 + d, q, 0.00000007 * q + d * q);
  }

  lemma LinearIsFromCones(lab: Lab)
    ensures OklabToLinear(lab) == FromCones(Cube(LongRoot(lab)), Cube(MedRoot(lab)), Cube(ShortRoot(lab)))
  {}

  lemma ConesComeBack(m: Math, c: Rgb, lab: Lab)
    requires Lawful(m) && InUnit(c) && lab == LabOf(m.cbrt(Long(c)), m.cbrt(Med(c)), m.cbrt(Short(c)))
    ensures Near(Cube(LongRoot(lab)), Long(c), 0.00000022)
    ensures Near(Cube(MedRoot(lab)), Med(c), 0.00000022)
    ensures Near(Cube(ShortRoot(lab)), Short(c), 0.00000022)
  {
    ConeRange(c);
    RootBounds(m, Long(c));
    RootBounds(m, Med(c));
    RootBounds(m, Short(c));
    RootsComeBack(m.cbrt(Long(c)), m.cbrt(Med(c)), m.cbrt(Short(c)));
    CubeNear(m.cbrt(Long(c)), LongRoot(lab));
    CubeNear(m.cbrt(Med(c)), MedRoot(lab));
    CubeNear(m.cbrt(Short(c)), ShortRoot(lab));
    assert Cube(m.cbrt(Long(c))) == Long(c);
    assert Cube(m.cbrt(Med(c))) == Med(c);
    assert Cube(m.cbrt(Short(c))) == Short(c);
  }

  /** Through OkLab and back, linear channels move by less than 3 millionths. */
  lemma LinearComesBack(m: Math, c: Rgb, lab: Lab, back: Rgb)
    requires Lawful(m) && InUnit(c) && lab == LabOf(m.cbrt(Long(c)), m.cbrt(Med(c)), m.cbrt(Short(c)))
    requires IsLinear(back, lab)
    ensures Near(back.red, c.red, LINEAR_ERROR)
    ensures Near(back.green, c.green, LINEAR_ERROR)
    ensures Near(back.blue, c.blue, LINEAR_ERROR)
  {
    ConesComeBack(m, c, lab);
    LinearIsFromCones(lab);
    assert OklabToLinear(lab) == back;
    ChannelsComeBack(c, Cube(LongRoot(lab)), Cube(MedRoot(lab)), Cube(ShortRoot(lab)));
  }

  // ---- what the transfer function does with the error ----

  /** A step of 0.18 percent moves the power of 2.4 by more than the error. */
  lemma PowerGrows(m: Math, x: real, y: real)
    requires Lawful(m) && 0.0911 <= x && 1.0018 * x <= y
    ensures m.power(x) + LINEAR_ERROR < m.power(y)
  {
    PowerAtLeast(m, x);
    PowerScales(m, x, 1.0018 * x, m.power(x), m.power(1.0018 * x));
    assert m.power(1.0018 * x) <= m.power(y);
  }

  lemma PowerScales(m: Math, x: real, y: real, p: real, q: real)
    requires Lawful(m) && 0.0 <= x && y == 1.0018 * x && p == m.power(x) && q == m.power(y)
    ensures 1.0018 * p <= q
  {
    assert Pow(m.power(x), 5) == Pow(x, 12) && p >= 0.0;
    assert Pow(m.power(y), 5) == Pow(y, 12) && q >= 0.0;
    PowMonotone(x, x, 12);
    ScaledPowers(x, y, p, q);
  }

  lemma ScaledPowers(x: real, y: real, p: real, q: real)
    requires 0.0 <= x && y == 1.0018 * x && 0.0 <= p && 0.0 <= q
    requires Pow(p, 5) == Pow(x, 12) && Pow(q, 5) == Pow(y, 12) && 0.0 <= Pow(x, 12)
    ensures 1.0018 * p <= q
  {
    PowProduct(1.0018, x, 12);
    PowProduct(1.0018, p, 5);
    FactorGrows(Pow(x, 12), Pow(1.0018, 5), Pow(1.0018, 12));
    PowOrder(1.0018 * p, q, 5);
  }

  lemma FactorGrows(x: real, low: real, high: real)
    requires 0.0 <= x && low == Pow(1.0018, 5) && high == Pow(1.0018, 12)
    ensures low * x <= high * x
  {
    assert low <= high;
    NonNegative(high - low, x, high * x - low * x);
  }

  lemma PowerAtLeast(m: Math, x: real)
    requires Lawful(m) && 0.0911 <= x
    ensures 0.003 <= m.power(x)
  {
    assert m.power(0.0911) <= m.power(x);
    assert Pow(m.power(0.0911), 5) == Pow(0.0911, 12);
    assert Pow(0.0911, 12) > Pow(0.003, 5);
    PowOrder(0.003, m.power(0.0911), 5);
  }

  /** The eleventh byte is past the linear stretch by more than the error. */
  lemma WellPastLinear(m: Math, x: real)
    requires Lawful(m) && 0.093 <= x
    ensures 0.0031308 + LINEAR_ERROR < m.power(x)
  {
    assert m.power(0.093) <= m.power(x);
    assert Pow(m.power(0.093), 5) == Pow(0.093, 12);
    assert Pow(0.093, 12) > Pow(0.003134, 5);
    PowOrder(0.003134, m.power(0.093), 5);
  }

  /** The root of 2.4 of what lies between two powers lies between their bases. */
  lemma RootBetween(m: Math, x: real, low: real, high: real)
    requires Lawful(m) && 0.0 <= low && 0.0 <= high && m.power(low) < x < m.power(high)
    ensures low < m.root(x) < high
  {
    assert Pow(m.power(low), 5) == Pow(low, 12) && m.power(low) >= 0.0;
    assert Pow(m.power(high), 5) == Pow(high, 12);
    assert Pow(m.root(x), 12) == Pow(x, 5) && m.root(x) >= 0.0;
    PowIncreases(m.power(low), x, 5);
    PowIncreases(x, m.power(high), 5);
    PowOrder(low, m.root(x), 12);
    PowOrder(m.root(x), high, 12);
  }

  lemma QuantizeNear(c: real, v: int)
    requires 0 <= v <= 255 && -0.5 < c * 255.0 - v as real < 0.5
    ensures Quantize(c) == v
  {}

  /** Bytes on the linear stretch. */
  lemma DarkByteSurvives(m: Math, v: int, x: real)
    requires 0 <= v <= 10 && Near(x, SrgbToLinear(m, v as real / 255.0), LINEAR_ERROR)
    ensures Quantize(SrgbFromLinear(m, x)) == v
  {
    var c := v as real / 255.0;
    assert c <= 0.0393 && SrgbToLinear(m, c) == c / 12.92;
    assert x <= 0.0031308 && SrgbFromLinear(m, x) == x * 12.92;
    QuantizeNear(SrgbFromLinear(m, x), v);
  }

  /** Where the base of a byte's power lies between its neighbours half a byte off. */
  lemma HalfBytes(v: int, low: real, base: real, high: real)
    requires 11 <= v <= 255
    requires low == ((v as real - 0.5) / 255.0 + 0.055) / 1.055
    requires base == (v as real / 255.0 + 0.055) / 1.055
    requires high == ((v as real + 0.5) / 255.0 + 0.055) / 1.055
    ensures 0.0911 <= low && 1.0018 * low <= base && 0.093 <= base && 1.0018 * base <= high
  {}

  lemma BrightByteSurvives(m: Math, v: int, x: real)
    requires Lawful(m) && 11 <= v <= 255 && Near(x, SrgbToLinear(m, v as real / 255.0), LINEAR_ERROR)
    ensures Quantize(SrgbFromLinear(m, x)) == v
  {
    var low, high := ((v as real - 0.5) / 255.0 + 0.055) / 1.055, ((v as real + 0.5) / 255.0 + 0.055) / 1.055;
    var base := (v as real / 255.0 + 0.055) / 1.055;
    HalfBytes(v, low, base, high);
    WellPastLinear(m, base);
    PowerGrows(m, low, base);
    PowerGrows(m, base, high);
    RootBetween(m, x, low, high);
    QuantizeNear(SrgbFromLinear(m, x), v);
  }

  /** A linear channel within 3 millionths of a byte's prints that byte. */
  lemma ByteSurvives(m: Math, v: int, x: real)
    requires Lawful(m) && 0 <= v <= 255 && Near(x, SrgbToLinear(m, v as real / 255.0), LINEAR_ERROR)
    ensures Quantize(SrgbFromLinear(m, x)) == v
  {
    if v <= 10 { DarkByteSurvives(m, v, x); } else { BrightByteSurvives(m, v, x); }
  }

  // ---- hex to OkLab to hex ----

  lemma HexNearPrints(m: Math, h: string, back: Rgb)
    requires Lawful(m) && IsHex(h)
    requires var c := LinearOf(m, Channels(h));
             Near(back.red, c.red, LINEAR_ERROR) && Near(back.green, c.green, LINEAR_ERROR)
             && Near(back.blue, c.blue, LINEAR_ERROR)
    ensures LinearToHex(m, back) == h
  {
    ByteSurvives(m, ChannelByte(h, 1), back.red);
    ByteSurvives(m, ChannelByte(h, 3), back.green);
    ByteSurvives(m, ChannelByte(h, 5), back.blue);
    BytesPrint(h);
  }

  /** linearToHex gives back every hex whose channels have been made linear. */
  lemma HexThroughLinear(m: Math, h: string)
    requires Lawful(m) && IsHex(h)
    ensures LinearToHex(m, LinearOf(m, Channels(h))) == h
  {
    HexNearPrints(m, h, LinearOf(m, Channels(h)));
  }

  /** Every hex comes back through OkLab, although the conversion has no exact inverse. */
  lemma HexThroughOklab(m: Math, h: string, back: Rgb)
    requires Lawful(m) && IsHex(h) && IsLinear(back, HexToOklab(m, h))
    ensures LinearToHex(m, back) == h
  {
    LinearInUnit(m, ChannelNormalized(h, 1));
    LinearInUnit(m, ChannelNormalized(h, 3));
    LinearInUnit(m, ChannelNormalized(h, 5));
    LinearComesBack(m, LinearOf(m, Channels(h)), HexToOklab(m, h), back);
    HexNearPrints(m, h, back);
  }

  /** Painting a hex at its own lightness, chroma and hue gives the hex. */
  lemma PaintsItself(m: Math, h: string, lab: Lab, paint: Painter)
    requires Lawful(m) && IsHex(h) && lab == HexToOklab(m, h) && IsPainter(paint, m)
    ensures paint(lab.lightness, ChromaOf(m, lab), UnitHue(m, lab)) == h
  {
    OwnCoordinates(m, lab);
    LinearIs(lab);
    HexThroughOklab(m, h, OklabToLinear(lab));
    assert ColorAt(m, lab.lightness, ChromaOf(m, lab), UnitHue(m, lab)) == h;
  }
}
