/**
 The hue wheel of OkLCh (internal/color/derive.go): a color is its lightness and a point (a, b), and
 turning the hue is turning that point about the gray axis.
 */
module Wheel {
  import opened Reals
  import opened Oklab
  import opened Gamut

  function UnitHue(m: Math, lab: Lab): Hue {
    var angle := m.atan2(lab.b, lab.a);
    Hue(m.cos(angle), m.sin(angle))
  }

  function Radians(m: Math, degrees: real): real { degrees * m.pi / 180.0 }

  function TurnedHue(m: Math, lab: Lab, degrees: real): Hue {
    var angle := m.atan2(lab.b, lab.a) + Radians(m, degrees);
    Hue(m.cos(angle), m.sin(angle))
  }

  lemma ChromaSquared(m: Math, lab: Lab)
    requires Lawful(m)
    ensures ChromaOf(m, lab) >= 0.0
    ensures Square(ChromaOf(m, lab)) == Square(lab.a) + Square(lab.b)
  {
    SquareSign(lab.a);
    SquareSign(lab.b);
    var x := Square(lab.a) + Square(lab.b);
    assert Square(m.sqrt(x)) == x && ChromaOf(m, lab) == m.sqrt(x);
  }

  /** In a direction of unit length the color at a chroma has that chroma. */
  lemma AtHasChroma(lightness: real, chroma: real, hue: Hue)
    requires Square(hue.cos) + Square(hue.sin) == 1.0
    ensures var lab := At(lightness, chroma, hue);
            Square(lab.a) + Square(lab.b) == Square(chroma)
  {
    assert Square(chroma * hue.cos) == Square(chroma) * Square(hue.cos);
    assert Square(chroma * hue.sin) == Square(chroma) * Square(hue.sin);
    assert Square(chroma) * (Square(hue.cos) + Square(hue.sin)) == Square(chroma);
  }

  /** A color is at its own lightness, chroma and hue. */
  lemma OwnCoordinates(m: Math, lab: Lab)
    requires Lawful(m)
    ensures At(lab.lightness, ChromaOf(m, lab), UnitHue(m, lab)) == lab
  {
    assert Polar(m, lab.b, lab.a) == (lab.a, lab.b);
  }

  /** The points (a, b) and (c, d), the second one turned from the first by the angle of this cosine and sine. */
  predicate IsTurnedBy(cos: real, sin: real, a: real, b: real, c: real, d: real) {
    c == cos * a - sin * b && d == sin * a + cos * b
  }

  /** `turned` is `lab` with its point (a, b) turned by so many degrees: same lightness, same distance from gray. */
  ghost predicate IsTurn(m: Math, lab: Lab, degrees: real, turned: Lab) {
    var angle := Radians(m, degrees);
    && turned.lightness == lab.lightness
    && IsTurnedBy(m.cos(angle), m.sin(angle), lab.a, lab.b, turned.a, turned.b)
  }

  /** The color at its own lightness and chroma in the direction turned to is the color turned. */
  lemma TurnedHueTurns(m: Math, lab: Lab, degrees: real)
    requires Lawful(m)
    ensures IsTurn(m, lab, degrees, At(lab.lightness, ChromaOf(m, lab), TurnedHue(m, lab, degrees)))
  {
    OwnCoordinates(m, lab);
    SumsAdd(m, m.atan2(lab.b, lab.a), Radians(m, degrees));
    HueTurns(m, lab, degrees, ChromaOf(m, lab));
  }

  lemma SumsAdd(m: Math, x: real, y: real)
    requires Lawful(m)
    ensures Adds(m, x, y)
  {}

  lemma HueTurns(m: Math, lab: Lab, degrees: real, chroma: real)
    requires lab == At(lab.lightness, chroma, UnitHue(m, lab))
    requires Adds(m, m.atan2(lab.b, lab.a), Radians(m, degrees))
    ensures IsTurn(m, lab, degrees, At(lab.lightness, chroma, TurnedHue(m, lab, degrees)))
  {
    DirectionTurns(m, lab, chroma, m.atan2(lab.b, lab.a), Radians(m, degrees));
  }

  lemma DirectionTurns(m: Math, lab: Lab, chroma: real, own: real, turn: real)
    requires Adds(m, own, turn) && lab == At(lab.lightness, chroma, Hue(m.cos(own), m.sin(own)))
    ensures var turned := At(lab.lightness, chroma, Hue(m.cos(own + turn), m.sin(own + turn)));
            && turned.lightness == lab.lightness
            && IsTurnedBy(m.cos(turn), m.sin(turn), lab.a, lab.b, turned.a, turned.b)
  {
    SumTurns(chroma, m.cos(own), m.sin(own), m.cos(turn), m.sin(turn), m.cos(own + turn), m.sin(own + turn));
  }

  lemma SumTurns(chroma: real, cos: real, sin: real, cosBy: real, sinBy: real, cosSum: real, sinSum: real)
    requires cosSum == cos * cosBy - sin * sinBy && sinSum == sin * cosBy + cos * sinBy
    ensures IsTurnedBy(cosBy, sinBy, chroma * cos, chroma * sin, chroma * cosSum, chroma * sinSum)
  {}

  lemma AnglesAdd(m: Math, d: real, e: real)
    requires Lawful(m)
    ensures Radians(m, d + e) == Radians(m, d) + Radians(m, e)
  {}

  /** Turning twice is turning by the sum, whatever the signs and however many whole turns. */
  lemma TurnsCompose(m: Math, lab: Lab, d: real, e: real, once: Lab, twice: Lab)
    requires Lawful(m) && IsTurn(m, lab, d, once) && IsTurn(m, once, e, twice)
    ensures IsTurn(m, lab, d + e, twice)
  {
    var x, y := Radians(m, d), Radians(m, e);
    AnglesAdd(m, d, e);
    assert Adds(m, x, y);
    MatricesCompose(m.cos(x), m.sin(x), m.cos(y), m.sin(y), lab.a, lab.b, once.a, once.b, twice.a, twice.b);
  }

  lemma MatricesCompose(
      cos: real, sin: real, cos': real, sin': real, a: real, b: real, c: real, d: real, e: real, f: real)
    requires IsTurnedBy(cos, sin, a, b, c, d) && IsTurnedBy(cos', sin', c, d, e, f)
    ensures IsTurnedBy(cos * cos' - sin * sin', sin * cos' + cos * sin', a, b, e, f)
  {}

  /** Quarter turns: 0 degrees keeps the point, 90 takes a to b and b to -a, 180 is the opposite, 360 the whole way. */
  lemma QuarterTurns(m: Math, lab: Lab)
    requires Lawful(m)
    ensures IsTurn(m, lab, 0.0, lab)
    ensures IsTurn(m, lab, 90.0, lab.(a := -lab.b, b := lab.a))
    ensures IsTurn(m, lab, 180.0, lab.(a := -lab.a, b := -lab.b))
    ensures IsTurn(m, lab, 270.0, lab.(a := lab.b, b := -lab.a))
    ensures IsTurn(m, lab, 360.0, lab)
  {
    var quarter, half := lab.(a := -lab.b, b := lab.a), lab.(a := -lab.a, b := -lab.b);
    QuarterTurn(m, lab);
    QuarterTurn(m, quarter);
    QuarterTurn(m, half);
    QuarterTurn(m, half.(a := -half.b, b := half.a));
    TurnsCompose(m, lab, 90.0, 90.0, quarter, half);
    TurnsCompose(m, lab, 180.0, 90.0, half, lab.(a := lab.b, b := -lab.a));
    TurnsCompose(m, lab, 270.0, 90.0, lab.(a := lab.b, b := -lab.a), lab);
    assert Radians(m, 0.0) == 0.0;
  }

  lemma QuarterTurn(m: Math, lab: Lab)
    requires Lawful(m)
    ensures IsTurn(m, lab, 90.0, lab.(a := -lab.b, b := lab.a))
  {
    assert Radians(m, 90.0) == m.pi / 2.0;
  }

  /** A turn keeps the distance from gray. */
  lemma TurnKeepsChroma(m: Math, lab: Lab, degrees: real, turned: Lab)
    requires Lawful(m) && IsTurn(m, lab, degrees, turned)
    ensures Square(turned.a) + Square(turned.b) == Square(lab.a) + Square(lab.b)
    ensures ChromaOf(m, turned) == ChromaOf(m, lab)
  {
    var angle := Radians(m, degrees);
    assert Square(m.cos(angle)) + Square(m.sin(angle)) == 1.0;
    LengthKept(m.cos(angle), m.sin(angle), lab.a, lab.b, turned.a, turned.b);
  }

  lemma LengthKept(cos: real, sin: real, a: real, b: real, c: real, d: real)
    requires Square(cos) + Square(sin) == 1.0 && IsTurnedBy(cos, sin, a, b, c, d)
    ensures Square(c) + Square(d) == Square(a) + Square(b)
  {
    assert Square(c) + Square(d) == (Square(cos) + Square(sin)) * (Square(a) + Square(b)) by {
      assert Square(c) == Square(cos) * Square(a) + Square(sin) * Square(b) - 2.0 * (cos * sin * a * b);
      assert Square(d) == Square(sin) * Square(a) + Square(cos) * Square(b) + 2.0 * (cos * sin * a * b);
    }
  }

  lemma UnitDirection(m: Math, lab: Lab, degrees: real)
    requires Lawful(m)
    ensures var hue := TurnedHue(m, lab, degrees); Square(hue.cos) + Square(hue.sin) == 1.0
  {}
}
