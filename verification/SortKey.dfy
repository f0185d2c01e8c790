/** The packed perceptual sort key (internal/color/sortkey.go). */
module SortKey {
  import opened Reals
  import opened Hexes
  import opened Oklab
  import Wheel
  import Derive

  const HUE_BUCKETS := 12
  const HUE_ORIGIN := 20.0
  const GROUP_STEP := 10_000_000
  const LIGHTNESS_STEP := 1_000
  const CHROMA_MAX := 999

  function HueInDegrees(m: Math, lab: Lab): real
    requires m.pi > 0.0
  {
    m.atan2(lab.b, lab.a) * 180.0 / m.pi
  }

  /** 0 for a neutral, else the twelfth of the hue circle, counted from the origin. */
  function Group(m: Math, lab: Lab): int
    requires m.pi > 0.0
  {
    if ChromaOf(m, lab) >= NEUTRAL_CHROMA then
      var hue := HueInDegrees(m, lab) - HUE_ORIGIN;
      var wrapped := if hue < 0.0 then hue + 360.0 else hue;
      1 + Trunc(wrapped / 30.0)
    else 0
  }

  function LightnessMark(lab: Lab): int { Round(lab.lightness * 1000.0) }

  function ChromaMark(m: Math, lab: Lab): int {
    var rounded := Round(ChromaOf(m, lab) * 1000.0);
    if rounded <= CHROMA_MAX then rounded else CHROMA_MAX
  }

  function Pack(group: int, lightness: int, chroma: int): int {
    group * GROUP_STEP + lightness * LIGHTNESS_STEP + chroma
  }

  function PerceptualSortKey(m: Math, h: string): int
    requires m.pi > 0.0
  {
    if |h| != HEX_LEN then 0
    else
      var lab := HexToOklab(m, h);
      Pack(Group(m, lab), LightnessMark(lab), ChromaMark(m, lab))
  }

  // ---- ranges ----

  lemma DegreesRange(m: Math, angle: real)
    requires m.pi > 0.0 && -m.pi < angle <= m.pi
    ensures -180.0 < angle * 180.0 / m.pi <= 180.0
  {
    var q := angle * 180.0 / m.pi;
    assert q * m.pi == angle * 180.0;
    Scale(q, 180.0, m.pi);
    Scale(q, -180.0, m.pi);
  }

  /** The group is the twelfth of a turn its hue is in, behind the origin at 20 degrees. */
  lemma GroupIsTwelfth(m: Math, lab: Lab)
    requires Lawful(m) && ChromaOf(m, lab) >= NEUTRAL_CHROMA
    ensures 1 <= Group(m, lab) <= HUE_BUCKETS
    ensures var past := HueInDegrees(m, lab) - HUE_ORIGIN;
            var turn := if past < 0.0 then 360.0 else 0.0;
            var g := Group(m, lab) as real;
            30.0 * (g - 1.0) <= past + turn < 30.0 * g
  {
    DegreesRange(m, m.atan2(lab.b, lab.a));
    TwelfthOf(HueInDegrees(m, lab) - HUE_ORIGIN);
  }

  lemma TwelfthOf(past: real)
    requires -200.0 < past <= 160.0
    ensures var wrapped := if past < 0.0 then past + 360.0 else past;
            var g := 1 + Trunc(wrapped / 30.0);
            1 <= g <= 12 && 30.0 * (g as real - 1.0) <= wrapped < 30.0 * g as real
  {}

  lemma MarksRange(m: Math, h: string)
    requires Lawful(m) && |h| == HEX_LEN
    ensures 0 <= LightnessMark(HexToOklab(m, h)) <= 1000
    ensures 0 <= ChromaMark(m, HexToOklab(m, h)) <= CHROMA_MAX
  {
    HexLightnessRange(m, h);
    Wheel.ChromaSquared(m, HexToOklab(m, h));
    RoundRange(HexToOklab(m, h).lightness, ChromaOf(m, HexToOklab(m, h)));
  }

  lemma RoundRange(lightness: real, chroma: real)
    requires 0.0 <= lightness < 1.0 && 0.0 <= chroma
    ensures 0 <= Round(lightness * 1000.0) <= 1000 && 0 <= Round(chroma * 1000.0)
  {}

  lemma GroupRange(m: Math, lab: Lab)
    requires Lawful(m)
    ensures 0 <= Group(m, lab) <= HUE_BUCKETS
    ensures Group(m, lab) == 0 <==> ChromaOf(m, lab) < NEUTRAL_CHROMA
  {
    if ChromaOf(m, lab) >= NEUTRAL_CHROMA { GroupIsTwelfth(m, lab); }
  }

  // ---- packing ----

  predicate InSlots(lightness: int, chroma: int) {
    0 <= lightness < GROUP_STEP / LIGHTNESS_STEP && 0 <= chroma < LIGHTNESS_STEP
  }

  predicate TripleLess(g: int, l: int, c: int, g': int, l': int, c': int) {
    g < g' || (g == g' && (l < l' || (l == l' && c < c')))
  }

  lemma Unpack(group: int, lightness: int, chroma: int)
    requires 0 <= group && InSlots(lightness, chroma)
    ensures var key := Pack(group, lightness, chroma);
            && key / GROUP_STEP == group
            && key % GROUP_STEP / LIGHTNESS_STEP == lightness
            && key % LIGHTNESS_STEP == chroma
  {
    var key := Pack(group, lightness, chroma);
    assert key % GROUP_STEP == lightness * LIGHTNESS_STEP + chroma;
    assert key == (group * 10_000 + lightness) * LIGHTNESS_STEP + chroma;
  }

  lemma PackOrder(g: int, l: int, c: int, g': int, l': int, c': int)
    requires InSlots(l, c) && InSlots(l', c')
    ensures Pack(g, l, c) < Pack(g', l', c') <==> TripleLess(g, l, c, g', l', c')
  {}

  // ---- the key of a hex ----

  /** The key fits an int32, and the three parts can be read back from it. */
  lemma KeyHoldsParts(m: Math, h: string)
    requires Lawful(m) && |h| == HEX_LEN
    ensures var key := PerceptualSortKey(m, h);
            var lab := HexToOklab(m, h);
            && 0 <= key <= 0x7fff_ffff
            && key / GROUP_STEP == Group(m, lab)
            && key % GROUP_STEP / LIGHTNESS_STEP == LightnessMark(lab)
            && key % LIGHTNESS_STEP == ChromaMark(m, lab)
  {
    var lab := HexToOklab(m, h);
    MarksRange(m, h);
    GroupRange(m, lab);
    Unpack(Group(m, lab), LightnessMark(lab), ChromaMark(m, lab));
  }

  /** Keys order hexes by group, then lightness, then chroma. */
  lemma KeyOrder(m: Math, h: string, k: string)
    requires Lawful(m) && |h| == HEX_LEN && |k| == HEX_LEN
    ensures var a, b := HexToOklab(m, h), HexToOklab(m, k);
            PerceptualSortKey(m, h) < PerceptualSortKey(m, k) <==>
              TripleLess(Group(m, a), LightnessMark(a), ChromaMark(m, a),
                         Group(m, b), LightnessMark(b), ChromaMark(m, b))
  {
    var a, b := HexToOklab(m, h), HexToOklab(m, k);
    MarksRange(m, h);
    MarksRange(m, k);
    PackOrder(Group(m, a), LightnessMark(a), ChromaMark(m, a), Group(m, b), LightnessMark(b), ChromaMark(m, b));
  }

  /** Every neutral sorts before every color that has a hue: the colors the rotations leave alone come first. */
  lemma NeutralsFirst(m: Math, h: string, k: string)
    requires Lawful(m) && |h| == HEX_LEN && |k| == HEX_LEN
    requires Derive.Neutral(m, h) && !Derive.Neutral(m, k)
    ensures PerceptualSortKey(m, h) < PerceptualSortKey(m, k)
  {
    GroupRange(m, HexToOklab(m, h));
    GroupRange(m, HexToOklab(m, k));
    KeyOrder(m, h, k);
  }

  // ---- what the key says of the color ----

  /** The point (a, b) is `chroma` away from gray, in the direction of so many degrees. */
  ghost predicate LiesAt(m: Math, lab: Lab, chroma: real, degrees: real) {
    && lab.a == chroma * m.cos(Wheel.Radians(m, degrees))
    && lab.b == chroma * m.sin(Wheel.Radians(m, degrees))
  }

  lemma DegreesAndBack(m: Math, angle: real, degrees: real)
    requires m.pi > 0.0 && degrees == angle * 180.0 / m.pi
    ensures Wheel.Radians(m, degrees) == angle
  {
    assert degrees * m.pi == angle * 180.0;
  }

  lemma OwnDegrees(m: Math, lab: Lab)
    requires Lawful(m)
    ensures LiesAt(m, lab, ChromaOf(m, lab), HueInDegrees(m, lab))
  {
    var angle := m.atan2(lab.b, lab.a);
    DegreesAndBack(m, angle, HueInDegrees(m, lab));
    assert Polar(m, lab.b, lab.a) == (lab.a, lab.b);
  }

  lemma WholeTurn(m: Math, degrees: real)
    requires Lawful(m)
    ensures m.cos(Wheel.Radians(m, degrees + 360.0)) == m.cos(Wheel.Radians(m, degrees))
    ensures m.sin(Wheel.Radians(m, degrees + 360.0)) == m.sin(Wheel.Radians(m, degrees))
  {
    var x, whole := Wheel.Radians(m, degrees), Wheel.Radians(m, 360.0);
    Wheel.AnglesAdd(m, degrees, 360.0);
    Wheel.QuarterTurns(m, Lab(0.0, 1.0, 0.0));
    assert m.cos(whole) == 1.0 && m.sin(whole) == 0.0;
    assert Adds(m, x, whole);
  }

  /** A color that has a hue lies in the twelfth its group names, counted from 20 degrees. */
  lemma GroupSector(m: Math, lab: Lab) returns (degrees: real)
    requires Lawful(m) && ChromaOf(m, lab) >= NEUTRAL_CHROMA
    ensures LiesAt(m, lab, ChromaOf(m, lab), degrees)
    ensures 20.0 + 30.0 * (Group(m, lab) as real - 1.0) <= degrees < 20.0 + 30.0 * Group(m, lab) as real
    ensures 1 <= Group(m, lab) <= 12
  {
    GroupIsTwelfth(m, lab);
    OwnDegrees(m, lab);
    degrees := HueInDegrees(m, lab);
    if degrees < 20.0 {
      WholeTurn(m, degrees);
      degrees := degrees + 360.0;
    }
  }

  /** The three parts read from a key by division and remainder. */
  function GroupPart(key: int): int { key / 10_000_000 }
  function LightnessPart(key: int): int { key % 10_000_000 / 1_000 }
  function ChromaPart(key: int): int { key % 1_000 }

  predicate RoundsTo(n: int, x: real) { -0.5 <= n as real - x <= 0.5 }

  lemma RoundedTo(x: real)
    requires x >= 0.0
    ensures RoundsTo(Round(x), x) && (Round(x) <= 999 <==> x < 999.5)
  {}

  /**
   What the group of a key says: 0 is a neutral; any other color lies, at its chroma, in the direction of
   the 30 degrees its group names.
   */
  lemma GroupMeans(m: Math, h: string, lab: Lab) returns (degrees: real)
    requires Lawful(m) && |h| == HEX_LEN && lab == HexToOklab(m, h)
    ensures var group := GroupPart(PerceptualSortKey(m, h));
            && 0 <= group <= 12 && (group == 0 <==> ChromaOf(m, lab) < 0.02)
            && (group != 0 ==>
                  && LiesAt(m, lab, ChromaOf(m, lab), degrees)
                  && 20.0 + 30.0 * (group as real - 1.0) <= degrees < 20.0 + 30.0 * group as real)
  {
    degrees := 0.0;
    KeyHoldsParts(m, h);
    GroupRange(m, lab);
    if ChromaOf(m, lab) >= NEUTRAL_CHROMA { degrees := GroupSector(m, lab); }
  }

  /** What the rest of a key says: lightness and chroma in thousandths, rounded, the chroma at most 999. */
  lemma MarksMean(m: Math, h: string, lab: Lab, chroma: real)
    requires Lawful(m) && |h| == HEX_LEN && lab == HexToOklab(m, h) && chroma == ChromaOf(m, lab)
    ensures var key := PerceptualSortKey(m, h);
            && RoundsTo(LightnessPart(key), lab.lightness * 1000.0)
            && (if chroma * 1000.0 < 999.5 then RoundsTo(ChromaPart(key), chroma * 1000.0) else ChromaPart(key) == 999)
  {
    KeyHoldsParts(m, h);
    Wheel.ChromaSquared(m, lab);
    HexLightnessRange(m, h);
    RoundedTo(lab.lightness * 1000.0);
    RoundedTo(chroma * 1000.0);
  }

  /** Within a group, and among the neutrals, the darker of two colors a thousandth apart comes first. */
  lemma DarkerFirst(m: Math, h: string, k: string)
    requires Lawful(m) && |h| == HEX_LEN && |k| == HEX_LEN
    requires GroupPart(PerceptualSortKey(m, h)) == GroupPart(PerceptualSortKey(m, k))
    requires HexToOklab(m, h).lightness + 0.001 < HexToOklab(m, k).lightness
    ensures PerceptualSortKey(m, h) < PerceptualSortKey(m, k)
  {
    MarksMean(m, h, HexToOklab(m, h), ChromaOf(m, HexToOklab(m, h)));
    MarksMean(m, k, HexToOklab(m, k), ChromaOf(m, HexToOklab(m, k)));
    LightnessDecides(PerceptualSortKey(m, h), PerceptualSortKey(m, k));
  }

  lemma LightnessDecides(a: int, b: int)
    requires GroupPart(a) == GroupPart(b) && LightnessPart(a) < LightnessPart(b)
    ensures a < b
  {}

  /** What is no hex has the key 0, and no color sorts before it. */
  lemma MalformedFirst(m: Math, h: string, k: string)
    requires Lawful(m) && |h| != HEX_LEN
    ensures PerceptualSortKey(m, h) == 0 && 0 <= PerceptualSortKey(m, k)
  {
    if |k| == HEX_LEN { KeyHoldsParts(m, k); }
  }
}
