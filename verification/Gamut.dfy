/**
 Bringing a color back inside sRGB (internal/color/gamut.go): two nested binary searches and a grid.
 The searches are proved over any test of what can be shown, then used with the test of OkLab.
 */
module Gamut {
  import opened Reals
  import opened Hsl
  import opened Oklab

  const GAMUT_STEPS := 20
  const LIGHTNESS_SAMPLES := 128
  const CHROMA_CEILING := 0.5
  /** What 20 halvings leave of 0.5. */
  const RESOLUTION := 1.0 / 2097152.0

  /** A direction in the plane of a and b. */
  datatype Hue = Hue(cos: real, sin: real)

  /** Which chromas can be shown at which lightness. */
  type Test = (real, real) -> bool

  function At(lightness: real, chroma: real, hue: Hue): Lab {
    Lab(lightness, chroma * hue.cos, chroma * hue.sin)
  }

  function Shown(hue: Hue): Test {
    (lightness: real, chroma: real) => InGamut(At(lightness, chroma, hue))
  }

  // ---- halving ----

  /** `steps` rounds of a binary search that keeps its first end where `ok` holds. */
  function Bisect(low: real, high: real, ok: real -> bool, steps: nat): (real, real)
    decreases steps
  {
    if steps == 0 then (low, high)
    else
      var mid := (low + high) / 2.0;
      if ok(mid) then Bisect(mid, high, ok, steps - 1) else Bisect(low, mid, ok, steps - 1)
  }

  function Halve(gap: real, steps: nat): real
    decreases steps
  {
    if steps == 0 then gap else Halve(gap / 2.0, steps - 1)
  }

  lemma HalveFour(gap: real, steps: nat)
    ensures Halve(gap, steps + 4) == Halve(gap / 16.0, steps)
  {
    assert Halve(gap, steps + 4) == Halve(gap / 2.0, steps + 3);
    assert Halve(gap / 2.0, steps + 3) == Halve(gap / 4.0, steps + 2);
    assert Halve(gap / 4.0, steps + 2) == Halve(gap / 8.0, steps + 1);
  }

  lemma HalveTwenty(gap: real)
    ensures Halve(gap, 20) == gap / 1048576.0
  {
    HalveFour(gap, 16);
    HalveFour(gap / 16.0, 12);
    HalveFour(gap / 256.0, 8);
    HalveFour(gap / 4096.0, 4);
    HalveFour(gap / 65536.0, 0);
  }

  /** Both ends keep what they stand for, between the first two, and the gap is halved each round. */
  lemma {:induction false} BisectKeeps(low: real, high: real, ok: real -> bool, steps: nat)
    ensures var (l, h) := Bisect(low, high, ok, steps);
            && (l == low || ok(l)) && (h == high || !ok(h))
            && h - l == Halve(high - low, steps)
            && (low <= high ==> low <= l <= h <= high)
            && (high <= low ==> high <= h <= l <= low)
    decreases steps
  {
    if steps > 0 {
      var mid := (low + high) / 2.0;
      assert high - mid == (high - low) / 2.0 == mid - low;
      BisectKeeps(mid, high, ok, steps - 1);
      BisectKeeps(low, mid, ok, steps - 1);
    }
  }

  lemma BisectTwenty(low: real, high: real, ok: real -> bool)
    ensures var (l, h) := Bisect(low, high, ok, GAMUT_STEPS);
            && (l == low || ok(l)) && (h == high || !ok(h))
            && h - l == (high - low) / 1048576.0
            && (low <= high ==> low <= l <= h <= high)
            && (high <= low ==> high <= h <= l <= low)
  {
    BisectKeeps(low, high, ok, GAMUT_STEPS);
    HalveTwenty(high - low);
  }

  // ---- the most chroma ----

  function MaxChroma(shown: Test, lightness: real): real {
    Bisect(0.0, CHROMA_CEILING, c => shown(lightness, c), GAMUT_STEPS).0
  }

  ghost predicate DownClosed(shown: Test, lightness: real) {
    forall c, d | 0.0 <= c <= d <= CHROMA_CEILING && shown(lightness, d) :: shown(lightness, c)
  }

  /** Chroma is only lost upwards at every lightness in [0, 1]. */
  ghost predicate LosesUpwards(shown: Test) {
    forall x | 0.0 <= x <= 1.0 :: DownClosed(shown, x)
  }

  /** The result can be shown, and exactly one resolution above it there is a chroma that cannot, or the ceiling. */
  lemma MaxChromaIsShown(shown: Test, lightness: real)
    ensures var held := MaxChroma(shown, lightness);
            && 0.0 <= held && held + RESOLUTION <= CHROMA_CEILING
            && (held > 0.0 || shown(lightness, 0.0) ==> shown(lightness, held))
            && (held + RESOLUTION == CHROMA_CEILING || !shown(lightness, held + RESOLUTION))
  {
    BisectTwenty(0.0, CHROMA_CEILING, c => shown(lightness, c));
  }

  /** Where chroma is only lost upwards, the result is the maximum to within the resolution. */
  lemma MaxChromaIsMaximal(shown: Test, lightness: real, chroma: real)
    requires DownClosed(shown, lightness) && shown(lightness, 0.0) && 0.0 <= chroma <= CHROMA_CEILING
    ensures chroma <= MaxChroma(shown, lightness) ==> shown(lightness, chroma)
    ensures shown(lightness, chroma) ==> chroma <= MaxChroma(shown, lightness) + RESOLUTION
  {
    MaxChromaIsShown(shown, lightness);
  }

  /** maxChromaAt. */
  method MaxChromaAt(shown: Test, lightness: real) returns (held: real)
    ensures held == MaxChroma(shown, lightness)
    ensures held > 0.0 || shown(lightness, 0.0) ==> shown(lightness, held)
  {
    var low, high := 0.0, CHROMA_CEILING;
    ghost var ok := (c: real) => shown(lightness, c);
    for i := 0 to GAMUT_STEPS
      invariant Bisect(low, high, ok, GAMUT_STEPS - i) == Bisect(0.0, CHROMA_CEILING, ok, GAMUT_STEPS)
    {
      var mid := (low + high) / 2.0;
      if shown(lightness, mid) { low := mid; } else { high := mid; }
    }
    held := low;
    MaxChromaIsShown(shown, lightness);
  }

  /** Chroma zero is shown at every lightness in [0, 1]. */
  ghost predicate ShowsGrays(shown: Test) {
    forall l | 0.0 <= l <= 1.0 :: shown(l, 0.0)
  }

  /** The test answers what oklabToLinear says of the colors of one hue. */
  ghost predicate IsGamutTest(shown: Test, hue: Hue) {
    forall l, c {:trigger InGamut(At(l, c, hue))} :: shown(l, c) == InGamut(At(l, c, hue))
  }

  lemma ShownIsGamutTest(hue: Hue)
    ensures IsGamutTest(Shown(hue), hue)
  {}

  /** What the test shows is a color with all three linear channels in [0, 1], to within a billionth. */
  lemma ShownMeans(shown: Test, hue: Hue, lightness: real, chroma: real, linear: Rgb)
    requires IsGamutTest(shown, hue) && IsLinear(linear, At(lightness, chroma, hue))
    ensures shown(lightness, chroma) <==> InSrgb(linear)
  {
    assert shown(lightness, chroma) == InGamut(At(lightness, chroma, hue));
    InGamutMeans(At(lightness, chroma, hue), linear);
  }

  lemma GraysAreShown(shown: Test, hue: Hue)
    requires IsGamutTest(shown, hue)
    ensures ShowsGrays(shown)
  {
    forall l | 0.0 <= l <= 1.0 ensures shown(l, 0.0) {
      assert At(l, 0.0, hue) == Lab(l, 0.0, 0.0);
      GrayIsCube(l);
      assert InGamut(At(l, 0.0, hue));
    }
  }

  // ---- the fit ----

  function Grid(i: nat): real { i as real / 128.0 }

  /** The samples run from lightness 0 to lightness 1: every lightness is within half a step of one. */
  lemma GridCovers(lightness: real) returns (i: nat)
    requires 0.0 <= lightness <= 1.0
    ensures i <= LIGHTNESS_SAMPLES && -1.0 / 256.0 <= Grid(i) - lightness <= 1.0 / 256.0
    ensures Grid(0) == 0.0 && Grid(LIGHTNESS_SAMPLES) == 1.0
  {
    i := (lightness * 128.0 + 0.5).Floor;
  }

  predicate Holds(shown: Test, lightness: real, chroma: real) {
    MaxChroma(shown, lightness) >= chroma
  }

  /** The first sample that carries the most chroma. */
  ghost predicate IsPeak(shown: Test, n: nat, p: nat) {
    && p < n
    && (forall i | 0 <= i < n :: MaxChroma(shown, Grid(i)) <= MaxChroma(shown, Grid(p)))
    && (forall i | 0 <= i < p :: MaxChroma(shown, Grid(i)) < MaxChroma(shown, Grid(p)))
  }

  ghost predicate NoneHolds(shown: Test, n: nat, chroma: real) {
    forall i | 0 <= i < n :: !Holds(shown, Grid(i), chroma)
  }

  function Distance(i: nat, lightness: real): real { Abs(Grid(i) - lightness) }

  /** The first of the samples that hold the chroma closest to the lightness asked for. */
  ghost predicate IsNearest(shown: Test, n: nat, lightness: real, chroma: real, k: nat) {
    && k < n && Holds(shown, Grid(k), chroma)
    && (forall i | 0 <= i < n && Holds(shown, Grid(i), chroma) :: Distance(k, lightness) <= Distance(i, lightness))
    && (forall i | 0 <= i < k && Holds(shown, Grid(i), chroma) :: Distance(k, lightness) < Distance(i, lightness))
  }

  function Walk(shown: Test, chroma: real, from': real, to': real): (real, real) {
    Bisect(from', to', (l: real) => Holds(shown, l, chroma), GAMUT_STEPS)
  }

  /** Which lightness and chroma fitToSRGB settles on. */
  ghost predicate Fitted(shown: Test, lightness: real, chroma: real, l: real, c: real) {
    if shown(lightness, chroma) then l == lightness && c == chroma
    else if NoneHolds(shown, LIGHTNESS_SAMPLES + 1, chroma) then
      exists p: nat :: IsPeak(shown, LIGHTNESS_SAMPLES + 1, p) && l == Grid(p) && c == MaxChroma(shown, l)
    else
      exists k: nat ::
        && IsNearest(shown, LIGHTNESS_SAMPLES + 1, lightness, chroma, k)
        && l == Walk(shown, chroma, Grid(k), lightness).0 && c == chroma
  }

  /** What the grid loop knows after n samples. */
  ghost predicate PeakSoFar(shown: Test, n: nat, p: nat, peak: real, peakChroma: real) {
    if n == 0 then peakChroma == -1.0
    else IsPeak(shown, n, p) && peak == Grid(p) && peakChroma == MaxChroma(shown, peak)
  }

  ghost predicate NearestSoFar(
      shown: Test, n: nat, lightness: real, chroma: real, k: nat, nearest: real, fits: bool)
  {
    if fits then IsNearest(shown, n, lightness, chroma, k) && nearest == Grid(k) else NoneHolds(shown, n, chroma)
  }

  predicate Closer(l: real, nearest: real, lightness: real) { Abs(l - lightness) < Abs(nearest - lightness) }

  lemma NextPeak(shown: Test, n: nat, p: nat, peak: real, peakChroma: real, held: real)
    requires PeakSoFar(shown, n, p, peak, peakChroma) && held == MaxChroma(shown, Grid(n)) && held >= 0.0
    ensures if held > peakChroma then PeakSoFar(shown, n + 1, n, Grid(n), held)
            else PeakSoFar(shown, n + 1, p, peak, peakChroma)
  {}

  lemma NextNearest(shown: Test, n: nat, lightness: real, chroma: real, k: nat, nearest: real, fits: bool, held: real)
    requires NearestSoFar(shown, n, lightness, chroma, k, nearest, fits) && held == MaxChroma(shown, Grid(n))
    ensures if held >= chroma && (!fits || Closer(Grid(n), nearest, lightness))
            then NearestSoFar(shown, n + 1, lightness, chroma, n, Grid(n), true)
            else NearestSoFar(shown, n + 1, lightness, chroma, k, nearest, fits)
  {}

  /** The grid loop: the lightness with the most chroma and the nearest one with enough, in one pass. */
  method Sample(shown: Test, lightness: real, chroma: real)
    returns (nearest: real, fits: bool, peak: real, peakChroma: real, ghost k: nat, ghost p: nat)
    ensures PeakSoFar(shown, LIGHTNESS_SAMPLES + 1, p, peak, peakChroma)
    ensures NearestSoFar(shown, LIGHTNESS_SAMPLES + 1, lightness, chroma, k, nearest, fits)
  {
    nearest, fits, k := 0.0, false, 0;
    peak, peakChroma, p := 0.0, -1.0, 0;
    for i := 0 to LIGHTNESS_SAMPLES + 1
      invariant PeakSoFar(shown, i, p, peak, peakChroma)
      invariant NearestSoFar(shown, i, lightness, chroma, k, nearest, fits)
    {
      var l := Grid(i);
      var held := MaxChromaAt(shown, l);
      MaxChromaIsShown(shown, l);
      NextPeak(shown, i, p, peak, peakChroma, held);
      NextNearest(shown, i, lightness, chroma, k, nearest, fits, held);
      if held > peakChroma {
        peak, peakChroma, p := l, held, i;
      }
      if held >= chroma && (!fits || Closer(l, nearest, lightness)) {
        nearest, fits, k := l, true, i;
      }
    }
  }

  method HoldsAt(shown: Test, lightness: real, chroma: real, ghost ok: real -> bool) returns (holds: bool)
    requires forall l {:trigger Holds(shown, l, chroma)} :: ok(l) == Holds(shown, l, chroma)
    ensures holds == ok(lightness)
  {
    var held := MaxChromaAt(shown, lightness);
    holds := held >= chroma;
    assert holds == Holds(shown, lightness, chroma);
  }

  /** The last loop of fitToSRGB, from the nearest sample towards the request; `ok` is what it asks of a lightness. */
  method WalkLoop(shown: Test, chroma: real, nearest: real, lightness: real, ghost ok: real -> bool)
    returns (low: real)
    requires forall l {:trigger Holds(shown, l, chroma)} :: ok(l) == Holds(shown, l, chroma)
    ensures low == Bisect(nearest, lightness, ok, GAMUT_STEPS).0
  {
    var high := lightness;
    low := nearest;
    for i := 0 to GAMUT_STEPS
      invariant Bisect(low, high, ok, GAMUT_STEPS - i) == Bisect(nearest, lightness, ok, GAMUT_STEPS)
    {
      var mid := (low + high) / 2.0;
      var holds := HoldsAt(shown, mid, chroma, ok);
      if holds { low := mid; } else { high := mid; }
    }
  }

  method WalkToEdge(shown: Test, chroma: real, nearest: real, lightness: real) returns (low: real)
    ensures low == Walk(shown, chroma, nearest, lightness).0
  {
    low := WalkLoop(shown, chroma, nearest, lightness, (l: real) => Holds(shown, l, chroma));
  }

  /** fitToSRGB up to the color it prints. */
  method FitToSRGB(shown: Test, lightness: real, chroma: real) returns (l: real, c: real)
    ensures Fitted(shown, lightness, chroma, l, c)
  {
    if shown(lightness, chroma) { return lightness, chroma; }
    var nearest, fits, peak, peakChroma, k, p := Sample(shown, lightness, chroma);
    if !fits {
      l, c := peak, peakChroma;
      assert IsPeak(shown, LIGHTNESS_SAMPLES + 1, p) && l == Grid(p) && c == MaxChroma(shown, l);
    } else {
      l := WalkToEdge(shown, chroma, nearest, lightness);
      c := chroma;
      NearestHolds(shown, lightness, chroma, k);
    }
  }

  lemma NearestHolds(shown: Test, lightness: real, chroma: real, k: nat)
    requires IsNearest(shown, LIGHTNESS_SAMPLES + 1, lightness, chroma, k)
    ensures !NoneHolds(shown, LIGHTNESS_SAMPLES + 1, chroma)
  {}

  // ---- what the fit is good for ----

  /**
   The walk ends between the grid point and the request, where the chroma is still held; a
   2^20th of the way it set out to cover further on it is not held, or the request itself is there.
   */
  lemma {:induction false} WalkSpec(shown: Test, chroma: real, from': real, to': real)
    requires Holds(shown, from', chroma)
    ensures var (l, h) := Walk(shown, chroma, from', to');
            && Holds(shown, l, chroma)
            && (h == to' || !Holds(shown, h, chroma))
            && h - l == (to' - from') / 1048576.0
            && (from' <= l <= h <= to' || to' <= h <= l <= from')
  {
    BisectTwenty(from', to', (l: real) => Holds(shown, l, chroma));
  }

  lemma GridInUnit(i: nat)
    requires i <= LIGHTNESS_SAMPLES
    ensures 0.0 <= Grid(i) <= 1.0
  {}

  /**
   The fit of a color that no sampled lightness holds: the most any of them holds, at the darkest that
   holds it, and it can be shown.
   */
  lemma FitGivesWay(shown: Test, lightness: real, chroma: real, l: real, c: real)
    requires ShowsGrays(shown) && Fitted(shown, lightness, chroma, l, c)
    requires !shown(lightness, chroma) && NoneHolds(shown, LIGHTNESS_SAMPLES + 1, chroma)
    ensures shown(l, c) && 0.0 <= l <= 1.0 && 0.0 <= c < chroma
    ensures forall i | 0 <= i <= 128 ::
              MaxChroma(shown, Grid(i)) <= c && (Grid(i) < l ==> MaxChroma(shown, Grid(i)) < c)
  {
    var p: nat :| IsPeak(shown, LIGHTNESS_SAMPLES + 1, p) && l == Grid(p) && c == MaxChroma(shown, l);
    GridInUnit(p);
    MaxChromaIsShown(shown, l);
  }

  function Gap(x: real, y: real): real { if x < y then y - x else x - y }

  lemma NearestIs(shown: Test, lightness: real, chroma: real, k: nat, i: nat)
    requires IsNearest(shown, LIGHTNESS_SAMPLES + 1, lightness, chroma, k)
    requires i <= LIGHTNESS_SAMPLES && Holds(shown, Grid(i), chroma)
    ensures var x, y := Gap(Grid(k), lightness), Gap(Grid(i), lightness);
            x < y || (x == y && Grid(k) <= Grid(i))
  {}

  /** The walk from the k-th sample stopped at l: just before `edge`, where the chroma is lost, or at the request. */
  ghost predicate StopsBefore(shown: Test, lightness: real, chroma: real, k: nat, l: real, edge: real) {
    && (Grid(k) <= l <= edge <= lightness || lightness <= edge <= l <= Grid(k))
    && edge - l == (lightness - Grid(k)) / 1048576.0
    && (edge == lightness || !Holds(shown, edge, chroma))
  }

  /**
   The fit of a color that some sampled lightness holds keeps the chroma and stays between the
   nearest of those samples, the darker of two, and the request, and next to it the chroma is lost.
   */
  lemma FitKeepsChroma(shown: Test, lightness: real, chroma: real, l: real, c: real) returns (k: nat, edge: real)
    requires Fitted(shown, lightness, chroma, l, c)
    requires !shown(lightness, chroma) && !NoneHolds(shown, LIGHTNESS_SAMPLES + 1, chroma)
    ensures c == chroma && Holds(shown, l, chroma)
    ensures k <= 128 && MaxChroma(shown, Grid(k)) >= chroma
    ensures forall i | 0 <= i <= 128 && MaxChroma(shown, Grid(i)) >= chroma ::
              var x, y := Gap(Grid(k), lightness), Gap(Grid(i), lightness);
              x < y || (x == y && Grid(k) <= Grid(i))
    ensures StopsBefore(shown, lightness, chroma, k, l, edge)
  {
    k :|
      && IsNearest(shown, LIGHTNESS_SAMPLES + 1, lightness, chroma, k)
      && l == Walk(shown, chroma, Grid(k), lightness).0 && c == chroma;
    WalkSpec(shown, chroma, Grid(k), lightness);
    edge := Walk(shown, chroma, Grid(k), lightness).1;
    forall i: nat | i <= 128 && MaxChroma(shown, Grid(i)) >= chroma
      ensures var x, y := Gap(Grid(k), lightness), Gap(Grid(i), lightness);
              x < y || (x == y && Grid(k) <= Grid(i))
    {
      NearestIs(shown, lightness, chroma, k, i);
    }
  }

  /** Where the request itself loses chroma only upwards, it does not hold the chroma asked for. */
  lemma RequestDoesNotHold(shown: Test, lightness: real, chroma: real)
    requires 0.0 <= lightness <= 1.0 && 0.0 <= chroma
    requires ShowsGrays(shown) && DownClosed(shown, lightness) && !shown(lightness, chroma)
    ensures !Holds(shown, lightness, chroma)
  {
    MaxChromaIsShown(shown, lightness);
  }

  /** With chroma lost only upwards, whatever is asked for at a lightness in [0, 1], the fit can be shown. */
  lemma FitIsShown(shown: Test, lightness: real, chroma: real, l: real, c: real)
    requires 0.0 <= lightness <= 1.0 && 0.0 <= chroma
    requires ShowsGrays(shown) && LosesUpwards(shown)
    requires Fitted(shown, lightness, chroma, l, c)
    ensures shown(l, c) && 0.0 <= l <= 1.0 && 0.0 <= c <= chroma
  {
    if !shown(lightness, chroma) {
      if NoneHolds(shown, LIGHTNESS_SAMPLES + 1, chroma) {
        FitGivesWay(shown, lightness, chroma, l, c);
      } else {
        var k, edge := FitKeepsChroma(shown, lightness, chroma, l, c);
        GridInUnit(k);
        MaxChromaIsShown(shown, l);
        MaxChromaIsMaximal(shown, l, chroma);
      }
    }
  }

  /**
   The fit in linear channels: a color that sRGB can show does not move; with chroma lost only upwards
   whatever is asked for comes out with all three channels in [0, 1], to within a billionth.
   */
  lemma FitInSrgb(
      shown: Test, hue: Hue, lightness: real, chroma: real, l: real, c: real, own: Rgb, linear: Rgb)
    requires IsGamutTest(shown, hue) && Fitted(shown, lightness, chroma, l, c)
    requires IsLinear(own, At(lightness, chroma, hue)) && IsLinear(linear, At(l, c, hue))
    ensures InSrgb(own) ==> l == lightness && c == chroma && linear == own
    ensures LosesUpwards(shown) && 0.0 <= lightness <= 1.0 && 0.0 <= chroma ==>
              InSrgb(linear) && 0.0 <= l <= 1.0 && 0.0 <= c <= chroma
  {
    ShownMeans(shown, hue, lightness, chroma, own);
    ShownMeans(shown, hue, l, c, linear);
    GraysAreShown(shown, hue);
    if LosesUpwards(shown) && 0.0 <= lightness <= 1.0 && 0.0 <= chroma {
      FitIsShown(shown, lightness, chroma, l, c);
    }
    if InSrgb(own) { SameLinear(At(l, c, hue), own, linear); }
  }

  lemma SameLinear(lab: Lab, x: Rgb, y: Rgb)
    requires IsLinear(x, lab) && IsLinear(y, lab)
    ensures x == y
  {
    assert OklabToLinear(lab) == x;
  }
}
