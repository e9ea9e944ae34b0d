/** Galaxy geometry shared by both sketches: the year range of a galaxy's
    rows, the year-to-radius mapping `radiusForYear` that
    `recomputeRadiusMapperForGalaxy` installs, and the year-to-era mapping
    `yearToStep` of `makeGalaxySystem`. */
module Layout {
  import opened Common

  /** Number of eras; `currentStep` and every birth step lie in 0..MAX_STEP-1. */
  const MAX_STEP: nat := 8
  /** The year used when a galaxy has no rows. */
  const EMPTY_YEAR: int := 2000

  /** The canvas: width, height and half of its diagonal (`Math.hypot(width, height) * 0.5`). */
  datatype Viewport = Viewport(width: real, height: real, halfDiag: real)

  predicate ValidViewport(vp: Viewport) {
    && vp.width >= 0.0 && vp.height >= 0.0 && vp.halfDiag >= 0.0
    && 4.0 * vp.halfDiag * vp.halfDiag == vp.width * vp.width + vp.height * vp.height
  }

  /** The closure `gal.radiusForYear`: the two radii it captured and the
      galaxy's year range it reads. */
  datatype RadiusMap = RadiusMap(innerMin: real, outerMax: real, minYear: int, maxYear: int)

  /** p5's `lerp`. */
  function Lerp(a: real, b: real, t: real): (r: real)
    ensures t == 0.0 ==> r == a
    ensures t == 1.0 ==> r == b
  {
    a + (b - a) * t
  }

  /** `recomputeRadiusMapperForGalaxy`: the outermost orbit is 45% of the
      smaller side, the innermost 8% of that; both fit inside the canvas. */
  function MapperFor(vp: Viewport, minYear: int, maxYear: int): (m: RadiusMap)
    ensures m.minYear == minYear && m.maxYear == maxYear
    ensures ValidViewport(vp) ==>
              0.0 <= m.innerMin <= m.outerMax && 2.0 * m.outerMax < Min(vp.width, vp.height) + 1.0
    ensures ValidViewport(vp) ==> m.outerMax <= 0.45 * vp.width && m.outerMax <= 0.45 * vp.height
  {
    var outerMax := Min(vp.width, vp.height) * 0.45;
    RadiusMap(outerMax * 0.08, outerMax, minYear, maxYear)
  }

  /** The fraction of the year range that lies below y. */
  function YearFraction(minYear: int, maxYear: int, y: int): (t: real)
    requires minYear != maxYear
    ensures minYear <= y <= maxYear ==> 0.0 <= t <= 1.0
    ensures y == minYear ==> t == 0.0
    ensures y == maxYear ==> t == 1.0
  {
    (y - minYear) as real / (maxYear - minYear) as real
  }

  lemma DivMonotone(a: real, b: real, d: real)
    requires 0.0 < d && a <= b
    ensures a / d <= b / d
  {
    var q1, q2 := a / d, b / d;
    assert q1 * d == a && q2 * d == b;
    ScaleMonotone(d, q2, q1);
  }

  lemma FractionMonotone(minYear: int, maxYear: int, y1: int, y2: int)
    requires minYear < maxYear && y1 <= y2
    ensures YearFraction(minYear, maxYear, y1) <= YearFraction(minYear, maxYear, y2)
  {
    DivMonotone((y1 - minYear) as real, (y2 - minYear) as real, (maxYear - minYear) as real);
  }

  /** `gal.radiusForYear(y)`: a single-year galaxy puts every member on the
      middle orbit; otherwise the radius interpolates linearly between the
      innermost orbit (oldest year) and the outermost one (newest). */
  function RadiusForYear(m: RadiusMap, y: int): (r: real)
    ensures m.minYear == m.maxYear ==> r == (m.innerMin + m.outerMax) / 2.0
    ensures m.minYear < m.maxYear && y == m.minYear ==> r == m.innerMin
    ensures m.minYear < m.maxYear && y == m.maxYear ==> r == m.outerMax
  {
    if m.minYear == m.maxYear then (m.innerMin + m.outerMax) / 2.0
    else Lerp(m.innerMin, m.outerMax, YearFraction(m.minYear, m.maxYear, y))
  }

  lemma ScaleUnit(d: real, t: real)
    requires 0.0 <= d && 0.0 <= t <= 1.0
    ensures 0.0 <= d * t <= d
  {
  }

  lemma ScaleMonotone(d: real, t1: real, t2: real)
    requires 0.0 <= d
    ensures t1 <= t2 ==> d * t1 <= d * t2
    ensures d > 0.0 && d * t1 <= d * t2 ==> t1 <= t2
  {
    assert d * t2 - d * t1 == d * (t2 - t1);
  }

  lemma ProductNonNegative(x: real, y: real)
    requires 0.0 <= x && 0.0 <= y
    ensures 0.0 <= x * y
  {
  }

  /** `d * x` lies between `lo * d` and `hi * d` for x in [lo, hi]. */
  lemma ScaleBetween(d: real, lo: real, x: real, hi: real)
    requires 0.0 <= d && lo <= x <= hi
    ensures lo * d <= d * x
    ensures d * x <= hi * d
  {
    assert d * x - lo * d == d * (x - lo);
    ProductNonNegative(d, x - lo);
    assert hi * d - d * x == d * (hi - x);
    ProductNonNegative(d, hi - x);
  }

  lemma LerpInRange(a: real, b: real, t: real)
    requires a <= b && 0.0 <= t <= 1.0
    ensures a <= Lerp(a, b, t) <= b
  {
    assert Lerp(a, b, t) - a == (b - a) * t;
    ProductNonNegative(b - a, t);
    assert b - Lerp(a, b, t) == (b - a) * (1.0 - t);
    ProductNonNegative(b - a, 1.0 - t);
  }

  /** The same for an interpolation towards a smaller value. */
  lemma LerpInRangeDown(a: real, b: real, t: real)
    requires b <= a && 0.0 <= t <= 1.0
    ensures b <= Lerp(a, b, t) <= a
  {
    assert Lerp(a, b, t) - b == (a - b) * (1.0 - t);
    ProductNonNegative(a - b, 1.0 - t);
    assert a - Lerp(a, b, t) == (a - b) * t;
    ProductNonNegative(a - b, t);
  }

  lemma LerpMonotone(a: real, b: real, t1: real, t2: real)
    requires a <= b && t1 <= t2
    ensures Lerp(a, b, t1) <= Lerp(a, b, t2)
  {
    assert Lerp(a, b, t2) - Lerp(a, b, t1) == (b - a) * (t2 - t1);
    ProductNonNegative(b - a, t2 - t1);
  }

  /** Every year of the galaxy's range maps to an orbit between the innermost
      and the outermost radius. */
  lemma RadiusInRange(m: RadiusMap, y: int)
    requires m.innerMin <= m.outerMax && m.minYear <= y <= m.maxYear
    ensures m.innerMin <= RadiusForYear(m, y) <= m.outerMax
  {
    if m.minYear < m.maxYear {
      LerpInRange(m.innerMin, m.outerMax, YearFraction(m.minYear, m.maxYear, y));
    }
  }

  /** Newer papers never orbit closer to the core than older ones. */
  lemma RadiusMonotone(m: RadiusMap, y1: int, y2: int)
    requires m.innerMin <= m.outerMax && m.minYear <= m.maxYear && y1 <= y2
    ensures RadiusForYear(m, y1) <= RadiusForYear(m, y2)
  {
    if m.minYear < m.maxYear {
      FractionMonotone(m.minYear, m.maxYear, y1, y2);
      LerpMonotone(m.innerMin, m.outerMax, YearFraction(m.minYear, m.maxYear, y1),
                   YearFraction(m.minYear, m.maxYear, y2));
    }
  }

  /** `yearToStep(y)`: the era in which a paper of year y is born. */
  function YearToStep(minYear: int, maxYear: int, y: int): (s: int)
    ensures minYear == maxYear ==> s == 0
    ensures minYear <= y <= maxYear ==> 0 <= s <= MAX_STEP - 1
    ensures minYear < maxYear && y == maxYear ==> s == MAX_STEP - 1
    ensures y == minYear ==> s == 0
  {
    if maxYear == minYear then 0
    else (YearFraction(minYear, maxYear, y) * (MAX_STEP - 1) as real).Floor
  }

  /** Newer papers are never born in an earlier era. */
  lemma YearToStepMonotone(minYear: int, maxYear: int, y1: int, y2: int)
    requires minYear <= maxYear && y1 <= y2
    ensures YearToStep(minYear, maxYear, y1) <= YearToStep(minYear, maxYear, y2)
  {
    if minYear < maxYear {
      FractionMonotone(minYear, maxYear, y1, y2);
    }
  }

  /** `min(years)` of a non-empty year list. */
  function MinYear(years: seq<int>): (lo: int)
    requires |years| > 0
    ensures lo in years
    ensures forall i :: 0 <= i < |years| ==> lo <= years[i]
  {
    if |years| == 1 then years[0]
    else
      var rest := MinYear(years[1..]);
      if years[0] <= rest then years[0] else rest
  }

  /** `max(years)` of a non-empty year list. */
  function MaxYear(years: seq<int>): (hi: int)
    requires |years| > 0
    ensures hi in years
    ensures forall i :: 0 <= i < |years| ==> years[i] <= hi
  {
    if |years| == 1 then years[0]
    else
      var rest := MaxYear(years[1..]);
      if years[0] >= rest then years[0] else rest
  }

  /** The `minYear` / `maxYear` pair of `makeGalaxySystem`: the extreme
      years of the rows, or 2000 twice when there are none. */
  function YearRange(years: seq<int>): (r: (int, int))
    ensures r.0 <= r.1
    ensures years == [] ==> r == (EMPTY_YEAR, EMPTY_YEAR)
    ensures years != [] ==> r.0 in years && r.1 in years
    ensures forall i :: 0 <= i < |years| ==> r.0 <= years[i] <= r.1
  {
    if years == [] then (EMPTY_YEAR, EMPTY_YEAR) else (MinYear(years), MaxYear(years))
  }
}
