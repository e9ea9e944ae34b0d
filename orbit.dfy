/** One member of a galaxy (a "planet") and everything the sketches do to
    it frame by frame: the `waiting -> incoming -> settled` state machine of
    `updatePlanets`, the eased arrival path with `lerpAngle`, the screen
    sampling of `drawPlanetsAndRecordScreenPos` into the two bounded trail
    buffers of `addSampleToTrail`, the reset of `switchToGalaxy` and the
    re-layout of `refreshGalaxyLayout`. */
module Orbit {
  import opened Common
  import opened Layout
  import opened Discipline
  import opened CitationIndex

  /** `t` advances by ARRIVAL_SPEED = 0.005 per frame; progress k stands for t = k / 200. */
  const ARRIVAL_TICKS: nat := 200
  const ORBIT_SPEED_MIN: real := 0.0004
  const ORBIT_SPEED_MAX: real := 0.0015
  const SPAWN_DELAY_MIN: real := 40.0
  const SPAWN_DELAY_MAX: real := 260.0
  const TRAIL_MAX_POINTS: nat := 60
  const INCOMING_TRAIL_MAX: nat := 6
  /** `MIN_DIST = 2` of `addSampleToTrail`, squared. */
  const MIN_SAMPLE_DIST_SQ: real := 4.0
  /** Extra turn of an arriving planet at t = 0; it fades out as it arrives. */
  const BONUS_TURN: real := 0.2

  datatype Phase = Waiting | Incoming | Settled

  /** Position of a phase in the only order the sketches move through. */
  function Rank(ph: Phase): nat {
    match ph
    case Waiting => 0
    case Incoming => 1
    case Settled => 2
  }

  /** The fields of a planet that `makeGalaxySystem` fixes once and nothing
      writes afterwards: the paper, its discipline's colour and band, its
      birth era and its random delay, speed and size. */
  datatype Body = Body(
    paperId: string, title: string, paperYear: int, disciplineRaw: string,
    color: Rgb, bandScale: real, morphRaw: string,
    birthStep: int, spawnDelay: real, orbitSpeed: real, planetSize: real,
    hasChildren: bool)

  /** The planet record `makeGalaxySystem` builds; `progress` is `t * 200`
      and `screen` is `screenX`/`screenY` (None while they are null). */
  datatype Planet = Planet(
    body: Body,
    finalR: real, finalAngle: real, spawnR: real, spawnAng: real,
    ageInEra: nat, phase: Phase, progress: nat,
    curR: real, curAng: real,
    trail: seq<Point>, incomingTrail: seq<Point>, screen: Option<Point>)

  /** Consecutive trail points lie more than MIN_DIST apart. */
  predicate Spaced(pts: seq<Point>) {
    forall i :: 1 <= i < |pts| ==> DistSq(pts[i - 1], pts[i]) > MIN_SAMPLE_DIST_SQ
  }

  /** What holds of every planet at every frame:
      a waiting planet has not moved, has no trail and has not yet waited
      past its delay; an arriving one is strictly between t = 0 and t = 1
      and has no orbit trail; a settled one has t = 1; both trails respect
      their capacity and their spacing. */
  ghost predicate PlanetInv(p: Planet) {
    && SPAWN_DELAY_MIN <= p.body.spawnDelay < SPAWN_DELAY_MAX
    && (p.phase == Waiting ==>
          p.progress == 0 && p.ageInEra as real <= p.body.spawnDelay && p.trail == [] && p.incomingTrail == [])
    && (p.phase == Incoming ==> 1 <= p.progress < ARRIVAL_TICKS && p.trail == [])
    && (p.phase == Settled ==> p.progress == ARRIVAL_TICKS)
    && |p.trail| <= TRAIL_MAX_POINTS && Spaced(p.trail)
    && |p.incomingTrail| <= INCOMING_TRAIL_MAX && Spaced(p.incomingTrail)
  }


  // ---------------------------------------------------------------- easing and angles

  /** `1 - t` for t = k / 200: the part of the arrival still ahead. */
  function Remaining(k: nat): (u: real)
    ensures k <= ARRIVAL_TICKS ==> 0.0 <= u <= 1.0
  {
    var n := ARRIVAL_TICKS as real;
    if k <= ARRIVAL_TICKS then DivMonotone(k as real, n, n); 1.0 - k as real / n
    else 1.0 - k as real / n
  }

  lemma RemainingMonotone(k1: nat, k2: nat)
    requires k1 <= k2
    ensures Remaining(k2) <= Remaining(k1)
  {
    DivMonotone(k1 as real, k2 as real, ARRIVAL_TICKS as real);
  }

  lemma SquareMonotone(a: real, b: real)
    requires 0.0 <= a <= b
    ensures a * a <= b * b
  {
    ScaleMonotone(b, a, b);
    ScaleMonotone(a, a, b);
    assert a * b == b * a;
  }

  /** `e = 1 - pow(1 - t, 2)` for t = k / 200: it starts at 0, ends at 1 and
      never leaves [0, 1] on the way. */
  function Ease(k: nat): (e: real)
    ensures k <= ARRIVAL_TICKS ==> 0.0 <= e <= 1.0
    ensures k == 0 ==> e == 0.0
    ensures k == ARRIVAL_TICKS ==> e == 1.0
  {
    var u := Remaining(k);
    if k <= ARRIVAL_TICKS then ScaleUnit(u, u); 1.0 - u * u
    else 1.0 - u * u
  }

  /** The arrival never moves backwards along its path. */
  lemma EaseMonotone(k1: nat, k2: nat)
    requires k1 <= k2 <= ARRIVAL_TICKS
    ensures Ease(k1) <= Ease(k2)
  {
    RemainingMonotone(k1, k2);
    SquareMonotone(Remaining(k2), Remaining(k1));
  }

  /** x rounded up. */
  function Ceil(x: real): (n: int)
    ensures x <= n as real < x + 1.0
  {
    -((-x).Floor)
  }

  /** a and b differ by n whole turns. */
  predicate Turns(a: real, b: real, n: int) {
    a - b == TWO_PI * n as real
  }

  /** a and b point the same way: they differ by whole turns. */
  ghost predicate SameDirection(a: real, b: real) {
    exists n: int :: Turns(a, b, n)
  }

  /** `atan2(sin(da), cos(da))`: da moved by whole turns into (-PI, PI]. */
  function WrapAngle(da: real): (r: real)
    ensures -PI < r <= PI
    ensures SameDirection(da, r)
  {
    var n := Ceil((da - PI) / TWO_PI);
    var r := da - TWO_PI * n as real;
    assert Turns(da, r, n);
    r
  }

  /** There is only one such representative: WrapAngle is the unique angle
      in (-PI, PI] that points the same way as da. */
  lemma WrapAngleUnique(da: real, x: real)
    requires -PI < x <= PI && SameDirection(da, x)
    ensures WrapAngle(da) == x
  {
    var k :| Turns(da, x, k);
    var n :| Turns(da, WrapAngle(da), n);
    assert x - WrapAngle(da) == TWO_PI * (n - k) as real;
    assert -1 < n - k < 1;
  }

  /** `lerpAngle(a0, a1, t)`: turn from a0 towards a1 the short way round. */
  function LerpAngle(a0: real, a1: real, t: real): (r: real)
    ensures t == 0.0 ==> r == a0
    ensures t == 1.0 ==> SameDirection(a1, r)
  {
    var w := WrapAngle(a1 - a0);
    if t == 1.0 then
      var n :| Turns(a1 - a0, w, n);
      assert Turns(a1, a0 + w, n);
      a0 + w * t
    else a0 + w * t
  }

  /** The short way round: the turn never exceeds half a circle. */
  lemma LerpAngleShortWay(a0: real, a1: real, t: real)
    requires 0.0 <= t <= 1.0
    ensures -PI <= LerpAngle(a0, a1, t) - a0 <= PI
  {
    var w := WrapAngle(a1 - a0);
    assert LerpAngle(a0, a1, t) - a0 == w * t;
    if w >= 0.0 {
      ScaleUnit(w, t);
    } else {
      ScaleUnit(-w, t);
      assert (-w) * t == -(w * t);
    }
  }

  /** Concretely: from 0 towards 3*PI/2 the path turns clockwise, through -PI/2. */
  lemma LerpAngleTurnsBack(e: real)
    ensures LerpAngle(0.0, 3.0 * PI / 2.0, e) == -(PI / 2.0) * e
  {
    assert Turns(3.0 * PI / 2.0, -(PI / 2.0), 1);
    WrapAngleUnique(3.0 * PI / 2.0, -(PI / 2.0));
  }

  // ---------------------------------------------------------------- frame update

  /** Where an arriving planet at step k is drawn: from its spawn point to
      its orbit along the eased path, with a bonus turn that fades out. */
  function ArrivalPos(p: Planet): (pos: (real, real))
    ensures p.progress == 0 ==> pos == (p.spawnR, p.spawnAng + BONUS_TURN)
    ensures p.progress == ARRIVAL_TICKS ==> pos.0 == p.finalR && SameDirection(p.finalAngle, pos.1)
    ensures p.progress <= ARRIVAL_TICKS && p.finalR <= p.spawnR ==> p.finalR <= pos.0 <= p.spawnR
  {
    var e := Ease(p.progress);
    (ArrivalRadius(p), LerpAngle(p.spawnAng, p.finalAngle, e) + BONUS_TURN * (1.0 - e))
  }

  /** The radius part of ArrivalPos: `lerp(spawnR, finalR, e)`. */
  function ArrivalRadius(p: Planet): (r: real)
    ensures p.progress == 0 ==> r == p.spawnR
    ensures p.progress == ARRIVAL_TICKS ==> r == p.finalR
    ensures p.progress <= ARRIVAL_TICKS && p.finalR <= p.spawnR ==> p.finalR <= r <= p.spawnR
  {
    var e := Ease(p.progress);
    if p.progress <= ARRIVAL_TICKS && p.finalR <= p.spawnR then
      LerpInRangeDown(p.spawnR, p.finalR, e);
      Lerp(p.spawnR, p.finalR, e)
    else Lerp(p.spawnR, p.finalR, e)
  }

  /** The position part of `updatePlanets`: an arriving planet follows
      ArrivalPos, every other planet sits on its orbit. */
  function Place(p: Planet): (r: Planet)
    ensures r == p.(curR := r.curR, curAng := r.curAng)
    ensures p.phase != Incoming ==> r.curR == p.finalR && r.curAng == p.finalAngle
    ensures p.phase == Incoming ==> (r.curR, r.curAng) == ArrivalPos(p)
  {
    if p.phase == Incoming then
      var pos := ArrivalPos(p);
      p.(curR := pos.0, curAng := pos.1)
    else
      p.(curR := p.finalR, curAng := p.finalAngle)
  }

  /** Fields that `updatePlanets` never writes. */
  predicate KeepsLayout(p: Planet, r: Planet) {
    && r.body == p.body && r.finalR == p.finalR && r.spawnR == p.spawnR && r.spawnAng == p.spawnAng
    && r.trail == p.trail && r.incomingTrail == p.incomingTrail && r.screen == p.screen
  }

  /** One iteration of the loop of `updatePlanets(gal)` with
      `gal.currentStep == currentStep`. */
  function Tick(p: Planet, currentStep: int): (r: Planet)
    // a planet whose era has not come is left completely unchanged
    ensures p.body.birthStep > currentStep ==> r == p
    ensures KeepsLayout(p, r)
    // the phase moves forward by at most one place
    ensures Rank(r.phase) == Rank(p.phase) || Rank(r.phase) == Rank(p.phase) + 1
    // a waiting planet ages; it starts its approach on the frame its age
    // exceeds its delay, already one step along (t reset to 0, then advanced)
    ensures p.body.birthStep <= currentStep && p.phase == Waiting ==>
              && r.ageInEra == p.ageInEra + 1
              && r.phase != Settled
              && (r.phase == Incoming <==> (p.ageInEra + 1) as real > p.body.spawnDelay)
              && (r.phase == Incoming ==> r.progress == 1)
              && (r.phase == Waiting ==> r.progress == p.progress && r.curR == p.curR && r.curAng == p.curAng)
    // an arriving planet advances one step; t is clamped to 1 on settling
    ensures p.body.birthStep <= currentStep && p.phase == Incoming ==>
              && r.ageInEra == p.ageInEra
              && (r.phase == Settled <==> p.progress + 1 >= ARRIVAL_TICKS)
              && r.progress == (if p.progress + 1 >= ARRIVAL_TICKS then ARRIVAL_TICKS else p.progress + 1)
    // only a planet that was already settled advances along its orbit
    ensures r.finalAngle == if p.body.birthStep <= currentStep && p.phase == Settled
                            then p.finalAngle + p.body.orbitSpeed else p.finalAngle
    ensures p.phase == Settled ==> r.progress == p.progress && r.ageInEra == p.ageInEra
    // a born planet is drawn where its phase says
    ensures p.body.birthStep <= currentStep && r.phase == Settled ==> r.curR == r.finalR && r.curAng == r.finalAngle
    ensures p.body.birthStep <= currentStep && r.phase == Incoming ==> (r.curR, r.curAng) == ArrivalPos(r)
  {
    if p.body.birthStep > currentStep then p
    else if p.phase == Waiting && (p.ageInEra + 1) as real <= p.body.spawnDelay then
      p.(ageInEra := p.ageInEra + 1)
    else
      var q := if p.phase == Waiting then p.(ageInEra := p.ageInEra + 1, phase := Incoming, progress := 0) else p;
      var q2 :=
        if q.phase == Incoming then
          (if q.progress + 1 >= ARRIVAL_TICKS then q.(progress := ARRIVAL_TICKS, phase := Settled)
           else q.(progress := q.progress + 1))
        else q.(finalAngle := q.finalAngle + q.body.orbitSpeed);
      Place(q2)
  }

  /** `updatePlanets` keeps every planet within the invariant. */
  lemma TickKeepsInv(p: Planet, currentStep: int)
    requires PlanetInv(p)
    ensures PlanetInv(Tick(p, currentStep))
  {
  }

  /** n frames of `updatePlanets` at a fixed era. */
  function TickN(p: Planet, currentStep: int, n: nat): Planet {
    if n == 0 then p else Tick(TickN(p, currentStep, n - 1), currentStep)
  }

  /** Phases never move backwards and the invariant holds however many frames pass. */
  lemma {:induction false} PhaseNeverRegresses(p: Planet, currentStep: int, n: nat)
    ensures KeepsLayout(p, TickN(p, currentStep, n))
    ensures Rank(TickN(p, currentStep, n).phase) >= Rank(p.phase)
    ensures PlanetInv(p) ==> PlanetInv(TickN(p, currentStep, n))
  {
    if n > 0 {
      PhaseNeverRegresses(p, currentStep, n - 1);
      if PlanetInv(p) {
        TickKeepsInv(TickN(p, currentStep, n - 1), currentStep);
      }
    }
  }

  /** The approach lasts exactly 200 frames from t = 0: an arriving planet at
      step k is still arriving for the next 199 - k frames and lands on its
      orbit on the frame after. */
  lemma {:induction false} ArrivalTakes(p: Planet, currentStep: int, n: nat)
    requires p.body.birthStep <= currentStep && p.phase == Incoming && p.progress < ARRIVAL_TICKS
    requires n <= ARRIVAL_TICKS - p.progress
    ensures n < ARRIVAL_TICKS - p.progress ==>
              TickN(p, currentStep, n).phase == Incoming && TickN(p, currentStep, n).progress == p.progress + n
    ensures n == ARRIVAL_TICKS - p.progress ==>
              TickN(p, currentStep, n).phase == Settled && TickN(p, currentStep, n).curR == p.finalR
  {
    if n > 0 {
      ArrivalTakes(p, currentStep, n - 1);
      PhaseNeverRegresses(p, currentStep, n - 1);
    }
  }

  /** One frame of a settled planet. */
  lemma TickSettled(q: Planet, currentStep: int)
    requires q.body.birthStep <= currentStep && q.phase == Settled
    ensures Tick(q, currentStep).phase == Settled
    ensures Tick(q, currentStep).finalAngle == q.finalAngle + q.body.orbitSpeed
    ensures Tick(q, currentStep).curR == q.finalR
    ensures KeepsLayout(q, Tick(q, currentStep))
  {
  }

  /** The angle after k turns of v from a. */
  function Turned(a: real, v: real, k: nat): real {
    if k == 0 then a else Turned(a, v, k - 1) + v
  }

  /** k turns of v add up to k * v. */
  lemma {:induction false} TurnedClosedForm(a: real, v: real, k: nat)
    ensures Turned(a, v, k) == a + k as real * v
  {
    if k > 0 {
      TurnedClosedForm(a, v, k - 1);
      assert k as real * v == (k - 1) as real * v + v;
    }
  }

  /** Once settled, a planet turns by `orbitSpeed` every frame and stays on
      its orbit radius. */
  lemma {:induction false} SettledOrbits(p: Planet, currentStep: int, n: nat)
    requires p.body.birthStep <= currentStep && p.phase == Settled
    ensures TickN(p, currentStep, n).phase == Settled
    ensures KeepsLayout(p, TickN(p, currentStep, n))
    ensures TickN(p, currentStep, n).finalAngle == Turned(p.finalAngle, p.body.orbitSpeed, n)
    ensures n > 0 ==> TickN(p, currentStep, n).curR == p.finalR
  {
    if n > 0 {
      SettledOrbits(p, currentStep, n - 1);
      var q := TickN(p, currentStep, n - 1);
      TickSettled(q, currentStep);
      assert TickN(p, currentStep, n) == Tick(q, currentStep);
    }
  }

  // ---------------------------------------------------------------- trails

  /** `addSampleToTrail(arr, pt, maxLen)`. */
  function AddSample(arr: seq<Point>, pt: Point, maxLen: nat): (r: seq<Point>)
    // an empty buffer always takes the point
    ensures arr == [] ==> r == [pt]
    // otherwise the point is taken exactly when it is more than MIN_DIST from the last one
    ensures arr != [] ==> (r == arr <==> DistSq(arr[|arr| - 1], pt) <= MIN_SAMPLE_DIST_SQ)
    // a taken point becomes the newest, and only the oldest point may be dropped
    ensures |r| <= |arr| + 1
    ensures r != arr ==> |r| > 0 && r[|r| - 1] == pt && r[..|r| - 1] == arr[|arr| + 1 - |r|..]
    // capacity and spacing are preserved
    ensures 1 <= maxLen && |arr| <= maxLen ==> |r| <= maxLen
    ensures r != arr && |arr| < maxLen ==> |r| == |arr| + 1
    // past capacity exactly the one oldest point is shifted out
    ensures arr != [] && r != arr && |arr| + 1 > maxLen ==> r == arr[1..] + [pt]
    ensures Spaced(arr) ==> Spaced(r)
  {
    if arr == [] then [pt]
    else if DistSq(arr[|arr| - 1], pt) > MIN_SAMPLE_DIST_SQ then PushShift(arr, pt, maxLen)
    else arr
  }

  /** The taken branch of `addSampleToTrail`: `push`, then `shift` when the
      buffer has grown past `maxLen`. */
  function PushShift(arr: seq<Point>, pt: Point, maxLen: nat): (r: seq<Point>)
    requires arr != [] && DistSq(arr[|arr| - 1], pt) > MIN_SAMPLE_DIST_SQ
    ensures r != arr && |r| > 0 && r[|r| - 1] == pt
    ensures |arr| + 1 > maxLen ==> r == arr[1..] + [pt]
    ensures |arr| + 1 <= maxLen ==> r == arr + [pt]
    ensures Spaced(arr) ==> Spaced(r)
  {
    var grown := arr + [pt];
    assert Spaced(arr) ==> Spaced(grown) by {
      if Spaced(arr) { SpacedAppend(arr, pt); }
    }
    if |grown| > maxLen then
      assert grown[1..] == arr[1..] + [pt];
      assert grown[1..] != arr by {
        assert grown[1..][|arr| - 1] == pt;
        assert DistSq(pt, pt) == 0.0;
        assert arr[|arr| - 1] != pt;
      }
      assert Spaced(grown) ==> Spaced(grown[1..]) by {
        if Spaced(grown) { SpacedTail(grown); }
      }
      grown[1..]
    else grown
  }

  lemma SpacedAppend(arr: seq<Point>, pt: Point)
    requires arr != [] && Spaced(arr) && DistSq(arr[|arr| - 1], pt) > MIN_SAMPLE_DIST_SQ
    ensures Spaced(arr + [pt])
  {
    var s := arr + [pt];
    forall i | 1 <= i < |s|
      ensures DistSq(s[i - 1], s[i]) > MIN_SAMPLE_DIST_SQ
    {
      if i < |arr| {
        assert s[i - 1] == arr[i - 1] && s[i] == arr[i];
      }
    }
  }

  lemma SpacedTail(s: seq<Point>)
    requires s != [] && Spaced(s)
    ensures Spaced(s[1..])
  {
    forall i | 1 <= i < |s| - 1
      ensures DistSq(s[1..][i - 1], s[1..][i]) > MIN_SAMPLE_DIST_SQ
    {
      assert s[1..][i - 1] == s[i] && s[1..][i] == s[i + 1];
    }
  }

  /** The trail part of `drawPlanetsAndRecordScreenPos`: a born planet that
      is not waiting gets its screen position and samples it into the trail
      of its phase; `proj` maps (curR, curAng) to the screen (it adds the
      system rotation and the canvas centre). */
  function Record(p: Planet, currentStep: int, proj: (real, real) -> Point): (r: Planet)
    ensures p.body.birthStep > currentStep || p.phase == Waiting ==> r == p
    ensures p.body.birthStep <= currentStep && p.phase != Waiting ==> r.screen == Some(proj(p.curR, p.curAng))
    ensures r.incomingTrail == if p.body.birthStep <= currentStep && p.phase == Incoming
                               then AddSample(p.incomingTrail, proj(p.curR, p.curAng), INCOMING_TRAIL_MAX)
                               else p.incomingTrail
    ensures r.trail == if p.body.birthStep <= currentStep && p.phase == Settled
                       then AddSample(p.trail, proj(p.curR, p.curAng), TRAIL_MAX_POINTS)
                       else p.trail
    ensures r == p.(screen := r.screen, trail := r.trail, incomingTrail := r.incomingTrail)
  {
    if p.body.birthStep > currentStep || p.phase == Waiting then p
    else
      var pt := proj(p.curR, p.curAng);
      match p.phase
      case Incoming => p.(screen := Some(pt), incomingTrail := AddSample(p.incomingTrail, pt, INCOMING_TRAIL_MAX))
      case Settled => p.(screen := Some(pt), trail := AddSample(p.trail, pt, TRAIL_MAX_POINTS))
  }

  /** Recording keeps both trails within their capacity and their spacing. */
  lemma RecordKeepsInv(p: Planet, currentStep: int, proj: (real, real) -> Point)
    requires PlanetInv(p)
    ensures PlanetInv(Record(p, currentStep, proj))
  {
    if p.body.birthStep <= currentStep && p.phase != Waiting {
      var pt := proj(p.curR, p.curAng);
      var r := Record(p, currentStep, proj);
      if p.phase == Incoming {
        var t := AddSample(p.incomingTrail, pt, INCOMING_TRAIL_MAX);
        assert r == p.(screen := Some(pt), incomingTrail := t);
      } else {
        var t := AddSample(p.trail, pt, TRAIL_MAX_POINTS);
        assert r == p.(screen := Some(pt), trail := t);
      }
    }
  }

  // ---------------------------------------------------------------- construction and layout

  /** `gal.radiusForYear(year) * discInfo.scale`: the year's orbit pushed
      in or out by the discipline's band; newer papers of one discipline
      never orbit inside older ones. */
  function OrbitRadius(m: RadiusMap, year: int, bandScale: real): (r: real)
    ensures m.innerMin <= m.outerMax && 0.0 <= bandScale && m.minYear <= year <= m.maxYear ==>
              bandScale * m.innerMin <= r <= bandScale * m.outerMax
  {
    var base := RadiusForYear(m, year);
    if m.innerMin <= m.outerMax && 0.0 <= bandScale && m.minYear <= year <= m.maxYear then
      RadiusInRange(m, year);
      ScaleMonotone(bandScale, m.innerMin, base);
      ScaleMonotone(bandScale, base, m.outerMax);
      assert bandScale * base == base * bandScale;
      base * bandScale
    else base * bandScale
  }

  lemma OrbitRadiusMonotone(m: RadiusMap, y1: int, y2: int, bandScale: real)
    requires m.innerMin <= m.outerMax && m.minYear <= m.maxYear && y1 <= y2 && 0.0 <= bandScale
    ensures OrbitRadius(m, y1, bandScale) <= OrbitRadius(m, y2, bandScale)
  {
    RadiusMonotone(m, y1, y2);
    var b1, b2 := RadiusForYear(m, y1), RadiusForYear(m, y2);
    ScaleMonotone(bandScale, b1, b2);
    assert bandScale * b1 == b1 * bandScale;
    assert bandScale * b2 == b2 * bandScale;
  }

  /** The seven `random()` values a planet consumes, in the order the code
      draws them: final angle, spawn delay, orbit speed, its sign, size,
      then the two of `setSpawnOutsideScreen`. */
  datatype Draws = Draws(angle: real, delay: real, speed: real, sign: real, size: real,
                         spawnScale: real, spawnAngle: real)

  predicate Unit(u: real) { 0.0 <= u < 1.0 }

  predicate DrawsValid(d: Draws) {
    Unit(d.angle) && Unit(d.delay) && Unit(d.speed) && Unit(d.sign) && Unit(d.size) &&
    Unit(d.spawnScale) && Unit(d.spawnAngle)
  }

  /** p5's `random(a, b)` (and `random(b)` with a = 0) for a draw u of `Math.random()`. */
  function RandomIn(a: real, b: real, u: real): (r: real)
    ensures a < b && Unit(u) ==> a <= r
    ensures a < b && Unit(u) ==> r < b
  {
    var d := b - a;
    var r := a + u * d;
    if a < b && Unit(u) then
      var c := 1.0 - u;
      assert c * d > 0.0;
      assert u * d == d - c * d;
      r
    else r
  }

  /** `setSpawnOutsideScreen(p)`: a spawn radius of 0.8 to 1.1 half-diagonals
      and a spawn angle in [0, 2*PI). */
  function SpawnFor(vp: Viewport, uScale: real, uAngle: real): (s: (real, real))
    ensures vp.halfDiag >= 0.0 && Unit(uScale) ==> 0.8 * vp.halfDiag <= s.0 <= 1.1 * vp.halfDiag
    ensures Unit(uAngle) ==> 0.0 <= s.1 < TWO_PI
  {
    (SpawnRadius(vp.halfDiag, uScale), RandomIn(0.0, TWO_PI, uAngle))
  }

  /** `random(0.8, 1.1) * diagHalf`: the spawn radius. */
  function SpawnRadius(halfDiag: real, uScale: real): (r: real)
    ensures halfDiag >= 0.0 && Unit(uScale) ==> 0.8 * halfDiag <= r <= 1.1 * halfDiag
  {
    if halfDiag >= 0.0 && Unit(uScale) then
      SpawnRadiusBounds(halfDiag, RandomIn(0.8, 1.1, uScale));
      halfDiag * RandomIn(0.8, 1.1, uScale)
    else halfDiag * RandomIn(0.8, 1.1, uScale)
  }

  lemma SpawnRadiusBounds(halfDiag: real, scale: real)
    requires 0.0 <= halfDiag && 0.8 <= scale <= 1.1
    ensures 0.8 * halfDiag <= halfDiag * scale <= 1.1 * halfDiag
  {
    ScaleBetween(halfDiag, 0.8, scale, 1.1);
  }

  /** `random(ORBIT_SPEED_MIN, ORBIT_SPEED_MAX) * (random() < 0.5 ? -1 : 1)`:
      the magnitude lies in the speed range, the sign follows the second draw. */
  function OrbitSpeedFor(uSpeed: real, uSign: real): (v: real)
    ensures Unit(uSpeed) ==> ORBIT_SPEED_MIN <= (if v < 0.0 then -v else v) < ORBIT_SPEED_MAX
    ensures Unit(uSpeed) ==> (v < 0.0 <==> uSign < 0.5)
  {
    var mag := RandomIn(ORBIT_SPEED_MIN, ORBIT_SPEED_MAX, uSpeed);
    if uSign < 0.5 then -mag else mag
  }

  /** The planet `makeGalaxySystem` builds from a row: orbit radius from the
      year and the discipline's band, birth era from the year, waiting with
      no trail and no screen position, sitting on its orbit. */
  function NewPlanet(row: Paper, m: RadiusMap, hasKids: bool, vp: Viewport, d: Draws): (p: Planet)
    ensures p.body.paperId == row.id && p.body.paperYear == row.year && p.body.hasChildren == hasKids
    ensures p.body.bandScale == DisciplineInfo(row.disciplineRaw).scale
    ensures p.finalR == OrbitRadius(m, row.year, p.body.bandScale)
    ensures p.body.birthStep == YearToStep(m.minYear, m.maxYear, row.year)
    ensures (p.spawnR, p.spawnAng) == SpawnFor(vp, d.spawnScale, d.spawnAngle)
    ensures p.phase == Waiting && p.ageInEra == 0 && p.progress == 0 && p.screen == None
    ensures p.curR == p.finalR && p.curAng == p.finalAngle
  {
    var info := DisciplineInfo(row.disciplineRaw);
    var finalR := OrbitRadius(m, row.year, info.scale);
    var finalAng := RandomIn(0.0, TWO_PI, d.angle);
    var spawn := SpawnFor(vp, d.spawnScale, d.spawnAngle);
    var body := Body(row.id, row.title, row.year, row.disciplineRaw, info.color, info.scale, row.morphRaw,
                     YearToStep(m.minYear, m.maxYear, row.year), RandomIn(SPAWN_DELAY_MIN, SPAWN_DELAY_MAX, d.delay),
                     OrbitSpeedFor(d.speed, d.sign), RandomIn(5.0, 9.0, d.size), hasKids);
    Planet(body, finalR, finalAng, spawn.0, spawn.1, 0, Waiting, 0, finalR, finalAng, [], [], None)
  }

  /** A planet built from seven draws in [0, 1) satisfies the invariant, and
      its angle, size, delay and speed lie in the ranges the constants name. */
  lemma NewPlanetValid(row: Paper, m: RadiusMap, hasKids: bool, vp: Viewport, d: Draws)
    requires DrawsValid(d)
    ensures PlanetInv(NewPlanet(row, m, hasKids, vp, d))
    ensures 0.0 <= NewPlanet(row, m, hasKids, vp, d).finalAngle < TWO_PI
    ensures 5.0 <= NewPlanet(row, m, hasKids, vp, d).body.planetSize < 9.0
    ensures SPAWN_DELAY_MIN <= NewPlanet(row, m, hasKids, vp, d).body.spawnDelay < SPAWN_DELAY_MAX
    ensures NewPlanet(row, m, hasKids, vp, d).body.orbitSpeed == OrbitSpeedFor(d.speed, d.sign)
  {
  }

  /** One iteration of `refreshGalaxyLayout`: the orbit radius follows the
      new radius mapping and the spawn point is drawn again; the phase, t,
      the orbit angle and the trails are untouched. */
  function Relayout(p: Planet, m: RadiusMap, vp: Viewport, uScale: real, uAngle: real): (r: Planet)
    ensures r == p.(finalR := r.finalR, spawnR := r.spawnR, spawnAng := r.spawnAng)
    ensures r.finalR == OrbitRadius(m, p.body.paperYear, p.body.bandScale)
    ensures (r.spawnR, r.spawnAng) == SpawnFor(vp, uScale, uAngle)
  {
    var spawn := SpawnFor(vp, uScale, uAngle);
    p.(finalR := OrbitRadius(m, p.body.paperYear, p.body.bandScale), spawnR := spawn.0, spawnAng := spawn.1)
  }

  /** A re-layout moves no planet out of its phase. */
  lemma RelayoutKeepsInv(p: Planet, m: RadiusMap, vp: Viewport, uScale: real, uAngle: real)
    requires PlanetInv(p)
    ensures PlanetInv(Relayout(p, m, vp, uScale, uAngle))
  {
  }

  /** One iteration of the reset loop of `switchToGalaxy`: back to waiting
      with no age, t = 0 and both trails empty; nothing else changes. */
  function ResetPlanet(p: Planet): (r: Planet)
    ensures r.phase == Waiting && r.ageInEra == 0 && r.progress == 0 && r.trail == [] && r.incomingTrail == []
    ensures r == p.(phase := Waiting, ageInEra := 0, progress := 0, trail := [], incomingTrail := [])
  {
    p.(phase := Waiting, ageInEra := 0, progress := 0, trail := [], incomingTrail := [])
  }

  /** A reset planet satisfies the invariant whenever its delay is one the
      constants allow. */
  lemma ResetPlanetInv(p: Planet)
    requires SPAWN_DELAY_MIN <= p.body.spawnDelay < SPAWN_DELAY_MAX
    ensures PlanetInv(ResetPlanet(p))
  {
  }
}
