/** A galaxy object of both sketches (`makeGalaxySystem`'s `gal`): its core,
    its year range, the radius mapping installed for the current canvas, its
    planets and its era clock, together with the functions that walk over
    all of its planets (`updatePlanets`, `drawPlanetsAndRecordScreenPos`,
    `refreshGalaxyLayout`, the reset loop of `switchToGalaxy`,
    `resolveHover`). */
module Galaxies {
  import opened Common
  import opened Layout
  import opened Clock
  import opened Discipline
  import opened CitationIndex
  import opened Orbit

  /** `cfg.mode`: "main" or "sub". */
  datatype Mode = Main | Sub

  /** Number of `random()` values `makeGalaxySystem` consumes per row. */
  const DRAWS_PER_PLANET: nat := 7
  /** Number of `random()` values `refreshGalaxyLayout` consumes per planet. */
  const DRAWS_PER_RELAYOUT: nat := 2

  /** The stream of `random()` values from some call on: value n is the
      result of the n-th call after it. `Math.random()` lies in [0, 1). */
  type Randoms = nat -> real

  ghost predicate AllUnit(rand: Randoms) {
    forall n: nat :: Unit(rand(n))
  }

  /** The same stream with its first k values used up. */
  function Skip(rand: Randoms, k: nat): (r: Randoms)
    ensures forall n: nat :: r(n) == rand(k + n)
    ensures AllUnit(rand) ==> AllUnit(r)
  {
    (n: nat) => rand(k + n)
  }

  /** The years of a galaxy's rows, in row order. */
  function YearsOf(rows: seq<Paper>): (ys: seq<int>)
    ensures |ys| == |rows| && forall i :: 0 <= i < |rows| ==> ys[i] == rows[i].year
  {
    seq(|rows|, i requires 0 <= i < |rows| => rows[i].year)
  }

  /** The seven draws of row i. */
  function DrawsAt(rand: Randoms, i: nat): (d: Draws)
    ensures AllUnit(rand) ==> DrawsValid(d)
  {
    var k := DRAWS_PER_PLANET * i;
    Draws(rand(k), rand(k + 1), rand(k + 2), rand(k + 3), rand(k + 4), rand(k + 5), rand(k + 6))
  }

  /** Everything a planet of a galaxy with radius mapping m satisfies: the
      planet invariant, a year inside the galaxy's range, the birth era of
      that year, the discipline's band and the orbit the mapping gives. */
  ghost predicate Member(p: Planet, m: RadiusMap) {
    && PlanetInv(p)
    && m.minYear <= p.body.paperYear <= m.maxYear
    && p.body.birthStep == YearToStep(m.minYear, m.maxYear, p.body.paperYear)
    && p.body.bandScale == DisciplineInfo(p.body.disciplineRaw).scale
    && p.finalR == OrbitRadius(m, p.body.paperYear, p.body.bandScale)
  }

  ghost predicate AllMembers(ps: seq<Planet>, m: RadiusMap) {
    forall i {:trigger Member(ps[i], m)} :: 0 <= i < |ps| ==> Member(ps[i], m)
  }

  /** Each planet's `hasChildren` flag says whether the children map lists
      citers of its paper. */
  ghost predicate ChildrenAgree(ps: seq<Planet>, children: ChildrenMap) {
    forall i :: 0 <= i < |ps| ==> ps[i].body.hasChildren == HasChildren(children, ps[i].body.paperId)
  }

  /** Two planet lists of the same length whose bodies agree one by one. */
  predicate SameBodies(ps: seq<Planet>, qs: seq<Planet>) {
    |ps| == |qs| && forall i :: 0 <= i < |ps| ==> ps[i].body == qs[i].body
  }

  /** The `hasChildren` flags only depend on the bodies. */
  lemma SameBodiesAgree(ps: seq<Planet>, qs: seq<Planet>, children: ChildrenMap)
    requires SameBodies(ps, qs) && ChildrenAgree(ps, children)
    ensures ChildrenAgree(qs, children)
  {
  }

  /** The planets of the loop of `makeGalaxySystem`, one per row, in row order. */
  function PlanetsFor(rows: seq<Paper>, m: RadiusMap, children: ChildrenMap, vp: Viewport, rand: Randoms): (ps: seq<Planet>)
    ensures |ps| == |rows|
  {
    seq(|rows|, i requires 0 <= i < |rows| =>
      NewPlanet(rows[i], m, HasChildren(children, rows[i].id), vp, DrawsAt(rand, i)))
  }

  /** The loop of `makeGalaxySystem` that pushes one planet per row. */
  method BuildPlanets(rows: seq<Paper>, m: RadiusMap, children: ChildrenMap, vp: Viewport, rand: Randoms)
    returns (ps: seq<Planet>)
    ensures ps == PlanetsFor(rows, m, children, vp, rand)
  {
    ps := [];
    var i := 0;
    while i < |rows|
      invariant 0 <= i <= |rows|
      invariant |ps| == i
      invariant forall j :: 0 <= j < i ==>
                  ps[j] == NewPlanet(rows[j], m, HasChildren(children, rows[j].id), vp, DrawsAt(rand, j))
    {
      ps := ps + [NewPlanet(rows[i], m, HasChildren(children, rows[i].id), vp, DrawsAt(rand, i))];
      i := i + 1;
    }
  }

  /** Every planet built for a galaxy is a member of it: its year lies in
      the range of the rows, and the draws are proper. */
  lemma PlanetsForMembers(rows: seq<Paper>, m: RadiusMap, children: ChildrenMap, vp: Viewport, rand: Randoms)
    requires AllUnit(rand)
    requires forall i :: 0 <= i < |rows| ==> m.minYear <= rows[i].year <= m.maxYear
    ensures AllMembers(PlanetsFor(rows, m, children, vp, rand), m)
    ensures ChildrenAgree(PlanetsFor(rows, m, children, vp, rand), children)
    ensures forall i :: 0 <= i < |rows| ==> PlanetsFor(rows, m, children, vp, rand)[i].body.paperId == rows[i].id
  {
    var ps := PlanetsFor(rows, m, children, vp, rand);
    forall i | 0 <= i < |rows|
      ensures Member(ps[i], m)
    {
      NewPlanetValid(rows[i], m, HasChildren(children, rows[i].id), vp, DrawsAt(rand, i));
    }
  }

  /** Every row's year lies in the range `makeGalaxySystem` computes. */
  lemma YearsInRange(rows: seq<Paper>)
    ensures forall i :: 0 <= i < |rows| ==>
              YearRange(YearsOf(rows)).0 <= rows[i].year <= YearRange(YearsOf(rows)).1
  {
    var ys := YearsOf(rows);
    forall i | 0 <= i < |rows|
      ensures YearRange(ys).0 <= rows[i].year <= YearRange(ys).1
    {
      assert ys[i] == rows[i].year;
    }
  }

  /** `updatePlanets`, applied to every planet. */
  function TickAll(ps: seq<Planet>, currentStep: int): (r: seq<Planet>)
    ensures SameBodies(ps, r)
  {
    seq(|ps|, i requires 0 <= i < |ps| => Tick(ps[i], currentStep))
  }

  /** `updatePlanets` keeps every planet a member of its galaxy. */
  lemma TickAllMembers(ps: seq<Planet>, m: RadiusMap, currentStep: int)
    requires AllMembers(ps, m)
    ensures AllMembers(TickAll(ps, currentStep), m)
  {
    forall i | 0 <= i < |ps|
      ensures Member(TickAll(ps, currentStep)[i], m)
    {
      assert Member(ps[i], m);
      TickKeepsInv(ps[i], currentStep);
    }
  }

  /** `drawPlanetsAndRecordScreenPos`, applied to every planet. */
  function RecordAll(ps: seq<Planet>, currentStep: int, proj: (real, real) -> Point): (r: seq<Planet>)
    ensures SameBodies(ps, r)
  {
    seq(|ps|, i requires 0 <= i < |ps| => Record(ps[i], currentStep, proj))
  }

  /** The loop of `drawPlanetsAndRecordScreenPos` over the planet list. */
  method RecordEach(planets: seq<Planet>, currentStep: int, proj: (real, real) -> Point) returns (ps: seq<Planet>)
    ensures ps == RecordAll(planets, currentStep, proj)
  {
    ps := planets;
    var i := 0;
    while i < |ps|
      invariant 0 <= i <= |ps| == |planets|
      invariant forall j :: 0 <= j < i ==> ps[j] == Record(planets[j], currentStep, proj)
      invariant forall j :: i <= j < |ps| ==> ps[j] == planets[j]
    {
      ps := ps[i := Record(ps[i], currentStep, proj)];
      i := i + 1;
    }
  }

  lemma RecordAllMembers(ps: seq<Planet>, m: RadiusMap, currentStep: int, proj: (real, real) -> Point)
    requires AllMembers(ps, m)
    ensures AllMembers(RecordAll(ps, currentStep, proj), m)
  {
    forall i | 0 <= i < |ps|
      ensures Member(RecordAll(ps, currentStep, proj)[i], m)
    {
      assert Member(ps[i], m);
      RecordKeepsInv(ps[i], currentStep, proj);
    }
  }

  /** The loop of `refreshGalaxyLayout`: planet i uses draws 2i and 2i+1. */
  function RelayoutAll(ps: seq<Planet>, m: RadiusMap, vp: Viewport, rand: Randoms): (r: seq<Planet>)
    ensures SameBodies(ps, r)
  {
    var r := seq(|ps|, i requires 0 <= i < |ps| => Relayout(ps[i], m, vp, rand(2 * i), rand(2 * i + 1)));
    assert forall i :: 0 <= i < |ps| ==> r[i].body == Relayout(ps[i], m, vp, rand(2 * i), rand(2 * i + 1)).body;
    r
  }

  /** After a re-layout every planet is a member of the galaxy under the new
      mapping, provided the year range stayed the same. */
  lemma RelayoutAllMembers(ps: seq<Planet>, m: RadiusMap, m': RadiusMap, vp: Viewport, rand: Randoms)
    requires AllMembers(ps, m) && m'.minYear == m.minYear && m'.maxYear == m.maxYear
    ensures AllMembers(RelayoutAll(ps, m', vp, rand), m')
  {
    forall i | 0 <= i < |ps|
      ensures Member(RelayoutAll(ps, m', vp, rand)[i], m')
    {
      assert Member(ps[i], m);
      RelayoutKeepsInv(ps[i], m', vp, rand(2 * i), rand(2 * i + 1));
    }
  }

  /** The reset loop of `switchToGalaxy`. */
  function ResetAll(ps: seq<Planet>): (r: seq<Planet>)
    ensures SameBodies(ps, r)
  {
    seq(|ps|, i requires 0 <= i < |ps| => ResetPlanet(ps[i]))
  }

  lemma ResetAllMembers(ps: seq<Planet>, m: RadiusMap)
    requires AllMembers(ps, m)
    ensures AllMembers(ResetAll(ps), m)
    ensures forall i :: 0 <= i < |ps| ==> ResetAll(ps)[i].phase == Waiting
  {
    forall i | 0 <= i < |ps|
      ensures Member(ResetAll(ps)[i], m)
    {
      assert Member(ps[i], m);
      ResetPlanetInv(ps[i]);
    }
  }

  /** A planet `resolveHover` considers: born, not waiting, with a screen position. */
  predicate Visible(p: Planet, currentStep: int) {
    p.body.birthStep <= currentStep && p.phase != Waiting && p.screen.Some?
  }

  /** Squared `dist(mouseX, mouseY, p.screenX, p.screenY)`. */
  function MouseDistSq(p: Planet, mouse: Point): real
    requires p.screen.Some?
  {
    DistSq(mouse, p.screen.value)
  }

  /** Planet i is the one `resolveHover` settles on: it is visible, no
      visible planet is nearer to the mouse, and every visible planet before
      it is strictly farther away (`d < hoverDist` keeps the first of equals). */
  ghost predicate NearestAt(ps: seq<Planet>, currentStep: int, mouse: Point, i: int) {
    && 0 <= i < |ps| && Visible(ps[i], currentStep)
    && (forall j :: 0 <= j < |ps| && Visible(ps[j], currentStep) ==>
          MouseDistSq(ps[i], mouse) <= MouseDistSq(ps[j], mouse))
    && (forall j :: 0 <= j < i && Visible(ps[j], currentStep) ==>
          MouseDistSq(ps[i], mouse) < MouseDistSq(ps[j], mouse))
  }

  /** At most one planet is the nearest one: ties cannot make the choice ambiguous. */
  lemma NearestAtUnique(ps: seq<Planet>, currentStep: int, mouse: Point, i: int, j: int)
    requires NearestAt(ps, currentStep, mouse, i) && NearestAt(ps, currentStep, mouse, j)
    ensures i == j
  {
  }

  /** g is what `makeGalaxySystem(cfg)` returns for the rows, the canvas and
      the draws given: the core of `cfg`, the year range of the rows (2000
      when there are none), the radius mapping for the canvas, era 0, and
      one waiting planet per row, in row order. */
  ghost predicate MadeFrom(g: Galaxy, mode: Mode, coreId: string, coreLabel: string, rows: seq<Paper>,
                           children: ChildrenMap, vp: Viewport, rand: Randoms)
    reads g
  {
    && g.mode == mode && g.coreId == coreId && g.coreLabel == coreLabel
    && g.children == children
    && (g.minYear, g.maxYear) == YearRange(YearsOf(rows))
    && g.mapper == MapperFor(vp, g.minYear, g.maxYear)
    && g.currentStep == 0 && g.stepCooldown == 0
    && g.planets == PlanetsFor(rows, g.mapper, children, vp, rand)
  }

  class Galaxy {
    const mode: Mode
    const coreId: string
    const coreLabel: string
    const minYear: int
    const maxYear: int
    /** The children map the planets' `hasChildren` flags were read from. */
    ghost const children: ChildrenMap
    /** `gal.radiusForYear`. */
    var mapper: RadiusMap
    var planets: seq<Planet>
    var currentStep: nat
    var stepCooldown: nat

    ghost predicate Valid()
      reads this
    {
      && minYear <= maxYear
      && mapper.minYear == minYear && mapper.maxYear == maxYear
      && EraValid(Era(currentStep, stepCooldown))
      && AllMembers(planets, mapper)
      && ChildrenAgree(planets, children)
    }

    /** `makeGalaxySystem(cfg)`. */
    constructor (mode: Mode, coreId: string, coreLabel: string, rows: seq<Paper>,
                 children: ChildrenMap, vp: Viewport, rand: Randoms)
      requires AllUnit(rand)
      ensures MadeFrom(this, mode, coreId, coreLabel, rows, children, vp, rand)
      ensures Valid()
    {
      var range := YearRange(YearsOf(rows));
      var m := MapperFor(vp, range.0, range.1);
      var ps := BuildPlanets(rows, m, children, vp, rand);
      YearsInRange(rows);
      PlanetsForMembers(rows, m, children, vp, rand);
      this.mode := mode;
      this.coreId := coreId;
      this.coreLabel := coreLabel;
      this.children := children;
      minYear := range.0;
      maxYear := range.1;
      mapper := m;
      planets := ps;
      currentStep := 0;
      stepCooldown := 0;
    }

    /** `advanceEra(gal)`. */
    method AdvanceEra()
      requires Valid()
      modifies this
      ensures Valid()
      ensures Era(currentStep, stepCooldown) == EraStep(old(Era(currentStep, stepCooldown)))
      ensures planets == old(planets) && mapper == old(mapper)
    {
      stepCooldown := stepCooldown + 1;
      if stepCooldown > ERA_DURATION {
        stepCooldown := 0;
        if currentStep < MAX_STEP - 1 {
          currentStep := currentStep + 1;
        }
      }
    }

    /** `updatePlanets(gal)`. */
    method UpdatePlanets()
      requires Valid()
      modifies this
      ensures Valid()
      ensures planets == TickAll(old(planets), currentStep)
      ensures currentStep == old(currentStep) && stepCooldown == old(stepCooldown) && mapper == old(mapper)
    {
      var ps := planets;
      var i := 0;
      while i < |ps|
        invariant 0 <= i <= |ps| == |planets|
        invariant forall j :: 0 <= j < i ==> ps[j] == Tick(planets[j], currentStep)
        invariant forall j :: i <= j < |ps| ==> ps[j] == planets[j]
      {
        ps := ps[i := Tick(ps[i], currentStep)];
        i := i + 1;
      }
      assert ps == TickAll(planets, currentStep);
      TickAllMembers(planets, mapper, currentStep);
      SameBodiesAgree(planets, ps, children);
      planets := ps;
    }

    /** The bookkeeping of `drawPlanetsAndRecordScreenPos(gal, sysRot, cx, cy)`;
        `proj` is the polar-to-screen map for this frame's rotation and centre. */
    method RecordScreenPositions(proj: (real, real) -> Point)
      requires Valid()
      modifies this
      ensures Valid()
      ensures planets == RecordAll(old(planets), currentStep, proj)
      ensures currentStep == old(currentStep) && stepCooldown == old(stepCooldown) && mapper == old(mapper)
    {
      var ps := RecordEach(planets, currentStep, proj);
      RecordAllMembers(planets, mapper, currentStep, proj);
      SameBodiesAgree(planets, ps, children);
      planets := ps;
    }

    /** `refreshGalaxyLayout(gal)`: a radius mapping for the new canvas, and
        for every planet the orbit of that mapping and a new spawn point. */
    method Refresh(vp: Viewport, rand: Randoms)
      requires Valid()
      modifies this
      ensures Valid()
      ensures mapper == MapperFor(vp, minYear, maxYear)
      ensures planets == RelayoutAll(old(planets), mapper, vp, rand)
      ensures currentStep == old(currentStep) && stepCooldown == old(stepCooldown)
    {
      var m := MapperFor(vp, minYear, maxYear);
      var ps := planets;
      var i := 0;
      while i < |ps|
        invariant 0 <= i <= |ps| == |planets|
        invariant forall j :: 0 <= j < i ==> ps[j] == Relayout(planets[j], m, vp, rand(2 * j), rand(2 * j + 1))
        invariant forall j :: i <= j < |ps| ==> ps[j] == planets[j]
      {
        ps := ps[i := Relayout(ps[i], m, vp, rand(2 * i), rand(2 * i + 1))];
        i := i + 1;
      }
      assert ps == RelayoutAll(planets, m, vp, rand);
      RelayoutAllMembers(planets, mapper, m, vp, rand);
      SameBodiesAgree(planets, ps, children);
      mapper := m;
      planets := ps;
    }

    /** The reset part of `switchToGalaxy(gal)`: era 0 and every planet back
        to waiting with no trail. */
    method ResetForEntry()
      requires Valid()
      modifies this
      ensures Valid()
      ensures currentStep == 0 && stepCooldown == 0
      ensures planets == ResetAll(old(planets)) && mapper == old(mapper)
    {
      currentStep := 0;
      stepCooldown := 0;
      var ps := planets;
      var i := 0;
      while i < |ps|
        invariant 0 <= i <= |ps| == |planets|
        invariant forall j :: 0 <= j < i ==> ps[j] == ResetPlanet(planets[j])
        invariant forall j :: i <= j < |ps| ==> ps[j] == planets[j]
      {
        ps := ps[i := ResetPlanet(ps[i])];
        i := i + 1;
      }
      assert ps == ResetAll(planets);
      ResetAllMembers(planets, mapper);
      SameBodiesAgree(planets, ps, children);
      planets := ps;
    }

    /** The search of `resolveHover(gal)`: the index of the visible planet
        nearest to the mouse (the first one on a tie, as `d < hoverDist` only
        replaces on a strictly smaller distance) and its squared distance;
        None, standing for `Infinity`, when no planet is visible. */
    method NearestVisible(mouse: Point) returns (idx: Option<nat>, dsq: Option<real>)
      ensures idx.None? <==> dsq.None?
      ensures idx.None? <==> forall j :: 0 <= j < |planets| ==> !Visible(planets[j], currentStep)
      ensures idx.Some? ==>
                NearestAt(planets, currentStep, mouse, idx.value) && dsq.value == MouseDistSq(planets[idx.value], mouse)
    {
      idx, dsq := None, None;
      var i := 0;
      while i < |planets|
        invariant 0 <= i <= |planets|
        invariant idx.None? <==> dsq.None?
        invariant idx.None? ==> forall j :: 0 <= j < i ==> !Visible(planets[j], currentStep)
        invariant idx.Some? ==>
                    && idx.value < i && Visible(planets[idx.value], currentStep)
                    && dsq.value == MouseDistSq(planets[idx.value], mouse)
                    && (forall j :: 0 <= j < i && Visible(planets[j], currentStep) ==>
                          dsq.value <= MouseDistSq(planets[j], mouse))
                    && (forall j :: 0 <= j < idx.value && Visible(planets[j], currentStep) ==>
                          dsq.value < MouseDistSq(planets[j], mouse))
      {
        var p := planets[i];
        if Visible(p, currentStep) {
          var d := MouseDistSq(p, mouse);
          if dsq.None? || d < dsq.value {
            idx, dsq := Some(i), Some(d);
          }
        }
        i := i + 1;
      }
    }
  }
}
