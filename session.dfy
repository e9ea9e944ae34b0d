/** The global state both sketches share (`papersById`, `childrenMap`,
    `mainGalaxy`, `currentGalaxy`, `fadeAlpha`, `hoverPlanet`, `hoverDist`)
    and the handlers that drive it: `setup`, `windowResized`, the galaxy
    part of `draw`, `resolveHover`, `switchToGalaxy`, `buildSubGalaxy`, and
    the sub-galaxy navigation of `mousePressed` in project-2. */
module Sketch {
  import opened Common
  import opened Layout
  import opened Clock
  import opened CitationIndex
  import opened Orbit
  import opened Galaxies

  const MAIN_CORE_ID: string := "AOK"
  const MAIN_CORE_LABEL: string := "The Archaeology of Knowledge"
  /** `HOVER_DISTANCE` (50) squared. */
  const HOVER_DIST_SQ: real := 2500.0
  /** `CENTER_CLICK_RADIUS` (50) squared. */
  const CENTER_CLICK_DIST_SQ: real := 2500.0
  /** `random()` calls of `buildStarfield`: 1200 far and 400 near stars, four draws each. */
  const STARFIELD_DRAWS: nat := 6400

  /** `(width / 2, height / 2)`, where the core is drawn. */
  function Centre(vp: Viewport): Point {
    Point(vp.width / 2.0, vp.height / 2.0)
  }

  /** `hoverPlanet` and `hoverDist` are what `resolveHover` leaves for the
      planets ps, the era and the mouse: no planet and `Infinity` when none is
      visible, otherwise the nearest visible planet and its distance. */
  ghost predicate HoverOf(ps: seq<Planet>, currentStep: int, mouse: Point, hp: Option<Body>, hd: Option<real>) {
    && (hp.None? <==> hd.None?)
    && (hp.None? <==> forall j :: 0 <= j < |ps| ==> !Visible(ps[j], currentStep))
    && (hp.Some? ==> exists i :: NearestAt(ps, currentStep, mouse, i) && hp.value == ps[i].body && hd.value == MouseDistSq(ps[i], mouse))
  }

  /** The hover is a function of the planets and the mouse: two results of
      `resolveHover` on the same frame agree. */
  lemma HoverOfUnique(ps: seq<Planet>, currentStep: int, mouse: Point,
                      hp1: Option<Body>, hd1: Option<real>, hp2: Option<Body>, hd2: Option<real>)
    requires HoverOf(ps, currentStep, mouse, hp1, hd1) && HoverOf(ps, currentStep, mouse, hp2, hd2)
    ensures hp1 == hp2 && hd1 == hd2
  {
    if hp1.Some? {
      var i :| NearestAt(ps, currentStep, mouse, i) && hp1.value == ps[i].body && hd1.value == MouseDistSq(ps[i], mouse);
      var j :| NearestAt(ps, currentStep, mouse, j) && hp2.value == ps[j].body && hd2.value == MouseDistSq(ps[j], mouse);
      NearestAtUnique(ps, currentStep, mouse, i, j);
    }
  }

  class Session {
    /** `papersById`. */
    const index: PaperIndex
    /** `childrenMap`. */
    const children: ChildrenMap
    /** The canvas size `windowWidth` x `windowHeight`. */
    var vp: Viewport
    const mainGalaxy: Galaxy
    var currentGalaxy: Galaxy
    var fadeAlpha: int
    /** The paper of `hoverPlanet`; the code reading it only uses the planet's
        fixed fields. */
    var hoverPlanet: Option<Body>
    /** `hoverDist` squared; None stands for `Infinity`. */
    var hoverDistSq: Option<real>

    /** Both galaxies are well formed and read the session's children map;
        only the main galaxy has mode "main"; the hover planet's flag agrees
        with the map; the fade lies between 0 and 255; the canvas is a
        proper rectangle. */
    ghost predicate Valid()
      reads this, mainGalaxy, currentGalaxy
    {
      && mainGalaxy.Valid() && currentGalaxy.Valid()
      && mainGalaxy.mode == Main
      && mainGalaxy.children == children && currentGalaxy.children == children
      && (currentGalaxy.mode == Main <==> currentGalaxy == mainGalaxy)
      && (hoverPlanet.Some? <==> hoverDistSq.Some?)
      && (hoverPlanet.Some? ==> hoverPlanet.value.hasChildren == HasChildren(children, hoverPlanet.value.paperId))
      && 0 <= fadeAlpha <= FADE_START
      && ValidViewport(vp)
    }

    /** `setup()`: the starfield uses the first draws, then the papers and
        edges are indexed, and the main galaxy (the papers whose id starts
        with "A") becomes the current one. */
    constructor (paperRows: seq<PaperRow>, edgeRows: seq<EdgeRow>, vp: Viewport, rand: Randoms)
      requires ValidViewport(vp) && AllUnit(rand)
      ensures Valid()
      ensures index == IndexOf(paperRows) && IndexValid(index)
      ensures forall id :: id in children <==> CitersOf(edgeRows, index, id) != []
      ensures forall id :: id in children ==> children[id] == CitersOf(edgeRows, index, id)
      ensures this.vp == vp
      ensures MadeFrom(mainGalaxy, Main, MAIN_CORE_ID, MAIN_CORE_LABEL, MainRowsOf(index.byId, index.order),
                       children, vp, Skip(rand, STARFIELD_DRAWS))
      ensures currentGalaxy == mainGalaxy
      ensures fadeAlpha == 0 && hoverPlanet.None? && hoverDistSq.None?
    {
      var ix := ParsePapers(paperRows);
      IndexOfSpec(paperRows, MAIN_CORE_ID);
      var ch := BuildChildrenMap(edgeRows, ix);
      var rows := MainRows(ix);
      var g := new Galaxy(Main, MAIN_CORE_ID, MAIN_CORE_LABEL, rows, ch, vp, Skip(rand, STARFIELD_DRAWS));
      index := ix;
      children := ch;
      this.vp := vp;
      mainGalaxy := g;
      currentGalaxy := g;
      fadeAlpha := 0;
      hoverPlanet := None;
      hoverDistSq := None;
    }

    /** `buildSubGalaxy(aid)`: the galaxy of the papers citing aid, titled
        with aid's paper; it has planets exactly when aid has children. */
    method BuildSubGalaxy(aid: string, rand: Randoms) returns (g: Galaxy)
      requires Valid() && AllUnit(rand)
      ensures fresh(g) && g.Valid()
      ensures MadeFrom(g, Sub, aid, SubLabel(index, aid), SubRows(children, aid), children, vp, rand)
      ensures |g.planets| > 0 <==> HasChildren(children, aid)
    {
      g := new Galaxy(Sub, aid, SubLabel(index, aid), SubRows(children, aid), children, vp, rand);
    }

    /** `switchToGalaxy(gal)`: gal becomes current, gets a layout for the
        canvas, restarts at era 0 with every planet waiting and trail-less,
        and the fade starts at 255. */
    method SwitchToGalaxy(g: Galaxy, rand: Randoms)
      requires Valid() && g.Valid() && g.children == children && (g.mode == Main <==> g == mainGalaxy)
      modifies this, g
      ensures Valid()
      ensures currentGalaxy == g && fadeAlpha == FADE_START
      ensures g.mapper == MapperFor(vp, g.minYear, g.maxYear)
      ensures g.planets == ResetAll(RelayoutAll(old(g.planets), g.mapper, vp, rand))
      ensures g.currentStep == 0 && g.stepCooldown == 0
      ensures forall i :: 0 <= i < |g.planets| ==>
                g.planets[i].phase == Waiting && g.planets[i].trail == [] && g.planets[i].incomingTrail == []
      ensures vp == old(vp) && hoverPlanet == old(hoverPlanet) && hoverDistSq == old(hoverDistSq)
    {
      currentGalaxy := g;
      g.Refresh(vp, rand);
      g.ResetForEntry();
      ResetAllMembers(RelayoutAll(old(g.planets), g.mapper, vp, rand), g.mapper);
      fadeAlpha := FADE_START;
    }

    /** `windowResized()`: the starfield is redrawn first, then the main
        galaxy and, when it differs, the current one get layouts for the
        new canvas, one after the other. */
    method WindowResized(newVp: Viewport, rand: Randoms)
      requires Valid() && ValidViewport(newVp)
      modifies this, mainGalaxy, currentGalaxy
      ensures Valid()
      ensures vp == newVp && currentGalaxy == old(currentGalaxy)
      ensures mainGalaxy.mapper == MapperFor(newVp, mainGalaxy.minYear, mainGalaxy.maxYear)
      ensures mainGalaxy.planets == RelayoutAll(old(mainGalaxy.planets), mainGalaxy.mapper, newVp, Skip(rand, STARFIELD_DRAWS))
      ensures currentGalaxy != mainGalaxy ==>
                && currentGalaxy.mapper == MapperFor(newVp, currentGalaxy.minYear, currentGalaxy.maxYear)
                && currentGalaxy.planets == RelayoutAll(old(currentGalaxy.planets), currentGalaxy.mapper, newVp,
                                                        Skip(rand, STARFIELD_DRAWS + DRAWS_PER_RELAYOUT * |mainGalaxy.planets|))
      ensures mainGalaxy.currentStep == old(mainGalaxy.currentStep) && mainGalaxy.stepCooldown == old(mainGalaxy.stepCooldown)
      ensures currentGalaxy.currentStep == old(currentGalaxy.currentStep) && currentGalaxy.stepCooldown == old(currentGalaxy.stepCooldown)
      ensures fadeAlpha == old(fadeAlpha) && hoverPlanet == old(hoverPlanet) && hoverDistSq == old(hoverDistSq)
    {
      vp := newVp;
      mainGalaxy.Refresh(newVp, Skip(rand, STARFIELD_DRAWS));
      if currentGalaxy != mainGalaxy {
        currentGalaxy.Refresh(newVp, Skip(rand, STARFIELD_DRAWS + DRAWS_PER_RELAYOUT * |mainGalaxy.planets|));
      }
    }

    /** `resolveHover(currentGalaxy)`. */
    method ResolveHover(mouse: Point)
      requires Valid()
      modifies this
      ensures Valid()
      ensures HoverOf(currentGalaxy.planets, currentGalaxy.currentStep, mouse, hoverPlanet, hoverDistSq)
      ensures vp == old(vp) && currentGalaxy == old(currentGalaxy) && fadeAlpha == old(fadeAlpha)
    {
      var idx, dsq := currentGalaxy.NearestVisible(mouse);
      if idx.Some? {
        var ps := currentGalaxy.planets;
        assert NearestAt(ps, currentGalaxy.currentStep, mouse, idx.value);
        hoverPlanet := Some(ps[idx.value].body);
      } else {
        hoverPlanet := None;
      }
      hoverDistSq := dsq;
    }

    /** The galaxy part of `draw()` (`drawGalaxyView` in project-3): one
        frame of the era clock and of every planet, the screen positions of
        the projection `proj` recorded, and the hover resolved for them. */
    method GalaxyFrame(mouse: Point, proj: (real, real) -> Point)
      requires Valid()
      modifies this, currentGalaxy
      ensures Valid()
      ensures currentGalaxy == old(currentGalaxy)
      ensures Era(currentGalaxy.currentStep, currentGalaxy.stepCooldown)
              == EraStep(old(Era(currentGalaxy.currentStep, currentGalaxy.stepCooldown)))
      ensures currentGalaxy.planets
              == RecordAll(TickAll(old(currentGalaxy.planets), currentGalaxy.currentStep), currentGalaxy.currentStep, proj)
      ensures currentGalaxy.mapper == old(currentGalaxy.mapper)
      ensures HoverOf(currentGalaxy.planets, currentGalaxy.currentStep, mouse, hoverPlanet, hoverDistSq)
      ensures vp == old(vp) && fadeAlpha == old(fadeAlpha)
    {
      currentGalaxy.AdvanceEra();
      currentGalaxy.UpdatePlanets();
      currentGalaxy.RecordScreenPositions(proj);
      ResolveHover(mouse);
    }

    /** The fade overlay at the end of `draw()`. */
    method Fade()
      requires Valid()
      modifies this
      ensures Valid()
      ensures fadeAlpha == FadeStep(old(fadeAlpha))
      ensures currentGalaxy == old(currentGalaxy) && vp == old(vp)
      ensures hoverPlanet == old(hoverPlanet) && hoverDistSq == old(hoverDistSq)
    {
      if fadeAlpha > 0 {
        fadeAlpha := if fadeAlpha - FADE_SPEED > 0 then fadeAlpha - FADE_SPEED else 0;
      }
    }

    /** `draw()` of project-2: the galaxy frame, then the fade. */
    method Draw(mouse: Point, proj: (real, real) -> Point)
      requires Valid()
      modifies this, currentGalaxy
      ensures Valid()
      ensures currentGalaxy == old(currentGalaxy)
      ensures Era(currentGalaxy.currentStep, currentGalaxy.stepCooldown)
              == EraStep(old(Era(currentGalaxy.currentStep, currentGalaxy.stepCooldown)))
      ensures currentGalaxy.planets
              == RecordAll(TickAll(old(currentGalaxy.planets), currentGalaxy.currentStep), currentGalaxy.currentStep, proj)
      ensures HoverOf(currentGalaxy.planets, currentGalaxy.currentStep, mouse, hoverPlanet, hoverDistSq)
      ensures fadeAlpha == FadeStep(old(fadeAlpha))
      ensures vp == old(vp) && currentGalaxy.mapper == old(currentGalaxy.mapper)
    {
      GalaxyFrame(mouse, proj);
      Fade();
    }

    /** A click that `mousePressed` reads as "back to the main galaxy":
        inside a sub-galaxy, closer than 50 to the centre. */
    predicate CentreClick(mouse: Point)
      reads this, currentGalaxy
    {
      currentGalaxy.mode == Sub && DistSq(mouse, Centre(vp)) < CENTER_CLICK_DIST_SQ
    }

    /** `hoverPlanet && hoverDist <= HOVER_DISTANCE`. */
    predicate HoverInRange()
      reads this
    {
      hoverPlanet.Some? && hoverDistSq.Some? && hoverDistSq.value <= HOVER_DIST_SQ
    }

    /** `mousePressed()` of project-2. A centre click in a sub-galaxy goes
        back to the main galaxy; otherwise a click near a hovered planet with
        citers opens that planet's galaxy, which is never empty, so the
        emptiness check of the source never refuses it; any other click
        changes nothing. */
    method MousePressed(mouse: Point, rand: Randoms)
      requires Valid() && AllUnit(rand)
      modifies this, mainGalaxy, currentGalaxy
      ensures Valid()
      ensures old(CentreClick(mouse)) ==>
                currentGalaxy == mainGalaxy && fadeAlpha == FADE_START
                && mainGalaxy.currentStep == 0 && mainGalaxy.stepCooldown == 0
                && mainGalaxy.mapper == MapperFor(vp, mainGalaxy.minYear, mainGalaxy.maxYear)
                && mainGalaxy.planets == ResetAll(RelayoutAll(old(mainGalaxy.planets), mainGalaxy.mapper, vp, rand))
      ensures !old(CentreClick(mouse)) && old(HoverInRange()) && old(hoverPlanet).value.hasChildren ==>
                var aid := old(hoverPlanet).value.paperId;
                var rows := SubRows(children, aid);
                var m := MapperFor(vp, currentGalaxy.minYear, currentGalaxy.maxYear);
                && fresh(currentGalaxy) && fadeAlpha == FADE_START
                && currentGalaxy.mapper == m
                && currentGalaxy.planets
                   == ResetAll(RelayoutAll(PlanetsFor(rows, m, children, vp, rand), m, vp, Skip(rand, DRAWS_PER_PLANET * |rows|)))
                && unchanged(mainGalaxy) && unchanged(old(currentGalaxy))
                && currentGalaxy.mode == Sub && currentGalaxy.coreId == aid && currentGalaxy.coreLabel == SubLabel(index, aid)
                && |currentGalaxy.planets| == |SubRows(children, aid)| > 0
                && currentGalaxy.currentStep == 0 && currentGalaxy.stepCooldown == 0
                && (forall i :: 0 <= i < |currentGalaxy.planets| ==> currentGalaxy.planets[i].phase == Waiting)
      ensures !old(CentreClick(mouse)) && !(old(HoverInRange()) && old(hoverPlanet).value.hasChildren) ==>
                currentGalaxy == old(currentGalaxy) && fadeAlpha == old(fadeAlpha)
                && unchanged(mainGalaxy) && unchanged(currentGalaxy)
      ensures vp == old(vp) && hoverPlanet == old(hoverPlanet) && hoverDistSq == old(hoverDistSq)
    {
      if CentreClick(mouse) {
        SwitchToGalaxy(mainGalaxy, rand);
        return;
      }
      if HoverInRange() && hoverPlanet.value.hasChildren {
        var aid := hoverPlanet.value.paperId;
        var rows := SubRows(children, aid);
        var g2 := BuildSubGalaxy(aid, rand);
        if |g2.planets| > 0 {
          SwitchToGalaxy(g2, Skip(rand, DRAWS_PER_PLANET * |rows|));
        }
      }
    }
  }
}
