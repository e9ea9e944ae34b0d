/** The navigation of project-3: besides the session state of project-2 it
    keeps a view mode, the planet the user landed on and the galaxy it was
    landed from (`viewMode`, `landedPlanet`, `landedFromGalaxy`). A click
    on a hovered planet lands on it instead of opening its galaxy; the
    landing view has a button that opens the galaxy and a sky that leads
    back. */
module Landing {
  import opened Common
  import opened Layout
  import opened Clock
  import opened CitationIndex
  import opened Orbit
  import opened Galaxies
  import opened Sketch
  import opened Surface

  /** `viewMode`: "galaxy" or "planet". */
  datatype ViewMode = GalaxyView | PlanetView

  /** The "open its citation galaxy" button of the landing view: the open
      rectangle from (width - 190, 16) of size 174 x 30. */
  predicate InButton(mouse: Point, vp: Viewport) {
    && vp.width - 190.0 < mouse.x < vp.width - 190.0 + 174.0
    && 16.0 < mouse.y < 16.0 + 30.0
  }

  /** The sky of the landing view: the upper 55% of the canvas. */
  predicate InSky(mouse: Point, vp: Viewport) {
    mouse.y < vp.height * 0.55
  }

  /** The button and the sky overlap (the button lies at the top of the sky),
      so the order of the two tests in `mousePressed` matters. */
  lemma ButtonInSky(mouse: Point, vp: Viewport)
    requires vp.height >= 100.0 && InButton(mouse, vp)
    ensures InSky(mouse, vp)
  {
  }

  class Lander {
    const session: Session
    var viewMode: ViewMode
    /** The paper of `landedPlanet`; the landing view only reads the
        planet's fixed fields. */
    var landedPlanet: Option<Body>
    var landedFrom: Option<Galaxy>

    /** The session is well formed and the landed planet's flag agrees with
        the children map. The landing view may hold no planet: `draw` checks
        for that case. */
    ghost predicate Valid()
      reads this, session, session.mainGalaxy, session.currentGalaxy
    {
      && session.Valid()
      && (landedPlanet.Some? ==>
            landedPlanet.value.hasChildren == HasChildren(session.children, landedPlanet.value.paperId))
    }

    /** `setup()` of project-3, which starts in the galaxy view with nothing landed. */
    constructor (paperRows: seq<PaperRow>, edgeRows: seq<EdgeRow>, vp: Viewport, rand: Randoms)
      requires ValidViewport(vp) && AllUnit(rand)
      ensures Valid() && fresh(session)
      ensures session.index == IndexOf(paperRows) && IndexValid(session.index) && session.vp == vp
      ensures session.currentGalaxy == session.mainGalaxy
      ensures MadeFrom(session.mainGalaxy, Main, MAIN_CORE_ID, MAIN_CORE_LABEL,
                       MainRowsOf(session.index.byId, session.index.order),
                       session.children, vp, Skip(rand, STARFIELD_DRAWS))
      ensures viewMode == GalaxyView && landedPlanet.None? && landedFrom.None?
    {
      session := new Session(paperRows, edgeRows, vp, rand);
      viewMode := GalaxyView;
      landedPlanet := None;
      landedFrom := None;
    }

    /** `draw()` of project-3. The galaxy view runs a galaxy frame; the
        landing view lays down the landed planet's surface and changes
        nothing, but falls back to the galaxy view when no planet is landed;
        the fade drops in both. */
    method Draw(mouse: Point, proj: (real, real) -> Point) returns (craters: seq<Crater>)
      requires Valid()
      modifies this, session, session.currentGalaxy
      ensures Valid()
      ensures session.currentGalaxy == old(session.currentGalaxy)
      ensures session.fadeAlpha == FadeStep(old(session.fadeAlpha))
      ensures old(viewMode) == GalaxyView ==>
                && viewMode == GalaxyView
                && Era(session.currentGalaxy.currentStep, session.currentGalaxy.stepCooldown)
                   == EraStep(old(Era(session.currentGalaxy.currentStep, session.currentGalaxy.stepCooldown)))
                && session.currentGalaxy.planets
                   == RecordAll(TickAll(old(session.currentGalaxy.planets), session.currentGalaxy.currentStep),
                                session.currentGalaxy.currentStep, proj)
                && HoverOf(session.currentGalaxy.planets, session.currentGalaxy.currentStep, mouse,
                           session.hoverPlanet, session.hoverDistSq)
      ensures old(viewMode) == PlanetView ==>
                && viewMode == (if old(landedPlanet).None? then GalaxyView else PlanetView)
                && unchanged(session.currentGalaxy)
                && session.hoverPlanet == old(session.hoverPlanet) && session.hoverDistSq == old(session.hoverDistSq)
      ensures craters == if old(viewMode) == PlanetView && old(landedPlanet).Some?
                         then SurfaceCraters(old(landedPlanet).value, session.vp) else []
      ensures landedPlanet == old(landedPlanet) && landedFrom == old(landedFrom)
      ensures session.vp == old(session.vp) && session.currentGalaxy.mapper == old(session.currentGalaxy.mapper)
    {
      craters := [];
      if viewMode == GalaxyView {
        session.GalaxyFrame(mouse, proj);
      } else if landedPlanet.None? {
        viewMode := GalaxyView;
      } else {
        var archetype;
        archetype, craters := DrawSurface(landedPlanet.value, session.vp);
      }
      session.Fade();
    }

    /** `mousePressed()` of project-3. In the landing view, the button of a
        planet with citers opens its galaxy (never an empty one) and leaves
        the landing view; any other click in the sky leaves the landing view;
        other clicks change nothing. In the galaxy view, a centre click in a
        sub-galaxy goes back to the main galaxy, and a click near the hovered
        planet lands on it. */
    method MousePressed(mouse: Point, rand: Randoms)
      requires Valid() && AllUnit(rand)
      modifies this, session, session.mainGalaxy, session.currentGalaxy
      ensures Valid()
      ensures session.vp == old(session.vp)
      ensures session.hoverPlanet == old(session.hoverPlanet) && session.hoverDistSq == old(session.hoverDistSq)
      ensures old(viewMode) == PlanetView && old(landedPlanet).Some? && old(landedPlanet).value.hasChildren
              && InButton(mouse, session.vp) ==>
                var aid := old(landedPlanet).value.paperId;
                var rows := SubRows(session.children, aid);
                var m := MapperFor(session.vp, session.currentGalaxy.minYear, session.currentGalaxy.maxYear);
                && viewMode == GalaxyView && landedPlanet.None? && landedFrom == old(landedFrom)
                && fresh(session.currentGalaxy) && session.fadeAlpha == FADE_START
                && session.currentGalaxy.mapper == m
                && session.currentGalaxy.planets
                   == ResetAll(RelayoutAll(PlanetsFor(rows, m, session.children, session.vp, rand), m, session.vp,
                                           Skip(rand, DRAWS_PER_PLANET * |rows|)))
                && unchanged(session.mainGalaxy) && unchanged(old(session.currentGalaxy))
                && session.currentGalaxy.mode == Sub && session.currentGalaxy.coreId == aid
                && session.currentGalaxy.coreLabel == SubLabel(session.index, aid)
                && |session.currentGalaxy.planets| == |SubRows(session.children, aid)| > 0
                && session.currentGalaxy.currentStep == 0 && session.currentGalaxy.stepCooldown == 0
                && (forall i :: 0 <= i < |session.currentGalaxy.planets| ==> session.currentGalaxy.planets[i].phase == Waiting)
      ensures old(viewMode) == PlanetView
              && !(old(landedPlanet).Some? && old(landedPlanet).value.hasChildren && InButton(mouse, session.vp)) ==>
                && viewMode == (if InSky(mouse, session.vp) then GalaxyView else PlanetView)
                && landedPlanet == (if InSky(mouse, session.vp) then None else old(landedPlanet))
                && landedFrom == old(landedFrom)
                && session.currentGalaxy == old(session.currentGalaxy) && session.fadeAlpha == old(session.fadeAlpha)
                && unchanged(session.mainGalaxy) && unchanged(session.currentGalaxy)
      ensures old(viewMode) == GalaxyView && old(session.CentreClick(mouse)) ==>
                && viewMode == GalaxyView && landedPlanet == old(landedPlanet) && landedFrom == old(landedFrom)
                && session.currentGalaxy == session.mainGalaxy && session.fadeAlpha == FADE_START
                && session.mainGalaxy.currentStep == 0 && session.mainGalaxy.stepCooldown == 0
                && session.mainGalaxy.mapper == MapperFor(session.vp, session.mainGalaxy.minYear, session.mainGalaxy.maxYear)
                && session.mainGalaxy.planets
                   == ResetAll(RelayoutAll(old(session.mainGalaxy.planets), session.mainGalaxy.mapper, session.vp, rand))
      ensures old(viewMode) == GalaxyView && !old(session.CentreClick(mouse)) ==>
                && viewMode == (if old(session.HoverInRange()) then PlanetView else GalaxyView)
                && landedPlanet == (if old(session.HoverInRange()) then old(session.hoverPlanet) else old(landedPlanet))
                && landedFrom == (if old(session.HoverInRange()) then Some(old(session.currentGalaxy)) else old(landedFrom))
                && session.currentGalaxy == old(session.currentGalaxy) && session.fadeAlpha == old(session.fadeAlpha)
                && unchanged(session.mainGalaxy) && unchanged(session.currentGalaxy)
    {
      if viewMode == PlanetView {
        ClickLanding(mouse, rand);
      } else {
        ClickGalaxy(mouse, rand);
      }
    }

    /** The landing-view half of `mousePressed()`: the button first, then the sky. */
    method ClickLanding(mouse: Point, rand: Randoms)
      requires Valid() && AllUnit(rand) && viewMode == PlanetView
      modifies this, session, session.mainGalaxy, session.currentGalaxy
      ensures Valid()
      ensures session.vp == old(session.vp)
      ensures session.hoverPlanet == old(session.hoverPlanet) && session.hoverDistSq == old(session.hoverDistSq)
      ensures old(landedPlanet).Some? && old(landedPlanet).value.hasChildren && InButton(mouse, session.vp) ==>
                var aid := old(landedPlanet).value.paperId;
                var rows := SubRows(session.children, aid);
                var m := MapperFor(session.vp, session.currentGalaxy.minYear, session.currentGalaxy.maxYear);
                && viewMode == GalaxyView && landedPlanet.None? && landedFrom == old(landedFrom)
                && fresh(session.currentGalaxy) && session.fadeAlpha == FADE_START
                && session.currentGalaxy.mapper == m
                && session.currentGalaxy.planets
                   == ResetAll(RelayoutAll(PlanetsFor(rows, m, session.children, session.vp, rand), m, session.vp,
                                           Skip(rand, DRAWS_PER_PLANET * |rows|)))
                && unchanged(session.mainGalaxy) && unchanged(old(session.currentGalaxy))
                && session.currentGalaxy.mode == Sub && session.currentGalaxy.coreId == aid
                && session.currentGalaxy.coreLabel == SubLabel(session.index, aid)
                && |session.currentGalaxy.planets| == |SubRows(session.children, aid)| > 0
                && session.currentGalaxy.currentStep == 0 && session.currentGalaxy.stepCooldown == 0
                && (forall i :: 0 <= i < |session.currentGalaxy.planets| ==> session.currentGalaxy.planets[i].phase == Waiting)
      ensures !(old(landedPlanet).Some? && old(landedPlanet).value.hasChildren && InButton(mouse, session.vp)) ==>
                && viewMode == (if InSky(mouse, session.vp) then GalaxyView else PlanetView)
                && landedPlanet == (if InSky(mouse, session.vp) then None else old(landedPlanet))
                && landedFrom == old(landedFrom)
                && session.currentGalaxy == old(session.currentGalaxy) && session.fadeAlpha == old(session.fadeAlpha)
                && unchanged(session.mainGalaxy) && unchanged(session.currentGalaxy)
    {
      if landedPlanet.Some? && landedPlanet.value.hasChildren && InButton(mouse, session.vp) {
        var aid := landedPlanet.value.paperId;
        var g2 := session.BuildSubGalaxy(aid, rand);
        session.SwitchToGalaxy(g2, Skip(rand, DRAWS_PER_PLANET * |SubRows(session.children, aid)|));
        viewMode := GalaxyView;
        landedPlanet := None;
      } else if InSky(mouse, session.vp) {
        viewMode := GalaxyView;
        landedPlanet := None;
      }
    }

    /** The galaxy-view half of `mousePressed()`: the centre of a sub-galaxy
        first, then the hovered planet. */
    method ClickGalaxy(mouse: Point, rand: Randoms)
      requires Valid() && AllUnit(rand) && viewMode == GalaxyView
      modifies this, session, session.mainGalaxy, session.currentGalaxy
      ensures Valid()
      ensures session.vp == old(session.vp)
      ensures session.hoverPlanet == old(session.hoverPlanet) && session.hoverDistSq == old(session.hoverDistSq)
      ensures old(session.CentreClick(mouse)) ==>
                && viewMode == GalaxyView && landedPlanet == old(landedPlanet) && landedFrom == old(landedFrom)
                && session.currentGalaxy == session.mainGalaxy && session.fadeAlpha == FADE_START
                && session.mainGalaxy.currentStep == 0 && session.mainGalaxy.stepCooldown == 0
                && session.mainGalaxy.mapper == MapperFor(session.vp, session.mainGalaxy.minYear, session.mainGalaxy.maxYear)
                && session.mainGalaxy.planets
                   == ResetAll(RelayoutAll(old(session.mainGalaxy.planets), session.mainGalaxy.mapper, session.vp, rand))
      ensures !old(session.CentreClick(mouse)) ==>
                && viewMode == (if old(session.HoverInRange()) then PlanetView else GalaxyView)
                && landedPlanet == (if old(session.HoverInRange()) then old(session.hoverPlanet) else old(landedPlanet))
                && landedFrom == (if old(session.HoverInRange()) then Some(old(session.currentGalaxy)) else old(landedFrom))
                && session.currentGalaxy == old(session.currentGalaxy) && session.fadeAlpha == old(session.fadeAlpha)
                && unchanged(session.mainGalaxy) && unchanged(session.currentGalaxy)
    {
      if session.CentreClick(mouse) {
        session.SwitchToGalaxy(session.mainGalaxy, rand);
      } else if session.HoverInRange() {
        landedPlanet := session.hoverPlanet;
        landedFrom := Some(session.currentGalaxy);
        viewMode := PlanetView;
      }
    }
  }
}
