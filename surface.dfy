/** The landing view's planet surface (`drawCurvedPlanetSurface` and the
    crater loops of project-3): the discipline picks one of five archetypes
    from its own keyword order, and the archetype fixes how many craters a
    generator seeded with a tag and the paper id places, three draws each. */
module Surface {
  import opened Common
  import opened JsText
  import opened Layout
  import opened Discipline
  import opened SeededRng
  import opened Orbit

  /** Mirror (theory), icy (media), dusty (social), art, and generic. */
  datatype Archetype = Mirror | Icy | Dusty | Art | Generic

  /** How an archetype scatters its craters: the seed tag, the number of
      craters, the distance from the centre as `r * (radialBase + u * radialSpan)`
      and the size as `sizeBase + u * sizeSpan`. */
  datatype CraterStyle = CraterStyle(tag: string, count: nat, radialBase: real, radialSpan: real,
                                     sizeBase: real, sizeSpan: real)

  /** The crater loop of each archetype; the mirror planet has none. */
  function StyleOf(a: Archetype): (st: Option<CraterStyle>)
    ensures st.None? <==> a == Mirror
    ensures st.Some? ==> st.value.radialBase > 0.0 && st.value.radialSpan > 0.0 && st.value.sizeSpan > 0.0
    ensures st.Some? ==> st.value.radialBase + st.value.radialSpan < 1.0
  {
    match a
    case Mirror => None
    case Icy => Some(CraterStyle("media", 6, 0.15, 0.6, 18.0, 24.0))
    case Dusty => Some(CraterStyle("soc", 5, 0.2, 0.55, 20.0, 30.0))
    case Art => Some(CraterStyle("art", 7, 0.18, 0.6, 18.0, 20.0))
    case Generic => Some(CraterStyle("generic", 10, 0.15, 0.65, 22.0, 36.0))
  }

  function CraterCount(a: Archetype): nat {
    if StyleOf(a).Some? then StyleOf(a).value.count else 0
  }

  /** The archetype tests of `drawCurvedPlanetSurface` as data, in order. */
  const ARCHETYPE_TABLE: seq<Rule<Archetype>> := [
    Rule(["theory", "philosophy", "critical"], Mirror),
    Rule(["media"], Icy),
    Rule(["sociology", "social", "culture", "political"], Dusty),
    Rule(["art"], Art)
  ]

  /** The archetype of a landed planet, from its lower-cased discipline. */
  function ArchetypeOf(discRaw: string): (a: Archetype)
    ensures a == Mirror <==> ContainsAny(ToLower(discRaw), ARCHETYPE_TABLE[0].keywords)
  {
    var d := ToLower(discRaw);
    ContainsAny3(d, "theory", "philosophy", "critical");
    if Contains(d, "theory") || Contains(d, "philosophy") || Contains(d, "critical") then Mirror
    else if Contains(d, "media") then Icy
    else if Contains(d, "sociology") || Contains(d, "social") || Contains(d, "culture") ||
            Contains(d, "political") then Dusty
    else if Contains(d, "art") then Art
    else Generic
  }

  lemma ContainsAny4(d: string, a: string, b: string, c: string, e: string)
    ensures ContainsAny(d, [a, b, c, e]) <==> Contains(d, a) || Contains(d, b) || Contains(d, c) || Contains(d, e)
  {
    ContainsAny3(d, b, c, e);
    ContainsAnyCons(d, a, [b, c, e]);
    assert [a, b, c, e] == [a] + [b, c, e];
  }

  /** The if-chain reads the archetype table in order, first match winning. */
  lemma ArchetypeIsFirstMatch(discRaw: string)
    ensures ArchetypeOf(discRaw) == FirstMatch(ARCHETYPE_TABLE, ToLower(discRaw), Generic)
  {
    var d := ToLower(discRaw);
    var t := ARCHETYPE_TABLE;
    ContainsAny3(d, "theory", "philosophy", "critical");
    ContainsAny1(d, "media");
    ContainsAny4(d, "sociology", "social", "culture", "political");
    ContainsAny1(d, "art");
    var t3 := [t[3]];
    var t2 := [t[2]] + t3;
    var t1 := [t[1]] + t2;
    assert t == [t[0]] + t1;
    FirstMatchCons(t[3], [], d, Generic);
    assert t3 == [t[3]] + [];
    FirstMatchCons(t[2], t3, d, Generic);
    FirstMatchCons(t[1], t2, d, Generic);
    FirstMatchCons(t[0], t1, d, Generic);
  }

  lemma LowerLiteral(s: string)
    requires forall i :: 0 <= i < |s| ==> !('A' <= s[i] <= 'Z')
    ensures ToLower(s) == s
  {
  }

  /** The two tables disagree: "media theory" is coloured as media but
      landed on as a mirror planet, because the surface tests theory first. */
  lemma MediaTheoryDiverges()
    ensures DisciplineInfo("media theory") == MEDIA_INFO
    ensures ArchetypeOf("media theory") == Mirror
  {
    var s := "media theory";
    LowerLiteral(s);
    assert OccursAt(s, "media", 0) by { assert s[0..5] == "media"; }
    ContainsAt(s, "media", 0);
    assert OccursAt(s, "theory", 6) by { assert s[6..12] == "theory"; }
    ContainsAt(s, "theory", 6);
  }

  /** Which keywords of the two tables occur in "policy". */
  lemma PolicyWords()
    ensures ToLower("policy") == "policy"
    ensures Contains("policy", "policy")
    ensures !Contains("policy", "media") && !Contains("policy", "gender") && !Contains("policy", "body")
    ensures !Contains("policy", "education") && !Contains("policy", "communication")
    ensures !Contains("policy", "theory") && !Contains("policy", "philosophy") && !Contains("policy", "critical")
    ensures !Contains("policy", "sociology") && !Contains("policy", "social") && !Contains("policy", "political")
    ensures !Contains("policy", "culture") && !Contains("policy", "cultural")
    ensures !Contains("policy", "art") && !Contains("policy", "aesthetics")
  {
    var s := "policy";
    LowerLiteral(s);
    assert s[..6] == "policy";
    ContainsFirstChar(s, "media");
    ContainsFirstChar(s, "gender");
    ContainsFirstChar(s, "body");
    ContainsFirstChar(s, "education");
    ContainsFirstChar(s, "theory");
    ContainsFirstChar(s, "sociology");
    ContainsFirstChar(s, "social");
    ContainsFirstChar(s, "art");
    ContainsFirstChar(s, "aesthetics");
  }

  /** "policy" is in the social band of the colour table but has no
      archetype keyword, so it lands on the generic surface. */
  lemma PolicyDiverges()
    ensures DisciplineInfo("policy") == SOCIAL_INFO
    ensures ArchetypeOf("policy") == Generic
  {
    PolicyWords();
  }

  /** One crater, in polar form around the planet's centre: the angle
      `PI + u1 * PI` (the upper half), the distance `r * (base + u2 * span)`
      and the size `sizeBase + u3 * sizeSpan`. */
  datatype Crater = Crater(angle: real, dist: real, size: real)

  /** `PI + rng() * PI`: an angle in the upper half of the planet. */
  function CraterAngle(u: real): (a: real)
    requires 0.0 <= u < 1.0
    ensures PI <= a < TWO_PI
  {
    UnitTimes(u, PI);
    PI + u * PI
  }

  /** `r * (base + rng() * span)`. */
  function CraterDist(r: real, base: real, span: real, u: real): (d: real)
    requires 0.0 <= r && 0.0 <= span && 0.0 <= u < 1.0
    ensures r * base <= d <= r * (base + span)
  {
    var f := base + u * span;
    UnitTimes(u, span);
    ScaleMonotone(r, base, f);
    ScaleMonotone(r, f, base + span);
    r * f
  }

  /** `base + rng() * span`. */
  function CraterSize(base: real, span: real, u: real): (z: real)
    requires 0.0 <= span && 0.0 <= u < 1.0
    ensures base <= z <= base + span
  {
    UnitTimes(u, span);
    base + u * span
  }

  lemma UnitTimes(u: real, d: real)
    requires 0.0 <= u < 1.0 && 0.0 <= d
    ensures 0.0 <= u * d <= d
    ensures d > 0.0 ==> u * d < d
  {
    assert d - u * d == (1.0 - u) * d;
  }

  function CraterFrom(st: CraterStyle, r: real, u1: real, u2: real, u3: real): Crater
    requires 0.0 <= r && st.radialSpan >= 0.0 && st.sizeSpan >= 0.0
    requires 0.0 <= u1 < 1.0 && 0.0 <= u2 < 1.0 && 0.0 <= u3 < 1.0
  {
    Crater(CraterAngle(u1), CraterDist(r, st.radialBase, st.radialSpan, u2), CraterSize(st.sizeBase, st.sizeSpan, u3))
  }

  /** The craters of a style for seed `seed`: crater i is made from draws
      3i, 3i+1 and 3i+2 of `makeRNG(seed)`. */
  function Craters(st: CraterStyle, seed: string, r: real): (cs: seq<Crater>)
    requires 0.0 <= r && st.radialSpan >= 0.0 && st.sizeSpan >= 0.0
    ensures |cs| == st.count
  {
    seq(st.count, i requires 0 <= i < st.count =>
      CraterFrom(st, r, Draw(seed, 3 * i), Draw(seed, 3 * i + 1), Draw(seed, 3 * i + 2)))
  }

  /** The radius of the landing view's planet: its top sits at 66% of the
      height, and it is no wider than 55% of the width on each side. */
  function SurfaceRadius(vp: Viewport): (r: real)
    ensures vp.width >= 0.0 && vp.height >= 0.0 ==> 0.0 <= r
  {
    var horizonY := vp.height * 0.66;
    Min((vp.height - horizonY) * 1.25, vp.width * 0.55)
  }

  /** What `drawCurvedPlanetSurface(p)` lays down for the landed planet p:
      its archetype and, unless it is a mirror, the craters seeded by the
      archetype's tag followed by the paper id. */
  function SurfaceCraters(p: Body, vp: Viewport): (cs: seq<Crater>)
    requires vp.width >= 0.0 && vp.height >= 0.0
    ensures |cs| == CraterCount(ArchetypeOf(p.disciplineRaw))
  {
    var st := StyleOf(ArchetypeOf(p.disciplineRaw));
    if st.None? then [] else Craters(st.value, st.value.tag + p.paperId, SurfaceRadius(vp))
  }

  /** One crater loop (`const rng = makeRNG(tag + paperId); for (...)`),
      drawing angle, distance and size in that order. */
  method DrawCraters(st: CraterStyle, paperId: string, r: real) returns (cs: seq<Crater>)
    requires 0.0 <= r && st.radialSpan >= 0.0 && st.sizeSpan >= 0.0
    ensures cs == Craters(st, st.tag + paperId, r)
  {
    var seed := st.tag + paperId;
    var rng := new Rng(seed);
    cs := [];
    var i := 0;
    while i < st.count
      invariant 0 <= i <= st.count
      invariant rng.Valid() && rng.seed == seed && rng.draws == 3 * i
      invariant |cs| == i
      invariant forall j :: 0 <= j < i ==>
                  cs[j] == CraterFrom(st, r, Draw(seed, 3 * j), Draw(seed, 3 * j + 1), Draw(seed, 3 * j + 2))
    {
      var ang := rng.Next();
      var rad := rng.Next();
      var size := rng.Next();
      cs := cs + [CraterFrom(st, r, ang, rad, size)];
      i := i + 1;
    }
  }

  /** `drawCurvedPlanetSurface(p)`: the archetype test, then the crater
      loop of that archetype. */
  method DrawSurface(p: Body, vp: Viewport) returns (a: Archetype, cs: seq<Crater>)
    requires vp.width >= 0.0 && vp.height >= 0.0
    ensures a == ArchetypeOf(p.disciplineRaw)
    ensures cs == SurfaceCraters(p, vp)
  {
    a := ArchetypeOf(p.disciplineRaw);
    var st := StyleOf(a);
    if st.None? {
      cs := [];
    } else {
      cs := DrawCraters(st.value, p.paperId, SurfaceRadius(vp));
    }
  }
}
