# Citation galaxy: a Dafny model

The repository holds two p5.js sketches that draw a citation network as a
galaxy. Each paper that cites the focused paper is a planet. Its orbit radius
comes from its publication year and its discipline. Planets appear era by era:
they wait, fly in from outside the canvas and then settle into orbit.
Clicking a planet opens the galaxy of the papers that cite it.

`project-2/sketch.js` navigates straight into sub-galaxies.
`project-3/galaxy/galaxy/sketch.js` adds a landing view. Clicking a planet
lands on it, and the landing view draws a surface whose craters are placed by
a generator seeded with a string.

This project models the engine both sketches share, once, plus the landing
view of project-3:

- **Papers** (`year.dfy`, `index.dfy`): the year parser, the paper index
  `papersById` and the citation map `childrenMap`.
- **Classification and labels** (`discipline.dfy`, `label.dfy`,
  `jstext.dfy`): the discipline classifier, label shortening, and the few
  JavaScript string operations these rely on.
- **Galaxy layout** (`layout.dfy`): the year range, the radius mapping and
  the year-to-era mapping.
- **Planets** (`orbit.dfy`): the per-planet state machine, the easing and
  angle interpolation, the trail buffer, and how planets are built and laid
  out.
- **Galaxies** (`galaxy.dfy`): the galaxy object, a class whose methods
  update its era clock and planet list in place.
- **Session** (`session.dfy`, `clock.dfy`): the sketches' global state as a
  class, covering setup, resizing, the frame, hover resolution, galaxy
  switching, the fade counter and project-2's `mousePressed`.
- **Landing** (`landing.dfy`, `surface.dfy`, `rng.dfy`): project-3's view
  mode and clicks, the surface archetypes and crater loops, and the
  string-seeded 32-bit generator.

p5's `random()` is modelled as a stream parameter `rand: nat -> real` of
values in [0, 1).
- Building a galaxy consumes seven values per row, in source order.
- Re-laying out a galaxy consumes two values per planet.
- The starfield consumes the first 6400 values of `setup` and of
  `windowResized`.

Screen projection, which uses `cos` and `sin` and the system rotation, is a
parameter `proj`. Distances are compared squared.

## Model

| member | source | states |
|---|---|---|
| YearParse.FindCenturyYear | project-2/sketch.js:720-721 | returns the leftmost index at or after `from` where `(19\|20)\d{2}` matches, or None when no index matches |
| YearParse.CenturyYearDigits | project-2/sketch.js:720-721 | a match of the third pattern is four digits whose value lies in 1900..2099 |
| YearParse.ParseTrimmedPriority | project-2/sketch.js:714-723 | on the trimmed text the patterns are tried in priority order: leading year with `/` or `-`, then exactly four digits, then the leftmost 19xx/20xx; the result is NaN exactly when none matches |
| YearParse.ParseYearTrims | project-2/sketch.js:711-712 | empty input is NaN; other input is decided on its trimmed form |
| YearParse.ParseYearRange | project-2/sketch.js:710-724 | every parsed year lies in 0..9999 |
| YearParse.ParseYearSlashExample | project-2/sketch.js:714-715 | "2020/03" parses to 2020 |
| YearParse.ParseYearEmbeddedExample | project-2/sketch.js:720-721 | "circa 1998 report" parses to 1998 |
| YearParse.ParseYearNoYearExample | project-2/sketch.js:723 | "unknown" is NaN |
| JsText.ToLower | project-2/sketch.js:318 | same length; each character lower-cased on its own |
| JsText.ContainsIff | project-2/sketch.js:320 | `includes` holds exactly when the word occurs at some index |
| JsText.Trim | project-2/sketch.js:712 | the result is a slice of the input; everything cut is white space, and the result neither starts nor ends with white space |
| CoreLabel.ShortenCoreLabel | project-2/sketch.js:104-109 | the result has at most 60 characters; a short title is returned unchanged (so "" gives ""); a long one keeps its first 57 characters and has exactly 60 |
| CoreLabel.ShortenIdempotent | project-2/sketch.js:104-109 | shortening twice is the same as shortening once |
| CoreLabel.ShortenKeepsOnlyPrefix | project-2/sketch.js:106-108 | two long titles with the same first 57 characters get the same label |
| Discipline.DisciplineInfo | project-2/sketch.js:317-357 | the scale lies in [0.95, 1.22], and is 0.95 exactly when the lower-cased text contains "media" |
| Discipline.FirstMatchIsEarliest | project-2/sketch.js:320-356 | an ordered keyword table returns the result of its earliest matching row |
| Discipline.FirstMatchNone | project-2/sketch.js:356 | a table with no matching row returns the fallback |
| Discipline.DisciplineInfoIsFirstMatch | project-2/sketch.js:317-357 | the if-chain equals the first match over the seven-row keyword table, in the code's order, with grey and 1.18 as the fallback |
| Discipline.DisciplineInfoIgnoresCase | project-2/sketch.js:318 | two inputs with the same lower-case form get the same colour and scale |
| CitationIndex.ParseRow | project-2/sketch.js:147-163 | a row gives a record exactly when its year parses; the record carries the row's id and that year |
| CitationIndex.Put | project-2/sketch.js:157-163 | assigning `papersById[pid]` overwrites the value; a new key is appended to the key order, and an existing key keeps its place |
| CitationIndex.ParsePapers | project-2/sketch.js:145-165 | the loop builds exactly the fold of Put over the parsed rows |
| CitationIndex.CollectValid | project-2/sketch.js:145-165 | every key is listed once in the key order, and every record is filed under its own id |
| CitationIndex.CollectKeys | project-2/sketch.js:154-157 | an id is a key exactly when some row with a parsing year carries it |
| CitationIndex.CollectLastWins | project-2/sketch.js:157-163 | a key holds the record of the LAST row with that id |
| CitationIndex.IndexOfSpec | project-2/sketch.js:145-165 | the index after `parsePapers` is well formed; a key is present exactly when a row carries it with a valid year; its record is that of the last such row |
| CitationIndex.BuildChildrenMap | project-2/sketch.js:167-183 | a cited id has an entry exactly when it has at least one surviving edge; the entry is the list of citing papers of the surviving edges, in edge order |
| CitationIndex.CitersOfMembers | project-2/sketch.js:171-181 | a paper is listed under `cited` exactly when some edge with both ids non-empty and known links it to `cited` |
| CitationIndex.SubRows | project-2/sketch.js:202 | `childrenMap[aid] \|\| []` is non-empty exactly when the paper has children |
| CitationIndex.MainRowsOf | project-2/sketch.js:185-191 | the main galaxy's rows are exactly the records whose key starts with "A" |
| CitationIndex.MainRows | project-2/sketch.js:186-191 | the key loop collects the "A" records in key order |
| Layout.MapperFor | project-2/sketch.js:211-213 | the outermost orbit is 45% of the smaller canvas side, and the innermost is 8% of that |
| Layout.YearFraction | project-2/sketch.js:218 | the fraction lies in [0, 1] inside the year range, and is 0 at the oldest year and 1 at the newest |
| Layout.FractionMonotone | project-2/sketch.js:218 | the fraction does not decrease with the year |
| Layout.RadiusForYear | project-2/sketch.js:215-221 | a single-year galaxy uses the middle radius; otherwise the oldest year maps to the innermost orbit and the newest to the outermost |
| Layout.RadiusInRange | project-2/sketch.js:215-221 | every year in the range maps to a radius between the innermost and the outermost orbit |
| Layout.RadiusMonotone | project-2/sketch.js:215-221 | newer papers never get a smaller radius |
| Layout.YearToStep | project-2/sketch.js:251-255 | a single-year galaxy gives era 0; years in range give eras 0..7; the oldest year gives 0 and the newest gives 7 |
| Layout.YearToStepMonotone | project-2/sketch.js:251-255 | newer papers are never born in an earlier era |
| Layout.MinYear | project-2/sketch.js:231 | `min(years)` is an element of the list and a lower bound of it |
| Layout.MaxYear | project-2/sketch.js:232 | `max(years)` is an element of the list and an upper bound of it |
| Layout.YearRange | project-2/sketch.js:227-232 | with no rows the range is (2000, 2000); otherwise both ends are years of the rows, and every row's year lies between them |
| Clock.EraStep | project-2/sketch.js:366-375 | the era never drops, rises by at most one and only when the cooldown overflows past 240, and never passes 7 |
| Clock.EraAfterClosedForm | project-2/sketch.js:366-375 | n frames after entry, the cooldown is n mod 241 and the era is min(n div 241, 7) |
| Clock.FadeStep | project-2/sketch.js:89-94 | a positive overlay strictly drops and stays at or above 0; 0 stays 0 |
| Clock.FadeAfterSwitch | project-2/sketch.js:89-94 | after a switch the overlay is 255 - 15n, floored at 0, and it is gone after 17 frames |
| Orbit.Ease | project-2/sketch.js:404 | `1 - (1 - t)^2` is 0 at t = 0, is 1 at t = 1, and stays in [0, 1] in between |
| Orbit.EaseMonotone | project-2/sketch.js:404 | easing never goes backwards |
| Orbit.WrapAngle | project-2/sketch.js:422 | `atan2(sin d, cos d)` lies in (-PI, PI] and differs from d by whole turns |
| Orbit.WrapAngleUnique | project-2/sketch.js:422 | there is exactly one such angle |
| Orbit.LerpAngle | project-2/sketch.js:420-424 | gives a0 at t = 0, and a direction equal to a1 at t = 1 |
| Orbit.LerpAngleShortWay | project-2/sketch.js:420-424 | for t in [0, 1] the turn never exceeds half a circle |
| Orbit.LerpAngleTurnsBack | project-2/sketch.js:420-424 | from 0 towards 3·PI/2 the interpolation turns clockwise, through -PI/2 |
| Orbit.ArrivalPos | project-2/sketch.js:403-409 | an arrival starts at the spawn point plus the bonus turn, ends on the final orbit in the final direction, and its radius stays between the two |
| Orbit.ArrivalRadius | project-2/sketch.js:405 | the arrival radius is the spawn radius at the start, the final radius at the end, and stays between the two while the planet moves inwards |
| Orbit.Place | project-2/sketch.js:402-416 | an arriving planet is drawn on its arrival path; any other planet is drawn at its final radius and angle; nothing else changes |
| Orbit.Tick | project-2/sketch.js:376-418 | an unborn planet is unchanged; the phase moves only waiting → incoming → settled; the switch to incoming happens when the age passes the delay, and t advances in that same frame; t is clamped at 1 on settling; only settled planets turn, by `orbitSpeed` |
| Orbit.TickKeepsInv | project-2/sketch.js:376-418 | a frame keeps the planet invariant: phase, t, age and trails agree, and the trails respect their capacity and spacing |
| Orbit.PhaseNeverRegresses | project-2/sketch.js:376-418 | over any number of frames the phase never moves back, the layout fields stay put and the invariant holds |
| Orbit.ArrivalTakes | project-2/sketch.js:392-397 | an arriving planet settles after exactly 200 - k more frames |
| Orbit.TickSettled | project-2/sketch.js:398-399 | one frame of a settled planet turns it by `orbitSpeed` and keeps it on its final radius |
| Orbit.SettledOrbits | project-2/sketch.js:398-413 | a settled planet stays settled and on its final radius, and after n frames it has turned n times by `orbitSpeed` |
| Orbit.TurnedClosedForm | project-2/sketch.js:399 | n turns add up to n·`orbitSpeed` |
| Orbit.AddSample | project-2/sketch.js:498-511 | an empty buffer takes the point; otherwise the point is taken exactly when it lies more than 2 from the last one; a taken point becomes the newest, and past the capacity exactly the one oldest point is shifted out; the capacity and the spacing are kept |
| Orbit.Record | project-2/sketch.js:457-481 | only born planets that are not waiting get a screen position; arriving planets sample their incoming trail (capacity 6), settled ones their orbit trail (capacity 60) |
| Orbit.RecordKeepsInv | project-2/sketch.js:457-481 | recording keeps the planet invariant |
| Orbit.OrbitRadius | project-2/sketch.js:259-260 | the final radius lies between the scaled innermost and outermost orbits |
| Orbit.OrbitRadiusMonotone | project-2/sketch.js:259-260 | within a discipline, newer papers never orbit inside older ones |
| Orbit.RandomIn | project-2/sketch.js:275 | `random(a, b)` lies in [a, b) |
| Orbit.SpawnFor | project-2/sketch.js:359-364 | the spawn radius lies between 0.8 and 1.1 half-diagonals, and the angle lies in [0, 2·PI) |
| Orbit.SpawnRadius | project-2/sketch.js:361 | the spawn radius lies between 0.8 and 1.1 half-diagonals |
| Orbit.OrbitSpeedFor | project-2/sketch.js:283 | the speed's magnitude lies in [0.0004, 0.0015), and it is negative exactly when the sign draw is below 0.5 |
| Orbit.NewPlanet | project-2/sketch.js:257-303 | a new planet carries the row's id and year and the children flag; its band scale comes from the classifier; its final radius is the scaled year radius; it is waiting with t = 0, with no screen position, and sits at its final position |
| Orbit.NewPlanetValid | project-2/sketch.js:257-303 | a new planet satisfies the invariant, and its angle, size, delay and speed lie in their ranges |
| Orbit.Relayout | project-2/sketch.js:309-315 | only the final radius and the spawn point change: the radius is recomputed from the new mapping and the spawn point is drawn again |
| Orbit.RelayoutKeepsInv | project-2/sketch.js:309-315 | a re-layout keeps the invariant |
| Orbit.ResetPlanet | project-2/sketch.js:699-705 | a reset sets the planet to waiting, with age 0, t = 0 and both trails empty, and changes nothing else |
| Orbit.ResetPlanetInv | project-2/sketch.js:699-705 | a reset planet satisfies the invariant |
| Galaxies.PlanetsFor | project-2/sketch.js:257-304 | one planet per row |
| Galaxies.BuildPlanets | project-2/sketch.js:257-304 | the loop pushes exactly the planet of each row, in row order |
| Galaxies.PlanetsForMembers | project-2/sketch.js:257-304 | every built planet belongs to its galaxy (invariant, year range, radius), its flag agrees with the children map, and planet i is row i's paper |
| Galaxies.YearsInRange | project-2/sketch.js:227-232 | every row's year lies in the galaxy's year range |
| Galaxies.TickAllMembers | project-2/sketch.js:376-418 | `updatePlanets` keeps every planet a member of its galaxy |
| Galaxies.RecordAllMembers | project-2/sketch.js:457-481 | recording keeps every planet a member of its galaxy |
| Galaxies.RelayoutAllMembers | project-2/sketch.js:309-315 | after a re-layout every planet is a member under the new mapping |
| Galaxies.ResetAllMembers | project-2/sketch.js:699-705 | after the reset every planet is a member and is waiting |
| Galaxies.SameBodiesAgree | project-2/sketch.js:299 | the children flags depend only on the fixed part of each planet |
| Galaxies.NearestAtUnique | project-2/sketch.js:624-631 | at most one planet is the nearest visible one: ties go to the earliest |
| Galaxies.Galaxy.constructor | project-2/sketch.js:224-307 | the galaxy holds the mode, core and year range of its rows, a mapping for the canvas, era 0, and exactly the planets of the rows |
| Galaxies.Galaxy.AdvanceEra | project-2/sketch.js:366-375 | the era clock takes one EraStep and the planets are untouched |
| Galaxies.Galaxy.UpdatePlanets | project-2/sketch.js:376-418 | every planet takes one Tick at the current era |
| Galaxies.Galaxy.RecordScreenPositions | project-2/sketch.js:457-481 | every planet is recorded at the current era |
| Galaxies.RecordEach | project-2/sketch.js:458-480 | the loop over the planet list is proved equal to RecordAll, one Record per planet in list order |
| Galaxies.Galaxy.Refresh | project-2/sketch.js:309-315 | a new mapping for the canvas, then each planet is re-laid out with its two draws |
| Galaxies.Galaxy.ResetForEntry | project-2/sketch.js:697-705 | era 0, and every planet reset |
| Galaxies.Galaxy.NearestVisible | project-2/sketch.js:618-633 | returns no index exactly when no planet is visible; otherwise returns the visible planet with the strictly smallest distance, the earliest on ties, and its distance |
| Sketch.HoverOfUnique | project-2/sketch.js:618-633 | the hover result is determined by the planets and the mouse |
| Sketch.Session.constructor | project-2/sketch.js:37-50 | `setup` builds the paper index and the children map from the rows, then the main galaxy of the "A" papers after the starfield's draws; the main galaxy is current, with no fade and no hover |
| Sketch.Session.BuildSubGalaxy | project-2/sketch.js:200-209 | the sub-galaxy of aid is made from its citers, titled by its paper (or by its id when the paper is unknown), and is non-empty exactly when aid has children |
| Sketch.Session.SwitchToGalaxy | project-2/sketch.js:693-708 | the target becomes current and is re-laid out for the canvas; its era and every planet are reset; the fade is 255 |
| Sketch.Session.WindowResized | project-2/sketch.js:52-63 | the main galaxy is re-laid out after the starfield's draws; the current galaxy is re-laid out after that only when it is a different galaxy; nothing else changes |
| Sketch.Session.ResolveHover | project-2/sketch.js:618-633 | the hover is the nearest visible planet and its distance, or none when no planet is visible |
| Sketch.Session.GalaxyFrame | project-2/sketch.js:72-87 | one era step, one planet tick, one recording, then the hover of the new positions |
| Sketch.Session.Fade | project-2/sketch.js:89-94 | the overlay takes one FadeStep |
| Sketch.Session.Draw | project-2/sketch.js:65-95 | the galaxy frame, then the fade: the era advances one step, every planet ticks and records its screen position, the hover is the nearest planet, the fade drops; the canvas and the current galaxy's radius map stay as they were |
| Sketch.Session.MousePressed | project-2/sketch.js:669-691 | a centre click in a sub-galaxy switches to the main galaxy, whose radius map is refreshed for the canvas and whose planets are laid out again and reset; otherwise, a hovered planet within 50 that has children opens its non-empty sub-galaxy: built from the citers' rows, laid out once more by `switchToGalaxy` with the next random draws, every planet waiting, and no existing galaxy changed; every other click changes nothing |
| SeededRng.CharUnits | project-3/galaxy/galaxy/sketch.js:383 | a character is one or two UTF-16 code units, each below 2^16 |
| SeededRng.Utf16Concat | project-3/galaxy/galaxy/sketch.js:382-384 | the code units of tag + paperId are those of the tag followed by those of the id |
| SeededRng.FoldStep | project-3/galaxy/galaxy/sketch.js:383 | each step of the seed fold stays below 2^32 |
| SeededRng.SeedHash | project-3/galaxy/galaxy/sketch.js:381-384 | the seed state stays below 2^32 |
| SeededRng.ArithmeticIsExact | project-3/galaxy/galaxy/sketch.js:383-386 | both products stay below 2^53, so `>>> 0` reduces them exactly modulo 2^32 |
| SeededRng.Lcg | project-3/galaxy/galaxy/sketch.js:386 | one step stays below 2^32 |
| SeededRng.LcgRoundTrip | project-3/galaxy/galaxy/sketch.js:386 | the step is undone by multiplying with the inverse of 1664525 |
| SeededRng.LcgInjective | project-3/galaxy/galaxy/sketch.js:386 | the step is a permutation of the 32-bit states |
| SeededRng.UnitValue | project-3/galaxy/galaxy/sketch.js:387 | `h / 2^32` lies in [0, 1) |
| SeededRng.UnitValueInjective | project-3/galaxy/galaxy/sketch.js:387 | distinct states give distinct values |
| SeededRng.Draw | project-3/galaxy/galaxy/sketch.js:380-389 | the i-th value of `makeRNG(seed)` lies in [0, 1) and depends only on the seed and i |
| SeededRng.DistinctSeedsDistinctFirstDraw | project-3/galaxy/galaxy/sketch.js:380-389 | seeds that fold to different states give different first values |
| SeededRng.Rng.constructor | project-3/galaxy/galaxy/sketch.js:380-385 | the closure starts with the folded seed and no draws taken |
| SeededRng.Rng.Next | project-3/galaxy/galaxy/sketch.js:385-388 | the n-th call returns the n-th value of the seed's sequence |
| Surface.StyleOf | project-3/galaxy/galaxy/sketch.js:268-350 | the mirror planet has no craters; each other archetype scatters a positive span of craters inside the planet |
| Surface.ArchetypeOf | project-3/galaxy/galaxy/sketch.js:202-234 | the mirror archetype is chosen exactly when the discipline contains theory, philosophy or critical |
| Surface.ArchetypeIsFirstMatch | project-3/galaxy/galaxy/sketch.js:219-233 | the if-chain is the first match over the archetype table (mirror, icy, dusty, art), with generic as the fallback |
| Surface.MediaTheoryDiverges | project-3/galaxy/galaxy/sketch.js:219-225 | "media theory" is coloured as media but lands on the mirror surface |
| Surface.PolicyDiverges | project-3/galaxy/galaxy/sketch.js:226-233 | "policy" is in the social colour band but lands on the generic surface |
| Surface.CraterAngle | project-3/galaxy/galaxy/sketch.js:270 | the crater angle lies in [PI, 2·PI), the upper half of the planet |
| Surface.CraterDist | project-3/galaxy/galaxy/sketch.js:271 | the distance lies between r·base and r·(base + span) |
| Surface.CraterSize | project-3/galaxy/galaxy/sketch.js:274 | the size lies between the base and the base plus the span |
| Surface.Craters | project-3/galaxy/galaxy/sketch.js:268-275 | one crater per loop iteration, `count` in all |
| Surface.SurfaceRadius | project-3/galaxy/galaxy/sketch.js:206-211 | the planet radius is non-negative |
| Surface.SurfaceCraters | project-3/galaxy/galaxy/sketch.js:202-234 | the landed planet gets exactly the crater count of its archetype: 0, 6, 5, 7 or 10 |
| Surface.DrawCraters | project-3/galaxy/galaxy/sketch.js:268-275 | the loop draws three values per crater from `makeRNG(tag + paperId)`, so crater i uses values 3i, 3i+1 and 3i+2 |
| Surface.DrawSurface | project-3/galaxy/galaxy/sketch.js:202-234 | the archetype test, then that archetype's crater loop |
| Landing.ButtonInSky | project-3/galaxy/galaxy/sketch.js:941-953 | on a canvas at least 100 high the button lies in the sky, so the button test has to come first |
| Landing.Lander.constructor | project-3/galaxy/galaxy/sketch.js:59-72 | `setup` as in project-2, starting in the galaxy view with nothing landed |
| Landing.Lander.Draw | project-3/galaxy/galaxy/sketch.js:87-103 | the galaxy view runs a galaxy frame; the landing view lays down the landed planet's craters and changes no galaxy, or falls back to the galaxy view when nothing is landed; the fade drops in both, and the canvas and the current galaxy's radius map stay as they were |
| Landing.Lander.MousePressed | project-3/galaxy/galaxy/sketch.js:933-978 | in the landing view: the button of a planet with children opens its non-empty galaxy (built from the citers' rows, laid out again by `switchToGalaxy` with the next random draws, no existing galaxy changed) and leaves the view; another click in the sky leaves the view; anything else changes nothing. In the galaxy view: a centre click in a sub-galaxy switches to the main galaxy with a refreshed radius map and a fresh layout; a hovered planet within 50 is landed on, with the galaxy it came from |
| Landing.Lander.ClickLanding | project-3/galaxy/galaxy/sketch.js:935-957 | the landing-view half of the click: the button of a planet with children opens its galaxy, built from the citers' rows and laid out again with the next random draws, changing no existing galaxy; otherwise a click in the sky leaves the view |
| Landing.Lander.ClickGalaxy | project-3/galaxy/galaxy/sketch.js:959-978 | the galaxy-view half of the click: a centre click switches to the main galaxy with a refreshed radius map and a fresh, reset layout; otherwise a hovered planet within 50 is landed on |

## Left out

- Rendering is not modelled: the starfield values, planet bodies, trails,
  tooltip, core, sky, crater drawing and the HUD (`updateHUDCoreLabel`, DOM).
  The landing view's sky and its other planets are drawing only.
- The starfield is modelled only as its 6400 consumed `random()` values.
- `preload`, `loadTable`, CSV access, `createCanvas` and `resizeCanvas` are
  not modelled. Table rows are given as sequences of strings (a missing cell
  is ""), and the canvas is a `Viewport` parameter.
- `random()` is a stream parameter, and `frameCount` with the system rotation
  is folded into the projection parameter `proj`.
- The trigonometry of `lerpAngle` (`atan2(sin, cos)`) is modelled exactly on
  reals. The projection to the screen (`cos`, `sin`) is not modelled: it is
  the parameter `proj`.
- Floating point is not modelled. Every quantity is an exact real, Math.PI is
  taken as the real 3.141592653589793, and `t` is an integer count k with
  t = k/200. Rounding drift of the 0.005 steps or of `orbitSpeed` is
  therefore not captured.
- Layout.YearToStep: `floor` is taken of the exact fraction. A floating-point
  rounding just below an integer could give a smaller era in the sketches.
- JsText.ToLower: `toLowerCase` is modelled for ASCII letters only.
- CoreLabel.ShortenCoreLabel: the length is counted in characters, not
  in UTF-16 code units as JavaScript's `length` and `slice` do.
- CitationIndex.IndexOf: the key order of `papersById` is modelled as
  insertion order. JavaScript lists integer-like keys first in numeric
  order, and keys such as `__proto__` are special; neither is modelled.
- CitationIndex.BuildChildrenMap: `papersById` and `childrenMap` are plain
  objects, so an id that names an `Object.prototype` member (`toString`,
  `constructor`, `valueOf`) is found through the prototype. An edge citing
  such an id then survives the filter and `childrenMap[id].push` throws, and
  a paper with id `constructor` gets `hasChildren` true because
  `Object.length` is 1. The model treats every id not inserted as an absent
  key, so these ids behave like any other unknown or childless id.
- The `morphType` column is not modelled. It is parsed by `parsePapers` but
  only used for drawing.
- Galaxies.Galaxy.RecordScreenPositions: `addSampleToTrail` pushes and shifts
  the trail array in place. The model builds a new sequence and reassigns
  the planet list. No trail array is shared between planets, so no aliasing
  is lost.
- Sketch.Session.ResolveHover: `hoverPlanet` holds the planet object, and
  the model keeps only the planet's fixed part (`Body`). The code that reads
  the hover uses only fixed fields (`paperId`, `hasChildren`, `title`).
  Landing.Lander keeps `landedPlanet` in the same way.
- `mousePressed`, `draw` and `windowResized` test for a missing current
  galaxy (`currentGalaxy` is null before `setup`). The model starts from
  `setup`, so that state does not exist in it.
- Sketch.Session.WindowResized: the guard `if (mainGalaxy)` is always true
  after `setup` and is not modelled.
- The spawn radius of 0.8 half-diagonals can lie inside the canvas near the
  corners' diagonal. The name `setSpawnOutsideScreen` suggests otherwise, but
  the model states the actual range and claims nothing more.
- The root `sketch.js` and `project-3/Citation Trend/sketch.js` are drawing
  demos and are not part of this model.
