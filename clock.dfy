/** The two frame counters of both sketches: the era clock `advanceEra`
    drives (one era lasts 241 frames, the last era never ends) and the fade
    counter `draw` lowers after every galaxy switch. */
module Clock {
  import opened Layout

  /** Frames a galaxy stays in one era before `stepCooldown` overflows. */
  const ERA_DURATION: nat := 240
  /** How much `fadeAlpha` drops per frame. */
  const FADE_SPEED: int := 15
  /** The value `switchToGalaxy` sets `fadeAlpha` to. */
  const FADE_START: int := 255

  /** `currentStep` and `stepCooldown` of a galaxy. */
  datatype Era = Era(step: nat, cooldown: nat)

  predicate EraValid(e: Era) {
    e.step <= MAX_STEP - 1 && e.cooldown <= ERA_DURATION
  }

  /** `advanceEra(gal)`: one frame of the era clock. The step never goes
      down, rises by at most one, only when the cooldown overflows, and
      never past the last era. */
  function EraStep(e: Era): (r: Era)
    ensures EraValid(e) ==> EraValid(r)
    ensures r.step == e.step || (r.step == e.step + 1 && r.step <= MAX_STEP - 1)
    ensures r.cooldown == 0 <==> e.cooldown + 1 > ERA_DURATION
    ensures r.cooldown != 0 ==> r.cooldown == e.cooldown + 1 && r.step == e.step
  {
    var c := e.cooldown + 1;
    if c > ERA_DURATION then Era(if e.step < MAX_STEP - 1 then e.step + 1 else e.step, 0)
    else Era(e.step, c)
  }

  /** The clock n frames after a galaxy was built or entered. */
  function EraAfter(n: nat): Era {
    if n == 0 then Era(0, 0) else EraStep(EraAfter(n - 1))
  }

  /** Closed form of the era clock: era k starts at frame 241k, and from
      frame 7*241 on the galaxy stays in its last era. */
  lemma {:induction false} EraAfterClosedForm(n: nat)
    ensures EraAfter(n).cooldown == n % (ERA_DURATION + 1)
    ensures EraAfter(n).step == if n / (ERA_DURATION + 1) < MAX_STEP - 1 then n / (ERA_DURATION + 1) else MAX_STEP - 1
  {
    if n > 0 {
      EraAfterClosedForm(n - 1);
      DivModStep(n);
    }
  }

  /** How quotient and remainder by 241 move when n grows by one. */
  lemma DivModStep(n: nat)
    requires n > 0
    ensures (n - 1) % 241 == 240 ==> n / 241 == (n - 1) / 241 + 1 && n % 241 == 0
    ensures (n - 1) % 241 < 240 ==> n / 241 == (n - 1) / 241 && n % 241 == (n - 1) % 241 + 1
  {
    var q, r := (n - 1) / 241, (n - 1) % 241;
    assert n - 1 == 241 * q + r;
    if r == 240 {
      assert n == 241 * (q + 1) + 0;
    } else {
      assert n == 241 * q + (r + 1);
    }
  }

  /** One frame of the fade overlay (`if (fadeAlpha > 0) ... max(fadeAlpha - 15, 0)`). */
  function FadeStep(a: int): (r: int)
    ensures a > 0 ==> 0 <= r < a
    ensures a <= 0 ==> r == a
  {
    if a > 0 then (if a - FADE_SPEED > 0 then a - FADE_SPEED else 0) else a
  }

  function FadeAfter(a: int, n: nat): int {
    if n == 0 then a else FadeStep(FadeAfter(a, n - 1))
  }

  /** After a switch the overlay loses 15 per frame and stays at 0 once it
      gets there: it is fully gone after 17 frames. */
  lemma {:induction false} FadeAfterSwitch(n: nat)
    ensures FadeAfter(FADE_START, n) == if FADE_START - FADE_SPEED * n > 0 then FADE_START - FADE_SPEED * n else 0
    ensures n >= 17 ==> FadeAfter(FADE_START, n) == 0
  {
    if n > 0 {
      FadeAfterSwitch(n - 1);
    }
  }
}
