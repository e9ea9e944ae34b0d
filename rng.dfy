/** `makeRNG` of the planet-landing sketch: a generator seeded by a string.
    The seed is a left fold h <- (h*31 + code unit) mod 2^32 over the
    string's UTF-16 code units; each draw applies the linear congruential step
    h <- (h*1664525 + 1013904223) mod 2^32 and returns h / 2^32. */
module SeededRng {

  const MODULUS: nat := 0x1_0000_0000
  const MULTIPLIER: nat := 1664525
  const INCREMENT: nat := 1013904223
  /** 1664525 * 4276115653 == 1657219 * 2^32 + 1. */
  const MULTIPLIER_INVERSE: nat := 4276115653
  /** 2^53: below it every integer is an exact JavaScript number. */
  const EXACT_LIMIT: nat := 0x20_0000_0000_0000

  /** `charCodeAt` of the code units that encode c in UTF-16. */
  function CharUnits(c: char): (u: seq<nat>)
    ensures 1 <= |u| <= 2
    ensures forall k :: 0 <= k < |u| ==> u[k] < 0x10000
  {
    var v := c as int;
    if v < 0x10000 then [v]
    else [0xD800 + (v - 0x10000) / 0x400, 0xDC00 + (v - 0x10000) % 0x400]
  }

  /** The JavaScript string holding s, as its sequence of code units. */
  function Utf16(s: string): (u: seq<nat>)
    ensures |u| >= |s|
    ensures forall k :: 0 <= k < |u| ==> u[k] < 0x10000
  {
    if s == [] then [] else Utf16(s[..|s| - 1]) + CharUnits(s[|s| - 1])
  }

  lemma {:induction false} Utf16Concat(a: string, b: string)
    ensures Utf16(a + b) == Utf16(a) + Utf16(b)
    decreases |b|
  {
    if b != [] {
      var b' := b[..|b| - 1];
      assert (a + b)[..|a + b| - 1] == a + b';
      Utf16Concat(a, b');
    } else {
      assert a + b == a;
    }
  }

  /** One step of the seed loop: `h = (h * 31 + str.charCodeAt(i)) >>> 0`. */
  function FoldStep(h: nat, unit: nat): (r: nat)
    ensures r < MODULUS
  {
    (h * 31 + unit) % MODULUS
  }

  /** The seed state: the left fold of FoldStep from 0. */
  function SeedHash(units: seq<nat>): (h: nat)
    ensures h < MODULUS
  {
    if units == [] then 0 else FoldStep(SeedHash(units[..|units| - 1]), units[|units| - 1])
  }

  /** One call of the returned closure: `h = (h * 1664525 + 1013904223) >>> 0`. */
  function Lcg(h: nat): (r: nat)
    ensures r < MODULUS
  {
    (h * MULTIPLIER + INCREMENT) % MODULUS
  }

  /** The state after n calls. */
  function StateAfter(h: nat, n: nat): nat {
    if n == 0 then h else Lcg(StateAfter(h, n - 1))
  }

  /** `h / 4294967296`: the value returned for state h. */
  function UnitValue(h: nat): (u: real)
    requires h < MODULUS
    ensures 0.0 <= u < 1.0
  {
    h as real / MODULUS as real
  }

  lemma UnitValueInjective(a: nat, b: nat)
    requires a < MODULUS && b < MODULUS && a != b
    ensures UnitValue(a) != UnitValue(b)
  {
    assert UnitValue(a) * MODULUS as real == a as real;
    assert UnitValue(b) * MODULUS as real == b as real;
  }

  /** The i-th value (from 0) returned by `makeRNG(seed)`. */
  function Draw(seed: string, i: nat): (u: real)
    ensures 0.0 <= u < 1.0
  {
    UnitValue(StateAfter(SeedHash(Utf16(seed)), i + 1))
  }

  /** In JavaScript `>>> 0` reduces its operand modulo 2^32 exactly only
      if the operand is an exact integer; both products stay below 2^53. */
  lemma ArithmeticIsExact(h: nat, unit: nat)
    requires h < MODULUS && unit < 0x10000
    ensures h * 31 + unit < EXACT_LIMIT
    ensures h * MULTIPLIER + INCREMENT < EXACT_LIMIT
  {
  }

  /** Undoes one generator step. */
  function LcgInverse(r: nat): (h: nat)
    ensures h < MODULUS
  {
    (((r - INCREMENT) % MODULUS) * MULTIPLIER_INVERSE) % MODULUS
  }

  /** Euclidean division by 2^32 is unique. */
  lemma ModUnique(x: int, q: int, r: int)
    requires x == q * MODULUS + r && 0 <= r < MODULUS
    ensures x % MODULUS == r
  {
  }

  lemma LcgRoundTrip(h: nat)
    requires h < MODULUS
    ensures LcgInverse(Lcg(h)) == h
  {
    var x := h * MULTIPLIER + INCREMENT;
    var q, r := x / MODULUS, x % MODULUS;
    var p, s := (h * MULTIPLIER) / MODULUS, (h * MULTIPLIER) % MODULUS;
    assert r - INCREMENT == s + (p - q) * MODULUS;
    ModUnique(r - INCREMENT, p - q, s);
    assert s * MULTIPLIER_INVERSE == h + (h * 1657219 - p * MULTIPLIER_INVERSE) * MODULUS;
    ModUnique(s * MULTIPLIER_INVERSE, h * 1657219 - p * MULTIPLIER_INVERSE, h);
  }

  /** The step is a permutation of the 32-bit states. */
  lemma LcgInjective(h1: nat, h2: nat)
    requires h1 < MODULUS && h2 < MODULUS
    ensures Lcg(h1) == Lcg(h2) ==> h1 == h2
  {
    LcgRoundTrip(h1);
    LcgRoundTrip(h2);
  }

  /** Seeds that fold to different states give different first draws. */
  lemma DistinctSeedsDistinctFirstDraw(s1: string, s2: string)
    requires SeedHash(Utf16(s1)) != SeedHash(Utf16(s2))
    ensures Draw(s1, 0) != Draw(s2, 0)
  {
    var h1, h2 := SeedHash(Utf16(s1)), SeedHash(Utf16(s2));
    LcgInjective(h1, h2);
    UnitValueInjective(Lcg(h1), Lcg(h2));
    assert StateAfter(h1, 1) == Lcg(h1);
    assert StateAfter(h2, 1) == Lcg(h2);
  }

  /** The closure returned by `makeRNG`, with its captured state `h`. */
  class Rng {
    var h: nat
    ghost const seed: string
    ghost var draws: nat

    ghost predicate Valid()
      reads this
    {
      h == StateAfter(SeedHash(Utf16(seed)), draws)
    }

    /** `makeRNG(str)`: fold the seed. */
    constructor (str: string)
      ensures Valid() && seed == str && draws == 0
    {
      var units := Utf16(str);
      var acc: nat := 0;
      var i := 0;
      while i < |units|
        invariant 0 <= i <= |units|
        invariant acc == SeedHash(units[..i])
      {
        assert units[..i + 1][..i] == units[..i];
        acc := (acc * 31 + units[i]) % MODULUS;
        i := i + 1;
      }
      assert units[..|units|] == units;
      h := acc;
      seed := str;
      draws := 0;
    }

    /** One call of the closure: the next value, always in [0, 1), and
        determined by the seed and the number of earlier calls alone. */
    method Next() returns (u: real)
      requires Valid()
      modifies this
      ensures Valid() && draws == old(draws) + 1
      ensures u == Draw(seed, old(draws))
    {
      h := (h * MULTIPLIER + INCREMENT) % MODULUS;
      draws := draws + 1;
      u := UnitValue(h);
    }
  }
}
