/** Values shared by every part of the model: an optional value, a screen
    point, the squared Euclidean distance that stands in for p5's `dist`,
    and the double value of JavaScript's Math.PI. */
module Common {

  datatype Option<T> = None | Some(value: T)

  /** A point in screen pixels. */
  datatype Point = Point(x: real, y: real)

  /** Square of p5's `dist`; every `dist(...) OP k` of the sketches is modelled
      as `DistSq(...) OP k*k`, which is equivalent for k >= 0. */
  function DistSq(a: Point, b: Point): (d: real)
    ensures d >= 0.0
  {
    (a.x - b.x) * (a.x - b.x) + (a.y - b.y) * (a.y - b.y)
  }

  /** Math.PI as a double, taken as an exact real. */
  const PI: real := 3.141592653589793
  const TWO_PI: real := 2.0 * PI

  function Min(a: real, b: real): real { if a <= b then a else b }
}
