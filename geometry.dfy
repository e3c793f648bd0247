/** Plain two-dimensional vectors over the reals, standing in for the
    source's `V2 { x: f64, y: f64 }` (floating-point rounding is not modelled). */
module Geometry {

  datatype V2 = V2(x: real, y: real)

  /** An axis-aligned rectangle given by two corners, as `kurbo::Rect`. */
  datatype Rect = Rect(x0: real, y0: real, x1: real, y1: real)

  /** `V2::add`; subtracting either summand gives the other back. */
  function Add(a: V2, b: V2): (r: V2)
    ensures Sub(r, b) == a && Sub(r, a) == b
  {
    V2(a.x + b.x, a.y + b.y)
  }

  /** `V2::sub` */
  function Sub(a: V2, b: V2): V2
  {
    V2(a.x - b.x, a.y - b.y)
  }

  function Abs(a: real): (r: real)
    ensures r >= 0.0 && (r == a || r == -a)
  {
    if a < 0.0 then -a else a
  }

  function Max(a: real, b: real): (r: real)
    ensures r >= a && r >= b && (r == a || r == b)
  {
    if a < b then b else a
  }

  /** The squared Euclidean distance: comparing it with `r * r` replaces
      the source's `sqrt(..) < r`. */
  function DistSq(a: V2, b: V2): (d: real)
    ensures d >= 0.0
  {
    (a.x - b.x) * (a.x - b.x) + (a.y - b.y) * (a.y - b.y)
  }
}
