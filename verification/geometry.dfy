/**
  Bounding boxes in page coordinates: `(x0, y0)` is the top-left corner and
  `(x1, y1)` the bottom-right one, with y growing downwards.
 */
module Geometry {

  datatype Box = Box(x0: real, y0: real, x1: real, y1: real)

  function Min(a: real, b: real): real { if a <= b then a else b }

  function Max(a: real, b: real): real { if a >= b then a else b }

  function Abs(a: real): real { if a < 0.0 then -a else a }

  /** `x1 - x0`, the quantity compared against the width threshold. */
  function Width(b: Box): real { b.x1 - b.x0 }

  /** The corners are in the documented order. */
  predicate WellFormed(b: Box) {
    b.x0 <= b.x1 && b.y0 <= b.y1
  }

  /** Every edge of `inner` lies on or inside the matching edge of `outer`. */
  predicate Contains(outer: Box, inner: Box) {
    && outer.x0 <= inner.x0
    && outer.y0 <= inner.y0
    && inner.x1 <= outer.x1
    && inner.y1 <= outer.y1
  }

  /**
    The box a merged paragraph gets: the coordinate-wise `min` of the
    top-left corners and `max` of the bottom-right ones.
   */
  function Union(a: Box, b: Box): (u: Box)
    ensures Contains(u, a) && Contains(u, b)
    ensures WellFormed(a) && WellFormed(b) ==> WellFormed(u)
  {
    Box(Min(a.x0, b.x0), Min(a.y0, b.y0), Max(a.x1, b.x1), Max(a.y1, b.y1))
  }

  /** The union is the smallest box containing both: any box containing both contains it. */
  lemma UnionIsLeast(a: Box, b: Box, c: Box)
    requires Contains(c, a) && Contains(c, b)
    ensures Contains(c, Union(a, b))
  {
  }

  /** The union does not depend on the order of its arguments. */
  lemma UnionCommutes(a: Box, b: Box)
    ensures Union(a, b) == Union(b, a)
  {
  }
}
