/** Positions and the planar midpoint and distance used by the refinement code. */
module Geometry {

  /** A two-dimensional position `[x, y]`, over the reals. */
  datatype Pos = Pos(x: real, y: real)

  /** `getMidPosition`: half way from `p1` to `p2`, written as the source computes it. */
  function MidPosition(p1: Pos, p2: Pos): (m: Pos)
    ensures m.x == (p1.x + p2.x) / 2.0 && m.y == (p1.y + p2.y) / 2.0
  {
    Pos((p2.x - p1.x) / 2.0 + p1.x, (p2.y - p1.y) / 2.0 + p1.y)
  }

  /** The square of `getDistance`; `getDistance` itself is its square root. */
  function SquaredDistance(p1: Pos, p2: Pos): real
  {
    (p2.x - p1.x) * (p2.x - p1.x) + (p2.y - p1.y) * (p2.y - p1.y)
  }

  /** `getDistance(p, p) == 0`, and distances are symmetric and never negative. */
  lemma SquaredDistanceProperties(p1: Pos, p2: Pos)
    ensures SquaredDistance(p1, p1) == 0.0
    ensures SquaredDistance(p1, p2) >= 0.0
    ensures SquaredDistance(p1, p2) == SquaredDistance(p2, p1)
  {
    SquareNonNegative(p2.x - p1.x);
    SquareNonNegative(p2.y - p1.y);
  }

  lemma SquareNonNegative(d: real)
    ensures d * d >= 0.0
  {
    if d < 0.0 {
      assert d * d == (-d) * (-d);
    }
  }

  /**
   * How midpoints and distances are measured in one coordinate space: planar
   * (`getMidPosition`, `getDistance`) or geographic (great-circle midpoint and
   * distance from a library that is not part of this model). Distances are given
   * squared, which keeps the square root out of the model.
   */
  datatype Metric = Metric(mid: (Pos, Pos) -> Pos, sqDist: (Pos, Pos) -> real)

  /** The planar metric. */
  function Planar(): Metric
  {
    Metric(MidPosition, SquaredDistance)
  }
}
