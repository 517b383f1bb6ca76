/**
 * Canvas geometry. Coordinates are integers here; the route file of the game
 * holds floating-point pixels, which this model does not distinguish.
 */
module Geometry {
  datatype Point = Point(x: int, y: int)

  /** Squared Euclidean distance. Comparing squares stands in for comparing
      `hypot` results: for non-negative d and r, d < r exactly when d*d < r*r. */
  function Dist2(a: Point, b: Point): int {
    (a.x - b.x) * (a.x - b.x) + (a.y - b.y) * (a.y - b.y)
  }
}
