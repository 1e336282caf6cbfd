/**
 * Plane geometry and the bits of JavaScript number behaviour shared by the
 * board analyzer, the convex hull and the quiz statistics.
 */
module Geometry {

  /** A point in image coordinates; coordinates are JavaScript numbers (modelled as exact reals). */
  datatype Point = Point(x: real, y: real)

  /** A point read from an OpenCV `CV_32SC2` matrix (`data32S`): integer coordinates. */
  datatype IntPoint = IntPoint(x: int, y: int)

  /**
   * The turn test of the monotone chain: positive when o -> a -> b turns
   * counter-clockwise (in a y-up frame), zero when the three are collinear.
   */
  function Cross(o: Point, a: Point, b: Point): real {
    (a.x - o.x) * (b.y - o.y) - (a.y - o.y) * (b.x - o.x)
  }

  /** The comparator `a.x !== b.x ? a.x - b.x : a.y - b.y` read as "a sorts no later than b". */
  predicate LexLe(a: Point, b: Point) {
    a.x < b.x || (a.x == b.x && a.y <= b.y)
  }

  /** `Math.round`: halves round towards positive infinity. */
  function JsRound(r: real): (n: int)
    ensures n as real - 0.5 <= r < n as real + 0.5
  {
    (r + 0.5).Floor
  }

  lemma JsRoundOfInt(n: int)
    ensures JsRound(n as real) == n
  {
  }

  /** Swapping the two outer points of a turn reverses its orientation. */
  lemma CrossSwapOuter(o: Point, a: Point, b: Point)
    ensures Cross(b, a, o) == -Cross(o, a, b)
  {
  }
}
