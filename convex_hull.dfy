/**
 * `convexHull` of `src/modules/vision.ts`: Andrew's monotone chain. The
 * points are copied, sorted by x then y, and a lower and an upper chain are
 * built with a stack each, popping while the last two points and the new one
 * do not turn counter-clockwise; the last point of each chain is dropped and
 * the two are concatenated.
 */
module ConvexHull {
  import opened Geometry

  // ---------------------------------------------------------------------------
  // The sort: `pts.sort((a, b) => a.x !== b.x ? a.x - b.x : a.y - b.y)`
  // ---------------------------------------------------------------------------

  predicate LexSorted(s: seq<Point>) {
    forall i, j :: 0 <= i < j < |s| ==> LexLe(s[i], s[j])
  }

  /** Places `p` after every point that sorts no later than it, so ties keep arrival order. */
  function InsertXY(t: seq<Point>, p: Point): (r: seq<Point>)
    ensures |r| == |t| + 1
  {
    if |t| == 0 || LexLe(t[|t| - 1], p) then t + [p]
    else InsertXY(t[..|t| - 1], p) + [t[|t| - 1]]
  }

  /** `Array.prototype.sort` with the comparator above: a stable sort, here insertion sort. */
  function SortXY(s: seq<Point>): (r: seq<Point>)
    ensures |r| == |s|
  {
    if |s| == 0 then [] else InsertXY(SortXY(s[..|s| - 1]), s[|s| - 1])
  }

  lemma {:induction false} InsertXYBounded(t: seq<Point>, p: Point, m: Point)
    requires forall i :: 0 <= i < |t| ==> LexLe(t[i], m)
    requires LexLe(p, m)
    ensures forall i :: 0 <= i < |t| + 1 ==> LexLe(InsertXY(t, p)[i], m)
  {
    if |t| > 0 && !LexLe(t[|t| - 1], p) {
      InsertXYBounded(t[..|t| - 1], p, m);
    }
  }

  lemma {:induction false} InsertXYPerm(t: seq<Point>, p: Point)
    ensures multiset(InsertXY(t, p)) == multiset(t) + multiset{p}
  {
    if |t| > 0 && !LexLe(t[|t| - 1], p) {
      assert t == t[..|t| - 1] + [t[|t| - 1]];
      InsertXYPerm(t[..|t| - 1], p);
    }
  }

  lemma {:induction false} InsertXYSorted(t: seq<Point>, p: Point)
    requires LexSorted(t)
    ensures LexSorted(InsertXY(t, p))
  {
    if |t| > 0 && !LexLe(t[|t| - 1], p) {
      var last := t[|t| - 1];
      var init := t[..|t| - 1];
      var front := InsertXY(init, p);
      InsertXYSorted(init, p);
      InsertXYBounded(init, p, last);
      var r := front + [last];
      assert r == InsertXY(t, p);
      forall i, j | 0 <= i < j < |r|
        ensures LexLe(r[i], r[j])
      {
        if j < |front| {
          assert r[i] == front[i] && r[j] == front[j];
        }
      }
    }
  }

  /** The working array ends up ordered by x, then y, and holds the same points. */
  lemma {:induction false} SortXYSorted(s: seq<Point>)
    ensures LexSorted(SortXY(s))
    ensures multiset(SortXY(s)) == multiset(s)
  {
    if |s| > 0 {
      assert s == s[..|s| - 1] + [s[|s| - 1]];
      SortXYSorted(s[..|s| - 1]);
      InsertXYSorted(SortXY(s[..|s| - 1]), s[|s| - 1]);
      InsertXYPerm(SortXY(s[..|s| - 1]), s[|s| - 1]);
    }
  }

  // ---------------------------------------------------------------------------
  // The chains
  // ---------------------------------------------------------------------------

  /** The turn test the chain loops are given: the local `cross` of `convexHull`. */
  type Turn = (Point, Point, Point) -> real

  /**
   * How much of the stack one step of a chain loop keeps: pop while the
   * stack holds two points that, with `p`, do not turn counter-clockwise.
   */
  function KeepLen(cross: Turn, chain: seq<Point>, p: Point): (n: nat)
    ensures n <= |chain|
    ensures |chain| >= 1 ==> n >= 1
  {
    if |chain| >= 2 && cross(chain[|chain| - 2], chain[|chain| - 1], p) <= 0.0 then
      KeepLen(cross, chain[..|chain| - 1], p)
    else
      |chain|
  }

  /** One step of a chain loop: pop as `KeepLen` says, then push `p`. */
  function PushTurn(cross: Turn, chain: seq<Point>, p: Point): (r: seq<Point>)
    ensures 1 <= |r| <= |chain| + 1 && r[|r| - 1] == p
    ensures |chain| >= 1 ==> |r| >= 2 && r[0] == chain[0]
  {
    chain[..KeepLen(cross, chain, p)] + [p]
  }

  /** The point pushed and the two below it turn counter-clockwise. */
  lemma {:induction false} PushTurnLeft(cross: Turn, chain: seq<Point>, p: Point)
    ensures var n := KeepLen(cross, chain, p);
      n >= 2 ==> cross(chain[n - 2], chain[n - 1], p) > 0.0
  {
    if |chain| >= 2 && cross(chain[|chain| - 2], chain[|chain| - 1], p) <= 0.0 {
      var init := chain[..|chain| - 1];
      PushTurnLeft(cross, init, p);
      var n := KeepLen(cross, init, p);
      if n >= 2 {
        assert init[n - 2] == chain[n - 2] && init[n - 1] == chain[n - 1];
      }
    }
  }

  /** The stack after the chain loop has pushed every point of `s`, in order. */
  function Chain(cross: Turn, s: seq<Point>): (r: seq<Point>)
    ensures |r| <= |s|
    ensures |s| >= 1 ==> |r| >= 1 && r[0] == s[0] && r[|r| - 1] == s[|s| - 1]
    ensures |s| >= 2 ==> |r| >= 2
  {
    if |s| == 0 then [] else PushTurn(cross, Chain(cross, s[..|s| - 1]), s[|s| - 1])
  }

  /** The chain of a prefix one point longer is one more push. */
  lemma ChainStep(cross: Turn, s: seq<Point>, i: nat)
    requires i < |s|
    ensures Chain(cross, s[..i + 1]) == PushTurn(cross, Chain(cross, s[..i]), s[i])
  {
    assert s[..i + 1][..i] == s[..i];
  }

  function Reverse(s: seq<Point>): (r: seq<Point>)
    ensures |r| == |s|
  {
    seq(|s|, k requires 0 <= k < |s| => s[|s| - 1 - k])
  }

  /** The upper chain loop at index `i` pushes `pts[i]`, the next point of the reversed order. */
  lemma UpperStep(cross: Turn, pts: seq<Point>, i: nat)
    requires i < |pts|
    ensures Chain(cross, Reverse(pts)[..|pts| - i])
         == PushTurn(cross, Chain(cross, Reverse(pts)[..|pts| - 1 - i]), pts[i])
  {
    var r := Reverse(pts);
    assert r[|pts| - 1 - i] == pts[i];
    ChainStep(cross, r, |pts| - 1 - i);
  }

  /** What `convexHull` returns for `points`. */
  function Hull(points: seq<Point>): seq<Point> {
    if |points| <= 3 then points
    else
      var sorted := SortXY(points);
      var lower := Chain(Cross, sorted);
      var upper := Chain(Cross, Reverse(sorted));
      lower[..|lower| - 1] + upper[..|upper| - 1]
  }

  /**
   * The `while` of either chain loop: pop the top of the stack while the two
   * topmost points and `p` do not turn counter-clockwise.
   */
  method PopNonLeft(cross: Turn, stack: seq<Point>, p: Point) returns (kept: seq<Point>)
    ensures kept == stack[..KeepLen(cross, stack, p)]
  {
    kept := stack;
    while |kept| >= 2 && cross(kept[|kept| - 2], kept[|kept| - 1], p) <= 0.0
      invariant |kept| <= |stack| && kept == stack[..|kept|]
      invariant KeepLen(cross, kept, p) == KeepLen(cross, stack, p)
      decreases |kept|
    {
      kept := kept[..|kept| - 1];
    }
  }

  /** The lower-chain loop over the sorted points, first to last. */
  method LowerChain(cross: Turn, pts: seq<Point>) returns (lower: seq<Point>)
    ensures lower == Chain(cross, pts)
  {
    lower := [];
    for i := 0 to |pts|
      invariant lower == Chain(cross, pts[..i])
    {
      var p := pts[i];
      lower := PopNonLeft(cross, lower, p);
      lower := lower + [p];
      ChainStep(cross, pts, i);
    }
    assert pts[..|pts|] == pts;
  }

  /** The upper-chain loop over the sorted points, last to first. */
  method UpperChain(cross: Turn, pts: seq<Point>) returns (upper: seq<Point>)
    ensures upper == Chain(cross, Reverse(pts))
  {
    upper := [];
    for i := |pts| downto 0
      invariant upper == Chain(cross, Reverse(pts)[..|pts| - i])
    {
      var p := pts[i];
      upper := PopNonLeft(cross, upper, p);
      upper := upper + [p];
      UpperStep(cross, pts, i);
    }
    assert Reverse(pts)[..|pts|] == Reverse(pts);
  }

  /**
   * `convexHull`. The argument is only read (there is no `modifies` clause):
   * `convexHull` works on `points.slice()`.
   */
  method ConvexHull(points: array<Point>) returns (hull: seq<Point>)
    ensures hull == Hull(points[..])
    ensures points.Length <= 3 ==> hull == points[..]
  {
    var pts := points[..];
    if |pts| <= 3 {
      return pts;
    }
    pts := SortXY(pts);
    var lower := LowerChain(Cross, pts);
    var upper := UpperChain(Cross, pts);
    lower := lower[..|lower| - 1];
    upper := upper[..|upper| - 1];
    hull := lower + upper;
  }

  // ---------------------------------------------------------------------------
  // What the hull is: convex chains of input points
  // ---------------------------------------------------------------------------

  /** Every three consecutive points turn strictly counter-clockwise. */
  predicate Convex(cross: Turn, c: seq<Point>) {
    forall k :: 0 <= k < |c| - 2 ==> cross(c[k], c[k + 1], c[k + 2]) > 0.0
  }

  /** A convex prefix followed by a point that turns left from its last two points is convex. */
  lemma ConvexSnoc(cross: Turn, c: seq<Point>, n: nat, p: Point)
    requires n <= |c| && Convex(cross, c)
    requires n >= 2 ==> cross(c[n - 2], c[n - 1], p) > 0.0
    ensures Convex(cross, c[..n] + [p])
  {
    var r := c[..n] + [p];
    forall k | 0 <= k < |r| - 2
      ensures cross(r[k], r[k + 1], r[k + 2]) > 0.0
    {
      if k + 2 < n {
        assert r[k + 2] == c[k + 2];
      } else {
        assert r[k + 2] == p;
      }
    }
  }

  lemma PushTurnConvex(cross: Turn, chain: seq<Point>, p: Point)
    requires Convex(cross, chain)
    ensures Convex(cross, PushTurn(cross, chain, p))
  {
    PushTurnLeft(cross, chain, p);
    ConvexSnoc(cross, chain, KeepLen(cross, chain, p), p);
  }

  /** After every push, each consecutive triple of a chain turns counter-clockwise: collinear and clockwise points are gone. */
  lemma {:induction false} ChainConvex(cross: Turn, s: seq<Point>)
    ensures Convex(cross, Chain(cross, s))
  {
    if |s| > 0 {
      ChainConvex(cross, s[..|s| - 1]);
      PushTurnConvex(cross, Chain(cross, s[..|s| - 1]), s[|s| - 1]);
    }
  }

  lemma {:induction false} PushTurnMembers(cross: Turn, chain: seq<Point>, p: Point)
    ensures forall q :: q in PushTurn(cross, chain, p) ==> q in chain || q == p
  {
    var n := KeepLen(cross, chain, p);
    assert forall q :: q in chain[..n] ==> q in chain;
  }

  lemma {:induction false} ChainMembers(cross: Turn, s: seq<Point>)
    ensures forall q :: q in Chain(cross, s) ==> q in s
  {
    if |s| > 0 {
      ChainMembers(cross, s[..|s| - 1]);
      PushTurnMembers(cross, Chain(cross, s[..|s| - 1]), s[|s| - 1]);
      assert forall q :: q in s[..|s| - 1] ==> q in s;
    }
  }

  /** Every hull point is one of the input points. */
  lemma HullMembers(points: seq<Point>)
    ensures forall q :: q in Hull(points) ==> q in points
  {
    if |points| > 3 {
      var sorted := SortXY(points);
      var lower := Chain(Cross, sorted);
      var upper := Chain(Cross, Reverse(sorted));
      assert Hull(points) == lower[..|lower| - 1] + upper[..|upper| - 1];
      SortXYSorted(points);
      ChainMembers(Cross, sorted);
      ChainMembers(Cross, Reverse(sorted));
      forall q | q in Hull(points)
        ensures q in points
      {
        assert q in lower || q in upper;
        if q in upper {
          var k :| 0 <= k < |sorted| && Reverse(sorted)[k] == q;
          assert sorted[|sorted| - 1 - k] == q;
        }
        assert q in multiset(sorted);
      }
    }
  }

  /** For more than three points the hull starts at the least point in x-then-y order. */
  lemma HullStartsAtLeast(points: seq<Point>)
    requires |points| > 3
    ensures |Hull(points)| >= 2
    ensures Hull(points)[0] in points
    ensures forall q :: q in points ==> LexLe(Hull(points)[0], q)
  {
    var sorted := SortXY(points);
    SortXYSorted(points);
    forall q | q in points
      ensures LexLe(Hull(points)[0], q)
    {
      assert q in multiset(sorted);
      var k :| 0 <= k < |sorted| && sorted[k] == q;
      if k > 0 {
        assert LexLe(sorted[0], sorted[k]);
      }
    }
    assert sorted[0] in multiset(points);
  }
}
