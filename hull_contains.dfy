/**
 * Why `convexHull` encloses its input. Each chain keeps every point it has
 * seen on or to the left of each of its edges (`Supports`); a new point that
 * lies beyond all of them only pops edges it does not lie to the left of, and
 * the edge that replaces them still has every earlier point to its left. The
 * two chains joined end to end are then a counter-clockwise polygon with
 * every input point inside or on it.
 */
module HullContains {
  import opened Geometry
  import opened ConvexHull
  import opened HullSize

  /** `a` comes no later than `b` in the order a chain runs in. */
  predicate Before(a: Point, b: Point, down: bool) {
    if down then LexLe(b, a) else LexLe(a, b)
  }

  /** Every point of `t` lies on or to the left of every edge of the chain `c`. */
  predicate Supports(c: seq<Point>, t: seq<Point>) {
    forall k, q :: 0 <= k < |c| - 1 && q in t ==> Cross(c[k], c[k + 1], q) >= 0.0
  }

  // ---------------------------------------------------------------------------
  // Turns along a convex monotone chain
  // ---------------------------------------------------------------------------

  /** A later vertex of the chain lies strictly to the left of an earlier edge. */
  lemma {:induction false} LaterLeft(c: seq<Point>, down: bool, k: nat, m: nat)
    requires |c| >= 3 && Convex(Cross, c) && Monotone(c, down)
    requires k + 1 < m < |c|
    ensures Cross(c[k], c[k + 1], c[m]) > 0.0
    decreases m
  {
    var e := Edge(c, k);
    if m > k + 2 {
      AngleOrder(c, down, k, m - 1);
      LaterLeft(c, down, k, m - 1);
      assert Cross(c[k], c[k + 1], c[m]) == Cross(c[k], c[k + 1], c[m - 1]) + Det(e, Edge(c, m - 1));
    } else {
      assert Cross(c[k], c[k + 1], c[k + 2]) > 0.0;
    }
  }

  /** An earlier vertex of the chain lies strictly to the left of a later edge. */
  lemma {:induction false} EarlierLeft(c: seq<Point>, down: bool, j: nat, k: nat)
    requires |c| >= 3 && Convex(Cross, c) && Monotone(c, down)
    requires j < k && k + 1 < |c|
    ensures Cross(c[k], c[k + 1], c[j]) > 0.0
    decreases k - j
  {
    var e := Edge(c, k);
    AngleOrder(c, down, j, k);
    if j + 1 < k {
      EarlierLeft(c, down, j + 1, k);
      assert Cross(c[k], c[k + 1], c[j]) == Cross(c[k], c[k + 1], c[j + 1]) + Det(Edge(c, j), e);
    } else {
      assert Edge(c, j) == Sub(c[k], c[j]);
      assert Cross(c[k], c[k + 1], c[j]) == Det(Sub(c[k], c[j]), e);
    }
  }

  // ---------------------------------------------------------------------------
  // Half-planes and slabs
  // ---------------------------------------------------------------------------

  lemma MulNonNeg(a: real, b: real)
    requires a >= 0.0 && b >= 0.0
    ensures a * b >= 0.0
  {
  }

  lemma MulNeg(a: real, b: real)
    requires a < 0.0 && b > 0.0
    ensures a * b < 0.0
  {
  }

  /**
   * A point `z` between `u` and `v` (in the chain's order) and to the left of
   * the segment from `u` to `v` is to the left of any line running the same
   * way that has both `u` and `v` on or to its left.
   */
  lemma Slab(a: Point, p: Point, u: Point, v: Point, z: Point, down: bool)
    requires Before(a, p, down) && Before(u, z, down) && Before(z, v, down)
    requires Cross(a, p, u) >= 0.0 && Cross(a, p, v) >= 0.0 && Cross(u, v, z) >= 0.0
    ensures Cross(a, p, z) >= 0.0
  {
    var e, w, d := Sub(v, u), Sub(z, u), Sub(p, a);
    var f0, f1, g, fz := Cross(a, p, u), Cross(a, p, v), Cross(u, v, z), Cross(a, p, z);
    if e.x != 0.0 {
      assert e.x * fz == (e.x - w.x) * f0 + w.x * f1 + d.x * g;
      if down {
        assert (-e.x) * fz == (w.x - e.x) * f0 + (-w.x) * f1 + (-d.x) * g;
        WeightedSign(-e.x, fz, w.x - e.x, f0, -w.x, f1, -d.x, g);
      } else {
        WeightedSign(e.x, fz, e.x - w.x, f0, w.x, f1, d.x, g);
      }
    } else if e.y != 0.0 {
      assert w.x == 0.0;
      assert e.y * fz == (e.y - w.y) * f0 + w.y * f1 + 0.0 * g;
      if down {
        assert (-e.y) * fz == (w.y - e.y) * f0 + (-w.y) * f1 + 0.0 * g;
        WeightedSign(-e.y, fz, w.y - e.y, f0, -w.y, f1, 0.0, g);
      } else {
        WeightedSign(e.y, fz, e.y - w.y, f0, w.y, f1, 0.0, g);
      }
    } else {
      assert z == u;
    }
  }

  /** A positive multiple of `f` that is a non-negative combination of non-negative values makes `f` non-negative. */
  lemma WeightedSign(m: real, f: real, a0: real, f0: real, a1: real, f1: real, a2: real, f2: real)
    requires m > 0.0 && a0 >= 0.0 && a1 >= 0.0 && a2 >= 0.0
    requires f0 >= 0.0 && f1 >= 0.0 && f2 >= 0.0
    requires m * f == a0 * f0 + a1 * f1 + a2 * f2
    ensures f >= 0.0
  {
    MulNonNeg(a0, f0);
    MulNonNeg(a1, f1);
    MulNonNeg(a2, f2);
    if f < 0.0 {
      MulNeg(f, m);
    }
  }

  /** A point between the ends of a monotone chain lies between the ends of one of its edges. */
  lemma {:induction false} FindSlab(c: seq<Point>, q: Point, down: bool) returns (j: nat)
    requires |c| >= 2 && Monotone(c, down)
    requires Before(c[0], q, down) && Before(q, c[|c| - 1], down)
    ensures 0 < j < |c| && Before(c[j - 1], q, down) && Before(q, c[j], down)
  {
    var n := |c|;
    if n > 2 && Before(q, c[n - 2], down) {
      j := FindSlab(c[..n - 1], q, down);
    } else {
      j := n - 1;
      assert Monotone(c, down) ==> Before(c[n - 2], c[n - 1], down);
    }
  }

  // ---------------------------------------------------------------------------
  // One push keeps every point to the left
  // ---------------------------------------------------------------------------

  /** A popped point lies on or to the right of its edge into `p`'s turn. */
  lemma {:induction false} PoppedRight(cross: Turn, chain: seq<Point>, p: Point, j: nat)
    requires KeepLen(cross, chain, p) <= j < |chain| && j >= 1
    ensures cross(chain[j - 1], chain[j], p) <= 0.0
  {
    var m := |chain|;
    if m >= 2 && cross(chain[m - 2], chain[m - 1], p) <= 0.0 && j < m - 1 {
      PoppedRight(cross, chain[..m - 1], p, j);
    }
  }

  /** The popped points lie on or to the left of the edge that replaces them. */
  lemma {:induction false} PoppedAbove(c: seq<Point>, p: Point, down: bool, j: nat)
    requires Monotone(c, down) && forall q :: q in c ==> Before(q, p, down)
    requires 1 <= KeepLen(Cross, c, p) <= j + 1 <= |c|
    ensures Cross(c[KeepLen(Cross, c, p) - 1], p, c[j]) >= 0.0
    decreases j
  {
    var n := KeepLen(Cross, c, p);
    var a := c[n - 1];
    if j >= n {
      PoppedAbove(c, p, down, j - 1);
      PoppedRight(Cross, c, p, j);
      assert Cross(c[j - 1], p, c[j]) == -Cross(c[j - 1], c[j], p);
      assert Before(c[j - 1], c[j], down) && Before(a, p, down) && Before(c[j], p, down);
      Slab(a, p, c[j - 1], p, c[j], down);
    }
  }

  /** Every vertex of the old chain lies on or to the left of the edge `p` is pushed behind. */
  lemma VertexAbove(c: seq<Point>, p: Point, down: bool, n: nat, j: nat)
    requires Convex(Cross, c) && Monotone(c, down) && forall q :: q in c ==> Before(q, p, down)
    requires n == KeepLen(Cross, c, p) && j < |c|
    ensures n >= 1 && Cross(c[n - 1], p, c[j]) >= 0.0
  {
    var r := PushTurn(Cross, c, p);
    if j + 1 < n {
      PushTurnConvex(Cross, c, p);
      PushTurnMonotone(Cross, c, p, down);
      EarlierLeft(r, down, j, n - 1);
      assert r[n - 1] == c[n - 1] && r[n] == p && r[j] == c[j];
    } else {
      PoppedAbove(c, p, down, j);
    }
  }

  /** A point of a sorted sequence lies between the ends of a chain that starts and ends where the sequence does. */
  lemma BetweenEnds(c: seq<Point>, t: seq<Point>, q: Point, down: bool)
    requires SortedDir(t, down) && q in t
    requires |c| >= 1 && c[0] == t[0] && c[|c| - 1] == t[|t| - 1]
    ensures Before(c[0], q, down) && Before(q, c[|c| - 1], down)
  {
    var i :| 0 <= i < |t| && t[i] == q;
    if i > 0 {
      assert Before(t[0], t[i], down);
    }
    if i < |t| - 1 {
      assert Before(t[i], t[|t| - 1], down);
    }
  }

  /** A point between the chain's ends and to the left of all its edges lies on or to the left of the edge `p` is pushed behind. */
  lemma NewEdgeLeft(c: seq<Point>, p: Point, down: bool, n: nat, q: Point)
    requires Convex(Cross, c) && Monotone(c, down) && forall q :: q in c ==> Before(q, p, down)
    requires n == KeepLen(Cross, c, p) && |c| >= 1
    requires Before(c[0], q, down) && Before(q, c[|c| - 1], down) && Supports(c, [q])
    ensures n >= 1 && Cross(c[n - 1], p, q) >= 0.0
  {
    var a := c[n - 1];
    if |c| == 1 {
      assert q == a;
    } else {
      var j := FindSlab(c, q, down);
      VertexAbove(c, p, down, n, j - 1);
      VertexAbove(c, p, down, n, j);
      assert a in c;
      SupportsAt(c, [q], j - 1, q);
      var u, v := c[j - 1], c[j];
      assert Before(a, p, down);
      assert Before(u, q, down);
      assert Before(q, v, down);
      assert Cross(a, p, u) >= 0.0;
      assert Cross(a, p, v) >= 0.0;
      assert Cross(u, v, q) >= 0.0;
      Slab(a, p, u, v, q, down);
    }
  }

  /** Pushing a point beyond all of `t` onto a chain of `t` keeps every point to the left. */
  lemma PushSupports(c: seq<Point>, t: seq<Point>, p: Point, down: bool)
    requires |t| >= 1 && SortedDir(t, down) && forall q :: q in t ==> Before(q, p, down)
    requires |c| >= 1 && c[0] == t[0] && c[|c| - 1] == t[|t| - 1] && forall q :: q in c ==> q in t
    requires Convex(Cross, c) && Monotone(c, down) && Supports(c, t)
    ensures Supports(PushTurn(Cross, c, p), t + [p])
  {
    var n := KeepLen(Cross, c, p);
    var r := PushTurn(Cross, c, p);
    PushTurnConvex(Cross, c, p);
    PushTurnMonotone(Cross, c, p, down);
    forall k, q | 0 <= k < |r| - 1 && q in t + [p]
      ensures Cross(r[k], r[k + 1], q) >= 0.0
    {
      if k < n - 1 {
        assert r[k] == c[k] && r[k + 1] == c[k + 1];
        if q == p {
          LaterLeft(r, down, k, n);
        }
      } else if q != p {
        assert r[k] == c[n - 1] && r[k + 1] == p;
        BetweenEnds(c, t, q, down);
        SupportsOne(c, t, q);
        NewEdgeLeft(c, p, down, n, q);
      }
    }
  }

  /** The chain of a sorted sequence has every point of the sequence on or to the left of each edge. */
  lemma {:induction false} ChainSupports(t: seq<Point>, down: bool)
    requires SortedDir(t, down)
    ensures Supports(Chain(Cross, t), t)
  {
    if |t| >= 2 {
      var init, p := t[..|t| - 1], t[|t| - 1];
      var c := Chain(Cross, init);
      assert t == init + [p];
      assert SortedDir(init, down);
      ChainSupports(init, down);
      ChainConvex(Cross, init);
      ChainMonotone(Cross, init, down);
      ChainMembers(Cross, init);
      forall q | q in init
        ensures Before(q, p, down)
      {
        var i :| 0 <= i < |init| && init[i] == q;
      }
      PushSupports(c, init, p, down);
    }
  }

  // ---------------------------------------------------------------------------
  // The hull
  // ---------------------------------------------------------------------------

  /** The turn from edge `k` of the closed polygon `h` (its last point joined back to its first) to `q`. */
  function EdgeTurn(h: seq<Point>, k: nat, q: Point): real
    requires k < |h|
  {
    Cross(h[k], h[(k + 1) % |h|], q)
  }

  lemma SupportsAt(c: seq<Point>, t: seq<Point>, k: nat, q: Point)
    requires Supports(c, t) && k + 1 < |c| && q in t
    ensures Cross(c[k], c[k + 1], q) >= 0.0
  {
  }

  lemma SupportsOne(c: seq<Point>, t: seq<Point>, q: Point)
    requires Supports(c, t) && q in t
    ensures Supports(c, [q])
  {
  }

  /** Two chains that meet end to end, each with `q` to the left of its edges, close into a polygon with `q` to the left of every edge. */
  lemma JoinedEdge(lower: seq<Point>, upper: seq<Point>, k: nat, q: Point)
    requires |lower| >= 2 && |upper| >= 2
    requires lower[|lower| - 1] == upper[0] && upper[|upper| - 1] == lower[0]
    requires Supports(lower, [q]) && Supports(upper, [q])
    requires k < |lower| - 1 + |upper| - 1
    ensures EdgeTurn(lower[..|lower| - 1] + upper[..|upper| - 1], k, q) >= 0.0
  {
    var nl, nu := |lower| - 1, |upper| - 1;
    var h := lower[..nl] + upper[..nu];
    var next := if k + 1 < |h| then k + 1 else 0;
    assert (k + 1) % |h| == next;
    assert q in [q];
    if k < nl {
      assert h[k] == lower[k];
      assert h[next] == lower[k + 1];
      assert Cross(lower[k], lower[k + 1], q) >= 0.0;
    } else {
      var m := k - nl;
      assert h[k] == upper[m];
      assert h[next] == upper[m + 1];
      assert Cross(upper[m], upper[m + 1], q) >= 0.0;
    }
  }

  lemma ReverseHas(s: seq<Point>, q: Point)
    requires q in s
    ensures q in Reverse(s)
  {
    var i :| 0 <= i < |s| && s[i] == q;
    assert Reverse(s)[|s| - 1 - i] == q;
  }

  /**
   * With more than three points, the hull is a closed polygon with every
   * input point on or to the left of each of its edges: it encloses the
   * input, counter-clockwise.
   */
  lemma HullEncloses(points: seq<Point>)
    ensures |points| > 3 ==>
      forall k: nat, q :: k < |Hull(points)| && q in points ==> EdgeTurn(Hull(points), k, q) >= 0.0
  {
    if |points| > 3 {
      var s := SortXY(points);
      var rs := Reverse(s);
      var lower := Chain(Cross, s);
      var upper := Chain(Cross, rs);
      var h := Hull(points);
      var nl, nu := |lower| - 1, |upper| - 1;
      assert h == lower[..nl] + upper[..nu];
      SortXYSorted(points);
      assert SortedDir(s, false);
      assert SortedDir(rs, true);
      ChainSupports(s, false);
      ChainSupports(rs, true);
      assert rs[0] == s[|s| - 1] && rs[|rs| - 1] == s[0];
      forall k: nat, q | k < |h| && q in points
        ensures EdgeTurn(h, k, q) >= 0.0
      {
        assert q in multiset(s);
        ReverseHas(s, q);
        SupportsOne(lower, s, q);
        SupportsOne(upper, rs, q);
        JoinedEdge(lower, upper, k, q);
      }
    }
  }

  // ---------------------------------------------------------------------------
  // Collinear input
  // ---------------------------------------------------------------------------

  /** No three points of `pts` turn either way. */
  predicate Collinear(pts: seq<Point>) {
    forall a, b, d :: a in pts && b in pts && d in pts ==> Cross(a, b, d) == 0.0
  }

  /** Three or more collinear points never make a strictly counter-clockwise chain. */
  lemma ConvexShort(c: seq<Point>, pts: seq<Point>)
    requires Collinear(pts)
    requires forall q :: q in c ==> q in pts
    ensures |c| >= 3 ==> !Convex(Cross, c)
  {
    if |c| >= 3 {
      assert c[0] in pts && c[1] in pts && c[2] in pts;
      assert Cross(c[0], c[1], c[2]) == 0.0;
    }
  }

  /** The chain of collinear points keeps at most two of them. */
  lemma CollinearChain(t: seq<Point>, pts: seq<Point>)
    requires Collinear(pts) && forall q :: q in t ==> q in pts
    ensures |Chain(Cross, t)| <= 2
  {
    var c := Chain(Cross, t);
    ChainConvex(Cross, t);
    ChainMembers(Cross, t);
    ConvexShort(c, pts);
  }

  /** The sorted copy, read either way, holds only input points. */
  lemma SortedFrom(points: seq<Point>)
    ensures forall q :: q in SortXY(points) ==> q in points
    ensures forall q :: q in Reverse(SortXY(points)) ==> q in points
  {
    var s := SortXY(points);
    SortXYSorted(points);
    ReverseMultiset(s);
    forall q | q in s
      ensures q in points
    {
      assert q in multiset(s);
    }
    forall q | q in Reverse(s)
      ensures q in points
    {
      assert q in multiset(Reverse(s));
    }
  }

  /**
   * Four or more collinear points give a hull of exactly two points: the
   * least and the greatest in x-then-y order.
   */
  lemma CollinearHull(points: seq<Point>)
    requires |points| > 3 && Collinear(points)
    ensures |Hull(points)| == 2
    ensures Hull(points) == [SortXY(points)[0], SortXY(points)[|points| - 1]]
  {
    var s := SortXY(points);
    var rs := Reverse(s);
    SortedFrom(points);
    CollinearChain(s, points);
    CollinearChain(rs, points);
    var lower := Chain(Cross, s);
    var upper := Chain(Cross, rs);
    assert rs[0] == s[|s| - 1];
    assert lower[0] == s[0] && upper[0] == s[|s| - 1];
    var h := lower[..1] + upper[..1];
    assert h == [lower[0], upper[0]];
    assert Hull(points) == h;
  }
}
