/**
 * Why `convexHull` never returns more points than it was given. Each chain is
 * a subsequence of the sorted points; a chain that only turns
 * counter-clockwise while its points advance in x-then-y order keeps every
 * inner point strictly on one side of the segment from its first to its last
 * point: the first point, the inner point and the last point turn
 * counter-clockwise. Seen from the least point towards the greatest, the
 * inner points of the lower chain therefore lie to the right of that segment
 * and those of the upper chain to its left, so no point is used twice.
 */
module HullSize {
  import opened Geometry
  import opened ConvexHull

  // ---------------------------------------------------------------------------
  // Vectors
  // ---------------------------------------------------------------------------

  function Sub(b: Point, a: Point): Point {
    Point(b.x - a.x, b.y - a.y)
  }

  function Det(u: Point, v: Point): real {
    u.x * v.y - u.y * v.x
  }

  function Neg(d: Point): Point {
    Point(-d.x, -d.y)
  }

  /** The open half-plane of directions that point forward in x-then-y order. */
  predicate InH(d: Point) {
    d.x > 0.0 || (d.x == 0.0 && d.y > 0.0)
  }

  /** An edge direction, turned round when the chain runs backwards. */
  function Dir(d: Point, down: bool): Point {
    if down then Neg(d) else d
  }

  /** Within the forward half-plane, "turns left of" is transitive. */
  lemma DetTrans(u: Point, v: Point, w: Point)
    requires InH(u) && InH(v) && InH(w)
    requires Det(u, v) > 0.0 && Det(v, w) > 0.0
    ensures Det(u, w) > 0.0
  {
    assert v.x * Det(u, w) == u.x * Det(v, w) + w.x * Det(u, v);
    assert v.x > 0.0 && u.x > 0.0;
    assert u.x * Det(v, w) > 0.0;
    assert w.x * Det(u, v) >= 0.0;
  }

  lemma DetDirTrans(u: Point, v: Point, w: Point, down: bool)
    requires InH(Dir(u, down)) && InH(Dir(v, down)) && InH(Dir(w, down))
    requires Det(u, v) > 0.0 && Det(v, w) > 0.0
    ensures Det(u, w) > 0.0
  {
    assert Det(Dir(u, down), Dir(v, down)) == Det(u, v);
    assert Det(Dir(v, down), Dir(w, down)) == Det(v, w);
    assert Det(Dir(u, down), Dir(w, down)) == Det(u, w);
    DetTrans(Dir(u, down), Dir(v, down), Dir(w, down));
  }

  // ---------------------------------------------------------------------------
  // Convex monotone chains
  // ---------------------------------------------------------------------------

  function Edge(c: seq<Point>, k: nat): Point
    requires k + 1 < |c|
  {
    Sub(c[k + 1], c[k])
  }

  /** Consecutive points advance in x-then-y order (or retreat, when `down`). */
  predicate Monotone(c: seq<Point>, down: bool) {
    forall k :: 0 <= k < |c| - 1 ==>
      if down then LexLe(c[k + 1], c[k]) else LexLe(c[k], c[k + 1])
  }

  /** Three consecutive turns of a chain in terms of its two edges. */
  lemma TurnOfEdges(c: seq<Point>, k: nat)
    requires k + 2 < |c|
    ensures Cross(c[k], c[k + 1], c[k + 2]) == Det(Edge(c, k), Edge(c, k + 1))
  {
  }

  /** In a left-turning monotone chain of three or more points no edge is degenerate. */
  lemma EdgeInDir(c: seq<Point>, down: bool, k: nat)
    requires |c| >= 3 && Convex(Cross, c) && Monotone(c, down)
    requires k + 1 < |c|
    ensures InH(Dir(Edge(c, k), down))
  {
    var t := if k + 2 < |c| then k else k - 1;
    assert Cross(c[t], c[t + 1], c[t + 2]) > 0.0;
  }

  /** The edge directions of the chain strictly increase in angle. */
  lemma {:induction false} AngleOrder(c: seq<Point>, down: bool, i: nat, j: nat)
    requires |c| >= 3 && Convex(Cross, c) && Monotone(c, down)
    requires i < j < |c| - 1
    ensures Det(Edge(c, i), Edge(c, j)) > 0.0
    decreases j - i
  {
    TurnOfEdges(c, j - 1);
    if j > i + 1 {
      AngleOrder(c, down, i, j - 1);
      EdgeInDir(c, down, i);
      EdgeInDir(c, down, j - 1);
      EdgeInDir(c, down, j);
      DetDirTrans(Edge(c, i), Edge(c, j - 1), Edge(c, j), down);
    }
  }

  /** Seen from the first point, every later edge turns counter-clockwise from an inner point. */
  lemma {:induction false} PrefixTurn(c: seq<Point>, down: bool, i: nat, j: nat)
    requires |c| >= 3 && Convex(Cross, c) && Monotone(c, down)
    requires 0 < i <= j < |c| - 1
    ensures Det(Sub(c[i], c[0]), Edge(c, j)) > 0.0
  {
    if i == 1 {
      if j > 0 {
        AngleOrder(c, down, 0, j);
      }
    } else {
      PrefixTurn(c, down, i - 1, j);
      AngleOrder(c, down, i - 1, j);
      var e := Edge(c, j);
      assert Det(Sub(c[i], c[0]), e) == Det(Sub(c[i - 1], c[0]), e) + Det(Edge(c, i - 1), e);
    }
  }

  /** The first point, any inner point and any later point turn strictly counter-clockwise. */
  lemma {:induction false} ChainSide(c: seq<Point>, down: bool, i: nat, k: nat)
    requires |c| >= 3 && Convex(Cross, c) && Monotone(c, down)
    requires 0 < i < k < |c|
    ensures Cross(c[0], c[i], c[k]) > 0.0
  {
    var x := Sub(c[i], c[0]);
    PrefixTurn(c, down, i, k - 1);
    assert Det(x, Sub(c[k], c[0])) == Det(x, Sub(c[k - 1], c[0])) + Det(x, Edge(c, k - 1));
    if k > i + 1 {
      ChainSide(c, down, i, k - 1);
    }
  }

  // ---------------------------------------------------------------------------
  // Chains of sorted points
  // ---------------------------------------------------------------------------

  /** Ordered ascending in x-then-y order, or descending when `down`. */
  predicate SortedDir(t: seq<Point>, down: bool) {
    forall i, j :: 0 <= i < j < |t| ==> if down then LexLe(t[j], t[i]) else LexLe(t[i], t[j])
  }

  /** In a counter-clockwise monotone chain, the first point, each inner point and the last point turn counter-clockwise. */
  predicate InnerLeft(cross: Turn, c: seq<Point>, down: bool) {
    |c| >= 3 && Convex(cross, c) && Monotone(c, down) ==>
      forall i :: 0 < i < |c| - 1 ==> cross(c[0], c[i], c[|c| - 1]) > 0.0
  }

  /** `InnerLeft` for every chain: what the counting below needs of the turn test. */
  ghost predicate SideProperty(cross: Turn) {
    forall c: seq<Point>, down: bool :: InnerLeft(cross, c, down)
  }

  /** Swapping the outer points reverses the turn. */
  ghost predicate Antisymmetric(cross: Turn) {
    forall o: Point, a: Point, b: Point :: cross(b, a, o) == -cross(o, a, b)
  }

  /** A turn through a repeated point is no turn. */
  ghost predicate Degenerate(cross: Turn) {
    forall a: Point, b: Point :: cross(a, a, b) == 0.0 && cross(a, b, b) == 0.0
  }

  lemma CrossDegenerate()
    ensures Degenerate(Cross)
  {
  }

  lemma CrossSideProperty()
    ensures SideProperty(Cross)
  {
    forall c: seq<Point>, down: bool
      ensures InnerLeft(Cross, c, down)
    {
      if |c| >= 3 && Convex(Cross, c) && Monotone(c, down) {
        forall i | 0 < i < |c| - 1
          ensures Cross(c[0], c[i], c[|c| - 1]) > 0.0
        {
          ChainSide(c, down, i, |c| - 1);
        }
      }
    }
  }

  lemma CrossAntisymmetric()
    ensures Antisymmetric(Cross)
  {
    forall o: Point, a: Point, b: Point
      ensures Cross(b, a, o) == -Cross(o, a, b)
    {
      CrossSwapOuter(o, a, b);
    }
  }

  lemma {:induction false} PushTurnMonotone(cross: Turn, chain: seq<Point>, p: Point, down: bool)
    requires Monotone(chain, down)
    requires forall q :: q in chain ==> if down then LexLe(p, q) else LexLe(q, p)
    ensures Monotone(PushTurn(cross, chain, p), down)
  {
    var n := KeepLen(cross, chain, p);
    var r := PushTurn(cross, chain, p);
    assert forall k :: 0 <= k < n ==> r[k] == chain[k];
    assert n >= 1 ==> chain[n - 1] in chain;
  }

  /** The chain of a sorted sequence advances in the same order. */
  lemma {:induction false} ChainMonotone(cross: Turn, t: seq<Point>, down: bool)
    requires SortedDir(t, down)
    ensures Monotone(Chain(cross, t), down)
  {
    if |t| > 0 {
      var init := t[..|t| - 1];
      var p := t[|t| - 1];
      assert SortedDir(init, down);
      ChainMonotone(cross, init, down);
      ChainMembers(cross, init);
      forall q | q in Chain(cross, init)
        ensures if down then LexLe(p, q) else LexLe(q, p)
      {
        var k :| 0 <= k < |init| && init[k] == q;
      }
      PushTurnMonotone(cross, Chain(cross, init), p, down);
    }
  }

  lemma {:induction false} PushTurnSub(cross: Turn, chain: seq<Point>, p: Point)
    ensures multiset(PushTurn(cross, chain, p)) <= multiset(chain) + multiset{p}
  {
    var n := KeepLen(cross, chain, p);
    assert chain == chain[..n] + chain[n..];
  }

  /** A chain uses each input point at most as often as the input holds it. */
  lemma {:induction false} ChainSub(cross: Turn, s: seq<Point>)
    ensures multiset(Chain(cross, s)) <= multiset(s)
  {
    if |s| > 0 {
      var init, x := s[..|s| - 1], s[|s| - 1];
      var c := Chain(cross, init);
      ChainSub(cross, init);
      PushTurnSub(cross, c, x);
      assert Chain(cross, s) == PushTurn(cross, c, x);
      MultisetSnoc(s);
    }
  }

  lemma MultisetSnoc(s: seq<Point>)
    requires |s| > 0
    ensures multiset(s) == multiset(s[..|s| - 1]) + multiset{s[|s| - 1]}
  {
    assert s == s[..|s| - 1] + [s[|s| - 1]];
  }

  /** Dropping the first and last element keeps a sub-multiset. */
  lemma InnerSub(c: seq<Point>)
    requires |c| >= 2
    ensures multiset(c[1..|c| - 1]) <= multiset(c)
  {
    assert c == [c[0]] + c[1..|c| - 1] + [c[|c| - 1]];
  }

  /** A chain without its two end points. */
  function Inner(c: seq<Point>): (r: seq<Point>)
    requires |c| >= 2
    ensures |r| == |c| - 2
    ensures multiset(r) <= multiset(c)
  {
    InnerSub(c);
    c[1..|c| - 1]
  }

  /** Every point of `ps` is strictly on side `sign` of the segment from `a` to `b`. */
  predicate OnSide(cross: Turn, a: Point, b: Point, ps: seq<Point>, sign: real) {
    forall k :: 0 <= k < |ps| ==> cross(a, ps[k], b) * sign > 0.0
  }

  /**
   * Points that turn counter-clockwise between the first and the last point,
   * points that turn clockwise there, and the two end points are drawn from
   * disjoint parts of the sequence.
   */
  lemma SidesCount(cross: Turn, s: seq<Point>, li: seq<Point>, ui: seq<Point>)
    requires |s| >= 2
    requires OnSide(cross, s[0], s[|s| - 1], li, 1.0) && OnSide(cross, s[0], s[|s| - 1], ui, -1.0)
    requires multiset(li) <= multiset(s) && multiset(ui) <= multiset(s)
    requires Degenerate(cross)
    ensures |li| + |ui| + 2 <= |s|
  {
    var n := |s|;
    assert s == [s[0]] + s[1..n - 1] + [s[n - 1]];
    var used := multiset(li) + multiset(ui) + multiset{s[0], s[n - 1]};
    forall x
      ensures used[x] <= multiset(s)[x]
    {
      var side := cross(s[0], x, s[n - 1]);
      if side > 0.0 {
        assert x !in ui;
        assert x != s[0] && x != s[n - 1];
      } else if side < 0.0 {
        assert x !in li;
        assert x != s[0] && x != s[n - 1];
      } else {
        assert x !in li && x !in ui;
      }
    }
    assert used <= multiset(s);
    MultisetCard(used, multiset(s));
  }

  /** The inner points of a counter-clockwise monotone chain turn counter-clockwise between its end points. */
  lemma InnerOnSide(cross: Turn, c: seq<Point>, down: bool)
    requires SideProperty(cross)
    requires |c| >= 2 && Convex(cross, c) && Monotone(c, down)
    ensures OnSide(cross, c[0], c[|c| - 1], Inner(c), 1.0)
  {
    assert InnerLeft(cross, c, down);
    var li := Inner(c);
    forall k | 0 <= k < |li|
      ensures cross(c[0], li[k], c[|c| - 1]) * 1.0 > 0.0
    {
      assert li[k] == c[k + 1];
    }
  }

  /** Seen from the other end of the segment, counter-clockwise becomes clockwise. */
  lemma FlipSide(cross: Turn, a: Point, b: Point, ps: seq<Point>)
    requires Antisymmetric(cross)
    requires OnSide(cross, b, a, ps, 1.0)
    ensures OnSide(cross, a, b, ps, -1.0)
  {
    forall k | 0 <= k < |ps|
      ensures cross(a, ps[k], b) * -1.0 > 0.0
    {
      assert cross(b, ps[k], a) * 1.0 > 0.0;
    }
  }

  /**
   * The inner points of the chain of a sorted sequence (all but its first
   * and last) turn strictly counter-clockwise between the sequence's first
   * point and its last.
   */
  lemma ChainInnerLeft(cross: Turn, t: seq<Point>, down: bool)
    requires SideProperty(cross)
    requires SortedDir(t, down) && |t| >= 2
    ensures OnSide(cross, t[0], t[|t| - 1], Inner(Chain(cross, t)), 1.0)
  {
    ChainConvex(cross, t);
    ChainMonotone(cross, t, down);
    InnerOnSide(cross, Chain(cross, t), down);
  }

  /** The inner points of the lower chain lie right of the first-to-last segment. */
  lemma LowerInner(cross: Turn, s: seq<Point>)
    requires SideProperty(cross)
    requires LexSorted(s) && |s| >= 2
    ensures OnSide(cross, s[0], s[|s| - 1], Inner(Chain(cross, s)), 1.0)
  {
    assert SortedDir(s, false);
    ChainInnerLeft(cross, s, false);
  }

  /** The inner points of the upper chain lie left of the first-to-last segment. */
  lemma UpperInner(cross: Turn, s: seq<Point>)
    requires SideProperty(cross) && Antisymmetric(cross)
    requires LexSorted(s) && |s| >= 2
    ensures OnSide(cross, s[0], s[|s| - 1], Inner(Chain(cross, Reverse(s))), -1.0)
  {
    var rs := Reverse(s);
    assert SortedDir(rs, true);
    ChainInnerLeft(cross, rs, true);
    assert rs[0] == s[|s| - 1] && rs[|s| - 1] == s[0];
    FlipSide(cross, s[0], s[|s| - 1], Inner(Chain(cross, rs)));
  }

  /** Lower and upper chain of a sorted sequence together have at most two points more than it. */
  lemma ChainsCount(cross: Turn, s: seq<Point>)
    requires SideProperty(cross) && Antisymmetric(cross) && Degenerate(cross)
    requires LexSorted(s) && |s| >= 2
    ensures |Chain(cross, s)| + |Chain(cross, Reverse(s))| <= |s| + 2
  {
    var lo := Chain(cross, s);
    var up := Chain(cross, Reverse(s));
    LowerInner(cross, s);
    UpperInner(cross, s);
    ChainSub(cross, s);
    ChainSub(cross, Reverse(s));
    ReverseMultiset(s);
    SidesCount(cross, s, Inner(lo), Inner(up));
  }

  lemma {:induction false} ReverseMultiset(s: seq<Point>)
    ensures multiset(Reverse(s)) == multiset(s)
  {
    if |s| > 0 {
      ReverseMultiset(s[1..]);
      assert Reverse(s) == Reverse(s[1..]) + [s[0]];
      assert s == [s[0]] + s[1..];
    }
  }

  lemma MultisetCard(a: multiset<Point>, b: multiset<Point>)
    requires a <= b
    ensures |a| <= |b|
  {
    assert b == a + (b - a);
  }

  /** The hull has at most as many points as the input. */
  lemma HullSizeBound(points: seq<Point>)
    ensures |Hull(points)| <= |points|
  {
    if |points| > 3 {
      SortXYSorted(points);
      CrossSideProperty();
      CrossAntisymmetric();
      CrossDegenerate();
      ChainsCount(Cross, SortXY(points));
    }
  }
}
