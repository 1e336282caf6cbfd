/**
 * The board analyzer of `src/modules/legoBoardAnalyzer.ts`: locate the board
 * quadrilateral from the segmentation polygon, rectify it to a fixed 16 x 32
 * grid of 20-pixel cells, sample every cell and name its colour after the
 * nearest palette entry.
 *
 * OpenCV and colorjs.io are not modelled: the functions they compute
 * (contours of the filled polygon mask, contour area, polygon approximation,
 * warped-image cell means, the inverse perspective map and the CIEDE2000
 * distance) are the fields of an `Env` value that the caller supplies.
 */
module LegoBoardAnalyzer {
  import opened Wrappers
  import opened Geometry

  /** `readonly rows = 16` */
  const Rows: int := 16
  /** `readonly cols = 32` */
  const Cols: int := 32
  /** `readonly cellSize = 20`: pixel size of a cell after the warp */
  const CellSize: int := 20
  /** pixels to inset each region of interest on every side */
  const Inset: int := 2
  /** width of the rectified raster, `cols * cellSize` */
  const DstWidth: int := Cols * CellSize
  /** height of the rectified raster, `rows * cellSize` */
  const DstHeight: int := Rows * CellSize

  /** An sRGB triple of the palette, each channel 0..255. */
  datatype Rgb = Rgb(r: int, g: int, b: int)

  /** A palette entry (`LegoColor`). */
  datatype LegoColor = LegoColor(name: string, rgb: Rgb)

  /** A mean colour in OpenCV's 8-bit Lab encoding, as `cv.mean` returns it. */
  datatype Lab = Lab(l: real, a: real, b: real)

  /** `cv.Rect(x, y, w, h)` in rectified-raster pixels. */
  datatype Rect = Rect(x: int, y: int, w: int, h: int)

  /** One external contour of the board mask (`CHAIN_APPROX_SIMPLE` vertices). */
  datatype Contour = Contour(vertices: seq<IntPoint>)

  /** One prediction of the segmentation service; only its polygon is used. */
  datatype Prediction = Prediction(points: seq<Point>)

  /** `CellColorResult`: the colour of one grid cell and its corners in the source image. */
  datatype CellColorResult = CellColorResult(row: int, col: int, color: string, quad: seq<Point>)

  /**
   * The library computations the analyzer depends on, over the one captured frame.
   *  - findContours: fill the polygon into a frame-sized mask, then its external contours;
   *  - contourArea, approxPolyDP (with tolerance 0.02 x perimeter): OpenCV on one contour;
   *  - cellMean: warp the frame with the transform from the board quad to the target
   *    rectangle, convert to Lab, blur the region of interest 3 x 3 and take its mean;
   *  - toSource: the inverse perspective map from the target rectangle back onto the board quad;
   *  - deltaE: CIEDE2000 between the rescaled sample and a palette colour.
   */
  datatype Env = Env(
    findContours: seq<Point> -> seq<Contour>,
    contourArea: Contour -> real,
    approxPolyDP: Contour -> seq<IntPoint>,
    cellMean: (seq<IntPoint>, Rect) -> Lab,
    toSource: (seq<IntPoint>, Point) -> Point,
    deltaE: (Lab, Rgb) -> real)

  /** A JavaScript number that may be `Infinity`, the initial `minE`. */
  datatype Bound = Infinity | Finite(value: real)

  predicate Below(d: real, m: Bound) {
    m.Infinity? || d < m.value
  }

  // ---------------------------------------------------------------------------
  // Board locator: largest contour, four-vertex check, corner ordering
  // ---------------------------------------------------------------------------

  function Areas(env: Env, contours: seq<Contour>): seq<real> {
    seq(|contours|, i requires 0 <= i < |contours| => env.contourArea(contours[i]))
  }

  /**
   * The contour the selection loop keeps: starting from `maxArea = 0`, a
   * contour replaces the current one only when its area is strictly larger.
   */
  function LargestContour(areas: seq<real>): (k: Option<nat>)
    ensures k.None? <==> forall i :: 0 <= i < |areas| ==> areas[i] <= 0.0
    ensures k.Some? ==> k.value < |areas| && areas[k.value] > 0.0
    ensures k.Some? ==> forall i :: 0 <= i < |areas| ==> areas[i] <= areas[k.value]
    ensures k.Some? ==> forall i :: 0 <= i < k.value ==> areas[i] < areas[k.value]
  {
    if |areas| == 0 then None
    else
      var prev := LargestContour(areas[..|areas| - 1]);
      var maxArea := if prev.None? then 0.0 else areas[prev.value];
      if areas[|areas| - 1] > maxArea then Some(|areas| - 1) else prev
  }

  /** The comparator key of the two sorts in `extractQuad`. */
  function Key(p: IntPoint, byY: bool): int {
    if byY then p.y else p.x
  }

  predicate SortedBy(s: seq<IntPoint>, byY: bool) {
    forall i, j :: 0 <= i < j < |s| ==> Key(s[i], byY) <= Key(s[j], byY)
  }

  /** Places `p` after every element whose key does not exceed its own, so ties keep arrival order. */
  function InsertStable(t: seq<IntPoint>, p: IntPoint, byY: bool): (r: seq<IntPoint>)
    ensures |r| == |t| + 1
  {
    if |t| == 0 || Key(t[|t| - 1], byY) <= Key(p, byY) then t + [p]
    else InsertStable(t[..|t| - 1], p, byY) + [t[|t| - 1]]
  }

  /**
   * `Array.prototype.sort` with the comparator `(a, b) => key(a) - key(b)`:
   * a stable sort, here insertion sort from the left.
   */
  function StableSort(s: seq<IntPoint>, byY: bool): (r: seq<IntPoint>)
    ensures |r| == |s|
  {
    if |s| == 0 then []
    else InsertStable(StableSort(s[..|s| - 1], byY), s[|s| - 1], byY)
  }

  /** Inserting keeps every key at most `m` when every key already was. */
  lemma {:induction false} InsertStableBounded(t: seq<IntPoint>, p: IntPoint, byY: bool, m: int)
    requires forall i :: 0 <= i < |t| ==> Key(t[i], byY) <= m
    requires Key(p, byY) <= m
    ensures forall i :: 0 <= i < |t| + 1 ==> Key(InsertStable(t, p, byY)[i], byY) <= m
  {
    if |t| > 0 && Key(t[|t| - 1], byY) > Key(p, byY) {
      InsertStableBounded(t[..|t| - 1], p, byY, m);
    }
  }

  lemma {:induction false} InsertStablePerm(t: seq<IntPoint>, p: IntPoint, byY: bool)
    ensures multiset(InsertStable(t, p, byY)) == multiset(t) + multiset{p}
  {
    if |t| > 0 && Key(t[|t| - 1], byY) > Key(p, byY) {
      assert t == t[..|t| - 1] + [t[|t| - 1]];
      InsertStablePerm(t[..|t| - 1], p, byY);
    }
  }

  lemma {:induction false} InsertStableSorted(t: seq<IntPoint>, p: IntPoint, byY: bool)
    requires SortedBy(t, byY)
    ensures SortedBy(InsertStable(t, p, byY), byY)
  {
    if |t| > 0 && Key(t[|t| - 1], byY) > Key(p, byY) {
      var last := t[|t| - 1];
      var init := t[..|t| - 1];
      var front := InsertStable(init, p, byY);
      InsertStableSorted(init, p, byY);
      InsertStableBounded(init, p, byY, Key(last, byY));
      var r := front + [last];
      assert r == InsertStable(t, p, byY);
      forall i, j | 0 <= i < j < |r|
        ensures Key(r[i], byY) <= Key(r[j], byY)
      {
        if j < |front| {
          assert r[i] == front[i] && r[j] == front[j];
        }
      }
    }
  }

  /** The elements of `s` whose key is `v`, in the order of `s`. */
  function KeyFilter(s: seq<IntPoint>, byY: bool, v: int): (r: seq<IntPoint>)
    ensures |r| <= |s|
  {
    if |s| == 0 then []
    else KeyFilter(s[..|s| - 1], byY, v) + (if Key(s[|s| - 1], byY) == v then [s[|s| - 1]] else [])
  }

  lemma KeyFilterSnoc(s: seq<IntPoint>, x: IntPoint, byY: bool, v: int)
    ensures KeyFilter(s + [x], byY, v) == KeyFilter(s, byY, v) + (if Key(x, byY) == v then [x] else [])
  {
    assert (s + [x])[..|s|] == s;
  }

  /** Inserting `p` adds it after every element of its own key and moves no other element past one of the same key. */
  lemma {:induction false} InsertStableFilter(t: seq<IntPoint>, p: IntPoint, byY: bool, v: int)
    ensures KeyFilter(InsertStable(t, p, byY), byY, v)
         == KeyFilter(t, byY, v) + (if Key(p, byY) == v then [p] else [])
  {
    if |t| == 0 || Key(t[|t| - 1], byY) <= Key(p, byY) {
      assert InsertStable(t, p, byY) == t + [p];
      KeyFilterSnoc(t, p, byY, v);
    } else {
      var init, last := t[..|t| - 1], t[|t| - 1];
      var front := InsertStable(init, p, byY);
      var fp: seq<IntPoint> := if Key(p, byY) == v then [p] else [];
      var fl: seq<IntPoint> := if Key(last, byY) == v then [last] else [];
      assert InsertStable(t, p, byY) == front + [last];
      InsertStableFilter(init, p, byY, v);
      KeyFilterSnoc(front, last, byY, v);
      assert fp == [] || fl == [];
      assert KeyFilter(front + [last], byY, v) == KeyFilter(init, byY, v) + fp + fl;
      assert KeyFilter(t, byY, v) == KeyFilter(init, byY, v) + fl;
      assert KeyFilter(init, byY, v) + fp + fl == KeyFilter(init, byY, v) + fl + fp;
    }
  }

  /** Elements of equal key leave the sort in the order they entered it. */
  lemma {:induction false} StableSortStable(s: seq<IntPoint>, byY: bool, v: int)
    ensures KeyFilter(StableSort(s, byY), byY, v) == KeyFilter(s, byY, v)
  {
    if |s| > 0 {
      var init, last := s[..|s| - 1], s[|s| - 1];
      StableSortStable(init, byY, v);
      InsertStableFilter(StableSort(init, byY), last, byY, v);
    }
  }

  /** The sort orders by the key, only rearranges its input, and keeps ties in input order. */
  lemma {:induction false} StableSortSorted(s: seq<IntPoint>, byY: bool)
    ensures SortedBy(StableSort(s, byY), byY)
    ensures multiset(StableSort(s, byY)) == multiset(s)
    ensures forall v :: KeyFilter(StableSort(s, byY), byY, v) == KeyFilter(s, byY, v)
  {
    if |s| > 0 {
      assert s == s[..|s| - 1] + [s[|s| - 1]];
      StableSortSorted(s[..|s| - 1], byY);
      InsertStableSorted(StableSort(s[..|s| - 1], byY), s[|s| - 1], byY);
      InsertStablePerm(StableSort(s[..|s| - 1], byY), s[|s| - 1], byY);
    }
    forall v {
      StableSortStable(s, byY, v);
    }
  }

  /** Sorting two points either keeps or swaps them; a tie keeps them. */
  lemma SortPair(a: IntPoint, b: IntPoint, byY: bool)
    ensures StableSort([a, b], byY) == if Key(a, byY) <= Key(b, byY) then [a, b] else [b, a]
  {
    assert [a, b][..1] == [a];
    assert [a][..0] == [];
    assert StableSort([a], byY) == [a];
    assert StableSort([a, b], byY) == InsertStable([a], b, byY);
    if Key(a, byY) > Key(b, byY) {
      assert InsertStable([a], b, byY) == InsertStable([], b, byY) + [a];
    }
  }

  /**
   * Sorting the two lowest-y points and the two highest-y points on x puts
   * the upper pair first, each pair left to right, ties in arrival order.
   */
  lemma PairsOrdered(a: IntPoint, b: IntPoint, c: IntPoint, d: IntPoint,
                     t0: IntPoint, t1: IntPoint, u0: IntPoint, u1: IntPoint)
    requires a.y <= b.y <= c.y <= d.y
    requires if a.x <= b.x then t0 == a && t1 == b else t0 == b && t1 == a
    requires if c.x <= d.x then u0 == c && u1 == d else u0 == d && u1 == c
    ensures t0.y <= u1.y && t0.y <= u0.y && t1.y <= u1.y && t1.y <= u0.y
    ensures t0.x <= t1.x && u0.x <= u1.x
    ensures t0.x == t1.x ==> t0.y <= t1.y
    ensures u0.x == u1.x ==> u0.y <= u1.y
  {
  }

  /** Swapping within the first and within the second pair keeps the four points. */
  lemma PairsPermutation(a: IntPoint, b: IntPoint, c: IntPoint, d: IntPoint,
                         t0: IntPoint, t1: IntPoint, u0: IntPoint, u1: IntPoint)
    requires (t0 == a && t1 == b) || (t0 == b && t1 == a)
    requires (u0 == c && u1 == d) || (u0 == d && u1 == c)
    ensures multiset{t0, t1, u1, u0} == multiset{a, b, c, d}
  {
  }

  lemma SeqMultiset4(q: seq<IntPoint>)
    requires |q| == 4
    ensures multiset(q) == multiset{q[0], q[1], q[2], q[3]}
  {
    assert q == [q[0], q[1], q[2], q[3]];
  }

  /**
   * `extractQuad`: order the four approximated vertices as
   * [top-left, top-right, bottom-right, bottom-left] by sorting on y, then
   * sorting the upper and the lower pair on x.
   */
  function ExtractQuad(pts: seq<IntPoint>): (q: seq<IntPoint>)
    requires |pts| == 4
    ensures |q| == 4
  {
    var ys := StableSort(pts, true);
    var top := StableSort([ys[0], ys[1]], false);
    var bottom := StableSort([ys[2], ys[3]], false);
    [top[0], top[1], bottom[1], bottom[0]]
  }

  /** The four corners are the four input points, rearranged. */
  lemma ExtractQuadPermutation(pts: seq<IntPoint>)
    requires |pts| == 4
    ensures multiset(ExtractQuad(pts)) == multiset(pts)
  {
    var ys := StableSort(pts, true);
    var top := StableSort([ys[0], ys[1]], false);
    var bottom := StableSort([ys[2], ys[3]], false);
    StableSortSorted(pts, true);
    SortPair(ys[0], ys[1], false);
    SortPair(ys[2], ys[3], false);
    SeqMultiset4(ys);
    SeqMultiset4(ExtractQuad(pts));
    PairsPermutation(ys[0], ys[1], ys[2], ys[3], top[0], top[1], bottom[0], bottom[1]);
  }

  /**
   * The corners come out as [top-left, top-right, bottom-right, bottom-left]:
   * no upper corner lies below a lower one, and each pair runs left to right
   * (equal x keeps the upper point of the pair first).
   */
  lemma ExtractQuadOrdered(pts: seq<IntPoint>)
    requires |pts| == 4
    ensures var q := ExtractQuad(pts);
      && q[0].y <= q[2].y && q[0].y <= q[3].y && q[1].y <= q[2].y && q[1].y <= q[3].y
      && q[0].x <= q[1].x && q[3].x <= q[2].x
      && (q[0].x == q[1].x ==> q[0].y <= q[1].y)
      && (q[3].x == q[2].x ==> q[3].y <= q[2].y)
  {
    var ys := StableSort(pts, true);
    StableSortSorted(pts, true);
    assert ys[0].y <= ys[1].y <= ys[2].y <= ys[3].y by {
      assert SortedBy(ys, true);
    }
    var top := StableSort([ys[0], ys[1]], false);
    var bottom := StableSort([ys[2], ys[3]], false);
    SortPair(ys[0], ys[1], false);
    SortPair(ys[2], ys[3], false);
    PairsOrdered(ys[0], ys[1], ys[2], ys[3], top[0], top[1], bottom[0], bottom[1]);
  }

  /** When no upper point lies below a lower one, sorting on y sorts each pair separately. */
  lemma SortFourSplit(a: IntPoint, b: IntPoint, c: IntPoint, d: IntPoint)
    requires a.y <= c.y && a.y <= d.y && b.y <= c.y && b.y <= d.y
    ensures StableSort([a, b, c, d], true) == StableSort([a, b], true) + StableSort([c, d], true)
  {
    SortPair(a, b, true);
    SortPair(c, d, true);
    assert [a, b, c, d][..3] == [a, b, c];
    assert [a, b, c][..2] == [a, b];
    var s := StableSort([a, b], true);
    assert StableSort([a, b, c], true) == s + [c];
    if c.y > d.y {
      assert InsertStable(s + [c], d, true) == InsertStable(s, d, true) + [c] by {
        assert (s + [c])[..2] == s;
      }
    }
  }

  /** A quad already in corner order is a fixed point of `ExtractQuad`. */
  lemma {:induction false} QuadFixed(a: IntPoint, b: IntPoint, c: IntPoint, d: IntPoint)
    requires a.y <= c.y && a.y <= d.y && b.y <= c.y && b.y <= d.y
    requires a.x <= b.x && d.x <= c.x
    requires a.x == b.x ==> a.y <= b.y
    requires d.x == c.x ==> d.y <= c.y
    ensures ExtractQuad([a, b, c, d]) == [a, b, c, d]
  {
    SortFourSplit(a, b, c, d);
    SortPair(a, b, true);
    SortPair(c, d, true);
    var ys := StableSort([a, b, c, d], true);
    if a.y <= b.y {
      assert ys[0] == a && ys[1] == b;
    } else {
      assert ys[0] == b && ys[1] == a;
    }
    SortPair(ys[0], ys[1], false);
    assert StableSort([ys[0], ys[1]], false) == [a, b];
    if c.y <= d.y {
      assert ys[2] == c && ys[3] == d;
      if c.x <= d.x {
        assert c == d;
      }
    } else {
      assert ys[2] == d && ys[3] == c;
    }
    SortPair(ys[2], ys[3], false);
    assert StableSort([ys[2], ys[3]], false) == [d, c];
  }

  /** Re-ordering an ordered quad leaves it as it is. */
  lemma {:induction false} ExtractQuadIdempotent(pts: seq<IntPoint>)
    requires |pts| == 4
    ensures ExtractQuad(ExtractQuad(pts)) == ExtractQuad(pts)
  {
    var q := ExtractQuad(pts);
    ExtractQuadOrdered(pts);
    QuadFixed(q[0], q[1], q[2], q[3]);
    assert q == [q[0], q[1], q[2], q[3]];
  }

  /**
   * The corners of the rectified raster that the board quad is mapped onto:
   * top-left, top-right, bottom-right, bottom-left of a `DstWidth` by
   * `DstHeight` image.
   */
  function TargetQuad(): seq<IntPoint> {
    [IntPoint(0, 0), IntPoint(DstWidth - 1, 0),
     IntPoint(DstWidth - 1, DstHeight - 1), IntPoint(0, DstHeight - 1)]
  }

  /**
   * The target corners of the 640 by 320 raster are in the order `ExtractQuad`
   * gives the board corners, so source corner k is sent to target corner k.
   */
  lemma TargetQuadOrdered()
    ensures TargetQuad()[2] == IntPoint(639, 319)
    ensures ExtractQuad(TargetQuad()) == TargetQuad()
  {
    var t := TargetQuad();
    QuadFixed(t[0], t[1], t[2], t[3]);
  }

  /**
   * What the analyzer does before sampling: `None` for each of the early
   * `return []` exits (no predictions, no contour of positive area, an
   * approximation that is not a quadrilateral), else the ordered board quad.
   */
  function BoardQuad(env: Env, predictions: Option<seq<Prediction>>): (q: Option<seq<IntPoint>>)
    ensures q.Some? ==> |q.value| == 4
  {
    if predictions.None? || |predictions.value| == 0 then None
    else
      var contours := env.findContours(predictions.value[0].points);
      var board := LargestContour(Areas(env, contours));
      if board.None? then None
      else
        var approx := env.approxPolyDP(contours[board.value]);
        if |approx| != 4 then None else Some(ExtractQuad(approx))
  }

  /**
   * No predictions, or no contour of positive area, yields no board. With a
   * contour chosen (the first of largest positive area), there is a board
   * exactly when its approximation has four vertices, and the board is that
   * approximation ordered; a later contour of equal area is never tried.
   */
  lemma {:induction false} BoardQuadChoice(env: Env, predictions: Option<seq<Prediction>>)
    ensures predictions.None? || |predictions.value| == 0 ==> BoardQuad(env, predictions).None?
    ensures predictions.Some? && |predictions.value| > 0 ==>
      var contours := env.findContours(predictions.value[0].points);
      var k := LargestContour(Areas(env, contours));
      && (BoardQuad(env, predictions).Some? <==>
            k.Some? && |env.approxPolyDP(contours[k.value])| == 4)
      && (BoardQuad(env, predictions).Some? ==>
            BoardQuad(env, predictions).value == ExtractQuad(env.approxPolyDP(contours[k.value])))
    ensures predictions.Some? && |predictions.value| > 0 ==>
      var contours := env.findContours(predictions.value[0].points);
      && ((forall i :: 0 <= i < |contours| ==> env.contourArea(contours[i]) <= 0.0) ==>
            BoardQuad(env, predictions).None?)
      && (BoardQuad(env, predictions).Some? ==>
            exists k :: 0 <= k < |contours|
              && env.contourArea(contours[k]) > 0.0
              && (forall i :: 0 <= i < |contours| ==> env.contourArea(contours[i]) <= env.contourArea(contours[k]))
              && |env.approxPolyDP(contours[k])| == 4
              && BoardQuad(env, predictions).value == ExtractQuad(env.approxPolyDP(contours[k])))
  {
    if predictions.Some? && |predictions.value| > 0 {
      var contours := env.findContours(predictions.value[0].points);
      var areas := Areas(env, contours);
      var board := LargestContour(areas);
      if forall i :: 0 <= i < |contours| ==> env.contourArea(contours[i]) <= 0.0 {
        assert forall i :: 0 <= i < |areas| ==> areas[i] <= 0.0;
      }
      if BoardQuad(env, predictions).Some? {
        var k := board.value;
        assert forall i :: 0 <= i < |contours| ==> env.contourArea(contours[i]) == areas[i];
        assert env.contourArea(contours[k]) > 0.0;
      }
    }
  }

  // ---------------------------------------------------------------------------
  // Grid geometry
  // ---------------------------------------------------------------------------

  /**
   * The region of interest of cell (r, c): `Math.round` of the cell origin
   * plus the inset, with `cellW = warped.cols / cols` and
   * `cellH = warped.rows / rows` for the 640 x 320 rectified raster.
   */
  function CellRoi(r: int, c: int): (roi: Rect)
    ensures roi == Rect(CellSize * c + Inset, CellSize * r + Inset,
                        CellSize - 2 * Inset, CellSize - 2 * Inset)
  {
    var cellW := DstWidth as real / Cols as real;
    var cellH := DstHeight as real / Rows as real;
    assert cellW == CellSize as real && cellH == CellSize as real;
    JsRoundOfInt(CellSize * c + Inset);
    JsRoundOfInt(CellSize * r + Inset);
    JsRoundOfInt(CellSize - 2 * Inset);
    Rect(JsRound(c as real * cellW + Inset as real),
         JsRound(r as real * cellH + Inset as real),
         JsRound(cellW - (Inset * 2) as real),
         JsRound(cellH - (Inset * 2) as real))
  }

  /** Every region of interest is a 16 x 16 square inside the rectified raster. */
  lemma CellRoiInsideRaster(r: int, c: int)
    requires 0 <= r < Rows && 0 <= c < Cols
    ensures var roi := CellRoi(r, c);
      && roi.w == 16 && roi.h == 16
      && 0 <= roi.x && roi.x + roi.w <= DstWidth
      && 0 <= roi.y && roi.y + roi.h <= DstHeight
  {
  }

  /** The rectangle handed to the inverse transform by `mapCellQuad`. */
  function CellCorners(x: int, y: int, w: int, h: int): seq<Point> {
    [Point(x as real, y as real), Point((x + w) as real, y as real),
     Point((x + w) as real, (y + h) as real), Point(x as real, (y + h) as real)]
  }

  /**
   * The corners of a cell's region are its top-left, top-right,
   * bottom-right and bottom-left corners in that order (y grows downwards),
   * all inside the rectified raster.
   */
  lemma CellCornersOrdered(r: int, c: int)
    requires 0 <= r < Rows && 0 <= c < Cols
    ensures var roi := CellRoi(r, c);
      var q := CellCorners(roi.x, roi.y, roi.w, roi.h);
      && |q| == 4
      && (forall k :: 0 <= k < 4 ==>
            0.0 <= q[k].x <= DstWidth as real && 0.0 <= q[k].y <= DstHeight as real)
      && q[0].x == q[3].x < q[1].x == q[2].x
      && q[0].y == q[1].y < q[2].y == q[3].y
  {
  }

  /** `mapCellQuad`: the region's corners carried back into the source image. */
  function MapCellQuad(toSource: (seq<IntPoint>, Point) -> Point, srcQuad: seq<IntPoint>,
                       x: int, y: int, w: int, h: int): (quad: seq<Point>)
    ensures |quad| == 4
    ensures forall k :: 0 <= k < 4 ==> quad[k] == toSource(srcQuad, CellCorners(x, y, w, h)[k])
  {
    var pts := CellCorners(x, y, w, h);
    [toSource(srcQuad, pts[0]), toSource(srcQuad, pts[1]),
     toSource(srcQuad, pts[2]), toSource(srcQuad, pts[3])]
  }

  // ---------------------------------------------------------------------------
  // Colour matching
  // ---------------------------------------------------------------------------

  function Distances(deltaE: (Lab, Rgb) -> real, lab: Lab, palette: seq<LegoColor>): seq<real> {
    seq(|palette|, i requires 0 <= i < |palette| => deltaE(lab, palette[i].rgb))
  }

  /** The index a left-to-right scan with a strict `<` keeps: the first minimum. */
  function FirstMin(ds: seq<real>): (k: nat)
    requires |ds| > 0
    ensures k < |ds|
    ensures forall i :: 0 <= i < |ds| ==> ds[k] <= ds[i]
    ensures forall i :: 0 <= i < k ==> ds[k] < ds[i]
  {
    if |ds| == 1 then 0
    else
      var k := FirstMin(ds[..|ds| - 1]);
      if ds[|ds| - 1] < ds[k] then |ds| - 1 else k
  }

  /** The name `matchColor` returns: the first closest palette entry, or "Unknown" for an empty palette. */
  function ClosestName(palette: seq<LegoColor>, ds: seq<real>): string
    requires |ds| == |palette|
  {
    if |palette| == 0 then "Unknown" else palette[FirstMin(ds)].name
  }

  /**
   * `matchColor`: a linear scan keeping the entry with the strictly smallest
   * distance seen so far, starting from `minE = Infinity`.
   */
  method MatchColor(palette: seq<LegoColor>, deltaE: (Lab, Rgb) -> real, lab: Lab)
    returns (name: string)
    ensures name == ClosestName(palette, Distances(deltaE, lab, palette))
  {
    ghost var ds := Distances(deltaE, lab, palette);
    var best: Option<LegoColor> := None;
    var minE := Infinity;
    for i := 0 to |palette|
      invariant best.None? <==> i == 0
      invariant i > 0 ==> best == Some(palette[FirstMin(ds[..i])])
      invariant i > 0 ==> minE == Finite(ds[FirstMin(ds[..i])])
      invariant i == 0 ==> minE == Infinity
    {
      var d := deltaE(lab, palette[i].rgb);
      assert ds[..i + 1][..i] == ds[..i];
      if Below(d, minE) {
        minE := Finite(d);
        best := Some(palette[i]);
      }
    }
    assert ds[..|palette|] == ds;
    name := if best.Some? then best.value.name else "Unknown";
  }

  /** The name is that of a palette entry at minimal distance, preceded only by strictly farther ones. */
  lemma ClosestNameIsFirstMinimum(palette: seq<LegoColor>, ds: seq<real>)
    requires |ds| == |palette| > 0
    ensures exists k :: (0 <= k < |palette| && ClosestName(palette, ds) == palette[k].name
      && (forall i :: 0 <= i < |ds| ==> ds[k] <= ds[i])
      && (forall i :: 0 <= i < k ==> ds[k] < ds[i]))
  {
    var k := FirstMin(ds);
    assert ClosestName(palette, ds) == palette[k].name;
  }

  /**
   * An exact sample of a palette colour (distance 0, every other distance
   * non-negative, every earlier one positive) is named after that colour.
   */
  lemma ExactSampleMatches(palette: seq<LegoColor>, ds: seq<real>, j: nat)
    requires |ds| == |palette| && j < |palette|
    requires ds[j] == 0.0
    requires forall i :: 0 <= i < |ds| ==> ds[i] >= 0.0
    requires forall i :: 0 <= i < j ==> ds[i] > 0.0
    ensures ClosestName(palette, ds) == palette[j].name
  {
    var k := FirstMin(ds);
    assert ds[k] <= ds[j];
  }

  // ---------------------------------------------------------------------------
  // The pipeline
  // ---------------------------------------------------------------------------

  /** The result for cell (r, c) of the board quad `srcQuad`. */
  function GridCell(env: Env, palette: seq<LegoColor>, srcQuad: seq<IntPoint>, r: int, c: int)
    : CellColorResult
  {
    var roi := CellRoi(r, c);
    CellColorResult(r, c,
      ClosestName(palette, Distances(env.deltaE, env.cellMean(srcQuad, roi), palette)),
      MapCellQuad(env.toSource, srcQuad, roi.x, roi.y, roi.w, roi.h))
  }

  /**
   * The contour selection loop of `analyze`: keep the contour of strictly
   * largest area seen so far, starting from `maxArea = 0`.
   */
  method SelectBoardContour(env: Env, contours: seq<Contour>) returns (boardContour: Option<Contour>)
    ensures var k := LargestContour(Areas(env, contours));
      && (k.None? ==> boardContour.None?)
      && (k.Some? ==> boardContour == Some(contours[k.value]))
  {
    ghost var areas := Areas(env, contours);
    boardContour := None;
    var maxArea := 0.0;
    for i := 0 to |contours|
      invariant var k := LargestContour(areas[..i]);
        && (k.None? ==> boardContour.None? && maxArea == 0.0)
        && (k.Some? ==> boardContour == Some(contours[k.value]) && maxArea == areas[k.value])
    {
      var area := env.contourArea(contours[i]);
      assert areas[..i + 1][..i] == areas[..i];
      if area > maxArea {
        maxArea := area;
        boardContour := Some(contours[i]);
      }
    }
    assert areas[..|contours|] == areas;
  }

  /**
   * The sampling loops of `analyze`: every cell of the 16 x 32 grid, row by
   * row, with its region of interest rounded as `Math.round` rounds.
   */
  method SampleGrid(env: Env, palette: seq<LegoColor>, srcQuad: seq<IntPoint>)
    returns (results: seq<CellColorResult>)
    ensures |results| == Rows * Cols
    ensures forall r, c :: 0 <= r < Rows && 0 <= c < Cols ==>
      results[r * Cols + c] == GridCell(env, palette, srcQuad, r, c)
  {
    var dstWidth := Cols * CellSize;
    var dstHeight := Rows * CellSize;
    results := [];
    var cellW := dstWidth as real / Cols as real;
    var cellH := dstHeight as real / Rows as real;
    var inset := Inset;
    for r := 0 to Rows
      invariant |results| == r * Cols
      invariant forall r', c' :: 0 <= r' < r && 0 <= c' < Cols ==>
        results[r' * Cols + c'] == GridCell(env, palette, srcQuad, r', c')
    {
      for c := 0 to Cols
        invariant |results| == r * Cols + c
        invariant forall r', c' :: 0 <= r' < r && 0 <= c' < Cols ==>
          results[r' * Cols + c'] == GridCell(env, palette, srcQuad, r', c')
        invariant forall c' :: 0 <= c' < c ==>
          results[r * Cols + c'] == GridCell(env, palette, srcQuad, r, c')
      {
        var x := JsRound(c as real * cellW + inset as real);
        var y := JsRound(r as real * cellH + inset as real);
        var w := JsRound(cellW - (inset * 2) as real);
        var h := JsRound(cellH - (inset * 2) as real);
        assert Rect(x, y, w, h) == CellRoi(r, c);
        var mean := env.cellMean(srcQuad, Rect(x, y, w, h));
        var colorName := MatchColor(palette, env.deltaE, mean);
        var quad := MapCellQuad(env.toSource, srcQuad, x, y, w, h);
        results := results + [CellColorResult(r, c, colorName, quad)];
      }
    }
  }

  /**
   * `analyze`, with the segmentation service's answer as a parameter
   * (`None` for a null answer). Returns the empty sequence on every early
   * exit, else one result per cell in row-major order.
   */
  method Analyze(env: Env, palette: seq<LegoColor>, predictions: Option<seq<Prediction>>)
    returns (results: seq<CellColorResult>)
    ensures BoardQuad(env, predictions).None? ==> results == []
    ensures BoardQuad(env, predictions).Some? ==>
      && |results| == Rows * Cols
      && forall r, c :: 0 <= r < Rows && 0 <= c < Cols ==>
           results[r * Cols + c] == GridCell(env, palette, BoardQuad(env, predictions).value, r, c)
  {
    if predictions.None? || |predictions.value| == 0 {
      return [];
    }
    var contours := env.findContours(predictions.value[0].points);
    var boardContour := SelectBoardContour(env, contours);
    if boardContour.None? {
      return [];
    }
    var approx := env.approxPolyDP(boardContour.value);
    if |approx| != 4 {
      return [];
    }
    var srcQuad := ExtractQuad(approx);
    assert BoardQuad(env, predictions) == Some(srcQuad);
    results := SampleGrid(env, palette, srcQuad);
  }

  /** On success every cell appears once, at index row * cols + col. */
  lemma GridRowMajor(env: Env, palette: seq<LegoColor>, srcQuad: seq<IntPoint>, i: int)
    requires 0 <= i < Rows * Cols
    ensures var cell := GridCell(env, palette, srcQuad, i / Cols, i % Cols);
      cell.row * Cols + cell.col == i && 0 <= cell.row < Rows && 0 <= cell.col < Cols
  {
  }
}
