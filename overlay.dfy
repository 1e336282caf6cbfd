/**
 * The overlay that `VisionApp.draw` paints over the camera image: the
 * analyzer's cells are bucketed by row and then by colour (two nested
 * JavaScript `Map`s), each bucket's cell corners are wrapped in a convex
 * hull outlined in the colour's stroke, and a label is centred in the
 * hull's bounding box. The canvas itself is not modelled; `Draw` returns
 * the outlines it would stroke, in the order it strokes them.
 */
module Overlay {
  import opened Wrappers
  import opened Geometry
  import opened OrderedMap
  import opened LegoBoardAnalyzer
  import opened ConvexHull

  type Cell = CellColorResult

  /** The inner map of `draw`: colour name to the cells of that colour. */
  type ByColor = seq<(string, seq<Cell>)>

  /** The outer map of `draw`: row index to that row's colour buckets. */
  type Grouped = seq<(int, ByColor)>

  // ---------------------------------------------------------------------------
  // Grouping
  // ---------------------------------------------------------------------------

  /** One iteration of the grouping loop: append `c` to its (row, colour) bucket. */
  function AddCell(g: Grouped, c: Cell): Grouped {
    var byColor := GetOr(g, c.row, []);
    Set(g, c.row, Set(byColor, c.color, GetOr(byColor, c.color, []) + [c]))
  }

  /** The grouping built from `cells`, one cell at a time in input order. */
  function Grouping(cells: seq<Cell>): Grouped {
    if |cells| == 0 then [] else AddCell(Grouping(cells[..|cells| - 1]), cells[|cells| - 1])
  }

  /**
   * The grouping loop of `draw`. A row seen for the first time gets a fresh
   * inner map, stored in the outer map at once; the inner map is then
   * updated through the same reference, which is the write-back below.
   */
  method GroupCells(cells: seq<Cell>) returns (grouped: Grouped)
    ensures grouped == Grouping(cells)
  {
    grouped := [];
    for i := 0 to |cells|
      invariant grouped == Grouping(cells[..i])
    {
      grouped := GroupOne(grouped, cells[i]);
      assert cells[..i + 1][..i] == cells[..i];
    }
    assert cells[..|cells|] == cells;
  }

  /** The body of the grouping loop for one cell. */
  method GroupOne(grouped: Grouped, cell: Cell) returns (after: Grouped)
    ensures after == AddCell(grouped, cell)
  {
    after := grouped;
    var found := Get(after, cell.row);
    var byColor: ByColor;
    if found.None? {
      byColor := [];
      after := Set(after, cell.row, byColor);
    } else {
      byColor := found.value;
    }
    var colorList := GetOr(byColor, cell.color, []);
    colorList := colorList + [cell];
    byColor := Set(byColor, cell.color, colorList);
    SetSet(grouped, cell.row, [], byColor);
    after := Set(after, cell.row, byColor);
  }

  /** `grouped.get(row)?.get(color)`, or no cells. */
  function Bucket(g: Grouped, row: int, color: string): seq<Cell> {
    GetOr(GetOr(g, row, []), color, [])
  }

  /** The cells of one row and colour, in input order. */
  function Matching(cells: seq<Cell>, row: int, color: string): (r: seq<Cell>)
    ensures forall x :: x in r <==> x in cells && x.row == row && x.color == color
  {
    if |cells| == 0 then []
    else
      var init := cells[..|cells| - 1];
      var last := cells[|cells| - 1];
      assert cells == init + [last];
      Matching(init, row, color) + (if last.row == row && last.color == color then [last] else [])
  }

  /** The cells of one row, in input order. */
  function InRow(cells: seq<Cell>, row: int): (r: seq<Cell>)
    ensures forall x :: x in r <==> x in cells && x.row == row
  {
    if |cells| == 0 then []
    else
      var init := cells[..|cells| - 1];
      var last := cells[|cells| - 1];
      assert cells == init + [last];
      InRow(init, row) + (if last.row == row then [last] else [])
  }

  function Rows(cells: seq<Cell>): seq<int> {
    seq(|cells|, i requires 0 <= i < |cells| => cells[i].row)
  }

  function Colors(cells: seq<Cell>): seq<string> {
    seq(|cells|, i requires 0 <= i < |cells| => cells[i].color)
  }

  function Pairs(cells: seq<Cell>): seq<(int, string)> {
    seq(|cells|, i requires 0 <= i < |cells| => (cells[i].row, cells[i].color))
  }

  /** The distinct elements of `xs` in order of first occurrence. */
  function Dedup<T(==,!new)>(xs: seq<T>): (r: seq<T>)
    ensures Distinct(r)
    ensures forall x :: x in r <==> x in xs
  {
    if |xs| == 0 then []
    else
      var d := Dedup(xs[..|xs| - 1]);
      assert xs == xs[..|xs| - 1] + [xs[|xs| - 1]];
      if xs[|xs| - 1] in d then d else d + [xs[|xs| - 1]]
  }

  lemma DedupSnoc<T(!new)>(xs: seq<T>, x: T)
    ensures Dedup(xs + [x]) == if x in Dedup(xs) then Dedup(xs) else Dedup(xs) + [x]
  {
    assert (xs + [x])[..|xs|] == xs;
  }

  /** Adding a cell appends it to its own bucket and to no other. */
  lemma BucketAddCell(g: Grouped, c: Cell, row: int, color: string)
    ensures Bucket(AddCell(g, c), row, color)
         == Bucket(g, row, color) + (if row == c.row && color == c.color then [c] else [])
  {
    var b := GetOr(g, c.row, []);
    var list := GetOr(b, c.color, []) + [c];
    var b' := Set(b, c.color, list);
    if row == c.row {
      SetGet(g, c.row, b');
      if color == c.color {
        SetGet(b, c.color, list);
      } else {
        SetOther(b, c.color, list, color);
      }
    } else {
      SetOther(g, c.row, b', row);
    }
  }

  /**
   * Every (row, colour) bucket holds exactly the input cells of that row and
   * colour, in input order: each cell lands in one bucket, its own.
   */
  lemma {:induction false} GroupingBuckets(cells: seq<Cell>, row: int, color: string)
    ensures Bucket(Grouping(cells), row, color) == Matching(cells, row, color)
  {
    if |cells| > 0 {
      var init := cells[..|cells| - 1];
      GroupingBuckets(init, row, color);
      BucketAddCell(Grouping(init), cells[|cells| - 1], row, color);
    }
  }

  /** A cell is in a bucket exactly when the bucket is keyed by its row and colour. */
  lemma OneBucket(cells: seq<Cell>, c: Cell, row: int, color: string)
    requires c in cells
    ensures c in Bucket(Grouping(cells), row, color) <==> row == c.row && color == c.color
  {
    GroupingBuckets(cells, row, color);
  }

  /** The outer map iterates the rows in order of their first cell. */
  lemma {:induction false} GroupingRows(cells: seq<Cell>)
    ensures Keys(Grouping(cells)) == Dedup(Rows(cells))
  {
    if |cells| > 0 {
      var init := cells[..|cells| - 1];
      GroupingRows(init);
      assert Rows(cells)[..|cells| - 1] == Rows(init);
    }
  }

  /** Adding a cell adds its colour to its own row's colours, if new, and changes no other row. */
  lemma ColorKeysAddCell(g: Grouped, c: Cell, row: int)
    ensures var before := Keys(GetOr(g, row, []));
      Keys(GetOr(AddCell(g, c), row, []))
      == if row != c.row || c.color in before then before else before + [c.color]
  {
    var b := GetOr(g, c.row, []);
    var b' := Set(b, c.color, GetOr(b, c.color, []) + [c]);
    if row == c.row {
      SetGet(g, c.row, b');
    } else {
      SetOther(g, c.row, b', row);
    }
  }

  lemma RowColorsStep(cells: seq<Cell>, row: int)
    requires |cells| > 0
    ensures var init := cells[..|cells| - 1];
      var c := cells[|cells| - 1];
      Colors(InRow(cells, row))
      == Colors(InRow(init, row)) + (if c.row == row then [c.color] else [])
  {
  }

  /** Each row's inner map iterates its colours in order of their first cell in that row. */
  lemma {:induction false} GroupingColors(cells: seq<Cell>, row: int)
    ensures Keys(GetOr(Grouping(cells), row, [])) == Dedup(Colors(InRow(cells, row)))
  {
    if |cells| > 0 {
      var init := cells[..|cells| - 1];
      var c := cells[|cells| - 1];
      GroupingColors(init, row);
      assert Grouping(cells) == AddCell(Grouping(init), c);
      ColorKeysAddCell(Grouping(init), c, row);
      RowColorsStep(cells, row);
      var before := Keys(GetOr(Grouping(init), row, []));
      var xs := Colors(InRow(init, row));
      assert before == Dedup(xs);
      if c.row == row {
        assert Colors(InRow(cells, row)) == xs + [c.color];
        DedupSnoc(xs, c.color);
        assert Keys(GetOr(Grouping(cells), row, []))
            == if c.color in before then before else before + [c.color];
      } else {
        assert Colors(InRow(cells, row)) == xs;
      }
    }
  }

  /** Every bucket in `g` holds at least one cell, and only cells of `cells`. */
  ghost predicate FilledFrom(g: Grouped, cells: seq<Cell>) {
    forall e, f :: e in g && f in e.1 ==> f.1 != [] && forall x :: x in f.1 ==> x in cells
  }

  lemma {:induction false} GroupingFilled(cells: seq<Cell>)
    ensures FilledFrom(Grouping(cells), cells)
  {
    if |cells| > 0 {
      var init := cells[..|cells| - 1];
      var c := cells[|cells| - 1];
      var g := Grouping(init);
      GroupingFilled(init);
      var b := GetOr(g, c.row, []);
      var list := GetOr(b, c.color, []) + [c];
      var b' := Set(b, c.color, list);
      SetMembers(g, c.row, b');
      SetMembers(b, c.color, list);
      assert b == [] || (c.row, b) in g;
      assert GetOr(b, c.color, []) == [] || (c.color, GetOr(b, c.color, [])) in b;
      forall e, f | e in AddCell(g, c) && f in e.1
        ensures f.1 != [] && forall x :: x in f.1 ==> x in cells
      {
        if e == (c.row, b') && f !in b {
          assert f == (c.color, list);
        }
      }
    }
  }

  /** The number of (row, colour) buckets. */
  function Size(g: Grouped): nat {
    if |g| == 0 then 0 else Size(g[..|g| - 1]) + |g[|g| - 1].1|
  }

  lemma {:induction false} SizeSet(g: Grouped, k: int, b: ByColor)
    ensures Size(Set(g, k, b)) + |GetOr(g, k, [])| == Size(g) + |b|
  {
    if |g| > 0 {
      var init := g[..|g| - 1];
      var last := g[|g| - 1];
      assert Keys(g) == Keys(init) + [last.0];
      if last.0 == k {
        assert (init + [(k, b)])[..|g| - 1] == init;
      } else if k !in Keys(init) {
        assert (g + [(k, b)])[..|g|] == g;
      } else {
        SizeSet(init, k, b);
        var r := Set(init, k, b) + [last];
        assert r[..|r| - 1] == Set(init, k, b);
      }
    }
  }

  /** Adding a cell opens one new bucket exactly when its own bucket was empty. */
  lemma SizeAddCell(g: Grouped, c: Cell, cells: seq<Cell>)
    requires FilledFrom(g, cells)
    ensures Size(AddCell(g, c)) == Size(g) + (if Bucket(g, c.row, c.color) == [] then 1 else 0)
  {
    var b := GetOr(g, c.row, []);
    var b' := Set(b, c.color, GetOr(b, c.color, []) + [c]);
    SizeSet(g, c.row, b');
    assert b == [] || (c.row, b) in g;
    if c.color in Keys(b) {
      assert (c.color, GetOr(b, c.color, [])) in b;
    }
  }

  /** A (row, colour) pair has cells exactly when it occurs among the pairs. */
  lemma MatchingEmpty(cells: seq<Cell>, row: int, color: string)
    ensures Matching(cells, row, color) == [] <==> (row, color) !in Pairs(cells)
  {
    var m := Matching(cells, row, color);
    if m != [] {
      var i :| 0 <= i < |cells| && cells[i] == m[0];
      assert Pairs(cells)[i] == (row, color);
    }
    if (row, color) in Pairs(cells) {
      var i :| 0 <= i < |cells| && Pairs(cells)[i] == (row, color);
      assert cells[i] in m;
    }
  }

  lemma PairsSnoc(cells: seq<Cell>)
    requires |cells| > 0
    ensures var c := cells[|cells| - 1];
      Pairs(cells) == Pairs(cells[..|cells| - 1]) + [(c.row, c.color)]
  {
  }

  /** There are as many buckets as distinct (row, colour) pairs among the cells. */
  lemma {:induction false} GroupingSize(cells: seq<Cell>)
    ensures Size(Grouping(cells)) == |Dedup(Pairs(cells))|
  {
    if |cells| > 0 {
      var init := cells[..|cells| - 1];
      var c := cells[|cells| - 1];
      var g := Grouping(init);
      var pair := (c.row, c.color);
      GroupingSize(init);
      GroupingFilled(init);
      SizeAddCell(g, c, init);
      GroupingBuckets(init, c.row, c.color);
      MatchingEmpty(init, c.row, c.color);
      assert Size(Grouping(cells)) == Size(g) + (if pair in Pairs(init) then 0 else 1);
      PairsSnoc(cells);
      DedupSnoc(Pairs(init), pair);
    }
  }

  // ---------------------------------------------------------------------------
  // Stroke colour
  // ---------------------------------------------------------------------------

  /** A stroke style: the CSS text `rgb(r, g, b)` of a palette colour, or `'#f00'`. */
  datatype Stroke = Css(rgb: Rgb) | Fallback

  /** `colorMap`: palette name to colour, built entry by entry as the `Map` constructor does. */
  function ColorMap(palette: seq<LegoColor>): seq<(string, Rgb)> {
    if |palette| == 0 then []
    else
      var last := palette[|palette| - 1];
      Set(ColorMap(palette[..|palette| - 1]), last.name, last.rgb)
  }

  /** `colorMap.get(color) || '#f00'`. */
  function StrokeColor(palette: seq<LegoColor>, color: string): Stroke {
    match Get(ColorMap(palette), color)
    case Some(rgb) => Css(rgb)
    case None => Fallback
  }

  /**
   * The stroke is the colour of the LAST palette entry of that name (a later
   * entry overwrites an earlier one in the `Map`), and red only when no entry
   * has the name.
   */
  lemma {:induction false} StrokeColorLast(palette: seq<LegoColor>, color: string)
    ensures StrokeColor(palette, color).Css? <==>
      exists i :: 0 <= i < |palette| && palette[i].name == color
    ensures StrokeColor(palette, color).Css? ==>
      exists i :: 0 <= i < |palette| && palette[i].name == color
        && palette[i].rgb == StrokeColor(palette, color).rgb
        && forall j :: i < j < |palette| ==> palette[j].name != color
  {
    if |palette| > 0 {
      var n := |palette|;
      var init := palette[..n - 1];
      var last := palette[n - 1];
      if last.name == color {
        SetGet(ColorMap(init), last.name, last.rgb);
        assert palette[n - 1].name == color && palette[n - 1].rgb == StrokeColor(palette, color).rgb;
      } else {
        SetOther(ColorMap(init), last.name, last.rgb, color);
        assert StrokeColor(palette, color) == StrokeColor(init, color);
        StrokeColorLast(init, color);
        assert forall i :: 0 <= i < n - 1 ==> init[i] == palette[i];
        if StrokeColor(init, color).Css? {
          var i :| 0 <= i < n - 1 && init[i].name == color
            && init[i].rgb == StrokeColor(init, color).rgb
            && forall j :: i < j < n - 1 ==> init[j].name != color;
          assert palette[i].name == color;
          assert forall j :: i < j < n ==> palette[j].name != color;
        } else {
          forall i | 0 <= i < n
            ensures palette[i].name != color
          {
            if i < n - 1 {
              assert init[i] == palette[i];
            }
          }
        }
      }
    }
  }

  // ---------------------------------------------------------------------------
  // Label placement
  // ---------------------------------------------------------------------------

  datatype Box = Box(minX: real, maxX: real, minY: real, maxY: real)

  predicate InBox(b: Box, p: Point) {
    b.minX <= p.x <= b.maxX && b.minY <= p.y <= b.maxY
  }

  function Min(a: real, b: real): real {
    if a <= b then a else b
  }

  function Max(a: real, b: real): real {
    if a >= b then a else b
  }

  /** One iteration of the bounding-box loop. */
  function Extend(b: Box, p: Point): Box {
    Box(Min(b.minX, p.x), Max(b.maxX, p.x), Min(b.minY, p.y), Max(b.maxY, p.y))
  }

  /**
   * The box `b` widened over `ps`: it contains `b` and every point, and each
   * of its bounds is a bound of `b` or a coordinate of one of the points.
   */
  function BoxOver(b: Box, ps: seq<Point>): (r: Box)
    ensures r.minX <= b.minX && b.maxX <= r.maxX && r.minY <= b.minY && b.maxY <= r.maxY
    ensures forall p :: p in ps ==> InBox(r, p)
    ensures r.minX == b.minX || exists p :: p in ps && p.x == r.minX
    ensures r.maxX == b.maxX || exists p :: p in ps && p.x == r.maxX
    ensures r.minY == b.minY || exists p :: p in ps && p.y == r.minY
    ensures r.maxY == b.maxY || exists p :: p in ps && p.y == r.maxY
  {
    if |ps| == 0 then b
    else
      var init := ps[..|ps| - 1];
      assert ps == init + [ps[|ps| - 1]];
      Extend(BoxOver(b, init), ps[|ps| - 1])
  }

  /** The loop's starting box: the first hull point. */
  function StartBox(p: Point): Box {
    Box(p.x, p.x, p.y, p.y)
  }

  /** The bounding box of a hull, as `draw` computes it. */
  function BoundingBoxOf(hull: seq<Point>): Box
    requires |hull| >= 1
  {
    BoxOver(StartBox(hull[0]), hull)
  }

  /** The box holds every hull point, and each of its four bounds is met by one. */
  lemma BoundingBoxTight(hull: seq<Point>)
    requires |hull| >= 1
    ensures var b := BoundingBoxOf(hull);
      && (forall p :: p in hull ==> InBox(b, p))
      && (exists p :: p in hull && p.x == b.minX)
      && (exists p :: p in hull && p.x == b.maxX)
      && (exists p :: p in hull && p.y == b.minY)
      && (exists p :: p in hull && p.y == b.maxY)
  {
    assert hull[0] in hull;
  }

  /** The min/max loop of `draw` over the hull points. */
  method BoundingBox(hull: seq<Point>) returns (box: Box)
    requires |hull| >= 1
    ensures box == BoundingBoxOf(hull)
  {
    var minX, maxX := hull[0].x, hull[0].x;
    var minY, maxY := hull[0].y, hull[0].y;
    for i := 0 to |hull|
      invariant Box(minX, maxX, minY, maxY) == BoxOver(StartBox(hull[0]), hull[..i])
    {
      var point := hull[i];
      minX := Min(minX, point.x);
      maxX := Max(maxX, point.x);
      minY := Min(minY, point.y);
      maxY := Max(maxY, point.y);
      assert hull[..i + 1][..i] == hull[..i];
    }
    assert hull[..|hull|] == hull;
    box := Box(minX, maxX, minY, maxY);
  }

  /** The label anchor: the midpoint of the box. */
  function Centre(b: Box): (c: Point)
    ensures c.x - b.minX == b.maxX - c.x && c.y - b.minY == b.maxY - c.y
  {
    Point((b.minX + b.maxX) / 2.0, (b.minY + b.maxY) / 2.0)
  }

  /** The centre of a non-empty box lies inside it. */
  lemma CentreInBox(b: Box)
    requires b.minX <= b.maxX && b.minY <= b.maxY
    ensures InBox(b, Centre(b))
  {
  }

  // ---------------------------------------------------------------------------
  // Outlines
  // ---------------------------------------------------------------------------

  /** What `draw` paints for one bucket: the hull outline, its stroke and the label anchor. */
  datatype Outline = Outline(row: int, color: string, stroke: Stroke, hull: seq<Point>,
                             box: Box, centre: Point)

  /** The `reduce` of `draw`: every corner of every cell of a bucket, in order. */
  function Points(cells: seq<Cell>): (pts: seq<Point>)
    ensures forall p :: p in pts ==> exists c :: c in cells && p in c.quad
    ensures forall c, p :: c in cells && p in c.quad ==> p in pts
  {
    if |cells| == 0 then []
    else
      var init := cells[..|cells| - 1];
      assert cells == init + [cells[|cells| - 1]];
      assert forall c :: c in cells ==> c in init || c == cells[|cells| - 1];
      Points(init) + cells[|cells| - 1].quad
  }

  /** Four corners per cell. */
  lemma {:induction false} PointsLength(cells: seq<Cell>)
    requires forall c :: c in cells ==> |c.quad| == 4
    ensures |Points(cells)| == 4 * |cells|
  {
    if |cells| > 0 {
      var init := cells[..|cells| - 1];
      assert forall c :: c in init ==> c in cells;
      PointsLength(init);
    }
  }

  lemma HullNonEmpty(pts: seq<Point>)
    requires |pts| >= 1
    ensures |Hull(pts)| >= 1
  {
    if |pts| > 3 {
      HullStartsAtLeast(pts);
    }
  }

  /** One bucket's outline, or none when it has fewer than three corners. */
  function GroupOutlines(palette: seq<LegoColor>, row: int, color: string, cells: seq<Cell>)
    : seq<Outline>
  {
    var pts := Points(cells);
    if |pts| < 3 then []
    else
      HullNonEmpty(pts);
      var hull := Hull(pts);
      var box := BoundingBoxOf(hull);
      [Outline(row, color, StrokeColor(palette, color), hull, box, Centre(box))]
  }

  function RowOutlines(palette: seq<LegoColor>, row: int, byColor: ByColor): seq<Outline> {
    if |byColor| == 0 then []
    else
      var last := byColor[|byColor| - 1];
      RowOutlines(palette, row, byColor[..|byColor| - 1]) + GroupOutlines(palette, row, last.0, last.1)
  }

  /** The outlines of all buckets, rows in outer-map order and colours in inner-map order. */
  function Outlines(palette: seq<LegoColor>, g: Grouped): seq<Outline> {
    if |g| == 0 then []
    else
      var last := g[|g| - 1];
      Outlines(palette, g[..|g| - 1]) + RowOutlines(palette, last.0, last.1)
  }

  /** One bucket of `draw`: skip it below three corners, else hull, box and centre. */
  method DrawGroup(palette: seq<LegoColor>, row: int, color: string, cellsInGroup: seq<Cell>)
    returns (drawn: seq<Outline>)
    ensures drawn == GroupOutlines(palette, row, color, cellsInGroup)
  {
    var stroke := StrokeColor(palette, color);
    var pts := Points(cellsInGroup);
    if |pts| < 3 {
      return [];
    }
    var points := new Point[|pts|](k requires 0 <= k < |pts| => pts[k]);
    assert points[..] == pts;
    var hull := ConvexHull.ConvexHull(points);
    HullNonEmpty(pts);
    var box := BoundingBox(hull);
    drawn := [Outline(row, color, stroke, hull, box, Centre(box))];
  }

  /** The inner loop of `draw`, over one row's colour buckets. */
  method DrawRow(palette: seq<LegoColor>, row: int, colorGroups: ByColor)
    returns (drawn: seq<Outline>)
    ensures drawn == RowOutlines(palette, row, colorGroups)
  {
    drawn := [];
    for j := 0 to |colorGroups|
      invariant drawn == RowOutlines(palette, row, colorGroups[..j])
    {
      var (color, cellsInGroup) := colorGroups[j];
      assert colorGroups[..j + 1][..j] == colorGroups[..j];
      var group := DrawGroup(palette, row, color, cellsInGroup);
      drawn := drawn + group;
    }
    assert colorGroups[..|colorGroups|] == colorGroups;
  }

  /** The outer loop of `draw`, over the rows of the grouping. */
  method DrawGrouped(palette: seq<LegoColor>, grouped: Grouped) returns (outlines: seq<Outline>)
    ensures outlines == Outlines(palette, grouped)
  {
    outlines := [];
    for i := 0 to |grouped|
      invariant outlines == Outlines(palette, grouped[..i])
    {
      var (row, colorGroups) := grouped[i];
      assert grouped[..i + 1][..i] == grouped[..i];
      var drawn := DrawRow(palette, row, colorGroups);
      outlines := outlines + drawn;
    }
    assert grouped[..|grouped|] == grouped;
  }

  /** `draw` without the canvas: group the cells, then outline every bucket. */
  method Draw(palette: seq<LegoColor>, cells: seq<Cell>) returns (outlines: seq<Outline>)
    ensures outlines == Outlines(palette, Grouping(cells))
  {
    var grouped := GroupCells(cells);
    outlines := DrawGrouped(palette, grouped);
  }

  // ---------------------------------------------------------------------------
  // What `draw` paints
  // ---------------------------------------------------------------------------

  /** Every cell of every bucket of `g` has its four corners. */
  ghost predicate FourCorners(g: Grouped) {
    forall e, f, x :: e in g && f in e.1 && x in f.1 ==> |x.quad| == 4
  }

  lemma {:induction false} RowOutlinesCount(palette: seq<LegoColor>, row: int, b: ByColor)
    requires forall f, x :: f in b && x in f.1 ==> |x.quad| == 4
    requires forall f :: f in b ==> f.1 != []
    ensures |RowOutlines(palette, row, b)| == |b|
  {
    if |b| > 0 {
      var init := b[..|b| - 1];
      var last := b[|b| - 1];
      assert forall f :: f in init ==> f in b;
      RowOutlinesCount(palette, row, init);
      assert last in b;
      PointsLength(last.1);
    }
  }

  /** No bucket is skipped: one outline per bucket. */
  lemma {:induction false} OutlinesCount(palette: seq<LegoColor>, g: Grouped, cells: seq<Cell>)
    requires FilledFrom(g, cells) && FourCorners(g)
    ensures |Outlines(palette, g)| == Size(g)
  {
    if |g| > 0 {
      var init := g[..|g| - 1];
      var last := g[|g| - 1];
      assert forall e :: e in init ==> e in g;
      OutlinesCount(palette, init, cells);
      assert last in g;
      RowOutlinesCount(palette, last.0, last.1);
    }
  }

  /**
   * `draw` strokes one outline per distinct (row, colour) pair among the
   * cells: the `pts.length < 3` skip never fires for four-cornered cells.
   */
  lemma DrawCount(palette: seq<LegoColor>, cells: seq<Cell>)
    requires forall c :: c in cells ==> |c.quad| == 4
    ensures |Outlines(palette, Grouping(cells))| == |Dedup(Pairs(cells))|
  {
    GroupingFilled(cells);
    GroupingSize(cells);
    OutlinesCount(palette, Grouping(cells), cells);
  }

  /** An outline comes from one bucket: it is that bucket's hull, stroke, box and centre. */
  predicate OutlineOf(palette: seq<LegoColor>, o: Outline, row: int, color: string, list: seq<Cell>) {
    && o.row == row && o.color == color
    && o.stroke == StrokeColor(palette, color)
    && o.hull == Hull(Points(list))
    && |o.hull| >= 1
    && o.box == BoundingBoxOf(o.hull)
    && o.centre == Centre(o.box)
  }

  lemma {:induction false} RowOutlinesFrom(palette: seq<LegoColor>, row: int, b: ByColor, o: Outline)
    requires o in RowOutlines(palette, row, b)
    ensures exists f :: f in b && OutlineOf(palette, o, row, f.0, f.1)
  {
    var init := b[..|b| - 1];
    var last := b[|b| - 1];
    if o in RowOutlines(palette, row, init) {
      RowOutlinesFrom(palette, row, init, o);
      var f :| f in init && OutlineOf(palette, o, row, f.0, f.1);
      assert f in b;
    } else {
      assert last in b && OutlineOf(palette, o, row, last.0, last.1);
    }
  }

  lemma {:induction false} OutlinesFrom(palette: seq<LegoColor>, g: Grouped, o: Outline)
    requires o in Outlines(palette, g)
    ensures exists e, f :: e in g && f in e.1 && OutlineOf(palette, o, e.0, f.0, f.1)
  {
    var init := g[..|g| - 1];
    var last := g[|g| - 1];
    if o in Outlines(palette, init) {
      OutlinesFrom(palette, init, o);
      var e, f :| e in init && f in e.1 && OutlineOf(palette, o, e.0, f.0, f.1);
      assert e in g;
    } else {
      RowOutlinesFrom(palette, last.0, last.1, o);
      assert last in g;
    }
  }

  /**
   * Every outline `draw` strokes is the hull of the corners of exactly the
   * cells of its row and colour, stroked in that colour; the hull lies in
   * its bounding box, every hull point is a corner of one of those cells,
   * and the label centre is inside the box.
   */
  lemma DrawnOutline(palette: seq<LegoColor>, cells: seq<Cell>, o: Outline)
    requires o in Outlines(palette, Grouping(cells))
    ensures o.stroke == StrokeColor(palette, o.color)
    ensures o.hull == Hull(Points(Matching(cells, o.row, o.color)))
    ensures forall p :: p in o.hull ==> InBox(o.box, p)
    ensures InBox(o.box, o.centre)
    ensures forall p :: p in o.hull ==>
      exists c :: c in cells && c.row == o.row && c.color == o.color && p in c.quad
  {
    var g := Grouping(cells);
    OutlinesFrom(palette, g, o);
    var e, f :| e in g && f in e.1 && OutlineOf(palette, o, e.0, f.0, f.1);
    GroupingRows(cells);
    GetDistinct(g, e.0, e.1);
    GroupingColors(cells, e.0);
    GetDistinct(e.1, f.0, f.1);
    GroupingBuckets(cells, o.row, o.color);
    var list := Matching(cells, o.row, o.color);
    assert f.1 == list;
    BoundingBoxTight(o.hull);
    HullMembers(Points(list));
  }
}
