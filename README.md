# LEGO board analyzer: a Dafny model

This project models the part of the LEGO-board app that works out what is on
the board. It is written in Dafny 4.11 and proves properties of the model.

- **`LegoBoardAnalyzer`** (`analyzer.dfy`) models `analyze` in
  `src/modules/legoBoardAnalyzer.ts`:
  - it takes the first prediction polygon of the segmentation service and keeps the contour of largest positive area;
  - it requires that contour's approximation to be a quadrilateral and orders its corners;
  - it samples the 16 x 32 grid of 20-pixel cells of the rectified board;
  - it names each cell after the first palette colour at smallest CIEDE2000 distance;
  - it maps each cell's rectangle back into the camera image.
- **`ConvexHull`** (`convex_hull.dfy`) models `convexHull` of
  `src/modules/vision.ts`, Andrew's monotone chain. **`HullSize`** (`hull_size.dfy`)
  proves that the hull never has more points than its input, and
  **`HullContains`** (`hull_contains.dfy`) that it encloses every input point.
- **`OrderedMap`** (`ordered_map.dfy`) is a JavaScript `Map` as a value: its
  entries in insertion order.
- **`Overlay`** (`overlay.dfy`) models the computational part of `VisionApp.draw`:
  - the cells are bucketed by row and then by colour;
  - each bucket's stroke colour is looked up;
  - each bucket's corner points get a convex hull, a bounding box and the box's centre.
- **`QuizResult`** (`quiz_result.dfy`) models the statistics of `src/result.ts`:
  correct count, total time, rounded accuracy and the advice line.
- **`Geometry`** (`geometry.dfy`) holds points, the cross product and `Math.round`.
- **`Wrappers`** (`wrappers.dfy`) holds `Option`.

## How the model is built

**Library calls and I/O.** OpenCV and colorjs.io are not modelled. The results
the analyzer takes from them are the function-valued fields of an `Env` value:
- the contours of the filled polygon mask;
- the contour area;
- the polygon approximation;
- the blurred Lab mean of a region of the warped raster;
- the inverse perspective map;
- the CIEDE2000 distance.

The segmentation service's answer is a parameter of `Analyze`, and `None`
stands for a null answer. The palette is a parameter wherever it is used.

**Numbers.** They are exact reals. `Math.round` is `JsRound(r) = floor(r + 0.5)`.

**Sorting.** `extractQuad` and `convexHull` call `Array.prototype.sort`, which
is stable, so each call is modelled as an insertion sort on a sequence.

**The hull chains.** The chain loops are stated over any turn test `cross`. The
facts about the real cross product that the size proof needs are proved once, in
`CrossSideProperty`, `CrossAntisymmetric` and `CrossDegenerate`.

**What the code does, as modelled:**
- `draw` buckets the cells by (row, colour) only
  (src/modules/vision.ts:203-213); it does not merge neighbouring cells into
  connected components.
- `mapCellQuad` is given the inset region (x, y, w, h)
  (src/modules/legoBoardAnalyzer.ts:161), not the whole cell rectangle, and that
  is what `GridCell` uses.
- `CellColorResult` (src/modules/legoBoardAnalyzer.ts:9-19) has no `component`
  field, yet `draw` reads `cellsInGroup[0].component` for the label text
  (src/modules/vision.ts:251); the model does not have that field, and the label
  text is left out.
- `convexHull` returns three or fewer points exactly as given
  (src/modules/vision.ts:302, `ConvexHull.ConvexHull`'s second ensures), so three
  collinear points come back as three points, not as at most two; from four
  points on, collinear input gives exactly the least and the greatest point in
  x-then-y order (`HullContains.CollinearHull`).

## Model

| member | source | states |
|---|---|---|
| Geometry.JsRound | src/modules/legoBoardAnalyzer.ts:147-150 | `Math.round` of r is the integer n with n - 0.5 <= r < n + 0.5 (halves round up) |
| LegoBoardAnalyzer.LargestContour | src/modules/legoBoardAnalyzer.ts:73-92 | no board exactly when every contour area is <= 0; otherwise the chosen index has positive, maximal area, strictly larger than every earlier one (the first maximum wins) |
| LegoBoardAnalyzer.SelectBoardContour | src/modules/legoBoardAnalyzer.ts:73-92 | the `maxArea` scan from 0 returns the contour that `LargestContour` picks, or none |
| LegoBoardAnalyzer.StableSortSorted | src/modules/legoBoardAnalyzer.ts:187-190 | each comparator sort orders by the key (y, or x), is a permutation of its input, and keeps points with equal keys in input order |
| LegoBoardAnalyzer.InsertStableFilter | src/modules/legoBoardAnalyzer.ts:187-190 | inserting a point places it after every point of the same key already there |
| LegoBoardAnalyzer.StableSortStable | src/modules/legoBoardAnalyzer.ts:187-190 | the points of each key value appear in the sorted result in the order of the input (stability) |
| LegoBoardAnalyzer.SortPair | src/modules/legoBoardAnalyzer.ts:189-190 | sorting two points by x keeps them in place unless the second has the smaller x (ties keep input order) |
| LegoBoardAnalyzer.ExtractQuadPermutation | src/modules/legoBoardAnalyzer.ts:180-192 | the ordered quad holds exactly the four approximated vertices |
| LegoBoardAnalyzer.ExtractQuadOrdered | src/modules/legoBoardAnalyzer.ts:186-191 | the quad is [top-left, top-right, bottom-right, bottom-left]: no top corner is below a bottom one, and each pair runs left to right |
| LegoBoardAnalyzer.QuadFixed | src/modules/legoBoardAnalyzer.ts:180-192 | a quad already in that order is returned unchanged |
| LegoBoardAnalyzer.ExtractQuadIdempotent | src/modules/legoBoardAnalyzer.ts:180-192 | ordering an ordered quad again changes nothing |
| LegoBoardAnalyzer.TargetQuadOrdered | src/modules/legoBoardAnalyzer.ts:109-116 | the target corners of the 640 x 320 raster are already in the board-corner order, so board corner k goes to target corner k |
| LegoBoardAnalyzer.BoardQuadChoice | src/modules/legoBoardAnalyzer.ts:48-105 | no predictions, or no contour of positive area, gives no board; with k the first contour of largest positive area, there is a board iff k's approximation has four vertices, and then the board is that approximation ordered (a later contour of equal area is never tried) |
| LegoBoardAnalyzer.CellRoi | src/modules/legoBoardAnalyzer.ts:138-150 | after rounding, cell (r, c) has the region (20c + 2, 20r + 2, 16, 16) |
| LegoBoardAnalyzer.CellRoiInsideRaster | src/modules/legoBoardAnalyzer.ts:138-151 | every region of interest is a 16 x 16 square inside the 640 x 320 rectified raster |
| LegoBoardAnalyzer.CellCornersOrdered | src/modules/legoBoardAnalyzer.ts:197-202 | the rectangle sent to the inverse transform lists top-left, top-right, bottom-right, bottom-left, all inside the raster |
| LegoBoardAnalyzer.MapCellQuad | src/modules/legoBoardAnalyzer.ts:195-215 | the cell quad has four points, each the inverse map of the matching rectangle corner |
| LegoBoardAnalyzer.FirstMin | src/modules/legoBoardAnalyzer.ts:250-264 | the kept index has a distance <= every distance and < every earlier one |
| LegoBoardAnalyzer.MatchColor | src/modules/legoBoardAnalyzer.ts:243-266 | the scan from `minE = Infinity` with a strict `<` names the first closest palette entry, or "Unknown" for an empty palette |
| LegoBoardAnalyzer.ClosestNameIsFirstMinimum | src/modules/legoBoardAnalyzer.ts:250-265 | for a non-empty palette the name belongs to an entry at minimal distance, and every earlier entry is strictly farther |
| LegoBoardAnalyzer.ExactSampleMatches | src/modules/__tests__/legoBoardAnalyzer.test.ts:9-14 | a sample at distance 0 from an entry, with no earlier entry at distance 0, is named after that entry |
| LegoBoardAnalyzer.SampleGrid | src/modules/legoBoardAnalyzer.ts:137-164 | the nested loops produce 512 results; the result at r * 32 + c is cell (r, c) with its rounded region, matched colour and mapped quad |
| LegoBoardAnalyzer.Analyze | src/modules/legoBoardAnalyzer.ts:40-175 | the empty result on every early exit; otherwise all 512 cells of the chosen board, in row-major order |
| LegoBoardAnalyzer.GridRowMajor | src/modules/legoBoardAnalyzer.ts:145-162 | result index i holds the cell with row i / 32 and column i % 32, inside the grid |
| ConvexHull.SortXYSorted | src/modules/vision.ts:301-303 | the copy is sorted by x then y and is a permutation of the input |
| ConvexHull.KeepLen | src/modules/vision.ts:308-310 | the pops keep a prefix of the stack, and never empty a non-empty stack |
| ConvexHull.PushTurn | src/modules/vision.ts:307-311 | one push ends with the new point and keeps the stack's first point; a stack of one or more points grows to at least two |
| ConvexHull.PushTurnLeft | src/modules/vision.ts:307-311 | after the pops, the two points left on top of the stack and the new point turn counter-clockwise |
| ConvexHull.PopNonLeft | src/modules/vision.ts:308-310 | the `while` loop leaves the prefix of the stack that `KeepLen` gives |
| ConvexHull.Chain | src/modules/vision.ts:306-321 | a chain is no longer than its input and starts and ends at the input's first and last points |
| ConvexHull.LowerChain | src/modules/vision.ts:306-312 | the lower loop builds `Chain` of the sorted points |
| ConvexHull.UpperChain | src/modules/vision.ts:314-321 | the upper loop builds `Chain` of the sorted points read backwards |
| ConvexHull.ConvexHull | src/modules/vision.ts:298-325 | the method returns `Hull` of its input without changing it; three points or fewer are returned as given |
| ConvexHull.ChainConvex | src/modules/vision.ts:305-321 | in each chain every three consecutive points turn strictly counter-clockwise |
| ConvexHull.ChainMembers | src/modules/vision.ts:306-321 | every chain point is an input point |
| ConvexHull.HullMembers | src/modules/vision.ts:298-325 | every hull point is an input point |
| ConvexHull.HullStartsAtLeast | src/modules/vision.ts:303-324 | for more than three points the hull has at least two points and starts at the lexicographically least input point |
| HullSize.ChainMonotone | src/modules/vision.ts:306-321 | a chain over sorted points runs in x-then-y order: forwards for the lower chain, backwards for the upper |
| HullSize.ChainSide | src/modules/vision.ts:305-312 | in a counter-clockwise monotone chain, the first point, any inner point and any later point turn strictly counter-clockwise (the inner point is right of the segment from first to later) |
| HullSize.ChainSub | src/modules/vision.ts:306-321 | a chain's points form a sub-multiset of its input |
| HullSize.ChainsCount | src/modules/vision.ts:306-324 | the lower and upper chains together have at most n + 2 points, because their inner points lie on opposite sides |
| HullSize.HullSizeBound | src/modules/vision.ts:298-325 | the hull never has more points than the input |
| HullContains.LaterLeft | src/modules/vision.ts:305-312 | in a counter-clockwise monotone chain, every later point lies strictly to the left of an earlier edge |
| HullContains.EarlierLeft | src/modules/vision.ts:305-312 | in a counter-clockwise monotone chain, every earlier point lies strictly to the left of a later edge |
| HullContains.PoppedRight | src/modules/vision.ts:308-310 | each popped point and the one below it turn clockwise or not at all with the new point |
| HullContains.PoppedAbove | src/modules/vision.ts:307-311 | the popped points lie on or to the left of the edge from the kept top to the new point |
| HullContains.PushSupports | src/modules/vision.ts:307-311 | one push onto a chain of sorted points, with a point beyond all of them, keeps every point seen so far on or to the left of every edge |
| HullContains.ChainSupports | src/modules/vision.ts:306-321 | every point of a sorted sequence lies on or to the left of every edge of its chain, for the lower and the upper loop alike |
| HullContains.HullEncloses | src/modules/vision.ts:296-325 | for more than three points the hull, closed from its last point back to its first, has every input point on or to the left of each edge: it encloses the input, counter-clockwise |
| HullContains.ConvexShort | src/modules/vision.ts:308-310 | a chain of three or more points drawn from a collinear set never turns strictly counter-clockwise at every step |
| HullContains.CollinearChain | src/modules/vision.ts:305-321 | the chain built from collinear points keeps at most two of them: every middle point is popped |
| HullContains.CollinearHull | src/modules/vision.ts:298-325 | four or more collinear points give a hull of exactly two points, the least and the greatest in x-then-y order |
| OrderedMap.Get | src/modules/vision.ts:205-210 | `get` finds a value exactly when the key is present, and the value is stored under that key |
| OrderedMap.Set | src/modules/vision.ts:208-212 | `set` keeps the key order, and a new key goes last |
| OrderedMap.SetMembers | src/modules/vision.ts:208-212 | after `set`, every entry was there before or is the one just set |
| OrderedMap.SetGet | src/modules/vision.ts:208-212 | a key reads back the value just set |
| OrderedMap.SetOther | src/modules/vision.ts:208-212 | `set` leaves every other key's value alone |
| OrderedMap.SetSet | src/modules/vision.ts:210-212 | setting a key twice equals setting it once to the second value, which is why writing the aliased inner map back is the same as mutating it |
| OrderedMap.GetDistinct | src/modules/vision.ts:203-213 | when the keys are distinct, `get` returns the one value stored under the key |
| Overlay.Matching | src/modules/vision.ts:203-213 | a bucket's candidate list holds exactly the cells of that row and colour |
| Overlay.Dedup | src/modules/vision.ts:203-213 | first occurrences are distinct and have the same members as the input |
| Overlay.GroupOne | src/modules/vision.ts:205-212 | one iteration, creating the inner map on first sight of a row and writing it back, equals `AddCell` on the value model |
| Overlay.GroupCells | src/modules/vision.ts:203-213 | the grouping loop builds `Grouping(cells)` |
| Overlay.GroupingBuckets | src/modules/vision.ts:203-213 | the bucket for (row, colour) is the cells of that row and colour, in input order |
| Overlay.OneBucket | src/modules/vision.ts:203-213 | each cell is in exactly one bucket, the one for its own row and colour |
| Overlay.GroupingRows | src/modules/vision.ts:203-209 | the outer map's keys are the distinct rows, in order of first appearance |
| Overlay.GroupingColors | src/modules/vision.ts:203-213 | a row's colour keys are that row's distinct colours, in order of first appearance |
| Overlay.GroupingSize | src/modules/vision.ts:203-213 | the number of buckets equals the number of distinct (row, colour) pairs |
| Overlay.StrokeColorLast | src/modules/vision.ts:199-221 | a bucket is stroked with a palette colour exactly when some palette entry has its name, and then with the last such entry's rgb; otherwise red |
| Overlay.Points | src/modules/vision.ts:223-228 | every collected point is a corner of some cell of the bucket, and every corner of every cell of the bucket is collected |
| Overlay.PointsLength | src/modules/vision.ts:223-228 | four-corner cells give four points each |
| Overlay.BoxOver | src/modules/vision.ts:239-244 | the min/max scan only widens the box, covers every point, and each bound is the start value or attained by a point |
| Overlay.BoundingBoxTight | src/modules/vision.ts:237-244 | the box covers every hull point and each of its four bounds is attained by a hull point |
| Overlay.BoundingBox | src/modules/vision.ts:237-244 | the min/max loop computes `BoundingBoxOf` the hull |
| Overlay.Centre | src/modules/vision.ts:247-248 | the label centre is equally far from both sides of the box on each axis |
| Overlay.CentreInBox | src/modules/vision.ts:247-248 | the centre of a box lies inside it |
| Overlay.DrawGroup | src/modules/vision.ts:221-248 | one bucket is skipped below 3 points, otherwise gives its stroke, hull, box and centre |
| Overlay.DrawRow | src/modules/vision.ts:220-262 | the inner loop gives its buckets' outlines in key order |
| Overlay.DrawGrouped | src/modules/vision.ts:219-263 | the outer loop gives every row's outlines, rows in key order |
| Overlay.Draw | src/modules/vision.ts:199-264 | `draw` strokes `Outlines` of `Grouping(cells)`: rows, then colours, in first-appearance order |
| Overlay.DrawCount | src/modules/vision.ts:219-229 | with four-corner cells, one outline is stroked per distinct (row, colour) pair |
| Overlay.DrawnOutline | src/modules/vision.ts:219-248 | every outline uses its colour's stroke; its hull is the hull of the corners of exactly that row-and-colour bucket; the box covers the hull and the centre; each hull point is a corner of a cell of that row and colour |
| QuizResult.CorrectCount | src/result.ts:34 | the correct count is at most the total; it equals the total iff every answer is right, and 0 iff none is |
| QuizResult.CorrectCountAppend | src/result.ts:34 | the correct count of two runs of answers is the sum of their counts |
| QuizResult.TotalTimeAppend | src/result.ts:35 | the total time of two runs of answers is the sum of their totals |
| QuizResult.TotalTimeBounds | src/result.ts:35 | with non-negative times, the total is non-negative and at least each single time |
| QuizResult.RatioHigh | src/result.ts:36 | the unrounded percentage reaches 99.5 exactly when at most one answer in 200 is wrong |
| QuizResult.AccuracyRange | src/result.ts:33-36 | the accuracy is between 0 and 100 |
| QuizResult.AccuracyHundred | src/result.ts:33-36 | the accuracy is 100 iff there are answers and 200 x (wrong answers) <= total |
| QuizResult.AccuracyHundredFew | src/result.ts:33-36 | with fewer than 200 answers, 100 iff there are answers and all are right |
| QuizResult.AccuracyHundredWithMistake | src/result.ts:36 | 200 answers with one wrong still show 100 |
| QuizResult.SuggestionBands | src/result.ts:65-68 | as written: "Congratulation!" iff 100; "Nice" iff 75-89; "Good work" iff 50-74; "Try again!" otherwise, including 90-99 |
| QuizResult.SuggestionGap | src/result.ts:65-68 | as written, 90-99 % gets "Try again!", ranked below the advice for 75 % |
| QuizResult.SuggestionIntendedMonotone | src/result.ts:65-68 | the corrected chain never gives worse advice for a higher accuracy, and "Try again!" only below 50 |
| QuizResult.AdvicePerfect | src/result.ts:33-68 | on the page, all answers right earns "Congratulation!"; with fewer than 200 answers, nothing else does |
| QuizResult.AdviceNoneRight | src/result.ts:33-68 | on the page, no answers, or none right, gives accuracy 0 and "Try again!" |
| QuizResult.AdviceIntendedAgrees | src/result.ts:33-68 | the corrected advice differs from the page's exactly when the accuracy is 90-99, where the page says "Try again!" and the corrected chain "Nice" |

## Left out

- OpenCV and colorjs.io are not modelled: contour finding, contour area,
  `approxPolyDP`, the warp, Lab conversion, blur, mean, `perspectiveTransform` and
  CIEDE2000 are abstract `Env` functions, because their numerics are foreign code.
  The forward and inverse homographies being inverses of each other is therefore
  not stated.
- The Lab rescaling in `matchColor` and the palette's conversion to sRGB are left
  inside the abstract `deltaE`.
- Rasterising the polygon into the mask is left inside the abstract
  `findContours`. The polygon's coordinates are written into a `CV_32SC2`
  matrix (src/modules/legoBoardAnalyzer.ts:60), which truncates each to a 32-bit
  integer toward zero before `fillPoly`; that conversion is not modelled. The model takes the first prediction's
  polygon as its input.
- Floating point is not modelled. Numbers are exact reals, and `NaN` and
  `Infinity` in inputs are not modelled. Under IEEE doubles a percentage that is
  exactly 99.5 in real arithmetic may round differently.
- OpenCV `Mat` memory management (`delete`) is not modelled, because it has no
  observable effect on results.
- `drawResults`, `drawWarpedGrid`, the canvas sizing and the DOM and canvas
  calls in `draw` and in `src/result.ts` are not modelled, because they are
  rendering only.
- The label text and `measureText` are not modelled. The label reads a
  `component` field that `CellColorResult` does not have. The model keeps only
  the label's centre.
- The stroke colour is the `Stroke` datatype (a palette rgb, or the red
  fallback), not the CSS string.
- The segmentation service, camera, session storage, JSON parsing and database
  access are not modelled, because they are I/O. Their results are parameters.
- `ConvexHull.ConvexHull`: the JavaScript array sort is modelled as a function
  on a copied sequence, because `convexHull` sorts a `slice()` and never changes
  the caller's array.
- `Overlay.GroupCells`: the aliased inner `Map` is modelled by value and written
  back with `Set`. `OrderedMap.SetSet` shows the write-back equals the in-place
  update.
- `ConvexHull.ChainConvex` proves convexity for each chain only. The turns where
  the two chains join in the final hull are not stated; `HullContains.HullEncloses`
  states that every edge of the closed hull, the two joining edges included, has
  every input point on or to its left.
- `Overlay.DrawCount` requires four corners per cell. `MapCellQuad` guarantees
  this for the cells that `Analyze` produces, but no lemma joins the two.
- `LegoBoardAnalyzer.ExactSampleMatches` is stated over abstract distances. The
  repository's test calls `matchColorWithDE`, which the analyzer does not define.
- `QuizResult.Advice` is the page's advice, with the chain as written
  (`QuizResult.Suggestion`). The corrected chain is used by
  `QuizResult.AdviceIntended` (see Findings).

## Findings

| source | as written | input that shows it | evidently intended | confidence | as-written member | corrected member |
|---|---|---|---|---|---|---|
| src/result.ts:65-68 | the "Nice" band stops at 89, so 90-99 % falls through to "Try again!" | 19 of 20 answers right: accuracy 95 gets "Try again!" while 75 gets "Nice" | every accuracy from 75 up to 99 gets "Nice", so better scores never get worse advice | not executed; the branch conditions leave 90-99 to the final else | QuizResult.SuggestionGap | QuizResult.SuggestionIntendedMonotone |
