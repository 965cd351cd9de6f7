# SnappyRulerSet snapping core in Dafny

SnappyRulerSet is an Android drawing app with virtual geometry tools. It has a
ruler, set squares, a protractor, a compass and a free-hand pencil, all on a
zoomable canvas. While the user drags, the pen snaps to the shapes already
drawn. The snap targets, in priority order, are:

- endpoints, midpoints, circle centres and intersections;
- the nearest point of a segment;
- the millimetre grid.

Every change to the drawing goes through a bounded undo/redo history. A
calibration step converts between millimetres and screen pixels.

This project models that core and proves its properties:

- `geometry.dfy` (`Geometry`): the vector kernel.
  - Componentwise arithmetic, `dot`, `norm` and degree/radian conversion.
  - The closest point on a segment.
- `shapes.dfy` (`Shapes`): the drawing entities.
  - Lines, circles, arcs and paths, the tool state, the viewport and the drawing state.
- `snap_points.dfy` (`SnapPoints`): the snap-point collector.
  - Line endpoints and midpoints, circle centres and arc end points.
  - Segment intersections behind the ccw test and the `1e-4` parallel guard.
  - Circle–line and circle–circle intersections, and the `isPointOnSegment` filter.
- `spatial_grid.dfy` (`SpatialIndexing`): the uniform-grid spatial index, as a class.
  - Its state is a map from a packed 64-bit cell key to the list of points in that cell.
  - `insert`, `insertAll`, `clear`, and `queryNear`, which scans the 3×3 block of cells with early exits.
- `snapping.dfy` (`Snapping`): the snapping-engine helpers.
  - Millimetre-to-pixel conversion and the zoom-dependent snap radius.
  - Grid snapping, with Kotlin's ties-to-even `round`.
  - The nearest common angle, using Kotlin's truncating float `%`.
- `drawing_screen.dfy` (`Canvas`): the canvas fragments.
  - Snap-candidate collection and resolution, as functions and as the imperative loops that compute them.
  - The Pencil append and the commit on release.
  - The pure helpers at the end of `DrawingScreen.kt`.
- `undo_redo.dfy` (`UndoRedo`) and `view_model.dfy` (`ViewModel`): the history and its user.
  - The bounded two-stack history, as a class over sequences.
  - The view model that pushes every change onto it and gates undo and redo.
- `calibration.dfy` (`Calibration`): the calibration arithmetic and the preference store.
  - Known length, known DPI, the nearest standard DPI and the recalibration rule.
- `select.dfy` (`Selection`) and `wrappers.dfy` (`Wrappers`): `minBy` (the first minimum) and `Option`.

Modelling choices:

- `Float` and `Double` are modelled as `real`.
- `PI` is the exact value of `Math.PI.toFloat()`. Where the source compares against the `Double` `Math.PI`, the exact double value (`DoublePI`) is used.
- `sqrt`/`hypot`, `cos`/`sin` and `atan2` are parameters of the functions that call them. Lemmas state what they need of them, for instance `IsSqrt(sqrt)`: `sqrt(x)` is the non-negative root for every non-negative `x`.
- `Long` keys are integers with explicit 64-bit wrap-around.
- Clocks and the device density are parameters.

The code in `SnapEngine.kt` and `SpatialIndex.kt` is the same as in `SnappingEngine.kt` and `SpatialGrid.kt`, so one definition models each pair. The private copies of `mmToPx`, `dynamicSnapRadiusPx` and `snapToGrid` in `DrawingScreen.kt` (lines 1006-1014) are modelled by the same `Snapping` functions.

## Model

| member | source | states |
|---|---|---|
| Geometry.AddSubCancel | app/src/main/java/com/rkt/snappyrulerset/domain/entity/Geometry.kt:9-10 | vector addition and subtraction are componentwise and undo each other: `(a + b) - b == a` and `(a - b) + b == a` |
| Geometry.DotSelfZero | app/src/main/java/com/rkt/snappyrulerset/domain/entity/Geometry.kt:15 | `dot(v, v)` is never negative and is zero exactly for the zero vector |
| Geometry.Norm | app/src/main/java/com/rkt/snappyrulerset/domain/entity/Geometry.kt:17-20 | the zero vector is returned unchanged; a nonzero vector becomes a unit vector wherever `sqrt` is the square root of its squared length |
| Geometry.NormOfZero | app/src/main/java/com/rkt/snappyrulerset/domain/entity/Geometry.kt:17-20 | `norm` of the zero vector is the zero vector, for any square root |
| Geometry.DegreesRadiansRoundTrip | app/src/main/java/com/rkt/snappyrulerset/domain/entity/Geometry.kt:24-25 | degree and radian conversion are inverse to each other in both directions |
| Geometry.Clamp | app/src/main/java/com/rkt/snappyrulerset/domain/entity/Geometry.kt:34 | `coerceIn(lo, hi)` returns a value in `[lo, hi]`: the input itself when inside, the nearer bound otherwise |
| Geometry.ClosestPointOnSegment | app/src/main/java/com/rkt/snappyrulerset/domain/entity/Geometry.kt:30-36 | a zero-length segment gives its start point for every query point |
| Geometry.ClosestAsLerp | app/src/main/java/com/rkt/snappyrulerset/domain/entity/Geometry.kt:30-36 | for a proper segment the result is `a + (b - a) * t` with `t` the projection parameter clamped to `[0, 1]` |
| Geometry.ClosestIsOnSegment | app/src/main/java/com/rkt/snappyrulerset/domain/entity/Geometry.kt:34-35 | the result always lies on the closed segment from `a` to `b` |
| Geometry.ClosestClampsToEndpoints | app/src/main/java/com/rkt/snappyrulerset/domain/entity/Geometry.kt:34 | a projection parameter at or below 0 gives `a`, at or above 1 gives `b` |
| Geometry.ClosestIsNearest | app/src/main/java/com/rkt/snappyrulerset/domain/entity/Geometry.kt:29-36 | no point of the segment is nearer (in squared distance) to the query point than the result |
| Geometry.ProjectionOfLerp | app/src/main/java/com/rkt/snappyrulerset/domain/entity/Geometry.kt:34 | the projection parameter of the point `a + (b - a) * t` is `t` itself |
| Geometry.ClosestFixesSegmentPoints | app/src/main/java/com/rkt/snappyrulerset/domain/entity/Geometry.kt:38-41 | a point on the segment is its own closest point, so its distance to the segment is 0 |
| SnapPoints.CollectLinePoints | deliverables/Source-Code/app/src/main/java/com/rkt/snappyrulerset/domain/usecase/SnapPointCollector.kt:14-22 | exactly three points per line, in input order: for line `i`, positions `3i`, `3i+1`, `3i+2` hold `a`, `b` and the midpoint |
| SnapPoints.MidpointIsHalfway | deliverables/Source-Code/app/src/main/java/com/rkt/snappyrulerset/domain/usecase/SnapPointCollector.kt:19 | the midpoint is the point at parameter 1/2, lies on the segment and is equidistant from both ends |
| SnapPoints.CollectCircleCenters | deliverables/Source-Code/app/src/main/java/com/rkt/snappyrulerset/domain/usecase/SnapPointCollector.kt:25-27 | one centre per circle, in input order (empty input gives empty output) |
| SnapPoints.CollectArcPoints | deliverables/Source-Code/app/src/main/java/com/rkt/snappyrulerset/domain/usecase/SnapPointCollector.kt:30-39 | two points per arc, in input order: the points at the start angle and at start plus sweep |
| SnapPoints.PointAtAngleOnCircle | deliverables/Source-Code/app/src/main/java/com/rkt/snappyrulerset/domain/usecase/SnapPointCollector.kt:33-36 | with `cos² + sin² = 1` at the angle, an arc end point lies on the arc's circle |
| SnapPoints.Intersection | deliverables/Source-Code/app/src/main/java/com/rkt/snappyrulerset/domain/usecase/SnapPointCollector.kt:47-55 | no point exactly when `\|denom\| < 1e-4` (parallel or nearly parallel lines) |
| SnapPoints.IntersectionOnBothLines | deliverables/Source-Code/app/src/main/java/com/rkt/snappyrulerset/domain/usecase/SnapPointCollector.kt:47-55 | a returned point lies on both infinite lines through `(a, b)` and `(c, d)` |
| SnapPoints.LineHit | deliverables/Source-Code/app/src/main/java/com/rkt/snappyrulerset/domain/usecase/SnapPointCollector.kt:60-63 | a pair of lines contributes one point exactly when the ccw test says the segments cross and the determinant is not below the parallel guard, otherwise none |
| SnapPoints.CollectIntersections | deliverables/Source-Code/app/src/main/java/com/rkt/snappyrulerset/domain/usecase/SnapPointCollector.kt:57-66 | the nested loop collects, over pairs `i < j` in loop order, the contribution of each pair |
| SnapPoints.IntersectionsComeFromCrossingPairs | deliverables/Source-Code/app/src/main/java/com/rkt/snappyrulerset/domain/usecase/SnapPointCollector.kt:57-66 | every collected point comes from a pair `i < j` whose segments pass the crossing test and lies on both of their lines |
| SnapPoints.IntersectionCount | deliverables/Source-Code/app/src/main/java/com/rkt/snappyrulerset/domain/usecase/SnapPointCollector.kt:57-66 | at most `n(n-1)/2` points for `n` lines |
| SnapPoints.SegmentPointsPass | deliverables/Source-Code/app/src/main/java/com/rkt/snappyrulerset/domain/usecase/SnapPointCollector.kt:136-144 | every point of a segment passes `isPointOnSegment` |
| SnapPoints.PassingPointsOnSegment | deliverables/Source-Code/app/src/main/java/com/rkt/snappyrulerset/domain/usecase/SnapPointCollector.kt:136-144 | conversely, a point exactly on the line of a proper segment that passes the test lies on the segment |
| SnapPoints.DegenerateSegmentAcceptsAll | deliverables/Source-Code/app/src/main/java/com/rkt/snappyrulerset/domain/usecase/SnapPointCollector.kt:136-144 | for a zero-length segment the test accepts every point (cross, dot and squared length are all 0) |
| SnapPoints.KeepOnSegment | deliverables/Source-Code/app/src/main/java/com/rkt/snappyrulerset/domain/usecase/SnapPointCollector.kt:113-117 | keeps, in order, exactly those of the two candidates that pass `isPointOnSegment` |
| SnapPoints.CircleLineAsWritten | deliverables/Source-Code/app/src/main/java/com/rkt/snappyrulerset/domain/usecase/SnapPointCollector.kt:93-118 | as written: a zero-length line or a negative discriminant gives nothing, otherwise at most two points, each passing `isPointOnSegment` |
| SnapPoints.AsWrittenExampleCandidates | deliverables/Source-Code/app/src/main/java/com/rkt/snappyrulerset/domain/usecase/SnapPointCollector.kt:99-107 | for the radius-5 circle about the origin and the segment from (-10, 0) to (10, 0) the written formula yields the candidates (100, 0) and (-100, 0) |
| SnapPoints.AsWrittenExampleRejected | deliverables/Source-Code/app/src/main/java/com/rkt/snappyrulerset/domain/usecase/SnapPointCollector.kt:114-115 | both of those candidates fail `isPointOnSegment` |
| SnapPoints.CircleLineAsWrittenMissesCrossing | deliverables/Source-Code/app/src/main/java/com/rkt/snappyrulerset/domain/usecase/SnapPointCollector.kt:93-118 | so the written function returns no point for that circle and segment, although (5, 0) is on both |
| SnapPoints.KeepDistinctOnSegment | deliverables/Source-Code/app/src/main/java/com/rkt/snappyrulerset/domain/usecase/SnapPointCollector.kt:113-117 | keeps the candidates that pass `isPointOnSegment`, a double root only once |
| SnapPoints.CircleSegmentIntersection | deliverables/Source-Code/app/src/main/java/com/rkt/snappyrulerset/domain/usecase/SnapPointCollector.kt:93-118 | corrected: at most two points, each passing `isPointOnSegment`; a zero-length segment gives nothing |
| SnapPoints.CircleSegmentPointsOnCircle | deliverables/Source-Code/app/src/main/java/com/rkt/snappyrulerset/domain/usecase/SnapPointCollector.kt:93-118 | corrected: every returned point lies on the circle |
| SnapPoints.CircleSegmentFindsCrossings | deliverables/Source-Code/app/src/main/java/com/rkt/snappyrulerset/domain/usecase/SnapPointCollector.kt:93-118 | corrected: every point where a proper segment meets the circle is returned |
| SnapPoints.CircleSegmentExample | deliverables/Source-Code/app/src/main/java/com/rkt/snappyrulerset/domain/usecase/SnapPointCollector.kt:93-118 | corrected: for the circle and segment above, (5, 0) is returned |
| SnapPoints.FormulaGivesRoots | deliverables/Source-Code/app/src/main/java/com/rkt/snappyrulerset/domain/usecase/SnapPointCollector.kt:99-107 | both values of the quadratic formula are roots when the discriminant is not negative |
| SnapPoints.RootIsFormulaValue | deliverables/Source-Code/app/src/main/java/com/rkt/snappyrulerset/domain/usecase/SnapPointCollector.kt:102 | every root of a proper quadratic is one of the two formula values, so a negative discriminant means no root |
| SnapPoints.ReturnedAreRoots | deliverables/Source-Code/app/src/main/java/com/rkt/snappyrulerset/domain/usecase/SnapPointCollector.kt:104-111 | corrected: every returned point is the segment point at one of the two formula values |
| SnapPoints.CollectCircleLineIntersections | deliverables/Source-Code/app/src/main/java/com/rkt/snappyrulerset/domain/usecase/SnapPointCollector.kt:70-79 | as written: the nested loop collects, circle by circle and line by line, the points `circleLineIntersection` returns for each pair |
| SnapPoints.CircleLinePointsOnSegments | deliverables/Source-Code/app/src/main/java/com/rkt/snappyrulerset/domain/usecase/SnapPointCollector.kt:70-79 | as written: every collected point comes from one circle–line pair and passes `isPointOnSegment` for its line; being on the circle is not guaranteed |
| SnapPoints.CircleLineCount | deliverables/Source-Code/app/src/main/java/com/rkt/snappyrulerset/domain/usecase/SnapPointCollector.kt:70-79 | as written: at most two points per circle–line pair |
| SnapPoints.CorrectedCircleLinePointsOnShapes | deliverables/Source-Code/app/src/main/java/com/rkt/snappyrulerset/domain/usecase/SnapPointCollector.kt:70-79 | corrected collector: every point lies on one of the circles and passes `isPointOnSegment` for one of the lines |
| SnapPoints.CorrectedCircleLineFindsCrossings | deliverables/Source-Code/app/src/main/java/com/rkt/snappyrulerset/domain/usecase/SnapPointCollector.kt:70-79 | corrected collector: every point where a proper segment of the input meets a circle of the input is collected |
| SnapPoints.CircleCircleIntersection | deliverables/Source-Code/app/src/main/java/com/rkt/snappyrulerset/domain/usecase/SnapPointCollector.kt:120-134 | exactly 0 or 2 points; none exactly when `d > r1 + r2`, `d < \|r1 - r2\|` or `d == 0` |
| SnapPoints.CircleCirclePointsOnBoth | deliverables/Source-Code/app/src/main/java/com/rkt/snappyrulerset/domain/usecase/SnapPointCollector.kt:120-134 | every returned point lies on both circles |
| SnapPoints.CircleCircleTangentTwice | deliverables/Source-Code/app/src/main/java/com/rkt/snappyrulerset/domain/usecase/SnapPointCollector.kt:122-133 | externally tangent circles give the tangent point twice |
| SnapPoints.CollectCircleIntersections | deliverables/Source-Code/app/src/main/java/com/rkt/snappyrulerset/domain/usecase/SnapPointCollector.kt:82-91 | the nested loop collects, over pairs `i < j` in loop order, the points of each pair |
| SnapPoints.CircleIntersectionsOnBoth | deliverables/Source-Code/app/src/main/java/com/rkt/snappyrulerset/domain/usecase/SnapPointCollector.kt:82-91 | every collected point lies on two distinct circles of the input |
| SnapPoints.CircleIntersectionCount | deliverables/Source-Code/app/src/main/java/com/rkt/snappyrulerset/domain/usecase/SnapPointCollector.kt:82-91 | at most `n(n-1)` points for `n` circles |
| SnapPoints.InPairs | deliverables/Source-Code/app/src/main/java/com/rkt/snappyrulerset/domain/usecase/SnapPointCollector.kt:58-59 | a point is collected over pairs `i < j` exactly when some such pair contributes it |
| SnapPoints.PairsSize | deliverables/Source-Code/app/src/main/java/com/rkt/snappyrulerset/domain/usecase/SnapPointCollector.kt:58-59 | the pair loop adds at most the per-pair bound for each pair visited |
| SnapPoints.PairsBeforeClosedForm | deliverables/Source-Code/app/src/main/java/com/rkt/snappyrulerset/domain/usecase/SnapPointCollector.kt:58-59 | the rows before row `i` hold `i(2n - i - 1)/2` pairs |
| SnapPoints.InProduct | deliverables/Source-Code/app/src/main/java/com/rkt/snappyrulerset/domain/usecase/SnapPointCollector.kt:72-73 | a point is collected over all (circle, line) pairs exactly when some pair contributes it |
| SnapPoints.ProductSize | deliverables/Source-Code/app/src/main/java/com/rkt/snappyrulerset/domain/usecase/SnapPointCollector.kt:72-73 | the product loop adds at most the per-pair bound for each pair visited |
| SpatialIndexing.Wrap64 | deliverables/Source-Code/app/src/main/java/com/rkt/snappyrulerset/domain/usecase/SpatialGrid.kt:18 | `Long` arithmetic: the result is a `Long` congruent to the input modulo 2^64, and a `Long` is unchanged |
| SpatialIndexing.ToLong | deliverables/Source-Code/app/src/main/java/com/rkt/snappyrulerset/domain/usecase/SpatialGrid.kt:16-17 | `toLong()` of an integral float is the value itself in range and saturates outside it |
| SpatialIndexing.XorOfDisjointIsSum | deliverables/Source-Code/app/src/main/java/com/rkt/snappyrulerset/domain/usecase/SpatialGrid.kt:18 | in 64-bit words, `(cx shl 32) xor (cy and 0xffffffff)` equals the sum, because the operands share no set bit |
| SpatialIndexing.PackIsLong | deliverables/Source-Code/app/src/main/java/com/rkt/snappyrulerset/domain/usecase/SpatialGrid.kt:15-19 | every packed key is a `Long` |
| SpatialIndexing.PackedWordFields | deliverables/Source-Code/app/src/main/java/com/rkt/snappyrulerset/domain/usecase/SpatialGrid.kt:18 | in 64-bit words, the key's low 32 bits are `cy`'s low 32 bits and its high 32 bits are `cx`'s low 32 bits |
| SpatialIndexing.PackFields | deliverables/Source-Code/app/src/main/java/com/rkt/snappyrulerset/domain/usecase/SpatialGrid.kt:15-19 | the integer key has the same two halves: `cy` modulo 2^32 as its remainder, `cx` modulo 2^32 as its quotient's remainder |
| SpatialIndexing.PackInjective | deliverables/Source-Code/app/src/main/java/com/rkt/snappyrulerset/domain/usecase/SpatialGrid.kt:15-19 | for cell indices in the 32-bit range, two keys are equal exactly when both indices are |
| SpatialIndexing.OwnKeyIsQueried | deliverables/Source-Code/app/src/main/java/com/rkt/snappyrulerset/domain/usecase/SpatialGrid.kt:50 | the middle key `queryNear` computes (offset 0, 0) is the `key` of the query point itself |
| SpatialIndexing.Put | deliverables/Source-Code/app/src/main/java/com/rkt/snappyrulerset/domain/usecase/SpatialGrid.kt:29-31 | `getOrPut(...).add(p)` appends `p` to bucket `k` and leaves every other bucket unchanged |
| SpatialIndexing.PutBucket | app/src/main/java/com/rkt/snappyrulerset/snapping/SpatialIndex.kt:17-19 | one insertion grows bucket `k` by `p` exactly when `p`'s key is `k` |
| SpatialIndexing.PutAllBuckets | deliverables/Source-Code/app/src/main/java/com/rkt/snappyrulerset/domain/usecase/SpatialGrid.kt:36 | inserting a list gives each bucket its old points followed by the new points with that key, in order |
| SpatialIndexing.PutAllKeyed | deliverables/Source-Code/app/src/main/java/com/rkt/snappyrulerset/domain/usecase/SpatialGrid.kt:36 | inserting keeps every stored point in the bucket of its own key |
| SpatialIndexing.SpatialGrid.constructor | deliverables/Source-Code/app/src/main/java/com/rkt/snappyrulerset/domain/usecase/SpatialGrid.kt:12-13 | a fresh grid has no buckets and the given cell size |
| SpatialIndexing.SpatialGrid.Clear | deliverables/Source-Code/app/src/main/java/com/rkt/snappyrulerset/domain/usecase/SpatialGrid.kt:24 | `clear()` empties the map |
| SpatialIndexing.SpatialGrid.Insert | deliverables/Source-Code/app/src/main/java/com/rkt/snappyrulerset/domain/usecase/SpatialGrid.kt:29-31 | the new map is the old one with `p` appended to the bucket of its key |
| SpatialIndexing.SpatialGrid.InsertAll | deliverables/Source-Code/app/src/main/java/com/rkt/snappyrulerset/domain/usecase/SpatialGrid.kt:36 | the same effect as inserting each point in order |
| SpatialIndexing.SpatialGrid.QueryNear | deliverables/Source-Code/app/src/main/java/com/rkt/snappyrulerset/domain/usecase/SpatialGrid.kt:44-59 | the points of the nine neighbouring cells, `dy` outer and `dx` inner, each bucket in order, cut at `maxResults` |
| SpatialIndexing.AppendUpTo | deliverables/Source-Code/app/src/main/java/com/rkt/snappyrulerset/domain/usecase/SpatialGrid.kt:52-55 | the inner loop over one bucket appends its points in order while fewer than `maxResults` are collected |
| SpatialIndexing.AppendBucket | deliverables/Source-Code/app/src/main/java/com/rkt/snappyrulerset/domain/usecase/SpatialGrid.kt:51-56 | visiting the `n`-th key extends the collected prefix by that key's bucket |
| SpatialIndexing.Prefix | deliverables/Source-Code/app/src/main/java/com/rkt/snappyrulerset/domain/usecase/SpatialGrid.kt:49 | the result is at most `m` long and is a prefix of its input, all of it when it is short enough |
| SpatialIndexing.QueryBound | app/src/main/java/com/rkt/snappyrulerset/snapping/SpatialIndex.kt:26-36 | a query returns at most `maxResults` points, and the whole neighbourhood when it holds no more |
| SpatialIndexing.QueryFromNeighbours | app/src/main/java/com/rkt/snappyrulerset/snapping/SpatialIndex.kt:27-30 | every returned point was stored under one of the nine keys around the query cell |
| SpatialIndexing.QueryReturnsNearCells | deliverables/Source-Code/app/src/main/java/com/rkt/snappyrulerset/domain/usecase/SpatialGrid.kt:48-51 | with 32-bit cell indices, every returned point's cell differs from the query cell by at most 1 on each axis |
| SpatialIndexing.InsertedIsFound | deliverables/Source-Code/app/src/main/java/com/rkt/snappyrulerset/domain/usecase/SpatialGrid.kt:44-58 | a point just inserted is returned by a query from its own position when the neighbourhood holds no more than `maxResults` points |
| SpatialIndexing.EmptyQueryIsEmpty | deliverables/Source-Code/app/src/main/java/com/rkt/snappyrulerset/domain/usecase/SpatialGrid.kt:13 | an empty grid (fresh or cleared) returns nothing from any query |
| Snapping.MmToPxProperties | app/src/main/java/com/rkt/snappyrulerset/domain/usecase/SnappingEngine.kt:36 | 25.4 mm is `dpi` pixels, and the conversion is linear in `mm` |
| Snapping.DynamicSnapRadiusPx | app/src/main/java/com/rkt/snappyrulerset/domain/usecase/SnappingEngine.kt:43-44 | the radius is always in `[6, 28]`; it is `basePx / zoom` when that is inside, the nearer bound otherwise |
| Snapping.DynamicSnapRadiusExamples | app/src/main/java/com/rkt/snappyrulerset/snapping/SnapEngine.kt:29-30 | radius 16 at zoom 1, 8 at zoom 2 and 28 at zoom 0.5 for base 16 |
| Snapping.RoundHalfEven | app/src/main/java/com/rkt/snappyrulerset/domain/usecase/SnappingEngine.kt:53 | `round` gives an integer within 1/2 of its input, and an even one on a tie |
| Snapping.RoundToIsNearMultiple | app/src/main/java/com/rkt/snappyrulerset/domain/usecase/SnappingEngine.kt:53 | `roundTo(v, s)` is an integer multiple of `s` within `\|s\|/2` of `v` |
| Snapping.RoundToFixesMultiples | app/src/main/java/com/rkt/snappyrulerset/domain/usecase/SnappingEngine.kt:53 | a multiple of `s` is left unchanged |
| Snapping.GridPointSnaps | app/src/main/java/com/rkt/snappyrulerset/domain/usecase/SnappingEngine.kt:52-56 | each snapped coordinate is a multiple of the spacing within half a spacing of the input; points on the grid are fixed and snapping is idempotent |
| Snapping.SnapToGrid | app/src/main/java/com/rkt/snappyrulerset/domain/usecase/SnappingEngine.kt:49-59 | the candidate is labelled "grid" with priority 10, sits at the snapped point, and its distance is the world distance times `zoom` |
| Snapping.SnapToGridOnGrid | app/src/main/java/com/rkt/snappyrulerset/snapping/SnapEngine.kt:36-42 | a point already on the grid snaps to itself with distance 0 |
| Snapping.RemRange | app/src/main/java/com/rkt/snappyrulerset/domain/usecase/SnappingEngine.kt:73 | Kotlin's truncating `%` on floats: the remainder has the sign of the dividend and is smaller than the modulus |
| Snapping.AngleDelta | app/src/main/java/com/rkt/snappyrulerset/domain/usecase/SnappingEngine.kt:72-76 | the delta is never negative and is at most the float pi, except for a remainder strictly between `Math.PI` and `PI.toFloat()`, where the real-number bound is `2 * PI.toFloat() - Math.PI` |
| Snapping.AngleDeltaSymmetric | app/src/main/java/com/rkt/snappyrulerset/domain/usecase/SnappingEngine.kt:72-76 | the delta is symmetric and zero from an angle to itself |
| Snapping.AngleSet | app/src/main/java/com/rkt/snappyrulerset/domain/usecase/SnappingEngine.kt:29-30 | the nine common angles 0, 30, 45, 60, 90, 120, 135, 150 and 180 degrees, in radians and in order |
| Snapping.SnapAngle | app/src/main/java/com/rkt/snappyrulerset/domain/usecase/SnappingEngine.kt:64-69 | the raw angle is `atan2` of the drag vector, and the snapped angle is the first member of the angle set minimising the delta to it, as `minBy` picks |
| Snapping.SnapAngleKeepsCommon | app/src/main/java/com/rkt/snappyrulerset/snapping/SnapEngine.kt:46-51 | a raw angle already in the set snaps to itself |
| Snapping.DeltaZeroIsSame | app/src/main/java/com/rkt/snappyrulerset/snapping/SnapEngine.kt:54-58 | two members of the angle set at delta 0 are the same angle |
| Canvas.ScreenToWorldInverse | app/src/main/java/com/rkt/snappyrulerset/ui/screens/DrawingScreen.kt:971-972 | mapping a world point back to the screen (`(w - pan) * zoom`) recovers the screen point |
| Canvas.ProjectionIsOrthogonal | app/src/main/java/com/rkt/snappyrulerset/ui/screens/DrawingScreen.kt:977-981 | for a unit direction, the offset from the projection to `p` is orthogonal to the line, and projecting twice changes nothing |
| Canvas.NormAngle | app/src/main/java/com/rkt/snappyrulerset/ui/screens/DrawingScreen.kt:989-993 | the normalised angle lies in the half-open interval `(Math.PI - 2 * PI.toFloat(), Math.PI]` |
| Canvas.NearestCommonAngle | app/src/main/java/com/rkt/snappyrulerset/ui/screens/DrawingScreen.kt:987-997 | the result is the first common angle whose normalised gap to the raw angle is least, as `minBy` picks |
| Canvas.SnapAngleIfClose | app/src/main/java/com/rkt/snappyrulerset/ui/screens/DrawingScreen.kt:999-1004 | snapped exactly when some common angle is within the threshold (circular degrees), and then to the nearest common angle, the first of ties; otherwise the raw angle unsnapped |
| Canvas.CommonAngleSnapsToItself | app/src/main/java/com/rkt/snappyrulerset/ui/screens/DrawingScreen.kt:999-1004 | a common angle snaps for every threshold that is not negative |
| Canvas.PointCandidates | app/src/main/java/com/rkt/snappyrulerset/ui/screens/DrawingScreen.kt:389-397 | point candidates have priority 1, label "point", their screen distance, and lie within the given radius |
| Canvas.PointCandidatesExact | app/src/main/java/com/rkt/snappyrulerset/ui/screens/DrawingScreen.kt:391-396 | a nearby point is a candidate exactly when its screen distance is within the radius |
| Canvas.SegmentCandidate | app/src/main/java/com/rkt/snappyrulerset/ui/screens/DrawingScreen.kt:402-405 | a segment candidate sits at the closest point of the segment, with priority 2, label "segment" and its screen distance |
| Canvas.SegmentCandidates | app/src/main/java/com/rkt/snappyrulerset/ui/screens/DrawingScreen.kt:399-408 | every segment candidate lies within the plain radius |
| Canvas.SegmentCandidatesExact | app/src/main/java/com/rkt/snappyrulerset/ui/screens/DrawingScreen.kt:401-407 | a candidate is collected exactly when it is the candidate of some line and within the radius |
| Canvas.GridCandidates | app/src/main/java/com/rkt/snappyrulerset/ui/screens/DrawingScreen.kt:410-415 | at most one grid candidate (priority 3, label "grid"), present exactly when the snapped grid point is within the radius |
| Canvas.Candidates | app/src/main/java/com/rkt/snappyrulerset/ui/screens/DrawingScreen.kt:399-408 | in Compass mode no segment candidate is collected |
| Canvas.CandidateRadii | app/src/main/java/com/rkt/snappyrulerset/ui/screens/DrawingScreen.kt:386-415 | a point is accepted exactly within the radius, or 1.5 times it after a point snap; segment and grid candidates use the plain radius |
| Canvas.CandidateDistances | app/src/main/java/com/rkt/snappyrulerset/ui/screens/DrawingScreen.kt:386-415 | every accepted distance is in `[0, 42]` (at most 1.5 times the largest radius 28) and every priority in 1..3 |
| Canvas.PriorityDominates | app/src/main/java/com/rkt/snappyrulerset/ui/screens/DrawingScreen.kt:418 | because distances stay below 1000, a smaller key means a priority number no larger: point beats segment beats grid |
| Canvas.Resolve | app/src/main/java/com/rkt/snappyrulerset/ui/screens/DrawingScreen.kt:385 | with snapping off or `snapOff` set, the projected point passes through, nothing is highlighted and `lastSnap` is kept |
| Canvas.ResolveChoosesBest | app/src/main/java/com/rkt/snappyrulerset/ui/screens/DrawingScreen.kt:417-426 | with snapping on, the first candidate of least `priority * 1000 + distancePx` is chosen, as `minByOrNull` does: `projected` and `highlight` move to it and `lastSnap` becomes its label; with no candidate nothing changes |
| Canvas.CollectPoints | app/src/main/java/com/rkt/snappyrulerset/ui/screens/DrawingScreen.kt:390-397 | the `forEach` loop over the nearby points collects exactly the point candidates |
| Canvas.CollectSegments | app/src/main/java/com/rkt/snappyrulerset/ui/screens/DrawingScreen.kt:401-407 | the `forEach` loop over the lines collects exactly the segment candidates |
| Canvas.ResolveSnap | app/src/main/java/com/rkt/snappyrulerset/ui/screens/DrawingScreen.kt:385-427 | the snap block, querying the index with the default limit of 20, has exactly the outcome `Resolve` describes |
| Canvas.PencilAppend | app/src/main/java/com/rkt/snappyrulerset/ui/screens/DrawingScreen.kt:477-483 | a trailing `Path` is replaced by one with the projected point appended; every other shape and field is unchanged; without a trailing `Path` the state is left as is |
| Canvas.PencilDragExtendsPath | app/src/main/java/com/rkt/snappyrulerset/ui/screens/DrawingScreen.kt:475-484 | a drag of several moves extends the trailing path by exactly those points in order |
| Canvas.PencilDrag | app/src/main/java/com/rkt/snappyrulerset/ui/screens/DrawingScreen.kt:475-484 | a Pencil move sets `endW` to the projected point and applies the append through the view model's `update` |
| Canvas.PencilStepUndoable | app/src/main/java/com/rkt/snappyrulerset/ui/screens/DrawingScreen.kt:477-483 | the update applies exactly the append, and one undo restores the state before it |
| Canvas.Committed | app/src/main/java/com/rkt/snappyrulerset/ui/screens/DrawingScreen.kt:507-541 | Line, RulerLine and SquareLine commit a line from start to end; Compass a circle or, in arc mode with both angles, an arc of the measured sweep; Protractor, Pencil and a missing end commit nothing |
| Canvas.Release | app/src/main/java/com/rkt/snappyrulerset/ui/screens/DrawingScreen.kt:507-544 | in a drawing mode with a drag in progress, the committed shape (if any) is added through `update`, dragging stops and `endW` is cleared; otherwise nothing changes; `snapOff` is reset in all cases |
| Canvas.CommitIsUndoable | app/src/main/java/com/rkt/snappyrulerset/ui/screens/DrawingScreen.kt:515-538 | a commit appends the shape and keeps every other field, and one undo removes it |
| UndoRedo.PushStep | app/src/main/java/com/rkt/snappyrulerset/domain/entity/UndoRedoManager.kt:17-21 | push appends the state, drops the oldest when over `max`, and empties the redo stack |
| UndoRedo.UndoStep | app/src/main/java/com/rkt/snappyrulerset/domain/entity/UndoRedoManager.kt:36-41 | without an earlier state, `current` is returned and nothing changes; otherwise the last state moves to the redo stack and the new last is returned |
| UndoRedo.RedoStep | app/src/main/java/com/rkt/snappyrulerset/domain/entity/UndoRedoManager.kt:46-50 | with an empty redo stack, `current` is returned and nothing changes; otherwise its last state moves back and is returned |
| UndoRedo.StaysBounded | app/src/main/java/com/rkt/snappyrulerset/domain/entity/UndoRedoManager.kt:19 | the two stacks together never hold more than `max` states, whatever the operation (so neither does the undo stack) |
| UndoRedo.PushForgetsFuture | app/src/main/java/com/rkt/snappyrulerset/domain/entity/UndoRedoManager.kt:20 | after a push there is nothing to redo and `redo` changes nothing |
| UndoRedo.PushIsCurrent | app/src/main/java/com/rkt/snappyrulerset/domain/entity/UndoRedoManager.kt:17-19 | after a push the pushed state is the last of the undo stack |
| UndoRedo.PushThenUndo | app/src/main/java/com/rkt/snappyrulerset/domain/entity/UndoRedoManager.kt:17-41 | undo right after a push returns the state before it and puts the pushed state on the redo stack |
| UndoRedo.UndoThenRedo | app/src/main/java/com/rkt/snappyrulerset/domain/entity/UndoRedoManager.kt:36-50 | undo followed by redo restores both stacks and returns the state that was current |
| UndoRedo.RedoThenUndo | app/src/main/java/com/rkt/snappyrulerset/domain/entity/UndoRedoManager.kt:36-50 | redo followed by undo restores both stacks |
| UndoRedo.PushAllKeepsLatest | app/src/main/java/com/rkt/snappyrulerset/domain/entity/UndoRedoManager.kt:17-21 | a fresh manager fed a sequence of states keeps the latest `max` of them, in order |
| UndoRedo.SixPushesAllowTwoUndos | app/src/main/java/com/rkt/snappyrulerset/domain/entity/UndoRedoManager.kt:19-40 | with `max` 3, after six pushes exactly two undos are possible |
| UndoRedo.UndoRedoManager.constructor | app/src/main/java/com/rkt/snappyrulerset/domain/entity/UndoRedoManager.kt:9-11 | a fresh manager has both stacks empty |
| UndoRedo.UndoRedoManager.Push | app/src/main/java/com/rkt/snappyrulerset/domain/entity/UndoRedoManager.kt:17-21 | the stacks become `PushStep` of the old stacks |
| UndoRedo.UndoRedoManager.CanUndo | app/src/main/java/com/rkt/snappyrulerset/domain/entity/UndoRedoManager.kt:26 | true exactly when the undo stack holds more than one state |
| UndoRedo.UndoRedoManager.CanRedo | app/src/main/java/com/rkt/snappyrulerset/domain/entity/UndoRedoManager.kt:31 | true exactly when the redo stack is not empty |
| UndoRedo.UndoRedoManager.Undo | app/src/main/java/com/rkt/snappyrulerset/domain/entity/UndoRedoManager.kt:36-41 | the stacks and the result are `UndoStep` of the old stacks |
| UndoRedo.UndoRedoManager.Redo | app/src/main/java/com/rkt/snappyrulerset/domain/entity/UndoRedoManager.kt:46-50 | the stacks and the result are `RedoStep` of the old stacks |
| ViewModel.Start | app/src/main/java/com/rkt/snappyrulerset/presentation/viewmodel/DrawingViewModel.kt:19-26 | a fresh view model holds the initial state as the only history entry |
| ViewModel.OperationsKeepCoherent | app/src/main/java/com/rkt/snappyrulerset/presentation/viewmodel/DrawingViewModel.kt:24-84 | every operation keeps the state equal to the last undo entry and the two stacks within the bound of 50 |
| ViewModel.FreshHasNoHistory | app/src/main/java/com/rkt/snappyrulerset/presentation/viewmodel/DrawingViewModel.kt:24-26 | right after construction `undo()` and `redo()` change nothing |
| ViewModel.GatedByHistory | app/src/main/java/com/rkt/snappyrulerset/presentation/viewmodel/DrawingViewModel.kt:62-75 | `undo()` and `redo()` change nothing unless the manager reports `canUndo` / `canRedo` |
| ViewModel.UpdateThenUndo | app/src/main/java/com/rkt/snappyrulerset/presentation/viewmodel/DrawingViewModel.kt:31-35 | `update(f)` followed by `undo()` restores the old state |
| ViewModel.ClearIsUndoable | app/src/main/java/com/rkt/snappyrulerset/presentation/viewmodel/DrawingViewModel.kt:80-84 | `clear()` empties the shapes, keeps every other field, and is undone by `undo()` |
| ViewModel.NothingToRedoAfterChange | app/src/main/java/com/rkt/snappyrulerset/presentation/viewmodel/DrawingViewModel.kt:35 | after `update` or `clear`, `redo()` changes nothing |
| ViewModel.UndoThenRedoRestores | app/src/main/java/com/rkt/snappyrulerset/presentation/viewmodel/DrawingViewModel.kt:62-75 | when an undo is possible, `undo()` followed by `redo()` restores the view model |
| ViewModel.DrawingViewModel.constructor | app/src/main/java/com/rkt/snappyrulerset/presentation/viewmodel/DrawingViewModel.kt:16-26 | the new view model is `Start(initial)` with its own manager |
| ViewModel.DrawingViewModel.Update | app/src/main/java/com/rkt/snappyrulerset/presentation/viewmodel/DrawingViewModel.kt:31-35 | state and history become `AfterUpdate` of the old ones |
| ViewModel.DrawingViewModel.Undo | app/src/main/java/com/rkt/snappyrulerset/presentation/viewmodel/DrawingViewModel.kt:62-66 | state and history become `AfterUndo` of the old ones |
| ViewModel.DrawingViewModel.Redo | app/src/main/java/com/rkt/snappyrulerset/presentation/viewmodel/DrawingViewModel.kt:71-75 | state and history become `AfterRedo` of the old ones |
| ViewModel.DrawingViewModel.Clear | app/src/main/java/com/rkt/snappyrulerset/presentation/viewmodel/DrawingViewModel.kt:80-84 | state and history become `AfterClear` of the old ones |
| Calibration.DefaultDpi | app/src/main/java/com/rkt/snappyrulerset/calibration/CalibrationManager.kt:66-72 | one of the standard densities 120, 160, 240, 320, 480, 640, with none nearer to the device density and none earlier in the list as near |
| Calibration.StandardDensityKept | app/src/main/java/com/rkt/snappyrulerset/calibration/CalibrationManager.kt:66-72 | a device density that is itself standard is kept |
| Calibration.TiedDensityTakesFirst | app/src/main/java/com/rkt/snappyrulerset/calibration/CalibrationManager.kt:66-72 | a density of 200, 40 from both 160 and 240, gets 160, the first of the tie |
| Calibration.WithKnownLength | app/src/main/java/com/rkt/snappyrulerset/calibration/CalibrationManager.kt:44-48 | `mmPerPx * measured == actual` and `dpi * mmPerPx == 25.4`; calibrated, dated now |
| Calibration.WithDpi | app/src/main/java/com/rkt/snappyrulerset/calibration/CalibrationManager.kt:54-56 | the given `dpi`, with `dpi * mmPerPx == 25.4`; calibrated, dated now |
| Calibration.InchMeasurementMatchesDpi | app/src/main/java/com/rkt/snappyrulerset/calibration/CalibrationManager.kt:44-56 | measuring `dpi` pixels for 25.4 mm calibrates exactly as giving `dpi` directly |
| Calibration.Current | app/src/main/java/com/rkt/snappyrulerset/calibration/CalibrationManager.kt:35-42 | a saved record is read back as saved; with nothing saved, the default density, `mmPerPx == 25.4 / dpi`, not calibrated, date 0 |
| Calibration.RecalibrationAfter31Days | app/src/main/java/com/rkt/snappyrulerset/calibration/CalibrationManager.kt:92-98 | never needed when uncalibrated; otherwise needed exactly when at least 31 whole days (`> 30` in truncating day division) have passed |
| Calibration.CalibrationManager.constructor | app/src/main/java/com/rkt/snappyrulerset/calibration/CalibrationManager.kt:15-16 | the manager starts from the given device density and preference store |
| Calibration.CalibrationManager.GetCalibrationData | app/src/main/java/com/rkt/snappyrulerset/calibration/CalibrationManager.kt:35-42 | returns `Current` of the store |
| Calibration.CalibrationManager.CalibrateWithKnownLength | app/src/main/java/com/rkt/snappyrulerset/calibration/CalibrationManager.kt:44-52 | returns `WithKnownLength` and saves it |
| Calibration.CalibrationManager.CalibrateWithDpi | app/src/main/java/com/rkt/snappyrulerset/calibration/CalibrationManager.kt:54-60 | returns `WithDpi` and saves it |
| Calibration.CalibrationManager.ResetCalibration | app/src/main/java/com/rkt/snappyrulerset/calibration/CalibrationManager.kt:62-64 | the store is emptied |
| Calibration.CalibrationManager.NeedsRecalibrationAt | app/src/main/java/com/rkt/snappyrulerset/calibration/CalibrationManager.kt:92-98 | the rule applied to the current record at time `now` |
| Calibration.ResetNeedsNoRecalibration | app/src/main/java/com/rkt/snappyrulerset/calibration/CalibrationManager.kt:62-98 | after a reset the record is the uncalibrated default, at a standard density, and never needs recalibration |
| Calibration.SavedIsRead | app/src/main/java/com/rkt/snappyrulerset/calibration/CalibrationManager.kt:35-81 | a saved record is read back unchanged and its recalibration rule is the record's own |

## Left out

- Floating point: rounding, overflow, NaN and infinities are not modelled; `Float` is a real number. The `1e-4` tolerances are kept as the exact value of the float literal.
- `Geometry.AngleOf`, `Geometry.FromAngle`, `Geometry.Len` and `Geometry.Distance` only name a call to `atan2`, `cos`/`sin` or `hypot`. These functions are parameters, so nothing is stated about the values they compute.
- Snapping.AngleDelta: the delta is shown to be at most `PI.toFloat()` except when the remainder lies strictly between `Math.PI` and `PI.toFloat()`; there the bound is only `2 * PI.toFloat() - Math.PI`, slightly above pi. This gap comes from modelling `Float` as a real number: the interval holds no `Float`, so the source's delta always lies in [0, `PI.toFloat()`].
- Snapping.DynamicSnapRadiusPx: requires a nonzero zoom; the source's division by zero gives an infinite radius clamped to 28, which is IEEE behaviour outside the model.
- Canvas.Candidates: requires a nonzero zoom and a nonzero grid spacing for the same reason (an IEEE infinite or NaN grid point).
- Snapping.SnapToGrid: requires a nonzero grid spacing in pixels, as do `Snapping.GridPointSnaps` and the helpers `RoundTo` and `GridPoint`; with a zero spacing the source divides by zero and returns NaN coordinates.
- Calibration.WithKnownLength: requires nonzero inputs; with zero the source produces IEEE infinities or NaN.
- Calibration.WithDpi: requires a nonzero DPI, for the same reason.
- SpatialIndexing.SpatialGrid.QueryNear: requires `maxResults >= 0`, because the source's `ArrayList(maxResults)` throws for a negative capacity.
- SpatialIndexing.SpatialGrid.constructor: requires a positive cell size. The source's default is 64, and a zero or negative cell has no meaningful cells.
- SpatialIndexing.QueryReturnsNearCells: stated for cell indices in the 32-bit range, where the key packing is injective. Outside it, distinct cells can share a key and their points can be returned.
- SpatialIndexing.Pack: the integer key and the 64-bit word expression of `SpatialGrid.kt` line 18 are related through their two 32-bit halves (`PackedWordFields`, `PackFields`); no lemma equates the word's signed value with `Pack` directly, because the verifier's conversion between 64-bit words and integers does not complete.
- Canvas.PriorityDominates: assumes only that the square root is never negative (`SqrtNonneg`, implied by `IsSqrt` through `Canvas.TrueSqrtNonneg`).
- Calibration.RecalibrationAfter31Days: `Long` overflow of `now - calibrationDate` is not modelled.
- Calibration: the preference store is modelled as one optional record. The source reads each key with its own default, but `saveCalibration` writes all four keys and `resetCalibration` clears them all, so the operations modelled never leave a partial record. The `?: density` fallback of `getDefaultDpi` is unreachable, since the standard list is not empty.
- `getCalibrationAccuracy` is not modelled: it only formats a string.
- The settings persistence in `DrawingViewModel.update` (`hasSettingsChanged`, `saveSettings`) is not modelled: it is I/O over a library that is not part of this model.
- DrawingScreen.kt is modelled only in the fragments named in the table. Not modelled:
  - gesture decoding (pointer events, long press, multi-finger pan, zoom and rotate);
  - the haptic feedback on a new snap kind;
  - the Pencil press that starts a new path holding the one pressed point (line 342);
  - the Protractor and Compass HUD text, the set-square edge directions and all drawing code.
- Canvas.PencilDrag and Canvas.Release apply their updates through `ViewModel.AfterUpdate`, the view model in `presentation/viewmodel/DrawingViewModel.kt`. `DrawingScreen.kt` line 78 actually takes the older `viewmodel/DrawingViewModel.kt`. That class has the same `update`, `undo` and `redo`: it applies the block and pushes the result onto a 50-entry history, and undo and redo are gated by `canUndo` and `canRedo`. Its differences:
  - it keeps that history in a `History` class (`history/History.kt`), which is not part of this model; the model assumes it behaves as `UndoRedoManager`;
  - it saves no settings;
  - it declares no `clear`, although line 205 of the screen calls one.
- The ruler and set-square projection before the snap block are not modelled. Only `projectOntoLine`, the helper they use, is modelled.
- Tests that disagree with the code are not followed. The model follows the code in each case:
  - `SnappingEngineTest.kt` lines 27-28 expect a radius of 32, but the clamp gives 28 (`Snapping.DynamicSnapRadiusPx`);
  - `UndoRedoManagerTest.kt` lines 105-110 expect a third undo that the bound forbids (`UndoRedo.SixPushesAllowTwoUndos`);
  - `SnapPointCollectorTest.kt` lines 148-158 expect one point for tangent circles, but the code returns it twice (`SnapPoints.CircleCircleTangentTwice`);
  - `SnapPointCollectorTest.kt` lines 91-119 expect the crossings of a circle and a segment, but `collectCircleLineIntersections` calls the closed form as written, which misses them (`SnapPoints.CollectCircleLineIntersections`). The intended collector, `SnapPoints.CorrectedCircleLineIntersections`, is modelled beside it (see "Findings").
- Concurrency and Compose state flows are not modelled. The view model's `StateFlow` is a plain field.

## Findings

| source | as written | input that shows it | evidently intended | confidence | as-written member | corrected member |
|---|---|---|---|---|---|---|
| deliverables/Source-Code/app/src/main/java/com/rkt/snappyrulerset/domain/usecase/SnapPointCollector.kt:93-118 | the closed form at lines 99-107 uses the circle's centre where the line's determinant belongs, so its candidates are in general not on the circle | circle of radius 5 about (0, 0) and the segment from (-10, 0) to (10, 0): the candidates are (100, 0) and (-100, 0), both off the segment, so nothing is returned (and nothing is collected by `collectCircleLineIntersections`) although (5, 0) and (-5, 0) are crossings | return the points where the segment meets the circle, a tangent point once | not executed | SnapPoints.CircleLineAsWrittenMissesCrossing | SnapPoints.CorrectedCircleLineFindsCrossings |
