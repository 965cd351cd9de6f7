/**
 * The parts of ui/screens/DrawingScreen.kt that decide where a drag lands and
 * what it leaves behind: the snap resolution that combines point, segment
 * and grid candidates, the pure helpers at the end of the file, the Pencil
 * append during a drag and the commit on release. Gesture decoding, haptics,
 * the HUD text and drawing are not part of this model.
 */
module Canvas {
  import opened Wrappers
  import opened Geometry
  import opened Selection
  import opened Shapes
  import opened Snapping
  import opened SpatialIndexing
  import opened UndoRedo
  import opened ViewModel

  /** The screen's interaction modes. */
  datatype Mode = Move | Pencil | Line | RulerLine | SquareLine | Protractor | Compass | Tool

  // ---------------------------------------------------------------------
  // Helpers

  /** `screenToWorld(p, vp)`: screen pixels to world coordinates. */
  function ScreenToWorld(p: Vec2, vp: Viewport): Vec2
    requires vp.zoom != 0.0
  {
    Vec2(vp.pan.x + p.x / vp.zoom, vp.pan.y + p.y / vp.zoom)
  }

  /** Subtracting the pan and scaling by the zoom takes a world point back to the screen point it came from. */
  lemma ScreenToWorldInverse(p: Vec2, vp: Viewport)
    requires vp.zoom != 0.0
    ensures Scale(Sub(ScreenToWorld(p, vp), vp.pan), vp.zoom) == p
  {
    var w := ScreenToWorld(p, vp);
    assert w.x - vp.pan.x == p.x / vp.zoom;
    assert w.y - vp.pan.y == p.y / vp.zoom;
    QuotientTimesBack(p.x, vp.zoom);
    QuotientTimesBack(p.y, vp.zoom);
  }

  lemma QuotientTimesBack(x: real, z: real)
    requires z != 0.0
    ensures (x / z) * z == x
  {
  }

  /** `projectOntoLine(origin, p, dir)`: `origin + dir * dot(p - origin, dir)`. */
  function ProjectOntoLine(origin: Vec2, p: Vec2, dir: Vec2): Vec2
  {
    Add(origin, Scale(dir, Dot(Sub(p, origin), dir)))
  }

  /**
   * For a unit direction, what is left of `p` after the projection is
   * perpendicular to the line, and projecting again changes nothing.
   */
  lemma ProjectionIsOrthogonal(origin: Vec2, p: Vec2, dir: Vec2)
    requires Dot(dir, dir) == 1.0
    ensures Dot(Sub(p, ProjectOntoLine(origin, p, dir)), dir) == 0.0
    ensures ProjectOntoLine(origin, ProjectOntoLine(origin, p, dir), dir) == ProjectOntoLine(origin, p, dir)
  {
    var t := Dot(Sub(p, origin), dir);
    var r := ProjectOntoLine(origin, p, dir);
    ResidualDot(p.x - origin.x, p.y - origin.y, dir.x, dir.y, t);
    assert Sub(r, origin) == Scale(dir, t);
    AlongDirection(dir.x, dir.y, t);
    assert Dot(Sub(r, origin), dir) == t;
  }

  lemma ResidualDot(vx: real, vy: real, dx: real, dy: real, t: real)
    requires dx * dx + dy * dy == 1.0 && t == vx * dx + vy * dy
    ensures (vx - dx * t) * dx + (vy - dy * t) * dy == 0.0
  {
    assert (vx - dx * t) * dx + (vy - dy * t) * dy == t - t * (dx * dx + dy * dy);
  }

  lemma AlongDirection(dx: real, dy: real, t: real)
    requires dx * dx + dy * dy == 1.0
    ensures (dx * t) * dx + (dy * t) * dy == t
  {
    assert (dx * t) * dx + (dy * t) * dy == t * (dx * dx + dy * dy);
  }

  /** `norm(a)` inside `nearestCommonAngle`: `a` brought into (-π, π], with π as the float and the double constant. */
  function NormAngle(a: real): (r: real)
    ensures DoublePI - 2.0 * PI < r <= DoublePI
  {
    var twoPI := 2.0 * PI;
    var y := Rem(a, twoPI);
    RemRange(a, twoPI);
    var x := Rem(y + twoPI, twoPI);
    RemRange(y + twoPI, twoPI);
    if x > DoublePI then x - twoPI else x
  }

  /** How far the angle `a` (in radians) is from `raw`, as `nearestCommonAngle` measures it: the size of the normalised difference. */
  function AngleGap(raw: real, a: real): real
  {
    Abs(NormAngle(raw - a))
  }

  /**
   * `nearestCommonAngle(raw)`: the first common angle (in radians) whose
   * normalised difference from `raw` is smallest.
   */
  function NearestCommonAngle(raw: real): (r: real)
    ensures r in AngleSet()
    ensures forall c :: c in AngleSet() ==> AngleGap(raw, r) <= AngleGap(raw, c)
    ensures exists i :: (0 <= i < |AngleSet()| && r == AngleSet()[i]
      && forall j :: 0 <= j < i ==> AngleGap(raw, r) < AngleGap(raw, AngleSet()[j]))
  {
    var s := AngleSet();
    s[MinIndexBy(s, c => AngleGap(raw, c))]
  }

  /** `SnapResult(value, snapped)`. */
  datatype SnapResult = SnapResult(value: real, snapped: bool)

  /** `min(d, 360 - d)` for `d = |deg - c|`: the way round between two directions in degrees. */
  function CircularDeg(deg: real, c: real): real
  {
    var d := Abs(deg - c);
    if d <= 360.0 - d then d else 360.0 - d
  }

  /**
   * `snapAngleIfClose(rawRad, thresholdDeg)`: the common angle closest to
   * `rawRad`, with `snapped` set, when it is within the threshold; `rawRad`
   * itself otherwise.
   */
  function SnapAngleIfClose(rawRad: real, thresholdDeg: real): (r: SnapResult)
    ensures r.snapped ==> r.value in AngleSet()
    ensures !r.snapped ==> r.value == rawRad
    ensures r.snapped <==> exists d :: d in CommonDegrees && CircularDeg(Degrees(rawRad), d) <= thresholdDeg
    ensures r.snapped ==> exists i :: (0 <= i < |CommonDegrees| && r.value == Radians(CommonDegrees[i])
      && (forall j :: 0 <= j < |CommonDegrees| ==>
            CircularDeg(Degrees(rawRad), CommonDegrees[i]) <= CircularDeg(Degrees(rawRad), CommonDegrees[j]))
      && (forall j :: 0 <= j < i ==>
            CircularDeg(Degrees(rawRad), CommonDegrees[i]) < CircularDeg(Degrees(rawRad), CommonDegrees[j])))
  {
    var i := MinIndexBy(CommonDegrees, d => CircularDeg(Degrees(rawRad), d));
    var bestRad := Radians(CommonDegrees[i]);
    var delta := CircularDeg(Degrees(rawRad - bestRad), 0.0);
    DegreesOfDifference(rawRad, CommonDegrees[i]);
    assert delta == CircularDeg(Degrees(rawRad), CommonDegrees[i]);
    assert AngleSet()[i] == bestRad;
    if delta <= thresholdDeg then SnapResult(bestRad, true) else SnapResult(rawRad, false)
  }

  lemma DegreesOfDifference(raw: real, c: real)
    ensures Degrees(raw - Radians(c)) == Degrees(raw) - c
  {
  }

  /** A raw angle that is itself a common angle snaps, at any threshold from 0 up. */
  lemma CommonAngleSnapsToItself(i: nat, thresholdDeg: real)
    requires i < |CommonDegrees| && thresholdDeg >= 0.0
    ensures SnapAngleIfClose(Radians(CommonDegrees[i]), thresholdDeg).snapped
  {
    DegreesRadiansRoundTrip(0.0, CommonDegrees[i]);
    assert CircularDeg(Degrees(Radians(CommonDegrees[i])), CommonDegrees[i]) == 0.0;
  }

  // ---------------------------------------------------------------------
  // Snap resolution

  /** `priority * 1000 + distancePx`: the ordering `minByOrNull` uses. */
  function SnapKey(c: SnapCandidate): real
  {
    c.priority as real * 1000.0 + c.distancePx
  }

  /** The radius for point candidates: half as large again when the previous snap was to a point. */
  function PointRadius(radiusPx: real, lastSnap: string): real
  {
    if lastSnap == "point" then radiusPx * 1.5 else radiusPx
  }

  function PointCandidate(p: Vec2, projected: Vec2, zoom: real, sqrt: real -> real): SnapCandidate
  {
    SnapCandidate(p, 1, Distance(p, projected, sqrt) * zoom, "point")
  }

  /** Step 1: the nearby points within `radius` screen pixels, in query order. */
  function PointCandidates(near: seq<Vec2>, projected: Vec2, zoom: real, radius: real, sqrt: real -> real): (r: seq<SnapCandidate>)
    ensures |r| <= |near|
    ensures forall c :: c in r ==>
      c.priority == 1 && c.labelText == "point" && c.distancePx <= radius
      && c.distancePx == Distance(c.pos, projected, sqrt) * zoom
  {
    if |near| == 0 then []
    else
      var c := PointCandidate(near[|near| - 1], projected, zoom, sqrt);
      PointCandidates(near[..|near| - 1], projected, zoom, radius, sqrt) + (if c.distancePx <= radius then [c] else [])
  }

  /** The point candidates are exactly the nearby points within the radius. */
  lemma {:induction false} PointCandidatesExact(near: seq<Vec2>, projected: Vec2, zoom: real, radius: real, sqrt: real -> real, p: Vec2)
    ensures PointCandidate(p, projected, zoom, sqrt) in PointCandidates(near, projected, zoom, radius, sqrt)
        <==> p in near && PointCandidate(p, projected, zoom, sqrt).distancePx <= radius
  {
    if |near| > 0 {
      var init := near[..|near| - 1];
      PointCandidatesExact(init, projected, zoom, radius, sqrt, p);
      assert near == init + [near[|near| - 1]];
    }
  }

  function SegmentCandidate(seg: LineShape, projected: Vec2, zoom: real, sqrt: real -> real): (c: SnapCandidate)
    ensures c.pos == ClosestPointOnSegment(projected, seg.a, seg.b)
    ensures c.priority == 2 && c.labelText == "segment" && c.distancePx == Distance(projected, c.pos, sqrt) * zoom
  {
    var cp := ClosestPointOnSegment(projected, seg.a, seg.b);
    SnapCandidate(cp, 2, Distance(projected, cp, sqrt) * zoom, "segment")
  }

  /** A segment candidate within `radius` screen pixels of `projected`. */
  predicate SegmentHit(c: SnapCandidate, projected: Vec2, zoom: real, radius: real, sqrt: real -> real)
  {
    c.priority == 2 && c.labelText == "segment" && c.distancePx <= radius
    && c.distancePx == Distance(projected, c.pos, sqrt) * zoom
  }

  /** Step 2: the closest point of each line within `radius` screen pixels, in drawing order. */
  function SegmentCandidates(lines: seq<LineShape>, projected: Vec2, zoom: real, radius: real, sqrt: real -> real): (r: seq<SnapCandidate>)
    ensures |r| <= |lines|
    ensures forall c :: c in r ==> SegmentHit(c, projected, zoom, radius, sqrt)
  {
    if |lines| == 0 then []
    else
      var c := SegmentCandidate(lines[|lines| - 1], projected, zoom, sqrt);
      SegmentCandidates(lines[..|lines| - 1], projected, zoom, radius, sqrt) + (if c.distancePx <= radius then [c] else [])
  }

  /** Every line whose closest point is within the radius contributes that point, and only lines do. */
  lemma {:induction false} SegmentCandidatesExact(lines: seq<LineShape>, projected: Vec2, zoom: real, radius: real, sqrt: real -> real, c: SnapCandidate)
    ensures c in SegmentCandidates(lines, projected, zoom, radius, sqrt)
        <==> exists k :: 0 <= k < |lines| && c == SegmentCandidate(lines[k], projected, zoom, sqrt) && c.distancePx <= radius
  {
    if |lines| > 0 {
      var init := lines[..|lines| - 1];
      SegmentCandidatesExact(init, projected, zoom, radius, sqrt, c);
      if exists k :: 0 <= k < |lines| && c == SegmentCandidate(lines[k], projected, zoom, sqrt) && c.distancePx <= radius {
        var k :| 0 <= k < |lines| && c == SegmentCandidate(lines[k], projected, zoom, sqrt) && c.distancePx <= radius;
        if k < |init| {
          assert init[k] == lines[k];
        }
      }
      if exists k :: 0 <= k < |init| && c == SegmentCandidate(init[k], projected, zoom, sqrt) && c.distancePx <= radius {
        var k :| 0 <= k < |init| && c == SegmentCandidate(init[k], projected, zoom, sqrt) && c.distancePx <= radius;
        assert lines[k] == init[k];
      }
    }
  }

  function GridCandidate(projected: Vec2, zoom: real, gridMm: real, dpi: real, sqrt: real -> real): SnapCandidate
    requires MmToPx(gridMm, dpi) != 0.0
  {
    var gridP := GridPoint(projected, MmToPx(gridMm, dpi));
    SnapCandidate(gridP, 3, Distance(gridP, projected, sqrt) * zoom, "grid")
  }

  /** Step 3: the nearest grid point, if it is within `radius` screen pixels. */
  function GridCandidates(projected: Vec2, zoom: real, radius: real, gridMm: real, dpi: real, sqrt: real -> real): (r: seq<SnapCandidate>)
    requires MmToPx(gridMm, dpi) != 0.0
    ensures |r| <= 1
    ensures forall c :: c in r ==>
      c.priority == 3 && c.labelText == "grid" && c.distancePx <= radius
      && c == GridCandidate(projected, zoom, gridMm, dpi, sqrt)
    ensures GridCandidate(projected, zoom, gridMm, dpi, sqrt).distancePx <= radius ==> |r| == 1
  {
    var c := GridCandidate(projected, zoom, gridMm, dpi, sqrt);
    if c.distancePx <= radius then [c] else []
  }

  /** All candidates, in the order the screen collects them. */
  function Candidates(mode: Mode, projected: Vec2, zoom: real, lastSnap: string, near: seq<Vec2>,
                      lines: seq<LineShape>, gridMm: real, dpi: real, sqrt: real -> real): (r: seq<SnapCandidate>)
    requires zoom != 0.0 && MmToPx(gridMm, dpi) != 0.0
    ensures mode == Mode.Compass ==> forall c :: c in r ==> c.labelText != "segment" && c.priority != 2
  {
    var radiusPx := DynamicSnapRadiusPx(zoom, 24.0);
    PointCandidates(near, projected, zoom, PointRadius(radiusPx, lastSnap), sqrt)
    + (if mode != Mode.Compass then SegmentCandidates(lines, projected, zoom, radiusPx, sqrt) else [])
    + GridCandidates(projected, zoom, radiusPx, gridMm, dpi, sqrt)
  }

  /**
   * The acceptance radii: a nearby point is a candidate exactly when it lies
   * within the snap radius, or within one and a half times it when the
   * previous snap was to a point; every segment and grid candidate lies
   * within the plain radius.
   */
  lemma CandidateRadii(mode: Mode, projected: Vec2, zoom: real, lastSnap: string, near: seq<Vec2>,
                       lines: seq<LineShape>, gridMm: real, dpi: real, sqrt: real -> real, p: Vec2)
    requires zoom != 0.0 && MmToPx(gridMm, dpi) != 0.0
    ensures var radiusPx := DynamicSnapRadiusPx(zoom, 24.0);
      var cands := Candidates(mode, projected, zoom, lastSnap, near, lines, gridMm, dpi, sqrt);
      var q := PointCandidate(p, projected, zoom, sqrt);
      (q in cands <==> p in near && q.distancePx <= (if lastSnap == "point" then radiusPx * 1.5 else radiusPx))
      && (forall c :: c in cands && c.priority != 1 ==> c.distancePx <= radiusPx)
  {
    var radiusPx := DynamicSnapRadiusPx(zoom, 24.0);
    PointCandidatesExact(near, projected, zoom, PointRadius(radiusPx, lastSnap), sqrt, p);
  }

  /** The values the snap block leaves in `projected`, `highlight` and `lastSnap`. */
  datatype SnapOutcome = SnapOutcome(projected: Vec2, highlight: Option<Vec2>, lastSnap: string)

  /** The snap block runs only with snapping on and no temporary override. */
  predicate SnapEnabled(snapping: bool, snapOff: bool) { snapping && !snapOff }

  /** The snap block as a function of the neighbourhood `near` the index returned. */
  function Resolve(snapping: bool, snapOff: bool, mode: Mode, projected: Vec2, zoom: real, lastSnap: string,
                   near: seq<Vec2>, lines: seq<LineShape>, gridMm: real, dpi: real, sqrt: real -> real): (o: SnapOutcome)
    requires SnapEnabled(snapping, snapOff) ==> zoom != 0.0 && MmToPx(gridMm, dpi) != 0.0
    ensures !SnapEnabled(snapping, snapOff) ==> o == SnapOutcome(projected, None, lastSnap)
  {
    if !SnapEnabled(snapping, snapOff) then SnapOutcome(projected, None, lastSnap)
    else
      var cands := Candidates(mode, projected, zoom, lastSnap, near, lines, gridMm, dpi, sqrt);
      match MinIndexByOrNone(cands, SnapKey)
      case None => SnapOutcome(projected, None, lastSnap)
      case Some(i) => SnapOutcome(cands[i].pos, Some(cands[i].pos), cands[i].labelText)
  }

  /**
   * With snapping on, the outcome is the first candidate of least key: the
   * projected point and the highlight move to its position and `lastSnap`
   * takes its label. Without candidates nothing moves and nothing is highlighted.
   */
  lemma ResolveChoosesBest(mode: Mode, projected: Vec2, zoom: real, lastSnap: string,
                           near: seq<Vec2>, lines: seq<LineShape>, gridMm: real, dpi: real, sqrt: real -> real)
    requires zoom != 0.0 && MmToPx(gridMm, dpi) != 0.0
    ensures var cands := Candidates(mode, projected, zoom, lastSnap, near, lines, gridMm, dpi, sqrt);
      var o := Resolve(true, false, mode, projected, zoom, lastSnap, near, lines, gridMm, dpi, sqrt);
      (|cands| == 0 ==> o == SnapOutcome(projected, None, lastSnap))
      && (|cands| > 0 ==> exists i ::
            0 <= i < |cands|
            && o == SnapOutcome(cands[i].pos, Some(cands[i].pos), cands[i].labelText)
            && (forall j :: 0 <= j < |cands| ==> SnapKey(cands[i]) <= SnapKey(cands[j]))
            && (forall j :: 0 <= j < i ==> SnapKey(cands[i]) < SnapKey(cands[j])))
  {
    var cands := Candidates(mode, projected, zoom, lastSnap, near, lines, gridMm, dpi, sqrt);
    var r := MinIndexByOrNone(cands, SnapKey);
    if |cands| > 0 {
      var i := r.value;
      assert 0 <= i < |cands|;
    }
  }

  /** The one fact about the square root that the snap ordering needs: it is never negative. */
  ghost predicate SqrtNonneg(sqrt: real -> real)
  {
    forall x :: 0.0 <= x ==> 0.0 <= sqrt(x)
  }

  /** A true square root is never negative. */
  lemma TrueSqrtNonneg(sqrt: real -> real)
    requires IsSqrt(sqrt)
    ensures SqrtNonneg(sqrt)
  {
    forall x | 0.0 <= x
      ensures 0.0 <= sqrt(x)
    {
      assert SqrtAt(sqrt, x);
    }
  }

  /** With a non-negative square root, distances are never negative. */
  lemma DistanceNonneg(a: Vec2, b: Vec2, sqrt: real -> real)
    requires SqrtNonneg(sqrt)
    ensures Distance(a, b, sqrt) >= 0.0
  {
    DotSelfZero(Sub(a, b));
  }

  /** A distance in world units times a positive zoom is a non-negative screen distance. */
  lemma ScreenDistanceNonneg(a: Vec2, b: Vec2, zoom: real, sqrt: real -> real)
    requires SqrtNonneg(sqrt) && zoom > 0.0
    ensures Distance(a, b, sqrt) * zoom >= 0.0
  {
    DistanceNonneg(a, b, sqrt);
    MulNonneg(Distance(a, b, sqrt), zoom);
  }

  lemma PointsBounded(near: seq<Vec2>, projected: Vec2, zoom: real, radius: real, sqrt: real -> real)
    requires SqrtNonneg(sqrt) && zoom > 0.0
    ensures forall c :: c in PointCandidates(near, projected, zoom, radius, sqrt) ==>
      0.0 <= c.distancePx <= radius && c.priority == 1
  {
    forall c | c in PointCandidates(near, projected, zoom, radius, sqrt)
      ensures 0.0 <= c.distancePx
    {
      ScreenDistanceNonneg(c.pos, projected, zoom, sqrt);
    }
  }

  lemma SegmentsBounded(lines: seq<LineShape>, projected: Vec2, zoom: real, radius: real, sqrt: real -> real)
    requires SqrtNonneg(sqrt) && zoom > 0.0
    ensures forall c :: c in SegmentCandidates(lines, projected, zoom, radius, sqrt) ==>
      0.0 <= c.distancePx <= radius && c.priority == 2
  {
    forall c | c in SegmentCandidates(lines, projected, zoom, radius, sqrt)
      ensures 0.0 <= c.distancePx <= radius && c.priority == 2
    {
      assert SegmentHit(c, projected, zoom, radius, sqrt);
      ScreenDistanceNonneg(projected, c.pos, zoom, sqrt);
    }
  }

  lemma GridBounded(projected: Vec2, zoom: real, radius: real, gridMm: real, dpi: real, sqrt: real -> real)
    requires SqrtNonneg(sqrt) && zoom > 0.0 && MmToPx(gridMm, dpi) != 0.0
    ensures forall c :: c in GridCandidates(projected, zoom, radius, gridMm, dpi, sqrt) ==>
      0.0 <= c.distancePx <= radius && c.priority == 3
  {
    var c := GridCandidate(projected, zoom, gridMm, dpi, sqrt);
    ScreenDistanceNonneg(c.pos, projected, zoom, sqrt);
  }

  /** Three lists of candidates within their bounds make one list within the largest. */
  lemma ConcatBounded(points: seq<SnapCandidate>, segs: seq<SnapCandidate>, grid: seq<SnapCandidate>, pr: real, r: real)
    requires pr <= 42.0 && r <= 42.0
    requires forall c :: c in points ==> 0.0 <= c.distancePx <= pr && c.priority == 1
    requires forall c :: c in segs ==> 0.0 <= c.distancePx <= r && c.priority == 2
    requires forall c :: c in grid ==> 0.0 <= c.distancePx <= r && c.priority == 3
    ensures forall c :: c in points + segs + grid ==> 0.0 <= c.distancePx <= 42.0 && 1 <= c.priority <= 3
  {
  }

  /** Every candidate lies between 0 and 1.5 times the snap radius, which is at most 42 pixels. */
  lemma CandidateDistances(mode: Mode, projected: Vec2, zoom: real, lastSnap: string,
                           near: seq<Vec2>, lines: seq<LineShape>, gridMm: real, dpi: real, sqrt: real -> real)
    requires zoom > 0.0 && MmToPx(gridMm, dpi) != 0.0 && SqrtNonneg(sqrt)
    ensures forall c :: c in Candidates(mode, projected, zoom, lastSnap, near, lines, gridMm, dpi, sqrt) ==>
      0.0 <= c.distancePx <= 42.0 && 1 <= c.priority <= 3
  {
    var radiusPx := DynamicSnapRadiusPx(zoom, 24.0);
    var pr := PointRadius(radiusPx, lastSnap);
    PointsBounded(near, projected, zoom, pr, sqrt);
    SegmentsBounded(lines, projected, zoom, radiusPx, sqrt);
    GridBounded(projected, zoom, radiusPx, gridMm, dpi, sqrt);
    var segs := if mode != Mode.Compass then SegmentCandidates(lines, projected, zoom, radiusPx, sqrt) else [];
    ConcatBounded(PointCandidates(near, projected, zoom, pr, sqrt), segs,
                  GridCandidates(projected, zoom, radiusPx, gridMm, dpi, sqrt), pr, radiusPx);
  }

  /**
   * Because no accepted distance reaches 1000, the key orders candidates by
   * priority first: a point beats a segment, which beats the grid.
   */
  lemma PriorityDominates(mode: Mode, projected: Vec2, zoom: real, lastSnap: string,
                          near: seq<Vec2>, lines: seq<LineShape>, gridMm: real, dpi: real, sqrt: real -> real)
    requires zoom > 0.0 && MmToPx(gridMm, dpi) != 0.0 && SqrtNonneg(sqrt)
    ensures var cands := Candidates(mode, projected, zoom, lastSnap, near, lines, gridMm, dpi, sqrt);
      forall i, j :: 0 <= i < |cands| && 0 <= j < |cands| && SnapKey(cands[i]) <= SnapKey(cands[j]) ==>
        cands[i].priority <= cands[j].priority
  {
    var cands := Candidates(mode, projected, zoom, lastSnap, near, lines, gridMm, dpi, sqrt);
    CandidateDistances(mode, projected, zoom, lastSnap, near, lines, gridMm, dpi, sqrt);
    forall i, j | 0 <= i < |cands| && 0 <= j < |cands| && SnapKey(cands[i]) <= SnapKey(cands[j])
      ensures cands[i].priority <= cands[j].priority
    {
      assert cands[i] in cands && cands[j] in cands;
    }
  }

  /** Step 1 of the snap block: the loop over the nearby points. */
  method CollectPoints(near: seq<Vec2>, projected: Vec2, zoom: real, radius: real, sqrt: real -> real)
    returns (cands: seq<SnapCandidate>)
    ensures cands == PointCandidates(near, projected, zoom, radius, sqrt)
  {
    cands := [];
    for i := 0 to |near|
      invariant cands == PointCandidates(near[..i], projected, zoom, radius, sqrt)
    {
      var c := PointCandidate(near[i], projected, zoom, sqrt);
      if c.distancePx <= radius {
        cands := cands + [c];
      }
      assert near[..i + 1][..i] == near[..i];
    }
    assert near[..|near|] == near;
  }

  /** Step 2 of the snap block: the loop over the drawn lines. */
  method CollectSegments(lines: seq<LineShape>, projected: Vec2, zoom: real, radius: real, sqrt: real -> real)
    returns (cands: seq<SnapCandidate>)
    ensures cands == SegmentCandidates(lines, projected, zoom, radius, sqrt)
  {
    cands := [];
    for k := 0 to |lines|
      invariant cands == SegmentCandidates(lines[..k], projected, zoom, radius, sqrt)
    {
      var c := SegmentCandidate(lines[k], projected, zoom, sqrt);
      if c.distancePx <= radius {
        cands := cands + [c];
      }
      assert lines[..k + 1][..k] == lines[..k];
    }
    assert lines[..|lines|] == lines;
  }

  /**
   * The snap block: with snapping on, collect the point candidates from the
   * index's neighbourhood query (at most 20 points), the segment candidates
   * unless in Compass mode, and the grid candidate; then move to the one of
   * least key.
   */
  method ResolveSnap(snapping: bool, snapOff: bool, mode: Mode, projected: Vec2, zoom: real, lastSnap: string,
                     index: SpatialGrid, lines: seq<LineShape>, gridMm: real, dpi: real, sqrt: real -> real)
    returns (o: SnapOutcome)
    requires index.Valid()
    requires SnapEnabled(snapping, snapOff) ==> zoom != 0.0 && MmToPx(gridMm, dpi) != 0.0
    ensures o == Resolve(snapping, snapOff, mode, projected, zoom, lastSnap,
      Prefix(Neighbourhood(index.buckets, CellIndex(projected.x, index.cell), CellIndex(projected.y, index.cell)), 20),
      lines, gridMm, dpi, sqrt)
  {
    if !(snapping && !snapOff) {
      return SnapOutcome(projected, None, lastSnap);
    }
    var radiusPx := DynamicSnapRadiusPx(zoom, 24.0);
    var effectiveRadius := PointRadius(radiusPx, lastSnap);
    var near := index.QueryNear(projected, 20);
    var points := CollectPoints(near, projected, zoom, effectiveRadius, sqrt);
    var segs: seq<SnapCandidate> := [];
    if mode != Mode.Compass {
      segs := CollectSegments(lines, projected, zoom, radiusPx, sqrt);
    }
    var grid: seq<SnapCandidate> := [];
    var gridC := GridCandidate(projected, zoom, gridMm, dpi, sqrt);
    if gridC.distancePx <= radiusPx {
      grid := [gridC];
    }
    var cands := points + segs + grid;
    assert cands == Candidates(mode, projected, zoom, lastSnap, near, lines, gridMm, dpi, sqrt);
    var best := MinIndexByOrNone(cands, SnapKey);
    match best
    case None =>
      o := SnapOutcome(projected, None, lastSnap);
    case Some(i) =>
      o := SnapOutcome(cands[i].pos, Some(cands[i].pos), cands[i].labelText);
  }

  // ---------------------------------------------------------------------
  // Pencil drag

  /**
   * The Pencil update: when the last shape is a path, it is replaced by the
   * same path with `projected` appended; otherwise the state is returned as
   * it is.
   */
  function PencilAppend(s: DrawingState, projected: Vec2): (r: DrawingState)
    ensures r.(shapes := s.shapes) == s
    ensures |r.shapes| == |s.shapes|
    ensures |s.shapes| > 0 ==> r.shapes[..|s.shapes| - 1] == s.shapes[..|s.shapes| - 1]
    ensures (|s.shapes| == 0 || !s.shapes[|s.shapes| - 1].Path?) ==> r == s
    ensures |s.shapes| > 0 && s.shapes[|s.shapes| - 1].Path? ==>
      r.shapes[|s.shapes| - 1] == Path(s.shapes[|s.shapes| - 1].points + [projected])
  {
    if |s.shapes| == 0 then s
    else
      var last := s.shapes[|s.shapes| - 1];
      if last.Path? then s.(shapes := s.shapes[..|s.shapes| - 1] + [last.(points := last.points + [projected])])
      else s
  }

  /** Appending the points of a drag one at a time. */
  function PencilAppendAll(s: DrawingState, pts: seq<Vec2>): DrawingState
  {
    if |pts| == 0 then s else PencilAppend(PencilAppendAll(s, pts[..|pts| - 1]), pts[|pts| - 1])
  }

  /** A whole drag extends the trailing path by exactly the dragged points, in order, and touches nothing else. */
  lemma {:induction false} PencilDragExtendsPath(s: DrawingState, pts: seq<Vec2>)
    requires |s.shapes| > 0 && s.shapes[|s.shapes| - 1].Path?
    ensures var r := PencilAppendAll(s, pts);
      |r.shapes| == |s.shapes|
      && r.shapes[..|s.shapes| - 1] == s.shapes[..|s.shapes| - 1]
      && r.shapes[|s.shapes| - 1] == Path(s.shapes[|s.shapes| - 1].points + pts)
      && r.(shapes := s.shapes) == s
  {
    if |pts| > 0 {
      var init := pts[..|pts| - 1];
      PencilDragExtendsPath(s, init);
      assert s.shapes[|s.shapes| - 1].points + init + [pts[|pts| - 1]] == s.shapes[|s.shapes| - 1].points + pts;
    }
  }

  /** The block handed to `vm.update` by a Pencil step. */
  function AppendPoint(projected: Vec2): DrawingState -> DrawingState
  {
    (s: DrawingState) => PencilAppend(s, projected)
  }

  /** One Pencil drag step: the update goes through the view model, so it is pushed onto the history. */
  method PencilDrag(vm: DrawingViewModel, projected: Vec2) returns (endW: Option<Vec2>)
    requires vm.Valid()
    modifies vm, vm.manager
    ensures endW == Some(projected)
    ensures vm.Snapshot() == AfterUpdate(old(vm.Snapshot()), AppendPoint(projected))
    ensures vm.Valid()
  {
    endW := Some(projected);
    vm.Update(AppendPoint(projected));
  }

  /** A Pencil step can be undone, which brings back the drawing as it was before the step. */
  lemma PencilStepUndoable(v: Session, projected: Vec2)
    requires Coherent(v)
    ensures AfterUpdate(v, AppendPoint(projected)).state == PencilAppend(v.state, projected)
    ensures AfterUndo(AfterUpdate(v, AppendPoint(projected))).state == v.state
  {
    UpdateThenUndo(v, AppendPoint(projected));
  }

  // ---------------------------------------------------------------------
  // Release

  /** The modes in which releasing a drag may commit something. */
  predicate DrawingMode(mode: Mode)
  {
    mode == Mode.Line || mode == Mode.RulerLine || mode == Mode.SquareLine
    || mode == Mode.Compass || mode == Mode.Protractor || mode == Mode.Pencil
  }

  /**
   * The shape a release adds: in Compass mode a circle, or an arc once both
   * arc angles are set, centred at the drag start with the drag length as
   * radius; nothing for Protractor and Pencil; otherwise the line from the
   * drag start to its end. Nothing without an end point.
   */
  function Committed(mode: Mode, startW: Vec2, endW: Option<Vec2>, compassMode: CompassMode,
                     arcStart: Option<real>, arcEnd: Option<real>, sqrt: real -> real): (r: Option<Shape>)
    ensures endW.None? ==> r.None?
    ensures (mode == Mode.Protractor || mode == Mode.Pencil) ==> r.None?
    ensures endW.Some? && (mode == Mode.Line || mode == Mode.RulerLine || mode == Mode.SquareLine) ==>
      r == Some(Shape.Line(startW, endW.value))
    ensures endW.Some? && mode == Mode.Compass ==>
      r.Some? && (r.value.Circle? || r.value.Arc?)
      && r.value.center == startW && r.value.r == Distance(startW, endW.value, sqrt)
      && (r.value.Arc? <==> compassMode == ArcMode && arcStart.Some? && arcEnd.Some?)
    ensures r.Some? && r.value.Arc? ==>
      arcStart.Some? && arcEnd.Some?
      && r.value.startRad == arcStart.value && r.value.sweepRad == arcEnd.value - arcStart.value
  {
    match endW
    case None => None
    case Some(e) =>
      match mode
      case Compass =>
        var r := Distance(startW, e, sqrt);
        if compassMode == ArcMode && arcStart.Some? && arcEnd.Some? then
          Some(Arc(startW, r, arcStart.value, arcEnd.value - arcStart.value))
        else Some(Circle(startW, r))
      case Protractor => None
      case Pencil => None
      case _ => Some(Shape.Line(startW, e))
  }

  /** The block handed to `vm.update` to commit `sh`. */
  function AddShape(sh: Shape): DrawingState -> DrawingState
  {
    (s: DrawingState) => s.(shapes := s.shapes + [sh])
  }

  /** The drag variables after a release. */
  datatype ReleaseOutcome = ReleaseOutcome(dragging: bool, endW: Option<Vec2>, arcStart: Option<real>, arcEnd: Option<real>, snapOff: bool)

  /**
   * Releasing the pointer: in a drawing mode, outside transform mode and
   * while dragging, stop dragging, commit the shape through the view model
   * and clear the end point (and the arc angles once an arc is committed);
   * in every case turn the temporary snap override off.
   */
  method Release(vm: DrawingViewModel, mode: Mode, transformMode: bool, dragging: bool, startW: Vec2, endW: Option<Vec2>,
                 compassMode: CompassMode, arcStart: Option<real>, arcEnd: Option<real>, sqrt: real -> real)
    returns (o: ReleaseOutcome)
    requires vm.Valid()
    modifies vm, vm.manager
    ensures vm.Valid()
    ensures !o.snapOff
    ensures var active := DrawingMode(mode) && !transformMode && dragging;
      var sh := Committed(mode, startW, endW, compassMode, arcStart, arcEnd, sqrt);
      (active && sh.Some? ==> vm.Snapshot() == AfterUpdate(old(vm.Snapshot()), AddShape(sh.value)))
      && (!(active && sh.Some?) ==> vm.Snapshot() == old(vm.Snapshot()))
      && (active ==> !o.dragging && o.endW.None?)
      && (!active ==> o == ReleaseOutcome(dragging, endW, arcStart, arcEnd, false))
      && (active && sh.Some? && sh.value.Arc? ==> o.arcStart.None? && o.arcEnd.None?)
      && (!(active && sh.Some? && sh.value.Arc?) ==> o.arcStart == arcStart && o.arcEnd == arcEnd)
  {
    o := ReleaseOutcome(dragging, endW, arcStart, arcEnd, false);
    if DrawingMode(mode) && !transformMode && dragging {
      o := o.(dragging := false);
      var sh := Committed(mode, startW, endW, compassMode, arcStart, arcEnd, sqrt);
      if sh.Some? {
        vm.Update(AddShape(sh.value));
        if sh.value.Arc? {
          o := o.(arcStart := None, arcEnd := None);
        }
      }
      o := o.(endW := None);
    }
  }

  /** A committed shape is appended after the existing ones, nothing else changes, and undo removes it again. */
  lemma CommitIsUndoable(v: Session, sh: Shape)
    requires Coherent(v)
    ensures AfterUpdate(v, AddShape(sh)).state.shapes == v.state.shapes + [sh]
    ensures AfterUpdate(v, AddShape(sh)).state.(shapes := v.state.shapes) == v.state
    ensures AfterUndo(AfterUpdate(v, AddShape(sh))).state == v.state
  {
    UpdateThenUndo(v, AddShape(sh));
  }
}
