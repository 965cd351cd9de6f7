/**
 * Snap-point collection (domain/usecase/SnapPointCollector.kt): the points
 * that existing shapes offer to the snapping engine — endpoints and
 * midpoints of lines, circle centres, arc endpoints, and the intersections
 * of lines with lines, of circles with lines and of circles with circles.
 *
 * The collectors that fill an `ArrayList` in a loop are methods proved
 * against the specification functions `Pairs` (every pair `i < j` of one
 * list, in the source's loop order) and `Product` (every element of one list
 * against every element of another).
 */
module SnapPoints {
  import opened Wrappers
  import opened Geometry
  import opened Shapes

  /** `1e-4f`, the source's tolerance, as the exact value of that single-precision float. */
  const Tolerance: real := 0.0000999999974737875163555145263671875

  // ---------------------------------------------------------------------
  // Endpoints, midpoints, centres, arc endpoints

  function Midpoint(a: Vec2, b: Vec2): Vec2
  {
    Vec2((a.x + b.x) / 2.0, (a.y + b.y) / 2.0)
  }

  /** `collectLinePoints`: for each line, in order, its two endpoints and its midpoint. */
  method CollectLinePoints(lines: seq<LineShape>) returns (pts: seq<Vec2>)
    ensures |pts| == 3 * |lines|
    ensures forall i :: 0 <= i < |lines| ==>
      pts[3 * i] == lines[i].a && pts[3 * i + 1] == lines[i].b &&
      pts[3 * i + 2] == Midpoint(lines[i].a, lines[i].b)
  {
    pts := [];
    for k := 0 to |lines|
      invariant |pts| == 3 * k
      invariant forall i :: 0 <= i < k ==>
        pts[3 * i] == lines[i].a && pts[3 * i + 1] == lines[i].b &&
        pts[3 * i + 2] == Midpoint(lines[i].a, lines[i].b)
    {
      var l := lines[k];
      pts := pts + [l.a, l.b, Midpoint(l.a, l.b)];
    }
  }

  /** The midpoint is the point halfway along the segment, equally far from both ends. */
  lemma MidpointIsHalfway(a: Vec2, b: Vec2)
    ensures Midpoint(a, b) == Lerp(a, b, 0.5)
    ensures OnSegment(Midpoint(a, b), a, b)
    ensures DistSq(Midpoint(a, b), a) == DistSq(Midpoint(a, b), b)
  {
    var m := Midpoint(a, b);
    var h := Scale(Sub(b, a), 0.5);
    assert Sub(m, a) == h;
    assert Sub(m, b) == Scale(h, -1.0);
    calc {
      DistSq(m, b);
      Dot(Scale(h, -1.0), Scale(h, -1.0));
      { NegateSquares(h.x, h.y); }
      Dot(h, h);
      DistSq(m, a);
    }
  }

  /** `collectCircleCenters`: the centre of each circle, in order. */
  function CollectCircleCenters(circles: seq<CircleShape>): (r: seq<Vec2>)
    ensures |r| == |circles|
    ensures forall i :: 0 <= i < |circles| ==> r[i] == circles[i].center
  {
    seq(|circles|, i requires 0 <= i < |circles| => circles[i].center)
  }

  /** The point at angle `theta` on the circle of radius `r` about `center`. */
  function PointAtAngle(center: Vec2, r: real, theta: real, cos: real -> real, sin: real -> real): Vec2
  {
    Add(center, Scale(FromAngle(theta, cos, sin), r))
  }

  /**
   * `collectArcPoints`: for each arc, in order, its start point and its end
   * point (at `startRad + sweepRad`).
   */
  method CollectArcPoints(arcs: seq<Shape>, cos: real -> real, sin: real -> real) returns (pts: seq<Vec2>)
    requires forall i :: 0 <= i < |arcs| ==> arcs[i].Arc?
    ensures |pts| == 2 * |arcs|
    ensures forall i :: 0 <= i < |arcs| ==>
      pts[2 * i] == PointAtAngle(arcs[i].center, arcs[i].r, arcs[i].startRad, cos, sin) &&
      pts[2 * i + 1] == PointAtAngle(arcs[i].center, arcs[i].r, arcs[i].startRad + arcs[i].sweepRad, cos, sin)
  {
    pts := [];
    for k := 0 to |arcs|
      invariant |pts| == 2 * k
      invariant forall i :: 0 <= i < k ==>
        pts[2 * i] == PointAtAngle(arcs[i].center, arcs[i].r, arcs[i].startRad, cos, sin) &&
        pts[2 * i + 1] == PointAtAngle(arcs[i].center, arcs[i].r, arcs[i].startRad + arcs[i].sweepRad, cos, sin)
    {
      var arc := arcs[k];
      var startDir := FromAngle(arc.startRad, cos, sin);
      var endDir := FromAngle(arc.startRad + arc.sweepRad, cos, sin);
      pts := pts + [Add(arc.center, Scale(startDir, arc.r)), Add(arc.center, Scale(endDir, arc.r))];
    }
  }

  /** With `cos^2 + sin^2 = 1` at `theta`, the point lies on the arc's circle. */
  lemma PointAtAngleOnCircle(center: Vec2, r: real, theta: real, cos: real -> real, sin: real -> real)
    requires cos(theta) * cos(theta) + sin(theta) * sin(theta) == 1.0
    ensures DistSq(PointAtAngle(center, r, theta, cos, sin), center) == r * r
  {
    var u := FromAngle(theta, cos, sin);
    assert Sub(PointAtAngle(center, r, theta, cos, sin), center) == Scale(u, r);
    calc {
      DistSq(PointAtAngle(center, r, theta, cos, sin), center);
      Dot(Scale(u, r), Scale(u, r));
      { ScaledSquares(u.x, u.y, r); }
      r * r * (u.x * u.x + u.y * u.y);
      r * r * 1.0;
    }
  }

  // ---------------------------------------------------------------------
  // Line-line intersections

  /** The 2-D cross product `u x v`. */
  function Cross(u: Vec2, v: Vec2): real { u.x * v.y - u.y * v.x }

  /** `p` lies on the infinite line through `a` and `b`. */
  predicate OnLine(p: Vec2, a: Vec2, b: Vec2) { Cross(Sub(b, a), Sub(p, a)) == 0.0 }

  /** `ccw`: `a`, `b`, `c` make a strict counter-clockwise turn. */
  predicate Ccw(a: Vec2, b: Vec2, c: Vec2)
  {
    (c.y - a.y) * (b.x - a.x) > (b.y - a.y) * (c.x - a.x)
  }

  /** `segsIntersect`: each segment's endpoints lie strictly on opposite turns of the other. */
  predicate SegsIntersect(a: Vec2, b: Vec2, c: Vec2, d: Vec2)
  {
    Ccw(a, c, d) != Ccw(b, c, d) && Ccw(a, b, c) != Ccw(a, b, d)
  }

  function Denominator(a: Vec2, b: Vec2, c: Vec2, d: Vec2): real
  {
    (a.x - b.x) * (c.y - d.y) - (a.y - b.y) * (c.x - d.x)
  }

  function NumeratorX(a: Vec2, b: Vec2, c: Vec2, d: Vec2): real
  {
    (a.x * b.y - a.y * b.x) * (c.x - d.x) - (a.x - b.x) * (c.x * d.y - c.y * d.x)
  }

  function NumeratorY(a: Vec2, b: Vec2, c: Vec2, d: Vec2): real
  {
    (a.x * b.y - a.y * b.x) * (c.y - d.y) - (a.y - b.y) * (c.x * d.y - c.y * d.x)
  }

  /**
   * `intersection`: the meeting point of the lines through `ab` and `cd` by
   * the determinant formula, or `None` when the lines are (nearly) parallel.
   */
  function Intersection(a: Vec2, b: Vec2, c: Vec2, d: Vec2): (r: Option<Vec2>)
    ensures r.None? <==> Abs(Denominator(a, b, c, d)) < Tolerance
  {
    var denom := Denominator(a, b, c, d);
    if Abs(denom) < Tolerance then None
    else Some(Vec2(NumeratorX(a, b, c, d) / denom, NumeratorY(a, b, c, d) / denom))
  }

  /** The point `intersection` returns lies on both lines. */
  lemma IntersectionOnBothLines(a: Vec2, b: Vec2, c: Vec2, d: Vec2)
    requires Intersection(a, b, c, d).Some?
    ensures OnLine(Intersection(a, b, c, d).value, a, b)
    ensures OnLine(Intersection(a, b, c, d).value, c, d)
  {
    var denom, X, Y := Denominator(a, b, c, d), NumeratorX(a, b, c, d), NumeratorY(a, b, c, d);
    DeterminantOnBothLines(a, b, c, d);
    DivideOut(b.x - a.x, b.y - a.y, X, Y, denom, a.x, a.y);
    DivideOut(d.x - c.x, d.y - c.y, X, Y, denom, c.x, c.y);
  }

  /** The contribution of one pair to `collectIntersections`: the meeting point, if any. */
  function LineHit(l1: LineShape, l2: LineShape): (r: seq<Vec2>)
    ensures |r| <= 1
    ensures |r| == 1 <==> SegsIntersect(l1.a, l1.b, l2.a, l2.b) && Intersection(l1.a, l1.b, l2.a, l2.b).Some?
  {
    if SegsIntersect(l1.a, l1.b, l2.a, l2.b) then
      match Intersection(l1.a, l1.b, l2.a, l2.b)
      case Some(p) => [p]
      case None => []
    else []
  }

  /** `collectIntersections`: each pair `i < j` in loop order, keeping the crossings. */
  method CollectIntersections(lines: seq<LineShape>) returns (out: seq<Vec2>)
    ensures out == Pairs(lines, LineHit, |lines|, 0)
  {
    out := [];
    for i := 0 to |lines|
      invariant out == Pairs(lines, LineHit, i, 0)
    {
      for j := i + 1 to |lines|
        invariant out == Pairs(lines, LineHit, i, j)
      {
        var l1, l2 := lines[i], lines[j];
        if SegsIntersect(l1.a, l1.b, l2.a, l2.b) {
          var p := Intersection(l1.a, l1.b, l2.a, l2.b);
          if p.Some? {
            out := out + [p.value];
          }
        }
      }
    }
  }

  /**
   * Every collected intersection comes from a pair `i < j` whose segments
   * cross, and lies on both of their lines.
   */
  lemma IntersectionsComeFromCrossingPairs(lines: seq<LineShape>, p: Vec2)
    requires p in Pairs(lines, LineHit, |lines|, 0)
    ensures exists i, j :: (0 <= i < j < |lines| &&
      SegsIntersect(lines[i].a, lines[i].b, lines[j].a, lines[j].b) &&
      OnLine(p, lines[i].a, lines[i].b) && OnLine(p, lines[j].a, lines[j].b))
  {
    var i, j := PairsSource(lines, LineHit, |lines|, 0, p);
    IntersectionOnBothLines(lines[i].a, lines[i].b, lines[j].a, lines[j].b);
  }

  /** At most one point per pair: `n (n - 1) / 2` for `n` lines. */
  lemma IntersectionCount(lines: seq<LineShape>)
    ensures 2 * |Pairs(lines, LineHit, |lines|, 0)| <= |lines| * (|lines| - 1)
  {
    PairsSize(lines, LineHit, |lines|, 0, 1);
    PairsBeforeClosedForm(|lines|, |lines|);
  }

  // ---------------------------------------------------------------------
  // The point-on-segment test

  /**
   * `isPointOnSegment`: `p` is within the tolerance of the line through
   * `a` and `b` (by the cross product) and projects between them.
   */
  predicate IsPointOnSegment(p: Vec2, a: Vec2, b: Vec2)
  {
    var cross := (p.y - a.y) * (b.x - a.x) - (p.x - a.x) * (b.y - a.y);
    if Abs(cross) > Tolerance then false
    else
      var dot := (p.x - a.x) * (b.x - a.x) + (p.y - a.y) * (b.y - a.y);
      var lenSq := (b.x - a.x) * (b.x - a.x) + (b.y - a.y) * (b.y - a.y);
      dot >= 0.0 && dot <= lenSq
  }

  /** Every point of the closed segment passes the test. */
  lemma SegmentPointsPass(q: Vec2, a: Vec2, b: Vec2)
    requires OnSegment(q, a, b)
    ensures IsPointOnSegment(q, a, b)
  {
    var t :| 0.0 <= t <= 1.0 && q == Lerp(a, b, t);
    OffsetPasses(q, a, b, t);
  }

  /** A point offset from `a` by `t` times `b - a`, for `t` in `[0, 1]`, passes the test. */
  lemma OffsetPasses(q: Vec2, a: Vec2, b: Vec2, t: real)
    requires 0.0 <= t <= 1.0 && q.x - a.x == (b.x - a.x) * t && q.y - a.y == (b.y - a.y) * t
    ensures IsPointOnSegment(q, a, b)
  {
    LerpCrossAndDot(q.x - a.x, q.y - a.y, b.x - a.x, b.y - a.y, t);
  }

  /**
   * Conversely, on a proper segment a point exactly on the line that passes
   * the test lies on the closed segment.
   */
  lemma PassingPointsOnSegment(q: Vec2, a: Vec2, b: Vec2)
    requires a != b && OnLine(q, a, b)
    requires IsPointOnSegment(q, a, b)
    ensures OnSegment(q, a, b)
  {
    var u, w := Sub(b, a), Sub(q, a);
    DotSelfPositive(u);
    var l := Dot(u, u);
    var t := Dot(w, u) / l;
    ParallelIsMultiple(w.x, w.y, u.x, u.y, l, t);
    UnitRange(Dot(w, u), l);
    assert q == Lerp(a, b, t);
  }

  /** A degenerate segment accepts every point: the cross, dot and length are all zero. */
  lemma DegenerateSegmentAcceptsAll(q: Vec2, a: Vec2)
    ensures IsPointOnSegment(q, a, a)
  {
  }

  // ---------------------------------------------------------------------
  // Circle-line intersections

  /** The candidates of `circleLineIntersection` that pass the on-segment test, in order. */
  function KeepOnSegment(p1: Vec2, p2: Vec2, a: Vec2, b: Vec2): (r: seq<Vec2>)
    ensures |r| <= 2
    ensures forall p :: p in r <==> (p == p1 || p == p2) && IsPointOnSegment(p, a, b)
  {
    (if IsPointOnSegment(p1, a, b) then [p1] else []) + (if IsPointOnSegment(p2, a, b) then [p2] else [])
  }
  /**
   * `KeepOnSegment`, reporting a double root once: the intended result for a
   * tangent segment is its single touching point.
   */
  function KeepDistinctOnSegment(p1: Vec2, p2: Vec2, a: Vec2, b: Vec2): (r: seq<Vec2>)
    ensures |r| <= 2 && (p1 == p2 ==> |r| <= 1)
    ensures forall p :: p in r <==> (p == p1 || p == p2) && IsPointOnSegment(p, a, b)
  {
    (if IsPointOnSegment(p1, a, b) then [p1] else [])
      + (if IsPointOnSegment(p2, a, b) && p2 != p1 then [p2] else [])
  }


  /**
   * `circleLineIntersection` as the source writes it: a closed form that
   * treats the circle's centre as if it were the line's determinant, so its
   * two candidates are in general not on the circle. See `CircleSegmentIntersection`.
   */
  function CircleLineAsWritten(circle: CircleShape, line: LineShape, sqrt: real -> real): (r: seq<Vec2>)
    ensures |r| <= 2
    ensures forall p :: p in r ==> IsPointOnSegment(p, line.a, line.b)
    ensures Len(Sub(line.b, line.a), sqrt) == 0.0 ==> r == []
    ensures var dr := Len(Sub(line.b, line.a), sqrt);
      dr != 0.0 && AsWrittenDiscriminant(circle, line, dr) < 0.0 ==> r == []
  {
    var dr := Len(Sub(line.b, line.a), sqrt);
    if dr == 0.0 then []
    else
      var disc := AsWrittenDiscriminant(circle, line, dr);
      if disc < 0.0 then []
      else
        var (p1, p2) := AsWrittenCandidates(circle, line, dr, sqrt(disc));
        KeepOnSegment(p1, p2, line.a, line.b)
  }

  function AsWrittenDiscriminant(circle: CircleShape, line: LineShape, dr: real): real
  {
    var dx, dy := line.b.x - line.a.x, line.b.y - line.a.y;
    var cx, cy := circle.center.x, circle.center.y;
    circle.r * circle.r * dr * dr - (cx * dy - cy * dx) * (cx * dy - cy * dx)
  }

  /** The two closed-form candidates, with `sd` the square root of the discriminant. */
  function AsWrittenCandidates(circle: CircleShape, line: LineShape, dr: real, sd: real): (Vec2, Vec2)
    requires dr != 0.0
  {
    var dx, dy := line.b.x - line.a.x, line.b.y - line.a.y;
    var cx, cy := circle.center.x, circle.center.y;
    NonzeroSquare(dr);
    (Vec2((cx * dy * dy + dx * (cy * dx + dr * sd)) / (dr * dr),
          (cy * dx * dx + dy * (cx * dy - dr * sd)) / (dr * dr)),
     Vec2((cx * dy * dy + dx * (cy * dx - dr * sd)) / (dr * dr),
          (cy * dx * dx + dy * (cx * dy + dr * sd)) / (dr * dr)))
  }

  /** The candidates for the circle of radius 5 about the origin and the segment from (-10, 0) to (10, 0). */
  lemma AsWrittenExampleCandidates()
    ensures AsWrittenDiscriminant(Circle(Vec2(0.0, 0.0), 5.0), Line(Vec2(-10.0, 0.0), Vec2(10.0, 0.0)), 20.0) == 10000.0
    ensures AsWrittenCandidates(Circle(Vec2(0.0, 0.0), 5.0), Line(Vec2(-10.0, 0.0), Vec2(10.0, 0.0)), 20.0, 100.0)
         == (Vec2(100.0, 0.0), Vec2(-100.0, 0.0))
  {
    var c: CircleShape, l: LineShape := Circle(Vec2(0.0, 0.0), 5.0), Line(Vec2(-10.0, 0.0), Vec2(10.0, 0.0));
    var (p1, p2) := AsWrittenCandidates(c, l, 20.0, 100.0);
    assert p1.x == (0.0 + 20.0 * (0.0 + 20.0 * 100.0)) / (20.0 * 20.0) == 100.0;
    assert p1.y == (0.0 + 0.0 * (0.0 - 20.0 * 100.0)) / (20.0 * 20.0) == 0.0;
    assert p2.x == (0.0 + 20.0 * (0.0 - 20.0 * 100.0)) / (20.0 * 20.0) == -100.0;
    assert p2.y == (0.0 + 0.0 * (0.0 + 20.0 * 100.0)) / (20.0 * 20.0) == 0.0;
  }

  /**
   * The segment from (-10, 0) to (10, 0) crosses the circle of radius 5
   * about the origin at (5, 0), yet the formula as written returns nothing:
   * its candidates are (100, 0) and (-100, 0), both off the segment.
   */
  lemma CircleLineAsWrittenMissesCrossing(sqrt: real -> real)
    requires sqrt(400.0) == 20.0 && sqrt(10000.0) == 100.0
    ensures CircleLineAsWritten(Circle(Vec2(0.0, 0.0), 5.0), Line(Vec2(-10.0, 0.0), Vec2(10.0, 0.0)), sqrt) == []
  {
    var c: CircleShape, l: LineShape := Circle(Vec2(0.0, 0.0), 5.0), Line(Vec2(-10.0, 0.0), Vec2(10.0, 0.0));
    assert Dot(Sub(l.b, l.a), Sub(l.b, l.a)) == 400.0;
    assert Len(Sub(l.b, l.a), sqrt) == 20.0;
    AsWrittenExampleCandidates();
    assert CircleLineAsWritten(c, l, sqrt) == KeepOnSegment(Vec2(100.0, 0.0), Vec2(-100.0, 0.0), l.a, l.b);
    AsWrittenExampleRejected();
  }

  /** (5, 0) is on the segment from (-10, 0) to (10, 0)... */
  lemma ExampleOnSegment(a: Vec2, b: Vec2, q: Vec2)
    requires a == Vec2(-10.0, 0.0) && b == Vec2(10.0, 0.0) && q == Vec2(5.0, 0.0)
    ensures OnSegment(q, a, b)
  {
    assert q == Lerp(a, b, 0.75);
  }

  /** ...and on the circle of radius 5 about the origin. */
  lemma ExampleOnCircle(center: Vec2, q: Vec2)
    requires center == Vec2(0.0, 0.0) && q == Vec2(5.0, 0.0)
    ensures DistSq(center, q) == 5.0 * 5.0
  {
    assert Sub(center, q) == Vec2(-5.0, 0.0);
  }

  lemma AsWrittenExampleRejected()
    ensures !IsPointOnSegment(Vec2(100.0, 0.0), Vec2(-10.0, 0.0), Vec2(10.0, 0.0))
    ensures !IsPointOnSegment(Vec2(-100.0, 0.0), Vec2(-10.0, 0.0), Vec2(10.0, 0.0))
  {
  }

  /** `a t^2 + b t + c`. */
  datatype Quadratic = Quadratic(a: real, b: real, c: real)

  function Eval(q: Quadratic, t: real): real { q.a * t * t + q.b * t + q.c }

  function Discriminant(q: Quadratic): real { q.b * q.b - 4.0 * q.a * q.c }

  /**
   * The quadratic in `t` whose roots are where `Lerp(line.a, line.b, t)`
   * meets the circle.
   */
  function SegmentQuadratic(circle: CircleShape, line: LineShape): Quadratic
  {
    var d, w := Sub(line.b, line.a), Sub(circle.center, line.a);
    Quadratic(Dot(d, d), -2.0 * Dot(w, d), Dot(w, w) - circle.r * circle.r)
  }

  /**
   * The intended `circleLineIntersection`: solve the segment's quadratic for
   * its parameter, and keep the roots that pass the on-segment test.
   */
  function CircleSegmentIntersection(circle: CircleShape, line: LineShape, sqrt: real -> real): (r: seq<Vec2>)
    ensures |r| <= 2
    ensures forall p :: p in r ==> IsPointOnSegment(p, line.a, line.b)
    ensures line.a == line.b ==> r == []
  {
    var q := SegmentQuadratic(circle, line);
    if q.a == 0.0 then []
    else
      var disc := Discriminant(q);
      if disc < 0.0 then []
      else
        var s := sqrt(disc);
        KeepDistinctOnSegment(Lerp(line.a, line.b, (-q.b + s) / (2.0 * q.a)),
                              Lerp(line.a, line.b, (-q.b - s) / (2.0 * q.a)), line.a, line.b)
  }

  /** The squared distance to the centre, less `r^2`, along the line is the segment's quadratic. */
  lemma SegmentQuadraticMeasuresCircle(circle: CircleShape, line: LineShape, t: real)
    ensures DistSq(circle.center, Lerp(line.a, line.b, t)) - circle.r * circle.r
         == Eval(SegmentQuadratic(circle, line), t)
  {
    DistSqAlongLine(circle.center, line.a, line.b, t);
  }

  /** Every point returned lies on the circle. */
  lemma CircleSegmentPointsOnCircle(circle: CircleShape, line: LineShape, sqrt: real -> real, p: Vec2)
    requires IsSqrt(sqrt)
    requires p in CircleSegmentIntersection(circle, line, sqrt)
    ensures DistSq(circle.center, p) == circle.r * circle.r
  {
    var q := SegmentQuadratic(circle, line);
    ReturnedAreRoots(circle, line, sqrt, p);
    FormulaGivesRoots(q, sqrt);
    var s := sqrt(Discriminant(q));
    var t1, t2 := (-q.b + s) / (2.0 * q.a), (-q.b - s) / (2.0 * q.a);
    if p == Lerp(line.a, line.b, t1) {
      SegmentQuadraticMeasuresCircle(circle, line, t1);
    } else {
      SegmentQuadraticMeasuresCircle(circle, line, t2);
    }
  }

  /** Both values of the quadratic formula are roots. */
  lemma FormulaGivesRoots(q: Quadratic, sqrt: real -> real)
    requires IsSqrt(sqrt)
    requires q.a != 0.0 && !(Discriminant(q) < 0.0)
    ensures Eval(q, (-q.b + sqrt(Discriminant(q))) / (2.0 * q.a)) == 0.0
    ensures Eval(q, (-q.b - sqrt(Discriminant(q))) / (2.0 * q.a)) == 0.0
  {
    var disc := Discriminant(q);
    assert SqrtAt(sqrt, disc);
    var s := sqrt(disc);
    QuadRoot(q.a, q.b, q.c, s);
    QuadRoot(q.a, q.b, q.c, -s);
  }

  /** Every root of a proper quadratic is one of the two values of the formula. */
  lemma RootIsFormulaValue(q: Quadratic, sqrt: real -> real, t: real)
    requires IsSqrt(sqrt)
    requires q.a != 0.0 && Eval(q, t) == 0.0
    ensures !(Discriminant(q) < 0.0)
    ensures t == (-q.b + sqrt(Discriminant(q))) / (2.0 * q.a) || t == (-q.b - sqrt(Discriminant(q))) / (2.0 * q.a)
  {
    RootSquare(q.a, q.b, q.c, t);
    SquareNonneg(2.0 * q.a * t + q.b);
    var disc := Discriminant(q);
    assert SqrtAt(sqrt, disc);
    RootIsListed(q.a, q.b, q.c, sqrt(disc), t);
  }

  /** A returned point is the segment's point at one of the two roots of its quadratic. */
  lemma ReturnedAreRoots(circle: CircleShape, line: LineShape, sqrt: real -> real, p: Vec2)
    requires p in CircleSegmentIntersection(circle, line, sqrt)
    ensures var q := SegmentQuadratic(circle, line);
      var s := sqrt(Discriminant(q));
      q.a != 0.0 && !(Discriminant(q) < 0.0) &&
      (p == Lerp(line.a, line.b, (-q.b + s) / (2.0 * q.a)) || p == Lerp(line.a, line.b, (-q.b - s) / (2.0 * q.a)))
  {
    CircleSegmentByRoots(circle, line, sqrt);
  }

  /** Conversely, every point where a proper segment meets the circle is returned. */
  lemma CircleSegmentFindsCrossings(circle: CircleShape, line: LineShape, sqrt: real -> real, p: Vec2)
    requires IsSqrt(sqrt)
    requires line.a != line.b
    requires OnSegment(p, line.a, line.b) && DistSq(circle.center, p) == circle.r * circle.r
    ensures p in CircleSegmentIntersection(circle, line, sqrt)
  {
    var q := SegmentQuadratic(circle, line);
    var t :| 0.0 <= t <= 1.0 && p == Lerp(line.a, line.b, t);
    CrossingParameterIsRoot(circle, line, t);
    RootIsFormulaValue(q, sqrt, t);
    CircleSegmentByRoots(circle, line, sqrt);
    SegmentPointsPass(p, line.a, line.b);
  }

  /** Where a proper segment's line meets the circle, its parameter is a root of the segment's quadratic. */
  lemma CrossingParameterIsRoot(circle: CircleShape, line: LineShape, t: real)
    requires line.a != line.b
    requires DistSq(circle.center, Lerp(line.a, line.b, t)) == circle.r * circle.r
    ensures var q := SegmentQuadratic(circle, line); q.a != 0.0 && Eval(q, t) == 0.0
  {
    var q := SegmentQuadratic(circle, line);
    SegmentQuadraticMeasuresCircle(circle, line, t);
    DifferenceOfEquals(DistSq(circle.center, Lerp(line.a, line.b, t)), circle.r * circle.r, Eval(q, t));
    DotSelfPositive(Sub(line.b, line.a));
    assert Sub(line.b, line.a) != Zero;
  }

  lemma DifferenceOfEquals(x: real, y: real, e: real)
    requires x == y && x - y == e
    ensures e == 0.0
  {
  }

  /** On the example above, the intended version returns the crossing the as-written one misses. */
  lemma CircleSegmentExample(circle: CircleShape, line: LineShape, sqrt: real -> real)
    requires IsSqrt(sqrt)
    requires circle == Circle(Vec2(0.0, 0.0), 5.0) && line == Line(Vec2(-10.0, 0.0), Vec2(10.0, 0.0))
    ensures Vec2(5.0, 0.0) in CircleSegmentIntersection(circle, line, sqrt)
  {
    ExampleCrossing(circle, line, Vec2(5.0, 0.0));
    CircleSegmentFindsCrossings(circle, line, sqrt, Vec2(5.0, 0.0));
  }

  lemma ExampleCrossing(circle: CircleShape, line: LineShape, p: Vec2)
    requires circle == Circle(Vec2(0.0, 0.0), 5.0) && line == Line(Vec2(-10.0, 0.0), Vec2(10.0, 0.0))
    requires p == Vec2(5.0, 0.0)
    ensures line.a != line.b && OnSegment(p, line.a, line.b)
    ensures DistSq(circle.center, p) == circle.r * circle.r
  {
    ExampleOnSegment(line.a, line.b, p);
    ExampleOnCircle(circle.center, p);
  }

  lemma CircleSegmentByRoots(circle: CircleShape, line: LineShape, sqrt: real -> real)
    requires SegmentQuadratic(circle, line).a != 0.0 && !(Discriminant(SegmentQuadratic(circle, line)) < 0.0)
    ensures var q := SegmentQuadratic(circle, line);
      var s := sqrt(Discriminant(q));
      CircleSegmentIntersection(circle, line, sqrt)
        == KeepDistinctOnSegment(Lerp(line.a, line.b, (-q.b + s) / (2.0 * q.a)),
                                 Lerp(line.a, line.b, (-q.b - s) / (2.0 * q.a)), line.a, line.b)
  {
  }

  /** `p` lies on the circle. */
  predicate OnCircle(c: CircleShape, p: Vec2)
  {
    DistSq(c.center, p) == c.r * c.r
  }

  /**
   * `collectCircleLineIntersections`: each circle against each line, in
   * order, through `circleLineIntersection` as the source writes it.
   */
  method CollectCircleLineIntersections(circles: seq<CircleShape>, lines: seq<LineShape>, sqrt: real -> real)
    returns (out: seq<Vec2>)
    ensures out == Product(circles, lines, (c, l) => CircleLineAsWritten(c, l, sqrt), |circles|, 0)
  {
    out := [];
    for i := 0 to |circles|
      invariant out == Product(circles, lines, (c, l) => CircleLineAsWritten(c, l, sqrt), i, 0)
    {
      for j := 0 to |lines|
        invariant out == Product(circles, lines, (c, l) => CircleLineAsWritten(c, l, sqrt), i, j)
      {
        out := out + CircleLineAsWritten(circles[i], lines[j], sqrt);
      }
    }
  }

  /**
   * Every collected circle-line point comes from one circle-line pair and
   * passes the on-segment test for that pair's line. Being on the circle is
   * not among its guarantees (see `CircleLineAsWrittenMissesCrossing`).
   */
  lemma CircleLinePointsOnSegments(circles: seq<CircleShape>, lines: seq<LineShape>, sqrt: real -> real, p: Vec2)
    requires p in Product(circles, lines, (c, l) => CircleLineAsWritten(c, l, sqrt), |circles|, 0)
    ensures exists i, j :: (0 <= i < |circles| && 0 <= j < |lines| &&
      p in CircleLineAsWritten(circles[i], lines[j], sqrt) && IsPointOnSegment(p, lines[j].a, lines[j].b))
  {
    var i, j := ProductSource(circles, lines, (c, l) => CircleLineAsWritten(c, l, sqrt), |circles|, 0, p);
    assert p in CircleLineAsWritten(circles[i], lines[j], sqrt);
  }

  /** At most two collected points per circle-line pair. */
  lemma CircleLineCount(circles: seq<CircleShape>, lines: seq<LineShape>, sqrt: real -> real)
    ensures |Product(circles, lines, (c, l) => CircleLineAsWritten(c, l, sqrt), |circles|, 0)|
         <= 2 * (|circles| * |lines|)
  {
    ProductSize(circles, lines, (c, l) => CircleLineAsWritten(c, l, sqrt), |circles|, 0, 2);
  }

  /** The collector as intended: `CircleSegmentIntersection` for each circle and line, in order. */
  function CorrectedCircleLineIntersections(circles: seq<CircleShape>, lines: seq<LineShape>, sqrt: real -> real): seq<Vec2>
  {
    Product(circles, lines, (c, l) => CircleSegmentIntersection(c, l, sqrt), |circles|, 0)
  }

  /**
   * Every point the corrected collector returns lies on one of the circles
   * and passes the on-segment test for one of the lines.
   */
  lemma CorrectedCircleLinePointsOnShapes(circles: seq<CircleShape>, lines: seq<LineShape>, sqrt: real -> real, p: Vec2)
    requires IsSqrt(sqrt)
    requires p in CorrectedCircleLineIntersections(circles, lines, sqrt)
    ensures exists i, j :: (0 <= i < |circles| && 0 <= j < |lines| &&
      OnCircle(circles[i], p) && IsPointOnSegment(p, lines[j].a, lines[j].b))
  {
    var i, j := ProductSource(circles, lines, (c, l) => CircleSegmentIntersection(c, l, sqrt), |circles|, 0, p);
    assert p in CircleSegmentIntersection(circles[i], lines[j], sqrt);
    CircleSegmentPointOnShapes(circles[i], lines[j], sqrt, p);
  }

  lemma CircleSegmentPointOnShapes(circle: CircleShape, line: LineShape, sqrt: real -> real, p: Vec2)
    requires IsSqrt(sqrt)
    requires p in CircleSegmentIntersection(circle, line, sqrt)
    ensures OnCircle(circle, p) && IsPointOnSegment(p, line.a, line.b)
  {
    CircleSegmentPointsOnCircle(circle, line, sqrt, p);
  }

  /**
   * The corrected collector finds every crossing: a point on a circle and on
   * a proper segment of the inputs is returned.
   */
  lemma CorrectedCircleLineFindsCrossings(circles: seq<CircleShape>, lines: seq<LineShape>, sqrt: real -> real,
                                          i: nat, j: nat, p: Vec2)
    requires IsSqrt(sqrt)
    requires i < |circles| && j < |lines| && lines[j].a != lines[j].b
    requires OnSegment(p, lines[j].a, lines[j].b) && DistSq(circles[i].center, p) == circles[i].r * circles[i].r
    ensures p in CorrectedCircleLineIntersections(circles, lines, sqrt)
  {
    CircleSegmentFindsCrossings(circles[i], lines[j], sqrt, p);
    ProductHolds(circles, lines, (c, l) => CircleSegmentIntersection(c, l, sqrt), |circles|, 0, i, j, p);
  }

  // ---------------------------------------------------------------------
  // Circle-circle intersections

  /** The guard of `circleCircleIntersection`: too far apart, one inside the other, or concentric. */
  predicate CirclesMiss(d: real, r1: real, r2: real)
  {
    d > r1 + r2 || d < Abs(r1 - r2) || d == 0.0
  }

  /**
   * `circleCircleIntersection`: the two points at distance `h` either side
   * of the chord's foot `p2`. A tangency yields the same point twice.
   */
  function CircleCircleIntersection(c1: CircleShape, c2: CircleShape, sqrt: real -> real): (r: seq<Vec2>)
    ensures |r| == 0 || |r| == 2
    ensures r == [] <==> CirclesMiss(Distance(c1.center, c2.center, sqrt), c1.r, c2.r)
  {
    var d := Distance(c1.center, c2.center, sqrt);
    if CirclesMiss(d, c1.r, c2.r) then []
    else
      var h := ChordHalfWidth(c1.r, c2.r, d, sqrt);
      [ChordPoint(c1.center, c2.center, c1.r, c2.r, d, h), ChordPoint(c1.center, c2.center, c1.r, c2.r, d, -h)]
  }

  /** Distance from the first centre to the chord's foot, along the line of centres. */
  function ChordFoot(r1: real, r2: real, d: real): real
    requires d != 0.0
  {
    (r1 * r1 - r2 * r2 + d * d) / (2.0 * d)
  }

  /** Half the chord's length, `h = sqrt(r1^2 - a^2)`. */
  function ChordHalfWidth(r1: real, r2: real, d: real, sqrt: real -> real): real
    requires d != 0.0
  {
    var a := ChordFoot(r1, r2, d);
    sqrt(r1 * r1 - a * a)
  }

  lemma HalfWidthUnfold(r1: real, r2: real, d: real, sqrt: real -> real)
    requires d != 0.0
    ensures ChordHalfWidth(r1, r2, d, sqrt) == sqrt(r1 * r1 - ChordFoot(r1, r2, d) * ChordFoot(r1, r2, d))
  {
  }

  lemma HalfWidthZero(r1: real, r2: real, d: real, sqrt: real -> real)
    requires d != 0.0 && ChordFoot(r1, r2, d) == r1 && sqrt(0.0) == 0.0
    ensures ChordHalfWidth(r1, r2, d, sqrt) == 0.0
  {
    HalfWidthUnfold(r1, r2, d, sqrt);
    SameImage(sqrt, r1 * r1 - ChordFoot(r1, r2, d) * ChordFoot(r1, r2, d), 0.0);
  }

  lemma SameImage(f: real -> real, x: real, y: real)
    requires x == y
    ensures f(x) == f(y)
  {
  }

  lemma HalfWidthSquare(r1: real, r2: real, d: real, sqrt: real -> real)
    requires d != 0.0
    requires SqrtAt(sqrt, r1 * r1 - ChordFoot(r1, r2, d) * ChordFoot(r1, r2, d))
    ensures ChordHalfWidth(r1, r2, d, sqrt) * ChordHalfWidth(r1, r2, d, sqrt)
         == r1 * r1 - ChordFoot(r1, r2, d) * ChordFoot(r1, r2, d)
  {
  }

  /**
   * The point `(p2.x + hs u.y / d, p2.y - hs u.x / d)`, at signed distance
   * `hs` from the chord's foot `p2 = o1 + u a / d` where `u = o2 - o1`; the
   * source's second point, `(p2.x - h u.y / d, p2.y + h u.x / d)`, is the one
   * for `hs = -h`.
   */
  function ChordPoint(o1: Vec2, o2: Vec2, r1: real, r2: real, d: real, hs: real): Vec2
    requires d != 0.0
  {
    var u := Sub(o2, o1);
    var p2 := Add(o1, Scale(u, ChordFoot(r1, r2, d) / d));
    Vec2(p2.x + hs * u.y / d, p2.y - hs * u.x / d)
  }

  /** The offsets of a chord point from the two centres, in terms of `u = o2 - o1`. */
  lemma ChordOffsets(o1: Vec2, o2: Vec2, r1: real, r2: real, d: real, hs: real)
    requires d != 0.0
    ensures var p, u := ChordPoint(o1, o2, r1, r2, d, hs), Sub(o2, o1);
      var k, m := ChordFoot(r1, r2, d) / d, hs / d;
      Sub(p, o1) == Vec2(u.x * k + m * u.y, u.y * k - m * u.x) &&
      Sub(p, o2) == Vec2(u.x * (k - 1.0) + m * u.y, u.y * (k - 1.0) - m * u.x)
  {
    var u := Sub(o2, o1);
    DivFactor(hs, u.x, d);
    DivFactor(hs, u.y, d);
  }

  /** `|o2 - o1|^2`, written on the components of `o2 - o1`. */
  lemma CentreGapSquares(o1: Vec2, o2: Vec2)
    ensures var u := Sub(o2, o1); u.x * u.x + u.y * u.y == DistSq(o1, o2)
  {
    var u := Sub(o2, o1);
    calc {
      u.x * u.x + u.y * u.y;
      { NegateSquares(u.x, u.y); }
      (u.x * -1.0) * (u.x * -1.0) + (u.y * -1.0) * (u.y * -1.0);
      DistSq(o1, o2);
    }
  }

  /** A chord point whose offset `hs` satisfies `hs^2 = r1^2 - a^2` lies on the first circle... */
  lemma ChordPointOnFirst(o1: Vec2, o2: Vec2, r1: real, r2: real, d: real, hs: real)
    requires d > 0.0 && d * d == DistSq(o1, o2)
    requires hs * hs == r1 * r1 - ChordFoot(r1, r2, d) * ChordFoot(r1, r2, d)
    ensures DistSq(o1, ChordPoint(o1, o2, r1, r2, d, hs)) == r1 * r1
  {
    var p, u := ChordPoint(o1, o2, r1, r2, d, hs), Sub(o2, o1);
    var a := ChordFoot(r1, r2, d);
    CentreGapSquares(o1, o2);
    DivMul(a, d);
    DivMul(hs, d);
    OffsetSquares(u.x, u.y, a / d, hs / d, d, a, hs);
    ChordOffsets(o1, o2, r1, r2, d, hs);
    SymmetricDistSq(o1, p);
  }

  /** ...and on the second. */
  lemma ChordPointOnSecond(o1: Vec2, o2: Vec2, r1: real, r2: real, d: real, hs: real)
    requires d > 0.0 && d * d == DistSq(o1, o2)
    requires hs * hs == r1 * r1 - ChordFoot(r1, r2, d) * ChordFoot(r1, r2, d)
    ensures DistSq(o2, ChordPoint(o1, o2, r1, r2, d, hs)) == r2 * r2
  {
    var p, u := ChordPoint(o1, o2, r1, r2, d, hs), Sub(o2, o1);
    var a := ChordFoot(r1, r2, d);
    CentreGapSquares(o1, o2);
    DivMul(r1 * r1 - r2 * r2 + d * d, 2.0 * d);
    DivMul(a, d);
    DivMul(hs, d);
    ShiftedFactor(a / d, d, a);
    OffsetSquares(u.x, u.y, a / d - 1.0, hs / d, d, a - d, hs);
    ChordToSecondRadius(r1, r2, d, a);
    ChordOffsets(o1, o2, r1, r2, d, hs);
    SymmetricDistSq(o2, p);
  }

  /** Both points returned lie on both circles. */
  lemma CircleCirclePointsOnBoth(c1: CircleShape, c2: CircleShape, sqrt: real -> real, p: Vec2)
    requires IsSqrt(sqrt)
    requires p in CircleCircleIntersection(c1, c2, sqrt)
    ensures OnCircle(c1, p) && OnCircle(c2, p)
  {
    var d := Distance(c1.center, c2.center, sqrt);
    var h := ChordHalfWidth(c1.r, c2.r, d, sqrt);
    CircleCircleMeet(c1, c2, sqrt);
    CentreDistance(c1.center, c2.center, sqrt, d);
    HalfWidthOfMeetingCircles(c1.r, c2.r, d, sqrt, h);
    ChordPointsOnCircles(c1, c2, d, h, p);
  }

  /** Both points at offset `h` and `-h` from the chord's foot lie on both circles. */
  lemma ChordPointsOnCircles(c1: CircleShape, c2: CircleShape, d: real, h: real, p: Vec2)
    requires d > 0.0 && d * d == DistSq(c1.center, c2.center)
    requires h * h == c1.r * c1.r - ChordFoot(c1.r, c2.r, d) * ChordFoot(c1.r, c2.r, d)
    requires p == ChordPoint(c1.center, c2.center, c1.r, c2.r, d, h) || p == ChordPoint(c1.center, c2.center, c1.r, c2.r, d, -h)
    ensures OnCircle(c1, p) && OnCircle(c2, p)
  {
    SignedSquare(h, -h, c1.r * c1.r - ChordFoot(c1.r, c2.r, d) * ChordFoot(c1.r, c2.r, d));
    ChordPointOnCircles(c1, c2, d, h);
    ChordPointOnCircles(c1, c2, d, -h);
  }

  lemma ChordPointOnCircles(c1: CircleShape, c2: CircleShape, d: real, hs: real)
    requires d > 0.0 && d * d == DistSq(c1.center, c2.center)
    requires hs * hs == c1.r * c1.r - ChordFoot(c1.r, c2.r, d) * ChordFoot(c1.r, c2.r, d)
    ensures OnCircle(c1, ChordPoint(c1.center, c2.center, c1.r, c2.r, d, hs))
    ensures OnCircle(c2, ChordPoint(c1.center, c2.center, c1.r, c2.r, d, hs))
  {
    ChordPointOnFirst(c1.center, c2.center, c1.r, c2.r, d, hs);
    ChordPointOnSecond(c1.center, c2.center, c1.r, c2.r, d, hs);
  }

  /** The distance between the centres squares to their squared distance. */
  lemma CentreDistance(o1: Vec2, o2: Vec2, sqrt: real -> real, d: real)
    requires IsSqrt(sqrt) && d == Distance(o1, o2, sqrt)
    ensures d >= 0.0 && d * d == DistSq(o1, o2)
  {
    DotSelfZero(Sub(o1, o2));
    assert SqrtAt(sqrt, DistSq(o1, o2));
  }

  /** When the circles meet, the half-width squares to `r1^2 - a^2`. */
  lemma HalfWidthOfMeetingCircles(r1: real, r2: real, d: real, sqrt: real -> real, h: real)
    requires IsSqrt(sqrt)
    requires d >= 0.0 && !CirclesMiss(d, r1, r2) && h == ChordHalfWidth(r1, r2, d, sqrt)
    ensures h * h == r1 * r1 - ChordFoot(r1, r2, d) * ChordFoot(r1, r2, d)
  {
    var a := ChordFoot(r1, r2, d);
    DivMul(r1 * r1 - r2 * r2 + d * d, 2.0 * d);
    HalfChordNonneg(r1, r2, d, a);
    assert SqrtAt(sqrt, r1 * r1 - a * a);
    HalfWidthSquare(r1, r2, d, sqrt);
  }

  /**
   * Circles that touch from outside (`d = r1 + r2`) meet where the chord has
   * zero length: the same point is returned twice.
   */
  lemma CircleCircleTangentTwice(c1: CircleShape, c2: CircleShape, sqrt: real -> real)
    requires c1.r > 0.0 && c2.r > 0.0 && Distance(c1.center, c2.center, sqrt) == c1.r + c2.r
    requires sqrt(0.0) == 0.0
    ensures var r := CircleCircleIntersection(c1, c2, sqrt); |r| == 2 && r[0] == r[1]
  {
    var d := Distance(c1.center, c2.center, sqrt);
    assert !CirclesMiss(d, c1.r, c2.r);
    TangentFoot(c1.r, c2.r, d);
    HalfWidthZero(c1.r, c2.r, d, sqrt);
    var h := ChordHalfWidth(c1.r, c2.r, d, sqrt);
    CircleCircleMeet(c1, c2, sqrt);
    assert -h == h;
  }

  /** For touching circles the chord's foot is at distance `r1` from the first centre. */
  lemma TangentFoot(r1: real, r2: real, d: real)
    requires r1 > 0.0 && r2 > 0.0 && d == r1 + r2
    ensures ChordFoot(r1, r2, d) == r1
  {
    assert r1 * r1 - r2 * r2 + d * d == r1 * (2.0 * d);
    CancelFactor(r1, 2.0 * d);
  }

  /** When the circles meet, the result is the two chord points for `h` and `-h`. */
  lemma CircleCircleMeet(c1: CircleShape, c2: CircleShape, sqrt: real -> real)
    requires !CirclesMiss(Distance(c1.center, c2.center, sqrt), c1.r, c2.r)
    ensures var d := Distance(c1.center, c2.center, sqrt);
      var h := ChordHalfWidth(c1.r, c2.r, d, sqrt);
      CircleCircleIntersection(c1, c2, sqrt)
        == [ChordPoint(c1.center, c2.center, c1.r, c2.r, d, h), ChordPoint(c1.center, c2.center, c1.r, c2.r, d, -h)]
  {
  }

  /** `collectCircleIntersections`: each pair `i < j` of circles, in loop order. */
  method CollectCircleIntersections(circles: seq<CircleShape>, sqrt: real -> real) returns (out: seq<Vec2>)
    ensures out == Pairs(circles, (c1, c2) => CircleCircleIntersection(c1, c2, sqrt), |circles|, 0)
  {
    out := [];
    for i := 0 to |circles|
      invariant out == Pairs(circles, (c1, c2) => CircleCircleIntersection(c1, c2, sqrt), i, 0)
    {
      for j := i + 1 to |circles|
        invariant out == Pairs(circles, (c1, c2) => CircleCircleIntersection(c1, c2, sqrt), i, j)
      {
        out := out + CircleCircleIntersection(circles[i], circles[j], sqrt);
      }
    }
  }

  /** Every collected circle-circle point lies on both circles of some pair `i < j`. */
  lemma CircleIntersectionsOnBoth(circles: seq<CircleShape>, sqrt: real -> real, p: Vec2)
    requires IsSqrt(sqrt)
    requires p in Pairs(circles, (c1, c2) => CircleCircleIntersection(c1, c2, sqrt), |circles|, 0)
    ensures exists i, j :: 0 <= i < j < |circles| && OnCircle(circles[i], p) && OnCircle(circles[j], p)
  {
    var i, j := PairsSource(circles, (c1, c2) => CircleCircleIntersection(c1, c2, sqrt), |circles|, 0, p);
    assert p in CircleCircleIntersection(circles[i], circles[j], sqrt);
    CircleCirclePointsOnBoth(circles[i], circles[j], sqrt, p);
  }

  /** At most two points per pair: `n (n - 1)` for `n` circles. */
  lemma CircleIntersectionCount(circles: seq<CircleShape>, sqrt: real -> real)
    ensures |Pairs(circles, (c1, c2) => CircleCircleIntersection(c1, c2, sqrt), |circles|, 0)|
         <= |circles| * (|circles| - 1)
  {
    PairsSize(circles, (c1, c2) => CircleCircleIntersection(c1, c2, sqrt), |circles|, 0, 2);
    PairsBeforeClosedForm(|circles|, |circles|);
  }

  // ---------------------------------------------------------------------
  // Pairs and cross products of lists, in the source's loop order

  /**
   * What the pair loop `for i in s.indices, for j in i + 1 until s.size`
   * has collected once it reaches row `i`, column `j`: every row before `i`,
   * then `f(s[i], s[k])` for `i < k < j`. `Pairs(s, f, |s|, 0)` is the
   * whole loop.
   */
  function Pairs<T>(s: seq<T>, f: (T, T) -> seq<Vec2>, i: nat, j: nat): seq<Vec2>
    requires i <= |s| && j <= |s|
    decreases i, j
  {
    if i < |s| && j > i + 1 then Pairs(s, f, i, j - 1) + f(s[i], s[j - 1])
    else if i > 0 then Pairs(s, f, i - 1, |s|)
    else []
  }

  /** A collected point comes from some pair `m < k` visited before `(i, j)`. */
  lemma {:induction false} PairsSource<T>(s: seq<T>, f: (T, T) -> seq<Vec2>, i: nat, j: nat, p: Vec2)
    returns (m: nat, k: nat)
    requires i <= |s| && j <= |s| && p in Pairs(s, f, i, j)
    ensures m < k < |s| && (m < i || (m == i && k < j)) && p in f(s[m], s[k])
    decreases i, j
  {
    if i < |s| && j > i + 1 {
      if p in Pairs(s, f, i, j - 1) {
        m, k := PairsSource(s, f, i, j - 1, p);
      } else {
        m, k := i, j - 1;
      }
    } else {
      assert i > 0;
      m, k := PairsSource(s, f, i - 1, |s|, p);
    }
  }

  /** Conversely, what a pair `m < k` visited before `(i, j)` yields is collected. */
  lemma {:induction false} PairsHolds<T>(s: seq<T>, f: (T, T) -> seq<Vec2>, i: nat, j: nat, m: nat, k: nat, p: Vec2)
    requires i <= |s| && j <= |s|
    requires m < k < |s| && (m < i || (m == i && k < j)) && p in f(s[m], s[k])
    ensures p in Pairs(s, f, i, j)
    decreases i, j
  {
    if i < |s| && j > i + 1 {
      if !(m == i && k == j - 1) {
        PairsHolds(s, f, i, j - 1, m, k, p);
      }
    } else {
      PairsHolds(s, f, i - 1, |s|, m, k, p);
    }
  }

  /** A point is collected by the whole pair loop exactly when some pair `m < k` yields it. */
  lemma InPairs<T>(s: seq<T>, f: (T, T) -> seq<Vec2>, p: Vec2)
    ensures p in Pairs(s, f, |s|, 0) <==> exists m, k :: 0 <= m < k < |s| && p in f(s[m], s[k])
  {
    if p in Pairs(s, f, |s|, 0) {
      var m, k := PairsSource(s, f, |s|, 0, p);
    }
    if exists m, k :: 0 <= m < k < |s| && p in f(s[m], s[k]) {
      var m, k :| 0 <= m < k < |s| && p in f(s[m], s[k]);
      PairsHolds(s, f, |s|, 0, m, k, p);
    }
  }

  /** The number of pairs `(m, k)` with `m < i` and `m < k < n`. */
  function PairsBefore(n: nat, i: nat): nat
    requires i <= n
  {
    if i == 0 then 0 else PairsBefore(n, i - 1) + (n - i)
  }

  lemma {:induction false} PairsBeforeClosedForm(n: nat, i: nat)
    requires i <= n
    ensures 2 * PairsBefore(n, i) == i * (2 * n - i - 1)
  {
    if i > 0 {
      PairsBeforeClosedForm(n, i - 1);
      RowsStep(n, i);
    }
  }

  /** The number of columns of row `i` visited before column `j`. */
  function ColumnsBefore(n: nat, i: nat, j: nat): nat
  {
    if i < n && j > i + 1 then j - i - 1 else 0
  }

  /** With at most `bound` points per pair, at most that many per pair visited. */
  lemma {:induction false} PairsSize<T>(s: seq<T>, f: (T, T) -> seq<Vec2>, i: nat, j: nat, bound: nat)
    requires i <= |s| && j <= |s|
    requires forall x, y :: |f(x, y)| <= bound
    ensures |Pairs(s, f, i, j)| <= bound * (PairsBefore(|s|, i) + ColumnsBefore(|s|, i, j))
    decreases i, j
  {
    if i < |s| && j > i + 1 {
      PairsSize(s, f, i, j - 1, bound);
      Distribute(bound, PairsBefore(|s|, i) + ColumnsBefore(|s|, i, j - 1), 1);
    } else if i > 0 {
      PairsSize(s, f, i - 1, |s|, bound);
    }
  }

  /**
   * What the nested loop `for x in xs, for y in ys` has collected once it
   * reaches row `i`, column `j`: `f(xs[m], y)` for every row `m < i`, then
   * `f(xs[i], ys[k])` for `k < j`. `Product(xs, ys, f, |xs|, 0)` is the whole
   * loop.
   */
  function Product<A, B>(xs: seq<A>, ys: seq<B>, f: (A, B) -> seq<Vec2>, i: nat, j: nat): seq<Vec2>
    requires i <= |xs| && j <= |ys|
    decreases i, j
  {
    if i < |xs| && j > 0 then Product(xs, ys, f, i, j - 1) + f(xs[i], ys[j - 1])
    else if i > 0 then Product(xs, ys, f, i - 1, |ys|)
    else []
  }

  /** A collected point comes from some `(xs[m], ys[k])` visited before `(i, j)`. */
  lemma {:induction false} ProductSource<A, B>(xs: seq<A>, ys: seq<B>, f: (A, B) -> seq<Vec2>, i: nat, j: nat, p: Vec2)
    returns (m: nat, k: nat)
    requires i <= |xs| && j <= |ys| && p in Product(xs, ys, f, i, j)
    ensures m < |xs| && k < |ys| && (m < i || (m == i && k < j)) && p in f(xs[m], ys[k])
    decreases i, j
  {
    if i < |xs| && j > 0 {
      if p in Product(xs, ys, f, i, j - 1) {
        m, k := ProductSource(xs, ys, f, i, j - 1, p);
      } else {
        m, k := i, j - 1;
      }
    } else {
      assert i > 0;
      m, k := ProductSource(xs, ys, f, i - 1, |ys|, p);
    }
  }

  /** Conversely, what a pair visited before `(i, j)` yields is collected. */
  lemma {:induction false} ProductHolds<A, B>(xs: seq<A>, ys: seq<B>, f: (A, B) -> seq<Vec2>, i: nat, j: nat, m: nat, k: nat, p: Vec2)
    requires i <= |xs| && j <= |ys|
    requires m < |xs| && k < |ys| && (m < i || (m == i && k < j)) && p in f(xs[m], ys[k])
    ensures p in Product(xs, ys, f, i, j)
    decreases i, j
  {
    if i < |xs| && j > 0 {
      if !(m == i && k == j - 1) {
        ProductHolds(xs, ys, f, i, j - 1, m, k, p);
      }
    } else {
      ProductHolds(xs, ys, f, i - 1, |ys|, m, k, p);
    }
  }

  /** A point is collected by the whole loop exactly when some `(xs[m], ys[k])` yields it. */
  lemma InProduct<A, B>(xs: seq<A>, ys: seq<B>, f: (A, B) -> seq<Vec2>, p: Vec2)
    ensures p in Product(xs, ys, f, |xs|, 0) <==> exists m, k :: 0 <= m < |xs| && 0 <= k < |ys| && p in f(xs[m], ys[k])
  {
    if p in Product(xs, ys, f, |xs|, 0) {
      var m, k := ProductSource(xs, ys, f, |xs|, 0, p);
    }
    if exists m, k :: 0 <= m < |xs| && 0 <= k < |ys| && p in f(xs[m], ys[k]) {
      var m, k :| 0 <= m < |xs| && 0 <= k < |ys| && p in f(xs[m], ys[k]);
      ProductHolds(xs, ys, f, |xs|, 0, m, k, p);
    }
  }

  /** With at most `bound` points per pair, at most that many per pair visited. */
  lemma {:induction false} ProductSize<A, B>(xs: seq<A>, ys: seq<B>, f: (A, B) -> seq<Vec2>, i: nat, j: nat, bound: nat)
    requires i <= |xs| && j <= |ys|
    requires forall x, y :: |f(x, y)| <= bound
    ensures |Product(xs, ys, f, i, j)| <= bound * (i * |ys| + (if i < |xs| then j else 0))
    decreases i, j
  {
    if i < |xs| && j > 0 {
      ProductSize(xs, ys, f, i, j - 1, bound);
      Distribute(bound, i * |ys| + (j - 1), 1);
    } else if i > 0 {
      ProductSize(xs, ys, f, i - 1, |ys|, bound);
      assert (i - 1) * |ys| + |ys| == i * |ys|;
    }
  }

  // ---------------------------------------------------------------------
  // Scalar facts behind the nonlinear steps

  lemma NegateSquares(x: real, y: real)
    ensures (x * -1.0) * (x * -1.0) + (y * -1.0) * (y * -1.0) == x * x + y * y
  {
  }

  lemma ScaledSquares(x: real, y: real, r: real)
    ensures (x * r) * (x * r) + (y * r) * (y * r) == r * r * (x * x + y * y)
  {
  }

  /** Both line equations vanish at the determinant solution, before dividing by the denominator. */
  lemma DeterminantOnBothLines(a: Vec2, b: Vec2, c: Vec2, d: Vec2)
    ensures var den, X, Y := Denominator(a, b, c, d), NumeratorX(a, b, c, d), NumeratorY(a, b, c, d);
      (b.x - a.x) * (Y - a.y * den) - (b.y - a.y) * (X - a.x * den) == 0.0 &&
      (d.x - c.x) * (Y - c.y * den) - (d.y - c.y) * (X - c.x * den) == 0.0
  {
  }

  lemma NonzeroSquare(x: real)
    requires x != 0.0
    ensures x * x != 0.0
  {
  }

  lemma SymmetricDistSq(a: Vec2, b: Vec2)
    ensures DistSq(a, b) == DistSq(b, a)
  {
    var d := Sub(a, b);
    assert Sub(b, a) == Scale(d, -1.0);
    NegateSquares(d.x, d.y);
  }

  lemma QuadRoot(qa: real, qb: real, qc: real, s: real)
    requires qa != 0.0
    requires s * s == qb * qb - 4.0 * qa * qc
    ensures var t := (-qb + s) / (2.0 * qa); qa * t * t + qb * t + qc == 0.0
  {
    var t := (-qb + s) / (2.0 * qa);
    DivMul(-qb + s, 2.0 * qa);
    assert 2.0 * qa * t + qb == s;
    calc {
      (qa * t * t + qb * t + qc) * (4.0 * qa);
      (2.0 * qa * t + qb) * (2.0 * qa * t + qb) - (qb * qb - 4.0 * qa * qc);
      s * s - (qb * qb - 4.0 * qa * qc);
      0.0;
    }
    ZeroFactor(qa * t * t + qb * t + qc, 4.0 * qa);
  }

  lemma RootSquare(qa: real, qb: real, qc: real, t: real)
    requires qa * t * t + qb * t + qc == 0.0
    ensures (2.0 * qa * t + qb) * (2.0 * qa * t + qb) == qb * qb - 4.0 * qa * qc
  {
    assert (2.0 * qa * t + qb) * (2.0 * qa * t + qb) - (qb * qb - 4.0 * qa * qc)
        == 4.0 * qa * (qa * t * t + qb * t + qc);
  }

  /** A root of a quadratic with `a != 0` is one of the two given by the formula. */
  lemma RootIsListed(qa: real, qb: real, qc: real, s: real, t: real)
    requires qa != 0.0 && qa * t * t + qb * t + qc == 0.0
    requires s >= 0.0 && s * s == qb * qb - 4.0 * qa * qc
    ensures t == (-qb + s) / (2.0 * qa) || t == (-qb - s) / (2.0 * qa)
  {
    RootSquare(qa, qb, qc, t);
    SquaresEqual(2.0 * qa * t + qb, s);
    if 2.0 * qa * t + qb == s {
      LinearSolve(qa, qb, s, t);
    } else {
      LinearSolve(qa, qb, -s, t);
    }
  }

  lemma SquaresEqual(x: real, y: real)
    requires x * x == y * y
    ensures x == y || x == -y
  {
    assert (x - y) * (x + y) == 0.0;
    if x - y != 0.0 {
      ZeroFactor(x + y, x - y);
    }
  }

  lemma LinearSolve(qa: real, qb: real, s: real, t: real)
    requires qa != 0.0
    requires 2.0 * qa * t + qb == s
    ensures t == (-qb + s) / (2.0 * qa)
  {
    assert t * (2.0 * qa) == -qb + s;
    CancelFactor(t, 2.0 * qa);
  }

  lemma DivFactor(h: real, y: real, d: real)
    requires d != 0.0
    ensures h * y / d == (h / d) * y
  {
  }

  /**
   * The offset `k u + m u^perp` from a circle's centre has squared length
   * `(k d)^2 + (m d)^2` when `|u| = d`.
   */
  lemma OffsetSquares(ux: real, uy: real, k: real, m: real, d: real, kd: real, md: real)
    requires ux * ux + uy * uy == d * d
    requires k * d == kd && m * d == md
    ensures (ux * k + m * uy) * (ux * k + m * uy) + (uy * k - m * ux) * (uy * k - m * ux) == kd * kd + md * md
    ensures (ux * k - m * uy) * (ux * k - m * uy) + (uy * k + m * ux) * (uy * k + m * ux) == kd * kd + md * md
  {
    assert (ux * k + m * uy) * (ux * k + m * uy) + (uy * k - m * ux) * (uy * k - m * ux)
        == (k * k + m * m) * (ux * ux + uy * uy);
    assert (ux * k - m * uy) * (ux * k - m * uy) + (uy * k + m * ux) * (uy * k + m * ux)
        == (k * k + m * m) * (ux * ux + uy * uy);
    assert (k * k + m * m) * (d * d) == (k * d) * (k * d) + (m * d) * (m * d);
  }

  /** Between the guards, the foot of the chord is no farther from the first centre than its radius. */
  lemma HalfChordNonneg(r1: real, r2: real, d: real, a: real)
    requires d > 0.0 && d <= r1 + r2 && d >= r1 - r2 && d >= r2 - r1
    requires a * (2.0 * d) == r1 * r1 - r2 * r2 + d * d
    ensures r1 * r1 - a * a >= 0.0
  {
    FootBelowRadius(r1, r2, d, a);
    MulNonneg(r2 - d + r1, r2 + d - r1);
    NonnegFactor(r1 - a, 2.0 * d, (r2 - d + r1) * (r2 + d - r1));
    FootAboveMinusRadius(r1, r2, d, a);
    MulNonneg(r1 + d - r2, r1 + d + r2);
    NonnegFactor(r1 + a, 2.0 * d, (r1 + d - r2) * (r1 + d + r2));
    MulNonneg(r1 - a, r1 + a);
    DifferenceOfSquares(r1, a);
  }

  lemma FootBelowRadius(r1: real, r2: real, d: real, a: real)
    requires a * (2.0 * d) == r1 * r1 - r2 * r2 + d * d
    ensures (r1 - a) * (2.0 * d) == (r2 - d + r1) * (r2 + d - r1)
  {
    calc {
      (r1 - a) * (2.0 * d);
      r1 * (2.0 * d) - a * (2.0 * d);
      r1 * (2.0 * d) - (r1 * r1 - r2 * r2 + d * d);
      (r2 - d + r1) * (r2 + d - r1);
    }
  }

  lemma FootAboveMinusRadius(r1: real, r2: real, d: real, a: real)
    requires a * (2.0 * d) == r1 * r1 - r2 * r2 + d * d
    ensures (r1 + a) * (2.0 * d) == (r1 + d - r2) * (r1 + d + r2)
  {
    calc {
      (r1 + a) * (2.0 * d);
      r1 * (2.0 * d) + a * (2.0 * d);
      r1 * (2.0 * d) + (r1 * r1 - r2 * r2 + d * d);
      (r1 + d - r2) * (r1 + d + r2);
    }
  }

  lemma NonnegFactor(x: real, y: real, z: real)
    requires y > 0.0 && x * y == z && z >= 0.0
    ensures x >= 0.0
  {
    if x < 0.0 {
      NegTimesPos(x, y);
    }
  }

  lemma DifferenceOfSquares(x: real, y: real)
    ensures (x - y) * (x + y) == x * x - y * y
  {
  }

  lemma SquareNonneg(x: real)
    ensures x * x >= 0.0
  {
  }

  lemma NegTimesPos(x: real, y: real)
    requires x < 0.0 && y > 0.0
    ensures x * y < 0.0
  {
  }

  lemma ChordToSecondRadius(r1: real, r2: real, d: real, a: real)
    requires a * (2.0 * d) == r1 * r1 - r2 * r2 + d * d
    ensures (a - d) * (a - d) + (r1 * r1 - a * a) == r2 * r2
  {
  }

  lemma RowsStep(n: int, i: int)
    ensures (i - 1) * (2 * n - (i - 1) - 1) + 2 * (n - i) == i * (2 * n - i - 1)
  {
  }

  lemma Distribute(k: int, x: int, y: int)
    ensures k * x + k * y == k * (x + y)
  {
  }

  lemma ZeroFactor(a: real, d: real)
    requires d != 0.0 && a * d == 0.0
    ensures a == 0.0
  {
  }

  lemma NegSquare(x: real)
    ensures (-x) * (-x) == x * x
  {
  }

  lemma SignedSquare(h: real, hs: real, k: real)
    requires h * h == k && (hs == h || hs == -h)
    ensures hs * hs == k
  {
    if hs == -h {
      NegSquare(h);
    }
  }

  lemma ShiftedFactor(k: real, d: real, a: real)
    requires k * d == a
    ensures (k - 1.0) * d == a - d
  {
  }

  lemma DivMul(x: real, d: real)
    requires d != 0.0
    ensures (x / d) * d == x
  {
  }

  lemma DivideOut(u: real, v: real, X: real, Y: real, D: real, x1: real, y1: real)
    requires D != 0.0
    requires u * (Y - y1 * D) - v * (X - x1 * D) == 0.0
    ensures u * (Y / D - y1) - v * (X / D - x1) == 0.0
  {
    var px, py := X / D, Y / D;
    DivMul(X, D);
    DivMul(Y, D);
    calc {
      (u * (py - y1) - v * (px - x1)) * D;
      u * (py * D - y1 * D) - v * (px * D - x1 * D);
      u * (Y - y1 * D) - v * (X - x1 * D);
    }
    ZeroFactor(u * (py - y1) - v * (px - x1), D);
  }

  /** For `w = t u` with `0 <= t <= 1`: `w` is parallel to `u` and `0 <= w . u <= u . u`. */
  lemma LerpCrossAndDot(wx: real, wy: real, ux: real, uy: real, t: real)
    requires 0.0 <= t <= 1.0 && wx == ux * t && wy == uy * t
    ensures wy * ux - wx * uy == 0.0
    ensures 0.0 <= wx * ux + wy * uy <= ux * ux + uy * uy
  {
    var l := ux * ux + uy * uy;
    assert wy * ux - wx * uy == (uy * t) * ux - (ux * t) * uy;
    assert wx * ux + wy * uy == t * l;
    assert l >= 0.0;
    MulNonneg(t, l);
    MulNonneg(1.0 - t, l);
  }

  /** `w` parallel to a non-zero `u` is `t u` with `t = (w . u) / (u . u)`. */
  lemma ParallelIsMultiple(wx: real, wy: real, ux: real, uy: real, l: real, t: real)
    requires l == ux * ux + uy * uy && l > 0.0
    requires wy * ux - wx * uy == 0.0
    requires t == (wx * ux + wy * uy) / l
    ensures wx == ux * t && wy == uy * t
  {
    DivMul(wx * ux + wy * uy, l);
    assert (wx * ux + wy * uy) == t * l;
    calc {
      (wx - ux * t) * l;
      wx * ux * ux + wx * uy * uy - ux * (t * l);
      wx * ux * ux + wx * uy * uy - ux * (wx * ux + wy * uy);
      wx * uy * uy - ux * wy * uy;
      uy * (wx * uy - wy * ux);
      0.0;
    }
    ZeroFactor(wx - ux * t, l);
    calc {
      (wy - uy * t) * l;
      wy * ux * ux + wy * uy * uy - uy * (t * l);
      wy * ux * ux + wy * uy * uy - uy * (wx * ux + wy * uy);
      wy * ux * ux - uy * wx * ux;
      ux * (wy * ux - wx * uy);
      0.0;
    }
    ZeroFactor(wy - uy * t, l);
  }

  lemma UnitRange(s: real, l: real)
    requires l > 0.0 && 0.0 <= s <= l
    ensures 0.0 <= s / l <= 1.0
  {
  }
}
