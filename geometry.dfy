/**
 * The vector/segment kernel (domain/entity/Geometry.kt).
 *
 * `Float` is modelled as `real`, so every operation here is exact rational
 * arithmetic. `hypot`/`sqrt` cannot be given a body in the model; the
 * members that need a length take the square-root function as a parameter
 * (`sqrt`) and lemmas state the one or two facts about it they rely on.
 */
module Geometry {

  /** An immutable 2-D point or vector. */
  datatype Vec2 = Vec2(x: real, y: real)

  const Zero: Vec2 := Vec2(0.0, 0.0)

  /** `Math.PI.toFloat()`, the exact value of the nearest single-precision float to pi. */
  const PI: real := 3.1415927410125732421875

  function Add(a: Vec2, b: Vec2): Vec2 { Vec2(a.x + b.x, a.y + b.y) }

  function Sub(a: Vec2, b: Vec2): Vec2 { Vec2(a.x - b.x, a.y - b.y) }

  function Scale(v: Vec2, s: real): Vec2 { Vec2(v.x * s, v.y * s) }

  /** `v / s`; the source leaves division by zero to its callers. */
  function Div(v: Vec2, s: real): Vec2
    requires s != 0.0
  {
    Vec2(v.x / s, v.y / s)
  }

  function Dot(a: Vec2, b: Vec2): real { a.x * b.x + a.y * b.y }

  /** Squared Euclidean distance: what `distance` compares, without the square root. */
  function DistSq(a: Vec2, b: Vec2): real
  {
    var d := Sub(a, b);
    Dot(d, d)
  }

  /** `len(v) = hypot(v.x, v.y)`, with the square root supplied by the caller. */
  function Len(v: Vec2, sqrt: real -> real): real { sqrt(Dot(v, v)) }

  function Distance(a: Vec2, b: Vec2, sqrt: real -> real): real { Len(Sub(a, b), sqrt) }

  /** `norm`: the zero-length vector is returned unchanged instead of divided by zero. */
  function Norm(v: Vec2, sqrt: real -> real): (r: Vec2)
    ensures v == Zero ==> r == Zero
    ensures v != Zero && SqrtAt(sqrt, Dot(v, v)) ==> Dot(r, r) == 1.0
  {
    var l := Len(v, sqrt);
    ScaledToUnit(v, l);
    if l == 0.0 then v else Scale(v, 1.0 / l)
  }

  /** Dividing a non-zero vector by its length leaves a vector of unit length. */
  lemma ScaledToUnit(v: Vec2, l: real)
    ensures v != Zero && l * l == Dot(v, v) ==> l != 0.0 && Dot(Scale(v, 1.0 / l), Scale(v, 1.0 / l)) == 1.0
  {
    if v != Zero && l * l == Dot(v, v) {
      DotSelfZero(v);
      var k := 1.0 / l;
      assert Dot(Scale(v, k), Scale(v, k)) == k * k * Dot(v, v);
      assert k * l == 1.0;
    }
  }

  /** `angleOf(v)`: the direction of `v`, with `atan2` supplied by the caller. */
  function AngleOf(v: Vec2, atan2: (real, real) -> real): real
  {
    atan2(v.y, v.x)
  }

  /** `fromAngle(theta)`: the unit direction `(cos theta, sin theta)`, with the trigonometry supplied by the caller. */
  function FromAngle(theta: real, cos: real -> real, sin: real -> real): Vec2
  {
    Vec2(cos(theta), sin(theta))
  }

  /** `sqrt` returns the non-negative square root of `x`. */
  predicate SqrtAt(sqrt: real -> real, x: real)
  {
    sqrt(x) >= 0.0 && sqrt(x) * sqrt(x) == x
  }

  /** `sqrt` is the square root on every non-negative argument. */
  ghost predicate IsSqrt(sqrt: real -> real)
  {
    forall x :: x >= 0.0 ==> SqrtAt(sqrt, x)
  }

  /** `kotlin.math.abs`. */
  function Abs(x: real): real { if x < 0.0 then -x else x }

  function Degrees(rad: real): real { rad * 180.0 / PI }

  function Radians(deg: real): real { deg * PI / 180.0 }

  /** Kotlin's `coerceIn(lo, hi)` for `lo <= hi`. */
  function Clamp(v: real, lo: real, hi: real): (r: real)
    requires lo <= hi
    ensures lo <= r <= hi
    ensures lo <= v <= hi ==> r == v
    ensures v < lo ==> r == lo
    ensures hi < v ==> r == hi
  {
    if v < lo then lo else if v > hi then hi else v
  }

  /** The point `a + (b - a) * t` of the line through `a` and `b`. */
  function Lerp(a: Vec2, b: Vec2, t: real): Vec2 { Add(a, Scale(Sub(b, a), t)) }

  /** `q` lies on the closed segment from `a` to `b`. */
  ghost predicate OnSegment(q: Vec2, a: Vec2, b: Vec2)
  {
    exists t: real :: 0.0 <= t <= 1.0 && q == Lerp(a, b, t)
  }

  /** The unclamped projection parameter of `p` on the line `ab` (`ab` not degenerate). */
  function ProjectionParam(p: Vec2, a: Vec2, b: Vec2): real
    requires Dot(Sub(b, a), Sub(b, a)) != 0.0
  {
    Dot(Sub(p, a), Sub(b, a)) / Dot(Sub(b, a), Sub(b, a))
  }

  /**
   * Closest point on segment AB to P: the projection parameter is clamped
   * to [0, 1], and a zero-length segment yields `a`.
   */
  function ClosestPointOnSegment(p: Vec2, a: Vec2, b: Vec2): (r: Vec2)
    ensures a == b ==> r == a
  {
    var ab := Sub(b, a);
    var abLen2 := Dot(ab, ab);
    if abLen2 == 0.0 then a
    else
      var t := Clamp(Dot(Sub(p, a), ab) / abLen2, 0.0, 1.0);
      Add(a, Scale(ab, t))
  }

  /** `distancePointToSegment`: the distance from `p` to its closest point on AB. */
  function DistancePointToSegment(p: Vec2, a: Vec2, b: Vec2, sqrt: real -> real): real
  {
    Distance(p, ClosestPointOnSegment(p, a, b), sqrt)
  }

  // ---------------------------------------------------------------------
  // Scalar facts behind the nonlinear steps. Each is proved on its own so
  // that the lemmas about vectors only chain them together.

  lemma SumOfSquaresPos(x: real, y: real)
    requires x != 0.0 || y != 0.0
    ensures x * x + y * y > 0.0
  {
  }

  lemma MulNonneg(a: real, b: real)
    requires a >= 0.0 && b >= 0.0
    ensures a * b >= 0.0
  {
  }

  lemma MulNonpos(a: real, b: real)
    requires a <= 0.0 && b <= 0.0
    ensures a * b >= 0.0
  {
  }

  lemma SquareTimesPos(x: real, l: real)
    requires l > 0.0
    ensures x * (x * l) >= 0.0
  {
  }

  lemma CancelFactor(t: real, l: real)
    requires l != 0.0
    ensures (t * l) / l == t
  {
  }

  /**
   * `f(t) = w - 2ts + t*t*l` with `l > 0` is smallest on [0, 1] at the
   * clamped vertex `c`: 0 when `s <= 0`, 1 when `s >= l`, and `s / l` between.
   */
  lemma QuadraticMinimum(w: real, s: real, l: real, t: real, c: real)
    requires l > 0.0
    requires 0.0 <= t <= 1.0
    requires (s <= 0.0 && c == 0.0) || (s >= l && c == 1.0) || (0.0 < c < 1.0 && s == c * l)
    ensures w - 2.0 * c * s + c * c * l <= w - 2.0 * t * s + t * t * l
  {
    var x := t - c;
    var y := (t + c) * l - 2.0 * s;
    assert (w - 2.0 * t * s + t * t * l) - (w - 2.0 * c * s + c * c * l) == x * y;
    if s <= 0.0 && c == 0.0 {
      MulNonneg(t, l);
      MulNonneg(x, y);
    } else if s >= l && c == 1.0 {
      MulNonneg(1.0 - t, l);
      MulNonpos(x, y);
    } else {
      assert y == x * l;
      SquareTimesPos(x, l);
    }
  }

  /** The clamped projection parameter is one of the three cases of `QuadraticMinimum`. */
  lemma ClampedVertex(s: real, l: real)
    requires l > 0.0
    ensures var c := Clamp(s / l, 0.0, 1.0);
      (s <= 0.0 && c == 0.0) || (s >= l && c == 1.0) || (0.0 < c < 1.0 && s == c * l)
  {
  }

  // ---------------------------------------------------------------------
  // Properties of the vector operations

  lemma AddSubCancel(a: Vec2, b: Vec2)
    ensures Sub(Add(a, b), b) == a
    ensures Add(Sub(a, b), b) == a
  {
  }

  lemma DegreesRadiansRoundTrip(r: real, d: real)
    ensures Radians(Degrees(r)) == r
    ensures Degrees(Radians(d)) == d
  {
  }

  /** A vector's squared length is positive unless it is the zero vector. */
  lemma DotSelfPositive(v: Vec2)
    ensures v == Zero || Dot(v, v) > 0.0
  {
    if v != Zero {
      calc {
        Dot(v, v);
        v.x * v.x + v.y * v.y;
      >  { SumOfSquaresPos(v.x, v.y); }
        0.0;
      }
    }
  }

  lemma DotSelfZero(v: Vec2)
    ensures Dot(v, v) >= 0.0
    ensures Dot(v, v) == 0.0 <==> v == Zero
  {
    DotSelfPositive(v);
  }

  // ---------------------------------------------------------------------
  // Properties of closestPointOnSegment

  /** Away from the degenerate case the result is `Lerp` at the clamped parameter. */
  lemma ClosestAsLerp(p: Vec2, a: Vec2, b: Vec2)
    requires Dot(Sub(b, a), Sub(b, a)) != 0.0
    ensures ClosestPointOnSegment(p, a, b) == Lerp(a, b, Clamp(ProjectionParam(p, a, b), 0.0, 1.0))
  {
  }

  /** The result is `a + (b - a) * t` for some `t` in [0, 1]. */
  lemma ClosestIsOnSegment(p: Vec2, a: Vec2, b: Vec2)
    ensures OnSegment(ClosestPointOnSegment(p, a, b), a, b)
  {
    if Dot(Sub(b, a), Sub(b, a)) == 0.0 {
      assert ClosestPointOnSegment(p, a, b) == Lerp(a, b, 0.0);
    } else {
      ClosestAsLerp(p, a, b);
    }
  }

  /** A projection behind `a` clamps to `a`; one beyond `b` clamps to `b`. */
  lemma ClosestClampsToEndpoints(p: Vec2, a: Vec2, b: Vec2)
    requires Dot(Sub(b, a), Sub(b, a)) != 0.0
    ensures ProjectionParam(p, a, b) <= 0.0 ==> ClosestPointOnSegment(p, a, b) == a
    ensures ProjectionParam(p, a, b) >= 1.0 ==> ClosestPointOnSegment(p, a, b) == b
  {
  }

  /** The squared distance from `p` to `Lerp(a, b, t)` as a quadratic in `t`. */
  lemma DistSqAlongLine(p: Vec2, a: Vec2, b: Vec2, t: real)
    ensures DistSq(p, Lerp(a, b, t))
         == Dot(Sub(p, a), Sub(p, a)) - 2.0 * t * Dot(Sub(p, a), Sub(b, a))
            + t * t * Dot(Sub(b, a), Sub(b, a))
  {
    var w, ab := Sub(p, a), Sub(b, a);
    assert Sub(p, Lerp(a, b, t)) == Vec2(w.x - t * ab.x, w.y - t * ab.y);
    calc {
      DistSq(p, Lerp(a, b, t));
      (w.x - t * ab.x) * (w.x - t * ab.x) + (w.y - t * ab.y) * (w.y - t * ab.y);
      w.x * w.x + w.y * w.y - 2.0 * t * (w.x * ab.x + w.y * ab.y) + t * t * (ab.x * ab.x + ab.y * ab.y);
    }
  }

  lemma NearestOnProperSegment(p: Vec2, a: Vec2, b: Vec2, t: real)
    requires 0.0 <= t <= 1.0
    requires Dot(Sub(b, a), Sub(b, a)) > 0.0
    ensures DistSq(p, ClosestPointOnSegment(p, a, b)) <= DistSq(p, Lerp(a, b, t))
  {
    var ab := Sub(b, a);
    var w, s, l := Dot(Sub(p, a), Sub(p, a)), Dot(Sub(p, a), ab), Dot(ab, ab);
    var c := Clamp(s / l, 0.0, 1.0);
    ClampedVertex(s, l);
    calc {
      DistSq(p, ClosestPointOnSegment(p, a, b));
      { ClosestAsLerp(p, a, b); }
      DistSq(p, Lerp(a, b, c));
      { DistSqAlongLine(p, a, b, c); }
      w - 2.0 * c * s + c * c * l;
    <= { QuadraticMinimum(w, s, l, t, c); }
      w - 2.0 * t * s + t * t * l;
      { DistSqAlongLine(p, a, b, t); }
      DistSq(p, Lerp(a, b, t));
    }
  }

  /** No point of the segment is closer to `p` than the one returned. */
  lemma ClosestIsNearest(p: Vec2, a: Vec2, b: Vec2, t: real)
    requires 0.0 <= t <= 1.0
    ensures DistSq(p, ClosestPointOnSegment(p, a, b)) <= DistSq(p, Lerp(a, b, t))
  {
    var ab := Sub(b, a);
    DotSelfPositive(ab);
    if ab == Zero {
      assert b == a;
      assert Lerp(a, b, t) == a;
    } else {
      NearestOnProperSegment(p, a, b, t);
    }
  }

  /** On a proper segment, the parameter of `Lerp(a, b, t)` is recovered exactly. */
  lemma ProjectionOfLerp(a: Vec2, b: Vec2, t: real)
    requires Dot(Sub(b, a), Sub(b, a)) != 0.0
    ensures ProjectionParam(Lerp(a, b, t), a, b) == t
  {
    var ab := Sub(b, a);
    var l := Dot(ab, ab);
    assert Sub(Lerp(a, b, t), a) == Scale(ab, t);
    calc {
      ProjectionParam(Lerp(a, b, t), a, b);
      Dot(Scale(ab, t), ab) / l;
      { assert Dot(Scale(ab, t), ab) == t * l; }
      (t * l) / l;
      { CancelFactor(t, l); }
      t;
    }
  }

  /** A point already on the segment is its own closest point, at distance 0. */
  lemma ClosestFixesSegmentPoints(q: Vec2, a: Vec2, b: Vec2, sqrt: real -> real)
    requires OnSegment(q, a, b)
    requires sqrt(0.0) == 0.0
    ensures ClosestPointOnSegment(q, a, b) == q
    ensures DistancePointToSegment(q, a, b, sqrt) == 0.0
  {
    var t :| 0.0 <= t <= 1.0 && q == Lerp(a, b, t);
    var ab := Sub(b, a);
    DotSelfPositive(ab);
    if ab == Zero {
      assert b == a;
      assert q == a;
    } else {
      ProjectionOfLerp(a, b, t);
      ClosestAsLerp(q, a, b);
    }
    assert Sub(q, q) == Zero;
  }

  /** `norm` of the zero vector is the zero vector, whatever the square root does. */
  lemma NormOfZero(sqrt: real -> real)
    ensures Norm(Zero, sqrt) == Zero
  {
  }
}
