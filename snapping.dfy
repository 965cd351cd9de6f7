/**
 * The snapping-engine helpers of domain/usecase/SnappingEngine.kt and its
 * duplicate snapping/SnapEngine.kt: unit conversion, the zoom-dependent snap
 * radius, grid snapping and the choice of the nearest common angle.
 */
module Snapping {
  import opened Geometry
  import opened Selection

  /** A snap target: where to snap, its priority (lower wins), its screen distance and its label (`label` in the source; the word is reserved in Dafny). */
  datatype SnapCandidate = SnapCandidate(pos: Vec2, priority: int, distancePx: real, labelText: string)

  /** `Math.PI` as a `Double`, against which `angleDelta` compares. */
  const DoublePI: real := 3.141592653589793115997963468544185161590576171875

  /** `mmToPx(mm, dpi)`: millimetres to pixels, `(dpi / 25.4) * mm`. */
  function MmToPx(mm: real, dpi: real): real
  {
    (dpi / 25.4) * mm
  }

  /** One inch is `dpi` pixels, and the conversion is linear in the length. */
  lemma MmToPxProperties(dpi: real, a: real, b: real, k: real)
    ensures MmToPx(25.4, dpi) == dpi
    ensures MmToPx(a + b, dpi) == MmToPx(a, dpi) + MmToPx(b, dpi)
    ensures MmToPx(k * a, dpi) == k * MmToPx(a, dpi)
  {
    var f := dpi / 25.4;
    assert f * 25.4 == dpi;
    assert f * (a + b) == f * a + f * b;
    assert f * (k * a) == k * (f * a);
  }

  /**
   * `dynamicSnapRadiusPx(zoom, basePx)`: the base radius divided by the zoom,
   * kept within 6 to 28 pixels.
   */
  function DynamicSnapRadiusPx(zoom: real, basePx: real): (r: real)
    requires zoom != 0.0
    ensures 6.0 <= r <= 28.0
    ensures 6.0 <= basePx / zoom <= 28.0 ==> r == basePx / zoom
    ensures basePx / zoom > 28.0 ==> r == 28.0
    ensures basePx / zoom < 6.0 ==> r == 6.0
  {
    Clamp(basePx / zoom, 6.0, 28.0)
  }

  /** The default base of 16 px gives 16 at zoom 1, 8 at zoom 2, and is capped at 28 at zoom 0.5. */
  lemma DynamicSnapRadiusExamples()
    ensures DynamicSnapRadiusPx(1.0, 16.0) == 16.0
    ensures DynamicSnapRadiusPx(2.0, 16.0) == 8.0
    ensures DynamicSnapRadiusPx(0.5, 16.0) == 28.0
  {
  }

  // ---------------------------------------------------------------------
  // Grid snapping

  /** `kotlin.math.round`: the nearest integer, ties going to the even one. */
  function RoundHalfEven(x: real): (r: int)
    ensures -0.5 <= r as real - x <= 0.5
    ensures (r as real - x == 0.5 || x - r as real == 0.5) ==> r % 2 == 0
  {
    var f := x.Floor;
    var frac := x - f as real;
    if frac < 0.5 then f
    else if frac > 0.5 then f + 1
    else if f % 2 == 0 then f else f + 1
  }

  /** `roundTo(v, s)`: `v` moved to the nearest multiple of `s`. */
  function RoundTo(v: real, s: real): real
    requires s != 0.0
  {
    (RoundHalfEven(v / s) as real) * s
  }

  /** The grid point nearest to `p` for spacing `s`, coordinate by coordinate. */
  function GridPoint(p: Vec2, s: real): Vec2
    requires s != 0.0
  {
    Vec2(RoundTo(p.x, s), RoundTo(p.y, s))
  }

  /** `k` steps of size `s`. */
  function Steps(k: int, s: real): real { k as real * s }

  /** `v` is an integer multiple of `s`. */
  ghost predicate IsMultiple(v: real, s: real)
  {
    exists k: int :: v == Steps(k, s)
  }

  ghost predicate OnGrid(p: Vec2, s: real)
  {
    IsMultiple(p.x, s) && IsMultiple(p.y, s)
  }

  lemma HalfStep(d: real, s: real)
    requires -0.5 <= d <= 0.5
    ensures Abs(d * s) <= Abs(s) / 2.0
  {
    if s >= 0.0 {
      if d >= 0.0 { assert d * s <= 0.5 * s; } else { assert d * s >= -0.5 * s; }
    } else {
      if d >= 0.0 { assert d * s >= 0.5 * s; } else { assert d * s <= -0.5 * s; }
    }
  }

  lemma ScaledGap(k: real, q: real, v: real, s: real)
    requires s != 0.0 && q == v / s
    ensures k * s - v == (k - q) * s
  {
  }

  /** A rounded coordinate is a multiple of the spacing and within half a spacing of the input. */
  lemma RoundToIsNearMultiple(v: real, s: real)
    requires s != 0.0
    ensures IsMultiple(RoundTo(v, s), s)
    ensures Abs(RoundTo(v, s) - v) <= Abs(s) / 2.0
  {
    var k := RoundHalfEven(v / s);
    var d := k as real - v / s;
    assert RoundTo(v, s) == Steps(k, s) == k as real * s;
    ScaledGap(k as real, v / s, v, s);
    assert RoundTo(v, s) - v == d * s;
    HalfStep(d, s);
  }

  /** A multiple of the spacing is left where it is. */
  lemma RoundToFixesMultiples(k: int, s: real)
    requires s != 0.0
    ensures RoundTo(k as real * s, s) == k as real * s
  {
    CancelFactor(k as real, s);
    assert RoundHalfEven(k as real) == k;
  }

  /**
   * Every snapped point lies on the grid, each coordinate within half a
   * spacing of the input; points already on the grid are fixed, so snapping
   * twice is snapping once.
   */
  lemma GridPointSnaps(p: Vec2, s: real)
    requires s != 0.0
    ensures OnGrid(GridPoint(p, s), s)
    ensures Abs(GridPoint(p, s).x - p.x) <= Abs(s) / 2.0
    ensures Abs(GridPoint(p, s).y - p.y) <= Abs(s) / 2.0
    ensures OnGrid(p, s) ==> GridPoint(p, s) == p
    ensures GridPoint(GridPoint(p, s), s) == GridPoint(p, s)
  {
    RoundToIsNearMultiple(p.x, s);
    RoundToIsNearMultiple(p.y, s);
    var q := GridPoint(p, s);
    GridPointFixes(q, s);
    GridPointFixes(p, s);
  }

  lemma GridPointFixes(p: Vec2, s: real)
    requires s != 0.0
    ensures OnGrid(p, s) ==> GridPoint(p, s) == p
  {
    if OnGrid(p, s) {
      var i: int :| p.x == Steps(i, s);
      var j: int :| p.y == Steps(j, s);
      RoundToFixesMultiples(i, s);
      RoundToFixesMultiples(j, s);
    }
  }

  /**
   * `snapToGrid(current, gridMm, dpi, zoom)`: the grid candidate, labelled
   * "grid" with priority 10, at the grid point nearest to `current` for a
   * spacing of `gridMm` millimetres, its distance measured in screen pixels.
   */
  function SnapToGrid(current: Vec2, gridMm: real, dpi: real, zoom: real, sqrt: real -> real): (c: SnapCandidate)
    requires MmToPx(gridMm, dpi) != 0.0
    ensures c.labelText == "grid" && c.priority == 10
    ensures c.pos == GridPoint(current, MmToPx(gridMm, dpi))
    ensures c.distancePx == Distance(current, c.pos, sqrt) * zoom
  {
    var spacing := MmToPx(gridMm, dpi);
    var snapped := GridPoint(current, spacing);
    SnapCandidate(snapped, 10, Distance(current, snapped, sqrt) * zoom, "grid")
  }

  /** The grid candidate of a point on the grid is the point itself, at distance 0. */
  lemma SnapToGridOnGrid(current: Vec2, gridMm: real, dpi: real, zoom: real, sqrt: real -> real)
    requires MmToPx(gridMm, dpi) != 0.0
    requires sqrt(0.0) == 0.0
    requires OnGrid(current, MmToPx(gridMm, dpi))
    ensures SnapToGrid(current, gridMm, dpi, zoom, sqrt).pos == current
    ensures SnapToGrid(current, gridMm, dpi, zoom, sqrt).distancePx == 0.0
  {
    GridPointFixes(current, MmToPx(gridMm, dpi));
    assert Sub(current, current) == Zero;
  }

  // ---------------------------------------------------------------------
  // Angle snapping

  /** Kotlin's `%` on floats: the remainder of truncating division, with the sign of `x`. */
  function Rem(x: real, m: real): real
    requires m > 0.0
  {
    x - m * (Trunc(x / m) as real)
  }

  /** Rounding toward zero. */
  function Trunc(x: real): (r: int)
    ensures x >= 0.0 ==> r as real <= x < r as real + 1.0
    ensures x < 0.0 ==> r as real - 1.0 < x <= r as real
  {
    if x >= 0.0 then x.Floor else -((-x).Floor)
  }

  lemma QuotientTimes(x: real, m: real)
    requires m > 0.0
    ensures m * (x / m) == x
  {
  }

  lemma MulPos(a: real, b: real)
    requires a > 0.0 && b > 0.0
    ensures a * b > 0.0
  {
  }

  lemma ProductBelow(m: real, d: real)
    requires m > 0.0 && 0.0 <= d < 1.0
    ensures 0.0 <= m * d < m
  {
    MulNonneg(m, d);
    MulPos(m, 1.0 - d);
    assert m * (1.0 - d) == m - m * d;
  }

  lemma FractionScaled(r: real, f: real, q: real, m: real)
    requires m > 0.0 && f <= q < f + 1.0 && r == m * (q - f)
    ensures 0.0 <= r < m
  {
    var d := q - f;
    ProductBelow(m, d);
    assert r == m * d;
  }

  lemma FractionScaledNeg(r: real, f: real, q: real, m: real)
    requires m > 0.0 && f - 1.0 < q <= f && r == m * (q - f)
    ensures -m < r <= 0.0
  {
    var d := f - q;
    ProductBelow(m, d);
    assert r == -(m * d);
  }

  lemma ScaleBetween(x: real, f: real, q: real, m: real)
    requires m > 0.0 && f <= q < f + 1.0 && x == m * q
    ensures 0.0 <= x - m * f < m
  {
    FractionScaled(m * (q - f), f, q, m);
    assert m * (q - f) == m * q - m * f;
  }

  lemma ScaleBetweenNeg(x: real, f: real, q: real, m: real)
    requires m > 0.0 && f - 1.0 < q <= f && x == m * q
    ensures -m < x - m * f <= 0.0
  {
    FractionScaledNeg(m * (q - f), f, q, m);
    assert m * (q - f) == m * q - m * f;
  }

  /** The remainder is smaller than the divisor in size and keeps the sign of the dividend. */
  lemma RemRange(x: real, m: real)
    requires m > 0.0
    ensures x >= 0.0 ==> 0.0 <= Rem(x, m) < m
    ensures x < 0.0 ==> -m < Rem(x, m) <= 0.0
  {
    var q := x / m;
    QuotientTimes(x, m);
    SignOfQuotient(x, m);
    RemBetween(x, m, q, Trunc(q) as real);
  }

  lemma RemBetween(x: real, m: real, q: real, f: real)
    requires m > 0.0 && x == m * q && q == x / m && f == Trunc(q) as real
    requires x >= 0.0 ==> q >= 0.0
    requires x < 0.0 ==> q < 0.0
    ensures x >= 0.0 ==> 0.0 <= Rem(x, m) < m
    ensures x < 0.0 ==> -m < Rem(x, m) <= 0.0
  {
    var r := x - m * f;
    assert Rem(x, m) == r;
    if x >= 0.0 {
      ScaleBetween(x, f, q, m);
    } else {
      ScaleBetweenNeg(x, f, q, m);
    }
  }

  /**
   * `angleDelta(a, b)`: the distance between two angles taken modulo 2π and
   * folded onto the shorter way round when it exceeds π. It exceeds the
   * float π only when the remainder falls strictly between `Math.PI` and
   * `PI.toFloat()`, an interval that holds no `Float`.
   */
  function AngleDelta(a: real, b: real): (r: real)
    ensures 0.0 <= r < 2.0 * PI - DoublePI
    ensures !(DoublePI < Rem(Abs(a - b), 2.0 * PI) < PI) ==> r <= PI
  {
    var d := Rem(Abs(a - b), 2.0 * PI);
    RemRange(Abs(a - b), 2.0 * PI);
    if d > DoublePI then 2.0 * PI - d else d
  }

  /** The delta does not depend on the order of its arguments, and an angle is at delta 0 from itself. */
  lemma AngleDeltaSymmetric(a: real, b: real)
    ensures AngleDelta(a, b) == AngleDelta(b, a)
    ensures AngleDelta(a, a) == 0.0
  {
    assert Abs(a - b) == Abs(b - a);
  }

  /** The common angles in degrees, in the order of `angleSet`. */
  const CommonDegrees: seq<real> := [0.0, 30.0, 45.0, 60.0, 90.0, 120.0, 135.0, 150.0, 180.0]

  /** `angleSet`: the common angles in radians. */
  function AngleSet(): (s: seq<real>)
    ensures |s| == |CommonDegrees|
    ensures forall i :: 0 <= i < |s| ==> s[i] == Radians(CommonDegrees[i])
  {
    seq(|CommonDegrees|, i requires 0 <= i < |CommonDegrees| => Radians(CommonDegrees[i]))
  }

  /**
   * `snapAngle(from, to)`: the raw direction angle of `to - from` (with
   * `atan2` supplied by the caller) and the first common angle whose
   * `angleDelta` from it is smallest.
   */
  function SnapAngle(from: Vec2, to: Vec2, atan2: (real, real) -> real): (r: (real, real))
    ensures r.0 == atan2(Sub(to, from).y, Sub(to, from).x)
    ensures r.1 in AngleSet()
    ensures forall c :: c in AngleSet() ==> Abs(AngleDelta(r.0, r.1)) <= Abs(AngleDelta(r.0, c))
    ensures exists i :: (0 <= i < |AngleSet()| && r.1 == AngleSet()[i]
      && forall j :: 0 <= j < i ==> Abs(AngleDelta(r.0, r.1)) < Abs(AngleDelta(r.0, AngleSet()[j])))
  {
    var v := Sub(to, from);
    var a := atan2(v.y, v.x);
    var s := AngleSet();
    var i := MinIndexBy(s, c => Abs(AngleDelta(a, c)));
    (a, s[i])
  }

  /** A raw angle that is itself a common angle snaps to itself. */
  lemma SnapAngleKeepsCommon(from: Vec2, to: Vec2, atan2: (real, real) -> real)
    requires atan2(Sub(to, from).y, Sub(to, from).x) in AngleSet()
    ensures SnapAngle(from, to, atan2).1 == SnapAngle(from, to, atan2).0
  {
    var r := SnapAngle(from, to, atan2);
    var s := AngleSet();
    var i := MinIndexBy(s, c => Abs(AngleDelta(r.0, c)));
    var k :| 0 <= k < |s| && s[k] == r.0;
    AngleDeltaSymmetric(r.0, r.0);
    assert Abs(AngleDelta(r.0, s[i])) == 0.0;
    DeltaZeroIsSame(r.0, s[i]);
  }

  /** Two common angles are at delta 0 only when they are equal. */
  lemma DeltaZeroIsSame(a: real, b: real)
    requires a in AngleSet() && b in AngleSet()
    requires AngleDelta(a, b) == 0.0
    ensures a == b
  {
    var s := AngleSet();
    var i :| 0 <= i < |s| && s[i] == a;
    var j :| 0 <= j < |s| && s[j] == b;
    var x := Abs(a - b);
    assert 0.0 <= x <= PI;
    RemSmall(x, 2.0 * PI);
  }

  lemma RemSmall(x: real, m: real)
    requires m > 0.0 && 0.0 <= x < m
    ensures Rem(x, m) == x
  {
    QuotientBelowOne(x, m);
    assert Trunc(x / m) == 0;
  }

  lemma QuotientBelowOne(x: real, m: real)
    requires m > 0.0 && 0.0 <= x < m
    ensures 0.0 <= x / m < 1.0
  {
    var q := x / m;
    QuotientTimes(x, m);
    SignOfQuotient(x, m);
    if q >= 1.0 {
      MulNonneg(m, q - 1.0);
    }
  }

  lemma SignOfQuotient(x: real, m: real)
    requires m > 0.0
    ensures x >= 0.0 ==> x / m >= 0.0
    ensures x < 0.0 ==> x / m < 0.0
  {
  }
}
