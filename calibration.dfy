/**
 * The calibration arithmetic of calibration/CalibrationManager.kt: pixels
 * per millimetre from a measured length or a DPI value, the nearest standard
 * DPI as a fallback, and the 30-day recalibration rule. The preference store
 * is a field holding the last saved record; the clock and the display's
 * density are parameters.
 */
module Calibration {
  import opened Wrappers
  import opened Geometry
  import opened Selection

  datatype CalibrationData = CalibrationData(dpi: real, mmPerPx: real, isCalibrated: bool, calibrationDate: int)

  /** The values of `STANDARD_DPIS`, ldpi to xxxhdpi, in declaration order. */
  const StandardDpis: seq<real> := [120.0, 160.0, 240.0, 320.0, 480.0, 640.0]

  /** Milliseconds in a day, `1000 * 60 * 60 * 24`. */
  const MillisPerDay: int := 86_400_000

  /**
   * `getDefaultDpi()`: the first standard DPI closest to the display's
   * density, or the density itself if there were no standard values.
   */
  function DefaultDpi(density: int): (r: real)
    ensures r in StandardDpis
    ensures forall d :: d in StandardDpis ==> Abs(r - density as real) <= Abs(d - density as real)
    ensures exists i :: (0 <= i < |StandardDpis| && r == StandardDpis[i]
      && forall j :: 0 <= j < i ==> Abs(r - density as real) < Abs(StandardDpis[j] - density as real))
  {
    match MinIndexByOrNone(StandardDpis, d => Abs(d - density as real))
    case None => density as real
    case Some(i) => StandardDpis[i]
  }

  /**
   * A density halfway between two standard values gets the lower one, the
   * first in `StandardDpis`: 200 is 40 from both 160 and 240.
   */
  lemma TiedDensityTakesFirst()
    ensures DefaultDpi(200) == 160.0
  {
    var r := DefaultDpi(200);
    var i :| 0 <= i < |StandardDpis| && r == StandardDpis[i]
      && forall j :: 0 <= j < i ==> Abs(r - 200.0) < Abs(StandardDpis[j] - 200.0);
    assert Abs(r - 200.0) <= Abs(StandardDpis[1] - 200.0);
  }

  /** A display at a standard density gets exactly that density. */
  lemma StandardDensityKept(density: int)
    requires density as real in StandardDpis
    ensures DefaultDpi(density) == density as real
  {
    var r := DefaultDpi(density);
    assert Abs(r - density as real) <= Abs(density as real - density as real);
  }

  /** `calibrateWithKnownLength(measuredPixels, actualMm)` at time `now`. */
  function WithKnownLength(measuredPixels: real, actualMm: real, now: int): (c: CalibrationData)
    requires measuredPixels != 0.0 && actualMm != 0.0
    ensures c.mmPerPx * measuredPixels == actualMm
    ensures c.dpi * c.mmPerPx == 25.4
    ensures c.isCalibrated && c.calibrationDate == now
  {
    var mmPerPx := actualMm / measuredPixels;
    CancelFactor(actualMm, measuredPixels);
    CalibratedProduct(mmPerPx);
    CalibrationData(25.4 / mmPerPx, mmPerPx, true, now)
  }

  /** `calibrateWithDpi(dpi)` at time `now`. */
  function WithDpi(dpi: real, now: int): (c: CalibrationData)
    requires dpi != 0.0
    ensures c.dpi == dpi
    ensures c.dpi * c.mmPerPx == 25.4
    ensures c.isCalibrated && c.calibrationDate == now
  {
    CalibrationData(dpi, 25.4 / dpi, true, now)
  }

  lemma CalibratedProduct(mmPerPx: real)
    requires mmPerPx != 0.0
    ensures (25.4 / mmPerPx) * mmPerPx == 25.4
  {
  }

  /** A known length of one inch measured in `dpi` pixels gives the same record as `calibrateWithDpi(dpi)`. */
  lemma InchMeasurementMatchesDpi(dpi: real, now: int)
    requires dpi > 0.0
    ensures WithKnownLength(dpi, 25.4, now) == WithDpi(dpi, now)
  {
    var a := WithKnownLength(dpi, 25.4, now);
    var b := WithDpi(dpi, now);
    assert a.mmPerPx == b.mmPerPx;
    InverseOfQuotient(dpi);
  }

  lemma InverseOfQuotient(dpi: real)
    requires dpi > 0.0
    ensures 25.4 / (25.4 / dpi) == dpi
  {
  }

  /**
   * `getCalibrationData()`: the saved record, or the defaults when nothing
   * is saved — the standard DPI nearest the density, `25.4 / dpi`
   * millimetres per pixel, not calibrated, dated 0.
   */
  function Current(saved: Option<CalibrationData>, density: int): (c: CalibrationData)
    ensures saved.Some? ==> c == saved.value
    ensures saved.None? ==> c.dpi == DefaultDpi(density) && !c.isCalibrated && c.calibrationDate == 0
    ensures saved.None? ==> c.dpi * c.mmPerPx == 25.4
  {
    match saved
    case Some(d) => d
    case None =>
      var dpi := DefaultDpi(density);
      CalibratedProduct(dpi);
      CalibrationData(dpi, 25.4 / dpi, false, 0)
  }

  /** Kotlin's `Long` division, which rounds toward zero. */
  function TruncDiv(a: int, b: int): int
    requires b > 0
  {
    if a >= 0 then a / b else -((-a) / b)
  }

  /** `needsRecalibration()` on the record `d` at time `now`. */
  function NeedsRecalibration(d: CalibrationData, now: int): bool
  {
    d.isCalibrated && TruncDiv(now - d.calibrationDate, MillisPerDay) > 30
  }

  /**
   * A calibrated record needs recalibrating exactly when at least 31 whole
   * days have passed since it was made; an uncalibrated one never does.
   */
  lemma RecalibrationAfter31Days(d: CalibrationData, now: int)
    ensures !d.isCalibrated ==> !NeedsRecalibration(d, now)
    ensures d.isCalibrated ==>
      (NeedsRecalibration(d, now) <==> now - d.calibrationDate >= 31 * MillisPerDay)
  {
    var e := now - d.calibrationDate;
    if e >= 0 {
      if e >= 31 * MillisPerDay {
        assert e / MillisPerDay >= 31;
      } else {
        assert e / MillisPerDay <= 30;
      }
    } else {
      assert (-e) / MillisPerDay >= 0;
    }
  }

  // ---------------------------------------------------------------------
  // The manager with its preference store

  class CalibrationManager {
    /** `displayMetrics.densityDpi` of the device. */
    const density: int
    /** The preference store: the last saved record, if any. */
    var saved: Option<CalibrationData>

    constructor (density: int, saved: Option<CalibrationData>)
      ensures this.density == density && this.saved == saved
    {
      this.density := density;
      this.saved := saved;
    }

    /** `getCalibrationData()`. */
    method GetCalibrationData() returns (d: CalibrationData)
      ensures d == Current(saved, density)
    {
      match saved
      case Some(s) => d := s;
      case None =>
        var dpi := DefaultDpi(density);
        CalibratedProduct(dpi);
        d := CalibrationData(dpi, 25.4 / dpi, false, 0);
    }

    /** `calibrateWithKnownLength(measuredPixels, actualMm)`: compute, save and return the record. */
    method CalibrateWithKnownLength(measuredPixels: real, actualMm: real, now: int) returns (d: CalibrationData)
      requires measuredPixels != 0.0 && actualMm != 0.0
      modifies this
      ensures d == WithKnownLength(measuredPixels, actualMm, now)
      ensures saved == Some(d)
    {
      var mmPerPx := actualMm / measuredPixels;
      var dpi := 25.4 / mmPerPx;
      d := CalibrationData(dpi, mmPerPx, true, now);
      saved := Some(d);
    }

    /** `calibrateWithDpi(dpi)`: compute, save and return the record. */
    method CalibrateWithDpi(dpi: real, now: int) returns (d: CalibrationData)
      requires dpi != 0.0
      modifies this
      ensures d == WithDpi(dpi, now)
      ensures saved == Some(d)
    {
      d := CalibrationData(dpi, 25.4 / dpi, true, now);
      saved := Some(d);
    }

    /** `resetCalibration()`: forget the saved record. */
    method ResetCalibration()
      modifies this
      ensures saved == None
    {
      saved := None;
    }

    /** `needsRecalibration()` at time `now`. */
    method NeedsRecalibrationAt(now: int) returns (b: bool)
      ensures b == NeedsRecalibration(Current(saved, density), now)
    {
      var d := GetCalibrationData();
      if !d.isCalibrated {
        return false;
      }
      var days := TruncDiv(now - d.calibrationDate, MillisPerDay);
      b := days > 30;
    }
  }

  /** After a reset nothing needs recalibrating, and the defaults are in use. */
  lemma ResetNeedsNoRecalibration(density: int, now: int)
    ensures !NeedsRecalibration(Current(None, density), now)
    ensures Current(None, density).dpi in StandardDpis
  {
  }

  /** A record saved by a calibration is what is read back afterwards. */
  lemma SavedIsRead(d: CalibrationData, density: int, now: int)
    ensures Current(Some(d), density) == d
    ensures NeedsRecalibration(Current(Some(d), density), now) == NeedsRecalibration(d, now)
  {
  }
}
