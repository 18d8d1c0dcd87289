/**
 * The sensor acquisition core (`Sensors.h`, `Sensors.cpp`): the readings
 * snapshot, the soil and light conversions, the light sensor's
 * self-calibration, and the `Sensors` object whose `update` samples all
 * sensors whenever its sampling ticker fires.
 *
 * Hardware reads are inputs: `millis()` is the `nowMs` parameter,
 * `analogRead` on the soil and light pins are the `rawSoil`/`rawLdr`
 * parameters (12-bit readings), and the DHT22's temperature and humidity
 * are opaque optional values, `None` standing for the library's NAN.
 */
module Sensors {
  import opened Machine
  import opened Config
  import Utils

  datatype Option<T> = None | Some(value: T)

  /** Largest reading of the 12-bit ADC. */
  const ADC_MAX: int := 4095

  /** Half-width of the range synthesised when the light bounds coincide. */
  const LDR_SPREAD: int := 50

  /** A 12-bit `analogRead` result. */
  type Adc = x: int | 0 <= x <= ADC_MAX

  predicate IsAdc(v: int) {
    0 <= v <= ADC_MAX
  }

  /**
   * struct `Readings`: each field holds its latest value or its sentinel
   * (`None` for the DHT values, -1 for the integers).
   */
  datatype Readings = Readings(
    tempC: Option<real>,
    humidity: Option<real>,
    soilPct: Int32,
    lightPct: Int32,
    soilRaw: Int32,
    ldrRaw: Int32)

  /** The default-constructed snapshot: every field holds its sentinel. */
  const DEFAULT_READINGS: Readings := Readings(None, None, -1, -1, -1, -1)

  /** The light calibration bounds `ldrMin_`, `ldrMax_`. */
  datatype Bounds = Bounds(lo: Int32, hi: Int32)

  /** Initial bounds: the minimum starts at the ADC maximum and vice versa. */
  const INITIAL_BOUNDS: Bounds := Bounds(ADC_MAX, 0)

  /**
   * `calibrating(nowMs)`: fewer than `LDR_CALIBRATION_MS` ms have gone by
   * since boot, by wrap-around `uint32_t` subtraction.
   */
  predicate InWindow(bootMs: Uint32, nowMs: Uint32)
    ensures InWindow(bootMs, nowMs) <==> (nowMs - bootMs) % UINT32_MODULUS < LDR_CALIBRATION_MS
  {
    Sub32(nowMs, bootMs) < LDR_CALIBRATION_MS
  }

  /** Calibration window seen from a clock that has not wrapped since boot. */
  lemma InWindowNoWrap(bootMs: Uint32, nowMs: Uint32)
    requires bootMs <= nowMs
    ensures InWindow(bootMs, nowMs) <==> nowMs < bootMs + LDR_CALIBRATION_MS
  {
  }

  // ---------------------------------------------------------------------------
  // Soil moisture
  // ---------------------------------------------------------------------------

  /**
   * The soil conversion of `sampleSoil`: the water reading and anything
   * wetter is 100 %, the dry-air reading and anything drier is 0 %.
   */
  function SoilPercent(raw: Int32): (pct: Int32)
    ensures 0 <= pct <= 100
    ensures raw <= SOIL_RAW_WATER ==> pct == 100
    ensures raw >= SOIL_RAW_AIR ==> pct == 0
  {
    var pct := Utils.MapConstrainBi(raw, SOIL_RAW_WATER, SOIL_RAW_AIR, 100, 0);
    assert raw <= SOIL_RAW_WATER ==> pct == 100 by {
      if raw <= SOIL_RAW_WATER { Utils.MapConstrainBiEnds(raw, SOIL_RAW_WATER, SOIL_RAW_AIR, 100, 0); }
    }
    assert raw >= SOIL_RAW_AIR ==> pct == 0 by {
      if raw >= SOIL_RAW_AIR { Utils.MapConstrainBiEnds(raw, SOIL_RAW_WATER, SOIL_RAW_AIR, 100, 0); }
    }
    pct
  }

  /** A higher (drier) raw soil reading never gives a higher moisture percentage. */
  lemma SoilPercentMonotone(raw1: Int32, raw2: Int32)
    requires raw1 <= raw2
    ensures SoilPercent(raw1) >= SoilPercent(raw2)
  {
    Utils.MapConstrainBiMonotone(raw1, raw2, SOIL_RAW_WATER, SOIL_RAW_AIR, 100, 0);
  }

  /** Halfway between the water and the dry-air readings is 50 %. */
  lemma SoilPercentAtMidpoint()
    ensures SoilPercent(2100) == 50
  {
    Utils.MapConstrainUnfold(2100, 1200, 3000, 100, 0);
    TruncDivNonPos(-90000, 1800);
  }

  /**
   * One count drier than the water reading still gives 100 %: the scaled
   * offset -100 / 1800 truncates toward zero, where floor division would
   * give 99 %.
   */
  lemma SoilPercentAboveWater()
    ensures SoilPercent(1201) == 100
  {
    Utils.MapConstrainTruncates();
  }

  // ---------------------------------------------------------------------------
  // Light calibration
  // ---------------------------------------------------------------------------

  /**
   * The tracking step of `sampleLDR`: the smallest widening of `b` that
   * contains `raw`. The minimum never rises and the maximum never falls.
   */
  function Track(b: Bounds, raw: Adc): (r: Bounds)
    ensures r.lo <= b.lo && r.hi >= b.hi
    ensures r.lo <= raw <= r.hi
    ensures (r.lo == b.lo || r.lo == raw) && (r.hi == b.hi || r.hi == raw)
  {
    Bounds(if raw < b.lo then raw else b.lo, if raw > b.hi then raw else b.hi)
  }

  /**
   * The degenerate-range fallback of `sampleLDR`: coinciding bounds are
   * replaced by a range of up to `LDR_SPREAD` either side of `raw`, cut off
   * at the ends of the ADC scale; distinct bounds are kept.
   */
  function Spread(b: Bounds, raw: Adc): (r: Bounds)
    ensures b.lo != b.hi ==> r == b
    ensures b.lo == b.hi ==> 0 <= r.lo <= raw <= r.hi <= ADC_MAX && r.lo < r.hi
    ensures b.lo == b.hi ==> (r.lo == 0 || r.lo == raw - LDR_SPREAD) && (r.hi == ADC_MAX || r.hi == raw + LDR_SPREAD)
    ensures b.lo == b.hi ==> raw - r.lo <= LDR_SPREAD && r.hi - raw <= LDR_SPREAD
  {
    if b.lo == b.hi then Bounds(Max(0, raw - LDR_SPREAD), Min(ADC_MAX, raw + LDR_SPREAD))
    else b
  }

  /**
   * The bounds after one light sample: tracked while calibrating, then
   * spread if they coincide. The result never coincides; inside the window
   * it never narrows and contains the sample; outside the window distinct
   * bounds are frozen.
   */
  function CalibrateStep(b: Bounds, calibrating: bool, raw: Adc): (r: Bounds)
    ensures r.lo != r.hi
    ensures IsAdc(b.lo) && IsAdc(b.hi) ==> IsAdc(r.lo) && IsAdc(r.hi)
    ensures calibrating ==> r.lo <= b.lo && r.hi >= b.hi && r.lo <= raw <= r.hi
    ensures !calibrating && b.lo != b.hi ==> r == b
  {
    Spread(if calibrating then Track(b, raw) else b, raw)
  }

  /**
   * The light conversion of `sampleLDR`: the raw reading mapped from the
   * calibrated range onto 0..100 %. Bounds in ascending order read the
   * minimum as 0 % and the maximum as 100 %; inverted bounds invert the scale.
   */
  function LightPercent(b: Bounds, raw: Adc): (pct: Int32)
    requires Utils.BiSafe(b.lo, b.hi, 0, 100)
    ensures b.lo == b.hi ==> pct == 0
    ensures b.lo != b.hi ==> 0 <= pct <= 100
    ensures b.lo < b.hi ==> (raw <= b.lo ==> pct == 0) && (raw >= b.hi ==> pct == 100)
    ensures b.hi < b.lo ==> (raw >= b.lo ==> pct == 0) && (raw <= b.hi ==> pct == 100)
  {
    var pct := Utils.MapConstrainBi(raw, b.lo, b.hi, 0, 100);
    assert b.lo < b.hi && raw <= b.lo ==> pct == 0 by {
      if b.lo < b.hi && raw <= b.lo { Utils.MapConstrainBiEnds(raw, b.lo, b.hi, 0, 100); }
    }
    assert b.lo < b.hi && raw >= b.hi ==> pct == 100 by {
      if b.lo < b.hi && raw >= b.hi { Utils.MapConstrainBiEnds(raw, b.lo, b.hi, 0, 100); }
    }
    assert b.hi < b.lo && raw >= b.lo ==> pct == 0 by {
      if b.hi < b.lo && raw >= b.lo { Utils.MapConstrainBiEnds(raw, b.lo, b.hi, 0, 100); }
    }
    assert b.hi < b.lo && raw <= b.hi ==> pct == 100 by {
      if b.hi < b.lo && raw <= b.hi { Utils.MapConstrainBiEnds(raw, b.lo, b.hi, 0, 100); }
    }
    pct
  }

  /** Bounds inside the ADC range never overflow the light mapping. */
  lemma AdcBoundsSafe(b: Bounds)
    requires IsAdc(b.lo) && IsAdc(b.hi)
    ensures Utils.BiSafe(b.lo, b.hi, 0, 100)
  {
  }

  /**
   * Every light sample, inside the calibration window or after it, stores a
   * percentage in 0..100: the step leaves distinct ADC bounds, so the
   * sentinel -1 is never written back once sampling has begun.
   */
  lemma SampledLightInRange(b: Bounds, calibrating: bool, raw: Adc)
    requires IsAdc(b.lo) && IsAdc(b.hi)
    ensures Utils.BiSafe(CalibrateStep(b, calibrating, raw).lo, CalibrateStep(b, calibrating, raw).hi, 0, 100)
    ensures 0 <= LightPercent(CalibrateStep(b, calibrating, raw), raw) <= 100
  {
    AdcBoundsSafe(CalibrateStep(b, calibrating, raw));
  }

  /** With ascending bounds a brighter raw reading never gives a lower percentage. */
  lemma LightPercentMonotone(b: Bounds, raw1: Adc, raw2: Adc)
    requires b.lo < b.hi && Utils.BiSafe(b.lo, b.hi, 0, 100)
    requires raw1 <= raw2
    ensures LightPercent(b, raw1) <= LightPercent(b, raw2)
  {
    Utils.MapConstrainBiMonotone(raw1, raw2, b.lo, b.hi, 0, 100);
  }

  /**
   * The bounds after a run of samples that all fall inside the calibration
   * window, one `sampleLDR` step per sample. They only widen, stay ADC values,
   * and no longer coincide once a sample has been taken.
   */
  function CalibrateAll(b: Bounds, samples: seq<Adc>): (r: Bounds)
    ensures r.lo <= b.lo && r.hi >= b.hi
    ensures IsAdc(b.lo) && IsAdc(b.hi) ==> IsAdc(r.lo) && IsAdc(r.hi)
    ensures samples != [] ==> r.lo != r.hi
    decreases |samples|
  {
    if samples == [] then b
    else CalibrateAll(CalibrateStep(b, true, samples[0]), samples[1..])
  }

  /** Every sample taken inside the window lies within the resulting bounds. */
  lemma {:induction false} CalibrateAllCovers(b: Bounds, samples: seq<Adc>)
    ensures forall i :: 0 <= i < |samples| ==>
      CalibrateAll(b, samples).lo <= samples[i] <= CalibrateAll(b, samples).hi
    decreases |samples|
  {
    if samples != [] {
      var b' := CalibrateStep(b, true, samples[0]);
      CalibrateAllCovers(b', samples[1..]);
      forall i | 0 <= i < |samples|
        ensures CalibrateAll(b, samples).lo <= samples[i] <= CalibrateAll(b, samples).hi
      {
        if i > 0 {
          assert samples[i] == samples[1..][i - 1];
        }
      }
    }
  }

  /**
   * Samples 800, 1200 and 600 inside the window give bounds [600, 1200]; the
   * first sample alone is spread to [750, 850] on the way.
   */
  lemma CalibrationExample()
    ensures CalibrateStep(INITIAL_BOUNDS, true, 800) == Bounds(750, 850)
    ensures CalibrateAll(INITIAL_BOUNDS, [800, 1200, 600]) == Bounds(600, 1200)
  {
    assert [800, 1200, 600][1..] == [1200, 600];
    assert [1200, 600][1..] == [600];
    assert [600][1..] == [];
  }

  /**
   * The bounds are not the extremes of the samples: the spread around the
   * first sample persists while later samples stay inside it.
   */
  lemma CalibrationKeepsSpread()
    ensures CalibrateAll(INITIAL_BOUNDS, [800, 810]) == Bounds(750, 850)
  {
    assert [800, 810][1..] == [810];
    assert [810][1..] == [];
  }

  /**
   * From the initial bounds the first in-window sample replaces both bounds:
   * tracking collapses them onto the sample, and the spread fallback widens
   * them to 50 counts either side, clipped to the ADC range.
   */
  lemma FirstSampleSetsBounds(raw: Adc)
    ensures Track(INITIAL_BOUNDS, raw) == Bounds(raw, raw)
    ensures CalibrateStep(INITIAL_BOUNDS, true, raw) == Bounds(Max(0, raw - LDR_SPREAD), Min(ADC_MAX, raw + LDR_SPREAD))
  {
  }

  /** A single light sample of 500 at boot gives bounds [450, 550] and 50 %. */
  lemma SingleSampleExample()
    ensures CalibrateStep(INITIAL_BOUNDS, true, 500) == Bounds(450, 550)
    ensures LightPercent(Bounds(450, 550), 500) == 50
  {
    Utils.MapConstrainUnfold(500, 450, 550, 0, 100);
    TruncDivNonNeg(5000, 100);
  }

  /**
   * A first light sample that arrives after the window has closed leaves
   * the initial bounds (4095, 0) in place, and the light scale is inverted:
   * darkness (raw 0) reads 100 %, full brightness (raw 4095) reads 0 %.
   */
  lemma LateFirstSampleInverts(raw: Adc)
    ensures CalibrateStep(INITIAL_BOUNDS, false, raw) == INITIAL_BOUNDS
    ensures LightPercent(INITIAL_BOUNDS, 0) == 100
    ensures LightPercent(INITIAL_BOUNDS, ADC_MAX) == 0
  {
  }

  // ---------------------------------------------------------------------------
  // The Sensors object
  // ---------------------------------------------------------------------------

  /**
   * A snapshot agrees with the calibration bounds: either nothing has been
   * sampled yet, or the percentages are the conversions of the raw readings.
   */
  ghost predicate Consistent(r: Readings, b: Bounds) {
    (r.soilRaw == -1 && r.soilPct == -1 && r.ldrRaw == -1 && r.lightPct == -1) ||
    (IsAdc(r.soilRaw) && r.soilPct == SoilPercent(r.soilRaw) &&
     IsAdc(r.ldrRaw) && IsAdc(b.lo) && IsAdc(b.hi) &&
     r.lightPct == LightPercent(b, r.ldrRaw))
  }

  /** class `Sensors`. */
  class Sensors {
    var cur: Readings
    var bootMs: Uint32
    var ldrMin: Int32
    var ldrMax: Int32
    const sampleTick: Utils.Ticker

    /**
     * The ticker keeps the configured period; the bounds are ADC values
     * that never coincide; the snapshot agrees with the bounds.
     */
    ghost predicate Valid()
      reads this, sampleTick
    {
      sampleTick.period == SENSOR_SAMPLE_MS &&
      IsAdc(ldrMin) && IsAdc(ldrMax) && ldrMin != ldrMax &&
      Consistent(cur, Bounds(ldrMin, ldrMax))
    }

    /**
     * What the display and the log rely on: each percentage is either its
     * sentinel -1 or lies in 0..100.
     */
    lemma PercentagesInRange()
      requires Valid()
      ensures cur.soilPct == -1 || 0 <= cur.soilPct <= 100
      ensures cur.lightPct == -1 || 0 <= cur.lightPct <= 100
    {
    }

    constructor ()
      ensures Valid() && fresh(sampleTick)
      ensures cur == DEFAULT_READINGS && bootMs == 0
      ensures Bounds(ldrMin, ldrMax) == INITIAL_BOUNDS
      ensures sampleTick.last == 0
    {
      cur := DEFAULT_READINGS;
      bootMs := 0;
      ldrMin := INITIAL_BOUNDS.lo;
      ldrMax := INITIAL_BOUNDS.hi;
      sampleTick := new Utils.Ticker(SENSOR_SAMPLE_MS);
    }

    /** `begin()`: records the boot time; the hardware set-up is not modelled. */
    method Begin(nowMs: Uint32)
      requires Valid()
      modifies this
      ensures Valid() && bootMs == nowMs
      ensures cur == old(cur) && ldrMin == old(ldrMin) && ldrMax == old(ldrMax)
    {
      bootMs := nowMs;
    }

    /** `current()`: the latest snapshot. */
    method Current() returns (r: Readings)
      ensures r == cur
    {
      r := cur;
    }

    /** `calibrating(nowMs)`: whether the light calibration window is still open. */
    method Calibrating(nowMs: Uint32) returns (b: bool)
      ensures b == InWindow(bootMs, nowMs)
    {
      b := InWindow(bootMs, nowMs);
    }

    /** `ldrMin()`: the current lower light bound. */
    method LdrMin() returns (v: Int32)
      ensures v == ldrMin
    {
      v := ldrMin;
    }

    /** `ldrMax()`: the current upper light bound. */
    method LdrMax() returns (v: Int32)
      ensures v == ldrMax
    {
      v := ldrMax;
    }

    /**
     * `update(nowMs)`: when the sampling ticker is not due nothing changes;
     * when it is, every field of the snapshot is overwritten from this
     * cycle's readings and the bounds take one calibration step.
     */
    method Update(nowMs: Uint32, rawSoil: Adc, rawLdr: Adc, temp: Option<real>, hum: Option<real>)
      requires Valid()
      modifies this, sampleTick
      ensures Valid() && bootMs == old(bootMs)
      ensures !Utils.Fires(old(sampleTick.period), old(sampleTick.last), nowMs) ==>
        cur == old(cur) && ldrMin == old(ldrMin) && ldrMax == old(ldrMax) &&
        sampleTick.last == old(sampleTick.last)
      ensures Utils.Fires(old(sampleTick.period), old(sampleTick.last), nowMs) ==>
        sampleTick.last == nowMs &&
        Bounds(ldrMin, ldrMax) == CalibrateStep(old(Bounds(ldrMin, ldrMax)), InWindow(bootMs, nowMs), rawLdr) &&
        cur == Readings(temp, hum, SoilPercent(rawSoil), LightPercent(Bounds(ldrMin, ldrMax), rawLdr), rawSoil, rawLdr)
    {
      var due := sampleTick.Due(nowMs);
      if !due {
        return;
      }
      SampleDht(temp, hum);
      SampleSoil(rawSoil);
      SampleLdr(nowMs, rawLdr);
    }

    /** `sampleDHT()`: stores this cycle's temperature and humidity, valid or not. */
    method SampleDht(temp: Option<real>, hum: Option<real>)
      modifies this
      ensures cur == old(cur).(tempC := temp, humidity := hum)
      ensures bootMs == old(bootMs) && ldrMin == old(ldrMin) && ldrMax == old(ldrMax)
    {
      cur := cur.(tempC := temp);
      cur := cur.(humidity := hum);
    }

    /** `sampleSoil()`: stores the raw soil reading and its moisture percentage. */
    method SampleSoil(raw: Adc)
      modifies this
      ensures cur == old(cur).(soilRaw := raw, soilPct := SoilPercent(raw))
      ensures bootMs == old(bootMs) && ldrMin == old(ldrMin) && ldrMax == old(ldrMax)
    {
      cur := cur.(soilRaw := raw);
      cur := cur.(soilPct := SoilPercent(cur.soilRaw));
    }

    /**
     * `sampleLDR(nowMs)`: stores the raw light reading, updates the bounds
     * (tracking inside the window, then the spread fallback) and stores the
     * light percentage against the new bounds.
     */
    method SampleLdr(nowMs: Uint32, raw: Adc)
      requires IsAdc(ldrMin) && IsAdc(ldrMax)
      modifies this
      ensures Bounds(ldrMin, ldrMax) == CalibrateStep(old(Bounds(ldrMin, ldrMax)), InWindow(bootMs, nowMs), raw)
      ensures IsAdc(ldrMin) && IsAdc(ldrMax)
      ensures cur == old(cur).(ldrRaw := raw, lightPct := LightPercent(Bounds(ldrMin, ldrMax), raw))
      ensures bootMs == old(bootMs)
    {
      ghost var before := Bounds(ldrMin, ldrMax);
      cur := cur.(ldrRaw := raw);
      var calibrating := Calibrating(nowMs);
      if calibrating {
        if cur.ldrRaw < ldrMin { ldrMin := cur.ldrRaw; }
        if cur.ldrRaw > ldrMax { ldrMax := cur.ldrRaw; }
      }
      ghost var tracked := Bounds(ldrMin, ldrMax);
      assert tracked == if calibrating then Track(before, raw) else before;
      if ldrMin == ldrMax {
        ldrMin := Max(0, raw - LDR_SPREAD);
        ldrMax := Min(ADC_MAX, raw + LDR_SPREAD);
      }
      assert Bounds(ldrMin, ldrMax) == Spread(tracked, raw);
      AdcBoundsSafe(Bounds(ldrMin, ldrMax));
      cur := cur.(lightPct := LightPercent(Bounds(ldrMin, ldrMax), raw));
    }
  }

  // ---------------------------------------------------------------------------
  // Scenarios
  // ---------------------------------------------------------------------------

  /**
   * Boot at 0 ms: an update at 999 ms is not due and the snapshot is still
   * the default one; the update at 1000 ms fills every field, with soil
   * 2100 reading 50 % and a first light sample of 500 reading 50 %.
   */
  method FirstSampleScenario(temp: Option<real>, hum: Option<real>) returns (before: Readings, after: Readings)
    ensures before == DEFAULT_READINGS
    ensures after == Readings(temp, hum, 50, 50, 2100, 500)
  {
    var s := new Sensors();
    s.Begin(0);
    s.Update(999, 2100, 500, temp, hum);
    before := s.Current();
    s.Update(1000, 2100, 500, temp, hum);
    after := s.Current();
    SoilPercentAtMidpoint();
    SingleSampleExample();
  }

  /**
   * Light samples 800, 1200 and 600 at 1, 2 and 3 s give bounds [600, 1200];
   * a sample of 100 at 20 s, after the window, leaves them frozen and reads 0 %.
   */
  method CalibrationScenario() returns (lo: Int32, hi: Int32, late: Readings)
    ensures lo == 600 && hi == 1200
    ensures late.lightPct == 0 && late.ldrRaw == 100
  {
    var s := new Sensors();
    s.Begin(0);
    s.Update(1000, 2000, 800, None, None);
    s.Update(2000, 2000, 1200, None, None);
    s.Update(3000, 2000, 600, None, None);
    s.Update(20000, 2000, 100, None, None);
    lo := s.LdrMin();
    hi := s.LdrMax();
    late := s.Current();
  }
}
