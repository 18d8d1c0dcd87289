# Smartarium sensor core in Dafny

A model of the sensor acquisition and calibration core of the Smartarium
terrarium firmware (an ESP32 Arduino program), with proofs of its
properties. The model covers four parts:

- **Range mapper** (`Utils::mapConstrain` and `Utils::mapConstrainBi`). It
  clamps an input to its range and interpolates it linearly onto an output
  range. Inverted ranges are supported, and the arithmetic is 32-bit C++
  `long` with division truncating toward zero.
- **Interval timer** (`Utils::Ticker`). It fires once at least `period` ms
  have gone by since it last fired. Elapsed time is measured by `uint32_t`
  subtraction, which wraps.
- **Readings snapshot** (`Readings`). Each field starts at a sentinel value.
- **`Sensors` object.** On every tick of its 1000 ms sampling timer it
  samples three sensors:
  - the DHT22 temperature and humidity;
  - the capacitive soil sensor, which it converts to a moisture percentage
    from two fixed calibration points;
  - the light sensor (LDR), which calibrates itself. During the first
    10 000 ms after boot it widens its bounds to the readings it sees. It
    invents a ±50 count range when the two bounds coincide, then maps the
    reading onto 0..100 %.

Files:

- `machine.dfy`, module `Machine`: the target's integer semantics.
  - `Int32` and `Uint32`.
  - `Sub32`, `uint32_t` subtraction modulo 2^32.
  - `TruncDiv`, C++ division, which truncates toward zero. Dafny's own `/`
    is Euclidean.
  - The arithmetic lemmas the mapper needs.
- `config.dfy`, module `Config`: the constants of `Config.h`.
- `utils.dfy`, module `Utils`: `MapConstrain`, `MapConstrainBi` and their
  lemmas; the `Ticker` class and its firing predicate `Fires`.
- `sensors.dfy`, module `Sensors`: the `Readings` datatype, the calibration
  specification functions (`Track`, `Spread`, `CalibrateStep`,
  `CalibrateAll`), the conversions (`SoilPercent`, `LightPercent`), and the
  `Sensors` class.
  - The class's invariant `Valid()` holds three promises:
    - the ticker keeps the 1000 ms period;
    - the light bounds are ADC values that never coincide;
    - the snapshot either still holds its sentinels or agrees with the
      conversions of its raw readings.
  - Each sampler is an imperative method proved against the specification
    functions.

Hardware inputs are parameters:

- `millis()` is `nowMs`;
- the two `analogRead` calls are `rawSoil` and `rawLdr`, in 0..4095;
- the DHT22 library's temperature and humidity are opaque `Option<real>`
  values, where `None` stands for the library's NAN.

## Model

| member | source | states |
|---|---|---|
| Machine.Sub32 | src/Utils.h:78 | `uint32_t` subtraction: adding the subtrahend back modulo 2^32 returns the minuend; without wrap it is the plain difference, with wrap it is the difference plus 2^32 |
| Machine.TruncDiv | src/Utils.cpp:26 | C++ signed `/`: the quotient is non-negative when dividend and divisor have the same sign and non-positive when they differ |
| Machine.TruncDivRemainder | src/Utils.cpp:26 | the modelled `/` is C++'s: the remainder is smaller than the divisor in magnitude and has the dividend's sign (or is zero) |
| Utils.Constrain | src/Utils.cpp:22 | Arduino's `constrain(x, lo, hi)`: the result lies in `[lo, hi]`; a value below the range gives `lo`, a value above it gives `hi`, and a value inside is returned unchanged |
| Utils.MapConstrain | src/Utils.cpp:17-29 | equal input bounds give `out_min`; otherwise the result lies between `out_min` and `out_max` in either order; under the 32-bit no-overflow condition every intermediate fits an `int`/`long` |
| Utils.MapConstrainEndpoints | src/Utils.cpp:22-26 | `in_min` maps exactly to `out_min` and `in_max` exactly to `out_max` |
| Utils.MapConstrainClamps | src/Utils.cpp:22 | an input below the smaller input bound maps like that bound; an input above the larger bound maps like that bound |
| Utils.MapConstrainMonotone | src/Utils.cpp:22-26 | over an ascending input range the result is non-decreasing in `x` when `out_min <= out_max` and non-increasing when `out_min >= out_max` |
| Utils.MapConstrainTruncates | src/Utils.cpp:26 | mapping 1201 from [1200, 3000] onto 100..0 gives 100 with truncating division, while floor/Euclidean division of the same expression would give 99 |
| Utils.MapConstrainBi | src/Utils.cpp:40-52 | equal bounds give `outMin`; otherwise the result lies between `outMin` and `outMax` |
| Utils.MapConstrainBiDirect | src/Utils.cpp:45-47 | for `inA < inB` the call is `mapConstrain(x, inA, inB, outMin, outMax)` |
| Utils.MapConstrainBiSymmetric | src/Utils.cpp:45-50 | exchanging the input bounds together with the output bounds does not change the result |
| Utils.MapConstrainBiEnds | src/Utils.cpp:40-52 | in either orientation, `inA` and everything beyond it gives `outMin`, and `inB` and everything beyond it gives `outMax` |
| Utils.MapConstrainBiMonotone | src/Utils.cpp:40-52 | the result moves monotonically with `x`, upward when input and output run the same way and downward when they run opposite ways |
| Utils.Fires | src/Utils.h:78 | the firing test `now - last >= period` on `uint32_t` holds exactly when `(now - last) mod 2^32 >= period` |
| Utils.Ticker.constructor | src/Utils.h:64 | a new ticker has the given period (1000 ms when none is given) and `last == 0` |
| Utils.Ticker.Set | src/Utils.h:70 | `set(ms)` replaces the period and leaves `last` untouched |
| Utils.Ticker.Due | src/Utils.h:77-83 | `due(now)` returns true exactly when `(now - last) mod 2^32 >= period`; on true `last` becomes `now`, on false it is kept; the period never changes |
| Utils.NoRefireAtSameInstant | src/Utils.h:78-79 | with a positive period, a ticker that has just fired at `now` does not fire again at the same `now` |
| Utils.FirstFiring | src/Utils.h:78-87 | from `last == 0` the first call fires if and only if `now >= period` |
| Utils.FiresAcrossWrap | src/Utils.h:78 | with `last = 2^32 - 500` and period 1000, `now = 600` fires and `now = 400` does not; a comparison without wrap-around would miss the first |
| Utils.TickerTrace | src/Utils.h:64-83 | a 1000 ms ticker queried at 0, 999, 1000, 1999 and 2000 ms fires at 1000 and 2000 only |
| Sensors.InWindow | src/Sensors.h:68 | the calibration test `nowMs - bootMs_ < LDR_CALIBRATION_MS` on `uint32_t` holds exactly when `(nowMs - bootMs) mod 2^32 < 10000` |
| Sensors.InWindowNoWrap | src/Sensors.h:67-69 | while the clock has not wrapped since boot, `calibrating(now)` holds exactly when `now < bootMs + 10000` |
| Sensors.SoilPercent | src/Sensors.cpp:77 | the moisture lies in 0..100; the water reading 1200 (`SOIL_RAW_WATER`) and anything below gives 100, the dry-air reading 3000 (`SOIL_RAW_AIR`) and anything above gives 0 |
| Sensors.SoilPercentMonotone | src/Sensors.cpp:77 | a drier (higher) raw reading never gives a higher moisture |
| Sensors.SoilPercentAtMidpoint | src/Sensors.cpp:77 | raw 2100, halfway between water and air, gives 50 % |
| Sensors.SoilPercentAboveWater | src/Utils.cpp:26 | raw 1201 still reads 100 %, because the quotient truncates toward zero |
| Sensors.Track | src/Sensors.cpp:91-95 | the tracking step never raises the minimum or lowers the maximum, leaves the raw reading inside the bounds, and sets each bound either to its old value or to the reading |
| Sensors.Spread | src/Sensors.cpp:97-102 | distinct bounds are left alone; coinciding bounds become a range of at most 50 counts either side of the reading, clipped to 0..4095, that contains the reading and is not empty |
| Sensors.CalibrateStep | src/Sensors.cpp:90-102 | after a step the bounds never coincide and stay ADC values; inside the window they only widen and contain the reading; outside it, distinct bounds are kept unchanged |
| Sensors.LightPercent | src/Sensors.cpp:105 | with distinct bounds the light level lies in 0..100; ascending bounds read the minimum and below as 0 % and the maximum and above as 100 %; inverted bounds read the other way round |
| Sensors.SampledLightInRange | src/Sensors.cpp:87-105 | every light sample, inside the calibration window or after it, stores a percentage in 0..100, never the -1 sentinel |
| Sensors.LightPercentMonotone | src/Sensors.cpp:105 | with ascending bounds a higher raw reading never gives a lower light level |
| Sensors.CalibrateAll | src/Sensors.cpp:90-102 | a run of in-window `sampleLDR` steps only widens the bounds and keeps them ADC values, and after at least one sample the bounds do not coincide |
| Sensors.CalibrateAllCovers | src/Sensors.cpp:90-102 | after a run of in-window samples every sample lies within the resulting bounds |
| Sensors.CalibrationExample | src/Sensors.cpp:93-102 | from (4095, 0) the samples 800, 1200, 600 give bounds [600, 1200]; the first sample alone gives [750, 850] |
| Sensors.CalibrationKeepsSpread | src/Sensors.cpp:93-102 | from (4095, 0) the samples 800, 810 give [750, 850], not the extremes [800, 810] |
| Sensors.FirstSampleSetsBounds | src/Sensors.h:86-87 | from the initial bounds the first in-window sample collapses both bounds onto the reading, then spreads them to `[max(0, raw-50), min(4095, raw+50)]` |
| Sensors.SingleSampleExample | src/Sensors.cpp:93-105 | a single sample of 500 at boot gives bounds [450, 550] and 50 % |
| Sensors.LateFirstSampleInverts | src/Sensors.cpp:91-105 | outside the window the initial bounds (4095, 0) stay in place, and then raw 0 reads 100 % and raw 4095 reads 0 % |
| Sensors.Sensors.PercentagesInRange | src/Sensors.h:28-29 | in every reachable state each of `soilPct` and `lightPct` is either the sentinel -1 or a percentage in 0..100 |
| Sensors.Sensors.constructor | src/Sensors.h:84-88 | a new object has the all-sentinel snapshot of `Readings` (-1 integers, `None` for the DHT values), `bootMs == 0`, bounds (4095, 0), and a fresh 1000 ms ticker with `last == 0` |
| Sensors.Sensors.Begin | src/Sensors.cpp:20-21 | `begin()` records the boot time and changes nothing else |
| Sensors.Sensors.Current | src/Sensors.h:60 | `current()` returns the stored snapshot and changes no state |
| Sensors.Sensors.Calibrating | src/Sensors.h:67-69 | `calibrating(now)` holds exactly when `(now - bootMs) mod 2^32 < 10000`, and changes no state |
| Sensors.Sensors.LdrMin | src/Sensors.h:75 | `ldrMin()` returns the stored lower bound and changes no state |
| Sensors.Sensors.LdrMax | src/Sensors.h:81 | `ldrMax()` returns the stored upper bound and changes no state |
| Sensors.Sensors.Update | src/Sensors.cpp:42-50 | when the ticker is not due, the snapshot, bounds and ticker are unchanged; when it is due, every field of the snapshot is overwritten from this cycle's readings and the bounds take one calibration step; the invariant is kept |
| Sensors.Sensors.SampleDht | src/Sensors.cpp:59-62 | temperature and humidity are overwritten, valid or not, and nothing else changes |
| Sensors.Sensors.SampleSoil | src/Sensors.cpp:71-78 | the raw soil reading and its moisture percentage are stored, and nothing else changes |
| Sensors.Sensors.SampleLdr | src/Sensors.cpp:87-106 | the raw light reading is stored; the bounds become one calibration step of the old bounds, in or out of the window; the light level is the mapping against the new bounds |
| Sensors.FirstSampleScenario | src/Sensors.cpp:42-50 | after boot at 0 ms, the update at 999 ms leaves the default snapshot; the update at 1000 ms with soil 2100 and light 500 gives 50 % and 50 % |
| Sensors.CalibrationScenario | src/Sensors.cpp:87-106 | light samples 800, 1200, 600 at 1, 2 and 3 s give bounds [600, 1200]; a sample of 100 at 20 s leaves them frozen and reads 0 % |

### Behaviour worth noting

- **A late first light sample inverts the scale.** The light sensor
  records its minimum and maximum only during the first 10 seconds (the
  comments at `src/Config.h:38-39` and `src/Sensors.cpp:84-85`). If no
  sample arrives in that window, the bounds keep their initial values
  (4095, 0). The minimum then exceeds the maximum, and `mapConstrainBi`
  reads the light scale inverted: darkness gives 100 %. See
  `Sensors.LateFirstSampleInverts`.
- **A light value of -1 never means "calibrating".** The field comment at
  `src/Sensors.h:29` reads -1 as "calibrating/error". In the code,
  `sampleLDR` writes a value in 0..100 on every sample, whether or not
  the window is open (`src/Sensors.cpp:105`). The -1 sentinel survives
  only until the first due update. See `Sensors.SampledLightInRange`.
- **The bounds are not exact extremes.** The ±50 spread produced by the
  first sample persists while later samples stay inside it. See
  `Sensors.CalibrationKeepsSpread`.
- **The window reopens after a clock wrap.** `calibrating` compares a
  wrap-around difference. About 49.7 days after boot the 10 000 ms window
  opens again, and the bounds resume widening. The model keeps the modular
  comparison, so `Calibrating` states exactly this behaviour.
- **No firing at time 0.** The ticker starts with `last == 0`, so a call
  at `now == 0` does not fire. The first sample is taken once `millis()`
  reaches 1000.

## Left out

- `src/Display.cpp`, `src/Display.h` and `src/main.cpp` are not part of
  this model. They hold TFT rendering, the `setup`/`loop` wiring and
  `Serial` logging, which are output and I/O only.
- `begin()`'s hardware set-up is not modelled: `dht.begin`,
  `analogReadResolution` and `analogSetPinAttenuation` configure
  peripherals. Only the recording of `bootMs_` is modelled.
- The DHT22 library is a foreign call returning floats or NAN. Its readings
  are opaque `Option<real>` parameters and no floating-point arithmetic is
  modelled.
- `Utils::fclamp` is left out. It is float comparison with NaN semantics,
  and the sensor core does not use it.
- `analogRead` and `millis()` are parameters. The ADC readings are assumed
  to lie in 0..4095, the 12-bit resolution that `begin()` configures.
- Pin numbers, `SERIAL_BAUD` and `SHOW_UPTIME_ON_TFT` carry no logic and
  are left out.
- Utils.MapConstrain and Utils.MapConstrainBi require that the input span,
  the output span and their product fit a 32-bit `long`. The C++ computes
  the product `(x - in_min) * (out_max - out_min)`, so whether it overflows
  depends on `x`. It can overflow only for inputs toward the far end of the
  input range, and some ranges that fail the condition still have inputs
  that map without overflow. The model excludes every call on a range for
  which some `x` would overflow. Every call the firmware makes, with spans
  of at most 4095 and 100, meets the condition.
