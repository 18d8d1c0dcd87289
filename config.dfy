/**
 * The configuration constants the acquisition core uses (`Config.h`).
 * Pin numbers, the serial baud rate and the display switch carry no logic
 * and are not reproduced.
 */
module Config {

  /** Raw soil ADC reading with the probe in dry air: 0 % moisture. */
  const SOIL_RAW_AIR: int := 3000

  /** Raw soil ADC reading with the probe submerged in water: 100 % moisture. */
  const SOIL_RAW_WATER: int := 1200

  /** Length of the light sensor's self-calibration window after boot, in ms. */
  const LDR_CALIBRATION_MS: int := 10000

  /** Sensor sampling period, in ms. */
  const SENSOR_SAMPLE_MS: int := 1000
}
