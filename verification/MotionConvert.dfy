/**
 Physical units to the wire's int16, over the reals: gyro, acceleration and touch coordinates.
 */
module MotionConvert {
  const INT16_MIN := -32768
  const INT16_MAX := 32767

  const RAD_TO_DEG: real := 57.295779513
  const GYRO_INT16_PER_DEG_PER_SEC: real := 32767.0 / 2000.0
  const ACCEL_INT16_PER_G: real := 32767.0 / 4.0
  const GRAVITY_MPS2: real := 9.80665

  function Clamp(v: real, low: real, high: real): real {
    if v < low then low else if v > high then high else v
  }

  /** std::lround: to the nearest integer, halves away from zero. */
  function Lround(v: real): int {
    if v >= 0.0 then (v + 0.5).Floor else -((0.5 - v).Floor)
  }

  function ClampInt16(v: real): int {
    Lround(Clamp(v, -32768.0, 32767.0))
  }

  function GyroToInt16(radPerSec: real): int {
    ClampInt16(radPerSec * RAD_TO_DEG * GYRO_INT16_PER_DEG_PER_SEC)
  }

  function AccelToInt16(mps2: real): int {
    ClampInt16(mps2 / GRAVITY_MPS2 * ACCEL_INT16_PER_G)
  }

  function TouchToInt16(v: real): int {
    ClampInt16(Clamp(v, 0.0, 1.0) * 65535.0 - 32768.0)
  }

  // ----- the clamp and the rounding -----

  lemma LroundIsMonotone(a: real, b: real)
    requires a <= b
    ensures Lround(a) <= Lround(b)
  {
  }

  /** The nearest int16: within half a step in range, the end it left by out of range. */
  lemma ClampInt16IsNearest(v: real)
    ensures INT16_MIN <= ClampInt16(v) <= INT16_MAX
    ensures -32768.0 <= v <= 32767.0 ==> -0.5 <= ClampInt16(v) as real - v <= 0.5
    ensures v <= -32768.0 ==> ClampInt16(v) == INT16_MIN
    ensures v >= 32767.0 ==> ClampInt16(v) == INT16_MAX
    ensures -32768.0 <= v <= 32767.0 && v == v.Floor as real ==> ClampInt16(v) == v.Floor
  {
  }

  /** A half goes away from zero. */
  lemma HalvesGoOutward(k: int)
    requires 0 <= k < INT16_MAX
    ensures ClampInt16(k as real + 0.5) == k + 1
    ensures ClampInt16(-(k as real) - 0.5) == -k - 1
  {
    assert (k as real + 0.5 + 0.5).Floor == k + 1;
  }

  lemma ClampInt16IsMonotone(a: real, b: real)
    requires a <= b
    ensures ClampInt16(a) <= ClampInt16(b)
  {
    LroundIsMonotone(Clamp(a, -32768.0, 32767.0), Clamp(b, -32768.0, 32767.0));
  }

  // ----- the three surfaces -----

  lemma ConversionsAreMonotone(a: real, b: real)
    requires a <= b
    ensures GyroToInt16(a) <= GyroToInt16(b)
    ensures AccelToInt16(a) <= AccelToInt16(b)
    ensures TouchToInt16(a) <= TouchToInt16(b)
  {
    ClampInt16IsMonotone(a * RAD_TO_DEG * GYRO_INT16_PER_DEG_PER_SEC, b * RAD_TO_DEG * GYRO_INT16_PER_DEG_PER_SEC);
    ClampInt16IsMonotone(a / GRAVITY_MPS2 * ACCEL_INT16_PER_G, b / GRAVITY_MPS2 * ACCEL_INT16_PER_G);
    ClampInt16IsMonotone(Clamp(a, 0.0, 1.0) * 65535.0 - 32768.0, Clamp(b, 0.0, 1.0) * 65535.0 - 32768.0);
  }

  /** What a wire value stands for: 2000/32767 of a degree a second, 4/32767 of standard gravity, and 1/65535 of the
      pad, to half a step. */
  lemma WireUnits(v: real)
    ensures var degrees := v * 57.295779513;
            -2000.0 <= degrees <= 2000.0 ==> -0.5 <= GyroToInt16(v) as real - degrees * 32767.0 / 2000.0 <= 0.5
    ensures var g := v / 9.80665;
            -4.0 <= g <= 4.0 ==> -0.5 <= AccelToInt16(v) as real - g * 32767.0 / 4.0 <= 0.5
    ensures 0.0 <= v <= 1.0 ==> -0.5 <= TouchToInt16(v) as real - (v * 65535.0 - 32768.0) <= 0.5
  {
    ClampInt16IsNearest(v * RAD_TO_DEG * GYRO_INT16_PER_DEG_PER_SEC);
    ClampInt16IsNearest(v / GRAVITY_MPS2 * ACCEL_INT16_PER_G);
    ClampInt16IsNearest(v * 65535.0 - 32768.0);
  }

  /** Half a turn is 180 degrees: a turn of pi radians a second, pi taken to fifteen digits, reads as 180. */
  lemma HalfATurn()
    ensures 179.999999 <= 3.14159265358979 * RAD_TO_DEG <= 180.000001
    ensures GyroToInt16(3.14159265358979) == 2949
  {
    ClampInt16IsNearest(3.14159265358979 * RAD_TO_DEG * GYRO_INT16_PER_DEG_PER_SEC);
  }

  /** Full scale is 2000 degrees a second, 4 g, and the pad's edges; beyond it all three saturate. */
  lemma FullScale(over: real)
    requires over >= 0.0
    ensures GyroToInt16(2000.0 / RAD_TO_DEG + over) == INT16_MAX
    ensures AccelToInt16(4.0 * GRAVITY_MPS2 + over) == INT16_MAX
    ensures TouchToInt16(0.0 - over) == INT16_MIN && TouchToInt16(1.0 + over) == INT16_MAX
  {
    var gyro := (2000.0 / RAD_TO_DEG + over) * RAD_TO_DEG * GYRO_INT16_PER_DEG_PER_SEC;
    assert gyro >= 32767.0;
    ClampInt16IsNearest(gyro);
    var accel := (4.0 * GRAVITY_MPS2 + over) / GRAVITY_MPS2 * ACCEL_INT16_PER_G;
    assert accel >= 32767.0;
    ClampInt16IsNearest(accel);
    ClampInt16IsNearest(-32768.0);
    ClampInt16IsNearest(32767.0);
  }

  /** Every wire value, taken back to physical units and converted again, is itself. */
  lemma WireValuesRoundTrip(n: int)
    requires INT16_MIN <= n <= INT16_MAX
    ensures GyroToInt16(n as real / GYRO_INT16_PER_DEG_PER_SEC / RAD_TO_DEG) == n
    ensures AccelToInt16(n as real / ACCEL_INT16_PER_G * GRAVITY_MPS2) == n
    ensures TouchToInt16((n as real + 32768.0) / 65535.0) == n
  {
    var x := n as real;
    assert x / GYRO_INT16_PER_DEG_PER_SEC / RAD_TO_DEG * RAD_TO_DEG * GYRO_INT16_PER_DEG_PER_SEC == x;
    assert x / ACCEL_INT16_PER_G * GRAVITY_MPS2 / GRAVITY_MPS2 * ACCEL_INT16_PER_G == x;
    assert Clamp((x + 32768.0) / 65535.0, 0.0, 1.0) * 65535.0 - 32768.0 == x;
    ClampInt16IsNearest(x);
  }

  /** Below the least wire value's own reading all three stay at it. */
  lemma SaturatesBelow(under: real)
    requires under >= 0.0
    ensures GyroToInt16(INT16_MIN as real / GYRO_INT16_PER_DEG_PER_SEC / RAD_TO_DEG - under) == INT16_MIN
    ensures AccelToInt16(INT16_MIN as real / ACCEL_INT16_PER_G * GRAVITY_MPS2 - under) == INT16_MIN
    ensures TouchToInt16(0.0 - under) == INT16_MIN
  {
    var gyro := INT16_MIN as real / GYRO_INT16_PER_DEG_PER_SEC / RAD_TO_DEG;
    var accel := INT16_MIN as real / ACCEL_INT16_PER_G * GRAVITY_MPS2;
    WireValuesRoundTrip(INT16_MIN);
    ConversionsAreMonotone(gyro - under, gyro);
    ConversionsAreMonotone(accel - under, accel);
    ConversionsAreMonotone(0.0 - under, 0.0);
  }
}
