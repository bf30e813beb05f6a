/** Fixed-point scale shared by both table implementations: fractions are
    expressed in 1/256 units, so 256 stands for 1.0. */
module FixedPoint {

  /** Number of fractional bits (`TABLE_SHIFT_FACTOR`). */
  const ShiftFactor: nat := 8

  /** `TABLE_SHIFT_POWER`, the value 1.0 in fixed point. */
  const ShiftPower: nat := 256

  /** The source defines the scale as `1 << TABLE_SHIFT_FACTOR`: eight
      doublings of one. */
  lemma ShiftPowerIsPow2()
    ensures ShiftPower == 1 * 2 * 2 * 2 * 2 * 2 * 2 * 2 * 2 && ShiftFactor == 8
  {
  }

  /** A logical right shift by `ShiftFactor` of a non-negative value: the
      floor of the value divided by the scale. */
  function Shr(v: nat): (r: nat)
    ensures r * ShiftPower <= v < (r + 1) * ShiftPower
  {
    v / ShiftPower
  }

  /** Shifting an exact multiple of the scale loses nothing. */
  lemma ShrExact(k: nat)
    ensures Shr(k * ShiftPower) == k
  {
  }
}
