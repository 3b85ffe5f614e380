/**
 * The 16-bit view of JavaScript integers that the sensor-byte packing works
 * on, kept apart from the codec so that its conversion facts are proved in
 * a small context.
 */
module Bits {
  /**
   * The low 16 bits of JavaScript's ToInt32 of an integer. The masks of
   * `compileAccelerationData` keep only bits 0-9 of each operand. A right
   * shift by at most 4 gives the same bits 0-11 whether it shifts in zeros
   * (bv16) or the higher bits of the 32-bit value (JavaScript's `>>`), and
   * after masking with 0x3f or 0x0f only bits 0-5 remain, so these 16 bits
   * determine each sensor byte exactly.
   */
  function Low16(n: int): bv16 {
    (n % 0x1_0000) as bv16
  }

  /** A 6-bit value keeps its value in the 16-bit view. */
  lemma SmallLow16(n: int)
    requires 0 <= n < 64
    ensures Low16(n) < 64 && Low16(n) as int == n
  {
    assert n % 0x1_0000 == n;
    SixBitsAsBv16(n);
    Bv16Below(Low16(n));
  }

  lemma SixBitsAsBv16(n: int)
    requires 0 <= n < 64
    ensures (n as bv16) as int == n
  {
  }

  lemma Bv16Below(v: bv16)
    requires v as int < 64
    ensures v < 64
  {
  }
}
