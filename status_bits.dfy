/**
  The integer step of `CalcRH` and `CalcT`: the two least significant bits of
  a raw measurement are status flags and are cleared before conversion. In
  the source the `uint16_t` is promoted to `int`, ANDed with `~0x0003` and
  assigned back. The model writes the promotion out at 32 bits; the result
  is the same at 16 bits (`MaskSameAt16Bits`), so the width of `int` on the
  board does not matter.
  Comparisons and arithmetic on `bv16` are unsigned 16-bit arithmetic.
  The floating-point conversions themselves are not modelled; `IdealHumidity`
  and `IdealTemperature` give the datasheet formulas over `real`.
 */
module StatusBits {

  /**
    `raw &= ~0x0003` on a promoted `uint16_t`, truncated back to 16 bits: the
    two status bits become 0 and the fourteen measurement bits are kept.
   */
  function MaskStatusBits(raw: bv16): (r: bv16)
    ensures r & 3 == 0
    ensures r >> 2 == raw >> 2
  {
    PromotedMaskFits(raw);
    WideningRoundTrip(raw & 0xFFFC);
    ((raw as bv32 & !(0x0003 as bv32)) & 0xFFFF) as bv16
  }

  /**
    On a board with 16-bit `int`, `~0x0003` is 0xFFFC and the AND happens in
    16 bits; the result is the same as with the 32-bit promotion.
   */
  lemma MaskSameAt16Bits(raw: bv16)
    ensures MaskStatusBits(raw) == raw & !(0x0003 as bv16)
  {
  }

  lemma PromotedMaskFits(raw: bv16)
    ensures (raw as bv32 & !(0x0003 as bv32)) & 0xFFFF == (raw & 0xFFFC) as bv32
  {
  }

  lemma WideningRoundTrip(w: bv16)
    ensures (w as bv32) as bv16 == w
  {
  }

  /**
    As unsigned 16-bit arithmetic, the masked value is the largest multiple
    of 4 not above the raw value: a multiple of 4, at most the raw value, and
    below it by at most 3.
   */
  lemma MaskArithmetic(raw: bv16)
    ensures MaskStatusBits(raw) % 4 == 0
    ensures MaskStatusBits(raw) <= raw
    ensures raw - MaskStatusBits(raw) <= 3
  {
  }

  /** Masking twice is masking once. */
  lemma MaskIdempotent(raw: bv16)
    ensures MaskStatusBits(MaskStatusBits(raw)) == MaskStatusBits(raw)
  {
  }

  /**
    Two raw values mask to the same value exactly when they differ only in
    their two status bits.
   */
  lemma MaskIgnoresStatusBits(a: bv16, b: bv16)
    ensures MaskStatusBits(a) == MaskStatusBits(b) <==> a >> 2 == b >> 2
  {
  }

  /** Relative humidity in %RH by the datasheet formula -6 + 125 * S / 2^16 on the masked code. */
  function IdealHumidity(raw: bv16): (rh: real)
    ensures -6.0 <= rh < 119.0
  {
    -6.0 + 125.0 * (MaskStatusBits(raw) as int as real) / 65536.0
  }

  /** Temperature in degrees C by the datasheet formula -46.85 + 175.72 * S / 2^16 on the masked code. */
  function IdealTemperature(raw: bv16): (t: real)
    ensures -46.85 <= t < 128.87
  {
    -46.85 + 175.72 * (MaskStatusBits(raw) as int as real) / 65536.0
  }

  /** The status bits do not influence either physical value. */
  lemma IdealValuesIgnoreStatusBits(a: bv16, b: bv16)
    requires a >> 2 == b >> 2
    ensures IdealHumidity(a) == IdealHumidity(b)
    ensures IdealTemperature(a) == IdealTemperature(b)
  {
    MaskIgnoresStatusBits(a, b);
  }

  /** The end points of the two formulas. */
  lemma IdealValueEndPoints()
    ensures IdealHumidity(0) == -6.0 && IdealTemperature(0) == -46.85
    ensures IdealTemperature(0xFFFF) == -46.85 + 175.72 * 65532.0 / 65536.0
    ensures IdealHumidity(0xFFFF) == -6.0 + 125.0 * 65532.0 / 65536.0
  {
    assert MaskStatusBits(0) == 0;
    assert MaskStatusBits(0xFFFF) == 0xFFFC;
  }
}
