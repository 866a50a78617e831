/**
 * The byte-wide copy of the pulse codec (src/pulse.rs). It repeats the
 * weight table, `compute_pulse`, `create_pulse` and `code_generic` of
 * src/dcf77/mod.rs on `u8` values; its `proof_parity` and
 * `compute_parity` are the same functions as there and are not repeated.
 * Each operation is proved to agree with its `u16` counterpart, so every
 * property proved there carries over.
 */
module PulseU8 {
  import opened Bits
  import opened Dcf77

  /** A `u8` used as a bit pattern. */
  type Word8 = w: Word | |w| == 8 witness Zero(8)

  /**
   * `compute_pulse` on a byte: the same sum as the `u16` version, and the
   * `u8` accumulator never overflows because the weights add up to 165.
   */
  method ComputePulse(input: Word8) returns (output: U8)
    ensures output == PulseValue(input)
  {
    output := 0;
    for index := 0 to 8
      invariant output == ReadSum(input, index)
    {
      var value := BitWeights[|BitWeights| - 1 - index];
      AndSingle(input, index);
      if !IsZero(And(input, Single(index, 8))) {
        output := output + value;
      }
    }
  }

  /**
   * `create_pulse` on a byte: the pattern is the one the `u16` version
   * builds, which never uses bits 8 to 15.
   */
  method CreatePulse(input: U8) returns (output: Word8)
    ensures Widen(output, 16) == PulseOf(input)
  {
    var aux: U8 := input;
    output := Zero(8);
    WidenZero(8, 16);
    for index := 0 to 8
      invariant aux == Greedy(input, index).0
      invariant Widen(output, 16) == Greedy(input, index).1
    {
      var value := BitWeights[|BitWeights| - 1 - index];
      if aux >= value {
        WidenOrSingle(output, |BitWeights| - 1 - index, 16);
        output := Or(output, Single(|BitWeights| - 1 - index, 8));
        aux := aux - value;
      }
    }
  }

  /**
   * `code_generic` on a byte. It adds `parityMask` whenever the placed data
   * is odd, without first asking whether the mask is non-zero; since
   * adding a zero mask changes nothing, the result is always the one the
   * `u16` version returns.
   */
  method CodeGeneric(input: U8, mask: Word64, offset: nat, parityMask: Word64, maxValue: U8)
    returns (r: Result<Word64>)
    requires offset < 64
    ensures r == Coded(input, mask, offset, parityMask, maxValue)
  {
    var codedValue: Word64;
    if maxValue > input {
      var pulse := CreatePulse(input);
      codedValue := Widen(pulse, 64);
      assert codedValue == Widen(PulseOf(input), 64);
      codedValue := And(Shl(codedValue, offset), mask);
      if ComputeParity(codedValue) {
        if IsZero(parityMask) {
          OrZero(codedValue, parityMask);
        }
        codedValue := Or(codedValue, parityMask);
      }
      r := Ok(codedValue);
    } else {
      r := Err(RangeError(input));
    }
  }
}
