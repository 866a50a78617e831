/**
 * A section of the DCF77 bit field and its codec. `SectionInBitfield`,
 * `code_dcf77` and `decode_dcf77` are what every field of
 * src/dcf77/hour.rs and src/dcf77/date.rs delegates to (for instance
 * src/dcf77/hour.rs:22-26 and src/dcf77/hour.rs:32-36). Both files import
 * `super::*`, but src/dcf77/mod.rs defines none of the three, so the
 * crate as written does not build; they are defined here:
 *
 *  - encoding is `code_generic` with the data mask shifted to the data
 *    position (the aligned mask), after a range check of the `u32` input;
 *  - decoding cuts the carrier down to the aligned mask, fails with a
 *    parity error when the section has a parity bit and the data together
 *    with that bit has an odd number of set bits, and otherwise reads the
 *    data, shifted down to bit 0, with the weights of `create_pulse`.
 */
module Section {
  import opened Bits
  import opened Dcf77

  /** Rust's `u32` used as a number. */
  type U32 = x: nat | x < 0x1_0000_0000

  /** `SectionInBitfield`: where a field sits in the carrier and how it is checked. */
  datatype SectionInBitfield = SectionInBitfield(
    dataBitMask: Word64,
    dataPosition: nat,
    parityMask: Word64,
    maxData: U32)

  /** The section can be used: the shift is below 64 and the maximum fits the `u16` of `code_generic`. */
  predicate Valid(s: SectionInBitfield)
  {
    s.dataPosition < 64 && s.maxData < 0x1_0000
  }

  /** `data_bit_mask << data_position`: the data mask aligned in the carrier. */
  function AlignedMask(s: SectionInBitfield): Word64
    requires s.dataPosition < 64
  {
    Shl(s.dataBitMask, s.dataPosition)
  }

  /** The section has no parity bit, or exactly one, outside its data. */
  predicate ParityBitOutside(s: SectionInBitfield)
    requires s.dataPosition < 64
  {
    IsZero(s.parityMask) || (Count(s.parityMask) == 1 && IsZero(And(s.parityMask, AlignedMask(s))))
  }

  /** Every set bit of `w` lies between bit `lo` and bit `hi`. */
  predicate Confined(w: Word64, lo: nat, hi: nat)
  {
    forall i :: 0 <= i < 64 && w[i] ==> lo <= i <= hi
  }

  /**
   * `code_dcf77`: a range error carrying the input when it is not below
   * `max_data`, otherwise `code_generic` under the aligned mask. The result
   * never leaves the aligned mask and the parity bit.
   */
  function CodeDcf77(input: U32, s: SectionInBitfield): (r: Result<Word64>)
    requires Valid(s)
    ensures r.Err? <==> input >= s.maxData
    ensures r.Err? ==> r.error == RangeError(input)
    ensures r.Ok? ==> Within(r.value, Or(AlignedMask(s), s.parityMask))
  {
    if input < s.maxData then
      Coded(input, AlignedMask(s), s.dataPosition, s.parityMask, s.maxData)
    else
      Err(RangeError(input))
  }

  /**
   * `decode_dcf77`: a parity error when the section has a parity bit and the
   * data together with it is odd, otherwise the number the data stands for.
   */
  function DecodeDcf77(input: Word64, s: SectionInBitfield): (r: Result<U32>)
    requires s.dataPosition < 64
    ensures r.Err? ==> r.error == ParityError && !IsZero(s.parityMask)
    ensures r.Ok? ==> r.value <= WeightTotal
  {
    var data := And(input, AlignedMask(s));
    if !IsZero(s.parityMask) && Count(Or(data, And(input, s.parityMask))) % 2 == 1 then
      Err(ParityError)
    else
      Ok(PulseWeight(Shr(data, s.dataPosition)))
  }

  /**
   * Decoding a section looks only at its aligned mask and its parity bit:
   * carriers that agree there decode alike, whatever else is set.
   */
  lemma DecodeLocal(a: Word64, b: Word64, s: SectionInBitfield)
    requires s.dataPosition < 64
    requires forall i :: 0 <= i < 64 && (AlignedMask(s)[i] || s.parityMask[i]) ==> a[i] == b[i]
    ensures DecodeDcf77(a, s) == DecodeDcf77(b, s)
  {
    assert And(a, AlignedMask(s)) == And(b, AlignedMask(s));
    assert And(a, s.parityMask) == And(b, s.parityMask);
  }

  /** The data of a coded value, cut down to the aligned mask, is the placed pattern. */
  lemma DataOfCoded(v: U32, s: SectionInBitfield)
    requires Valid(s) && v < s.maxData && ParityBitOutside(s)
    ensures And(CodeDcf77(v, s).value, AlignedMask(s)) == Placed(v, AlignedMask(s), s.dataPosition)
  {
    var am := AlignedMask(s);
    var placed := Placed(v, am, s.dataPosition);
    var coded := CodeDcf77(v, s).value;
    forall i | 0 <= i < 64
      ensures And(coded, am)[i] == placed[i]
    {
      if !IsZero(s.parityMask) {
        assert !And(s.parityMask, am)[i];
      }
    }
  }

  /**
   * Encoding then decoding a section gives the number back, when the data
   * mask is the low `width` bits, the number's pattern fits in them and the
   * parity bit (if any) lies outside the data.
   */
  lemma RoundTrip(v: U32, s: SectionInBitfield, width: nat)
    requires Valid(s) && v < s.maxData && s.maxData <= WeightTotal + 1
    requires width <= 64 && s.dataBitMask == Ones(width, 64) && s.dataPosition + width <= 64
    requires FitsIn(PulseOf(v), width)
    requires ParityBitOutside(s)
    ensures DecodeDcf77(CodeDcf77(v, s).value, s) == Ok(v)
  {
    var am := AlignedMask(s);
    var pos := s.dataPosition;
    var coded := CodeDcf77(v, s).value;
    var placed := Placed(v, am, pos);
    DataOfCoded(v, s);
    if !IsZero(s.parityMask) {
      CodedEvenParity(v, am, pos, s.parityMask, s.maxData);
      assert Or(placed, And(coded, s.parityMask)) == coded;
    }
    var p := PulseOf(v);
    forall j | 0 <= j < 8
      ensures Shr(placed, pos)[j] == p[j]
    {
      if j < width {
        assert Shr(placed, pos)[j] == placed[j + pos];
      }
    }
    WeightedSumLowBits(Shr(placed, pos), p, 8);
    PulseOfWeight(v);
  }

  /**
   * Flipping the parity bit of an encoded section makes decoding fail with
   * a parity error.
   */
  lemma ParityFlipRejected(v: U32, s: SectionInBitfield, k: nat)
    requires Valid(s) && v < s.maxData
    requires k < 64 && s.parityMask == Single(k, 64) && !AlignedMask(s)[k]
    ensures DecodeDcf77(Xor(CodeDcf77(v, s).value, s.parityMask), s) == Err(ParityError)
  {
    var am := AlignedMask(s);
    var coded := CodeDcf77(v, s).value;
    var flipped := Xor(coded, s.parityMask);
    CountSingle(k, 64);
    SingleOutside(k, am);
    CodedEvenParity(v, am, s.dataPosition, s.parityMask, s.maxData);
    XorOutside(coded, am, s.parityMask);
    XorWithin(coded, am, s.parityMask);
    SplitWithin(flipped, am, s.parityMask);
    CountFlip(coded, k);
  }

  /**
   * Flipping any one data bit of an encoded section that has a parity bit
   * makes decoding fail with a parity error.
   */
  lemma DataFlipRejected(v: U32, s: SectionInBitfield, k: nat)
    requires Valid(s) && v < s.maxData && ParityBitOutside(s) && !IsZero(s.parityMask)
    requires k < 64 && AlignedMask(s)[k]
    ensures DecodeDcf77(Xor(CodeDcf77(v, s).value, Single(k, 64)), s) == Err(ParityError)
  {
    var am := AlignedMask(s);
    var footprint := Or(am, s.parityMask);
    var coded := CodeDcf77(v, s).value;
    var flipped := Xor(coded, Single(k, 64));
    CodedEvenParity(v, am, s.dataPosition, s.parityMask, s.maxData);
    AndWithin(coded, footprint);
    AndFlipInside(coded, footprint, k);
    CountFlip(coded, k);
    DecodeFails(flipped, s);
  }

  /**
   * Decoding fails exactly when the section has a parity bit and the
   * carrier, cut down to the data and the parity bit, has odd parity.
   */
  lemma DecodeFails(input: Word64, s: SectionInBitfield)
    requires s.dataPosition < 64
    ensures DecodeDcf77(input, s).Err? <==>
      !IsZero(s.parityMask) && ComputeParity(And(input, Or(AlignedMask(s), s.parityMask)))
  {
    AndOverOr(input, AlignedMask(s), s.parityMask);
  }

  /**
   * A section whose data mask is the low `width` bits reads at most the
   * `width` smallest weights, whatever the carrier holds.
   */
  lemma DecodeBound(input: Word64, s: SectionInBitfield, width: nat)
    requires width <= 8 && s.dataBitMask == Ones(width, 64) && s.dataPosition + width < 64
    ensures DecodeDcf77(input, s).Ok? ==> DecodeDcf77(input, s).value <= PrefixTotal(width)
  {
    var data := Shr(And(input, AlignedMask(s)), s.dataPosition);
    forall j | width <= j < 8
      ensures !data[j]
    {
      if j + s.dataPosition < 64 {
        assert !AlignedMask(s)[j + s.dataPosition];
      }
    }
    WeightedSumFits(data, width, 8);
  }
}
