/**
 * The hour and minute sections of the DCF77 bit field (src/dcf77/hour.rs).
 * The hour takes the six bits 25 to 30 with its even-parity bit P2 at
 * bit 24, the minute the seven bits 32 to 38 with its even-parity bit P1
 * at bit 31 (bit `59 - s` for the pulse of second `s`). Within each field
 * the weight 1 sits at the lowest bit, the reverse of the broadcast order.
 */
module Hour {
  import opened Bits
  import opened Dcf77
  import opened Section

  /** `HOUR_BIT_MASK`: six data bits. */
  const HourBitMask: Word64 := Ones(6, 64)

  /** `PARITY_HOUR_BIT_MASK`: `1 << 24`. */
  const ParityHourBitMask: Word64 := Single(24, 64)

  /** `HOUR_POSITION`. */
  const HourPosition: nat := 25

  /** `HOUR_MASK`: the hour's data bits in the carrier. */
  const HourMask: Word64 := Shl(HourBitMask, HourPosition)

  /** `MAX_HOUR`: hours are below 24. */
  const MaxHour: U32 := 24

  /** The section `code_hour` and `process_hour` build. */
  const HourSection: SectionInBitfield := SectionInBitfield(HourBitMask, HourPosition, ParityHourBitMask, MaxHour)

  /** `MINUTES_BIT_MASK`: seven data bits. */
  const MinutesBitMask: Word64 := Ones(7, 64)

  /** `PARITY_MINUTES_BIT_MASK`: `1 << 31`. */
  const ParityMinutesBitMask: Word64 := Single(31, 64)

  /** `MINUTES_POSITION`. */
  const MinutesPosition: nat := 32

  /** `MINUTES_MASK`: the minute's data bits in the carrier. */
  const MinutesMask: Word64 := Shl(MinutesBitMask, MinutesPosition)

  /** `MAX_MINUTES`: minutes are below 60. */
  const MaxMinutes: U32 := 60

  /** The section `code_minutes` and `process_minutes` build. */
  const MinutesSection: SectionInBitfield :=
    SectionInBitfield(MinutesBitMask, MinutesPosition, ParityMinutesBitMask, MaxMinutes)

  /** The hour section is usable and has one parity bit, outside its data. */
  lemma HourSectionWellFormed()
    ensures Valid(HourSection) && ParityBitOutside(HourSection) && !IsZero(ParityHourBitMask)
  {
    assert ParityHourBitMask[24];
    CountSingle(24, 64);
    SingleOutside(24, AlignedMask(HourSection));
  }

  /** The minute section is usable and has one parity bit, outside its data. */
  lemma MinutesSectionWellFormed()
    ensures Valid(MinutesSection) && ParityBitOutside(MinutesSection) && !IsZero(ParityMinutesBitMask)
  {
    assert ParityMinutesBitMask[31];
    CountSingle(31, 64);
    SingleOutside(31, AlignedMask(MinutesSection));
  }

  // ---------------------------------------------------------------------
  // Hour
  // ---------------------------------------------------------------------

  /**
   * `code_hour`: a range error for 24 and above; otherwise a fragment that
   * sets nothing outside bits 24 to 30.
   */
  function CodeHour(input: U32): (r: Result<Word64>)
    ensures r.Err? <==> input >= 24
    ensures r.Err? ==> r.error == RangeError(input)
    ensures r.Ok? ==> Confined(r.value, 24, 30)
  {
    CodeDcf77(input, HourSection)
  }

  /**
   * `process_hour`: a parity error exactly when bits 24 to 30 of the carrier
   * are odd; otherwise a number of at most 45 (the six smallest weights),
   * since the maximum is not checked on the way in.
   */
  function ProcessHour(input: Word64): (r: Result<U32>)
    ensures r.Err? <==> ComputeParity(And(input, Or(HourMask, ParityHourBitMask)))
    ensures r.Err? ==> r.error == ParityError
    ensures r.Ok? ==> r.value <= 45
  {
    HourSectionWellFormed();
    DecodeFails(input, HourSection);
    DecodeBound(input, HourSection, 6);
    PrefixTotals();
    DecodeDcf77(input, HourSection)
  }

  /** An encoded hour, data and parity bit together, has even parity. */
  lemma HourEvenParity(h: U32)
    requires h < 24
    ensures !ComputeParity(CodeHour(h).value)
  {
    HourSectionWellFormed();
    CodedEvenParity(h, HourMask, HourPosition, ParityHourBitMask, MaxHour);
  }

  /** `process_hour(code_hour(h)) == h` for every hour. */
  lemma HourRoundTrip(h: U32)
    requires h < 24
    ensures ProcessHour(CodeHour(h).value) == Ok(h)
  {
    HourSectionWellFormed();
    PulseOfFits(h, 6);
    RoundTrip(h, HourSection, 6);
  }

  /** Flipping P2 in an encoded hour makes `process_hour` fail with a parity error. */
  lemma HourParityFlipRejected(h: U32)
    requires h < 24
    ensures ProcessHour(Xor(CodeHour(h).value, ParityHourBitMask)) == Err(ParityError)
  {
    ParityFlipRejected(h, HourSection, 24);
  }

  /** Flipping any one of the data bits 25 to 30 of an encoded hour makes `process_hour` fail with a parity error. */
  lemma HourDataFlipRejected(h: U32, k: nat)
    requires h < 24 && 25 <= k <= 30
    ensures ProcessHour(Xor(CodeHour(h).value, Single(k, 64))) == Err(ParityError)
  {
    HourSectionWellFormed();
    DataFlipRejected(h, HourSection, k);
  }

  /**
   * `decode_generic` with the hour's mask and position does not read the
   * hour: by operator precedence it masks the input with `HOUR_MASK >> 25`,
   * the six lowest bits, where an encoded hour has nothing, so it reads 0
   * for every hour.
   */
  lemma DecodeGenericMissesHour(h: U32)
    requires h < 24
    ensures FitsIn(And(CodeHour(h).value, Shr(HourMask, HourPosition)), 16)
    ensures DecodeGeneric(CodeHour(h).value, HourMask, HourPosition) == 0
  {
    var fragment := CodeHour(h).value;
    forall i | 0 <= i < 64
      ensures !And(fragment, Shr(HourMask, HourPosition))[i]
    {
      if i + HourPosition < 64 && HourMask[i + HourPosition] {
        assert i < 6;
      }
    }
    DecodeGenericOfOutside(fragment, HourMask, HourPosition);
  }

  /**
   * `decode_generic_parity` rejects midnight, correctly coded: hour 0 has
   * no data bit and so, rightly, no parity bit, but the check asks for an
   * odd number of data bits and a set parity bit.
   */
  lemma DecodeGenericParityRejectsMidnight()
    ensures !ProofParity(And(CodeHour(0).value, HourMask), !IsZero(And(CodeHour(0).value, ParityHourBitMask)))
    ensures DecodeGenericParity(CodeHour(0).value, HourMask, HourPosition, ParityHourBitMask) == Err(ParityError)
  {
    var fragment := CodeHour(0).value;
    assert PulseOf(0) == Zero(16);
    assert IsZero(And(fragment, HourMask));
    CountZero(And(fragment, HourMask));
  }

  // ---------------------------------------------------------------------
  // Minutes
  // ---------------------------------------------------------------------

  /**
   * `code_minutes`: a range error for 60 and above; otherwise a fragment
   * that sets nothing outside bits 31 to 38.
   */
  function CodeMinutes(input: U32): (r: Result<Word64>)
    ensures r.Err? <==> input >= 60
    ensures r.Err? ==> r.error == RangeError(input)
    ensures r.Ok? ==> Confined(r.value, 31, 38)
  {
    CodeDcf77(input, MinutesSection)
  }

  /**
   * `process_minutes`: a parity error exactly when bits 31 to 38 of the
   * carrier are odd; otherwise a number of at most 85 (the seven smallest
   * weights).
   */
  function ProcessMinutes(input: Word64): (r: Result<U32>)
    ensures r.Err? <==> ComputeParity(And(input, Or(MinutesMask, ParityMinutesBitMask)))
    ensures r.Err? ==> r.error == ParityError
    ensures r.Ok? ==> r.value <= 85
  {
    MinutesSectionWellFormed();
    DecodeFails(input, MinutesSection);
    DecodeBound(input, MinutesSection, 7);
    PrefixTotals();
    DecodeDcf77(input, MinutesSection)
  }

  /** An encoded minute, data and parity bit together, has even parity. */
  lemma MinutesEvenParity(m: U32)
    requires m < 60
    ensures !ComputeParity(CodeMinutes(m).value)
  {
    MinutesSectionWellFormed();
    CodedEvenParity(m, MinutesMask, MinutesPosition, ParityMinutesBitMask, MaxMinutes);
  }

  /** `process_minutes(code_minutes(m)) == m` for every minute. */
  lemma MinutesRoundTrip(m: U32)
    requires m < 60
    ensures ProcessMinutes(CodeMinutes(m).value) == Ok(m)
  {
    MinutesSectionWellFormed();
    PulseOfFits(m, 7);
    RoundTrip(m, MinutesSection, 7);
  }

  /** Flipping P1 in an encoded minute makes `process_minutes` fail with a parity error. */
  lemma MinutesParityFlipRejected(m: U32)
    requires m < 60
    ensures ProcessMinutes(Xor(CodeMinutes(m).value, ParityMinutesBitMask)) == Err(ParityError)
  {
    ParityFlipRejected(m, MinutesSection, 31);
  }

  /** Flipping any one of the data bits 32 to 38 of an encoded minute makes `process_minutes` fail with a parity error. */
  lemma MinutesDataFlipRejected(m: U32, k: nat)
    requires m < 60 && 32 <= k <= 38
    ensures ProcessMinutes(Xor(CodeMinutes(m).value, Single(k, 64))) == Err(ParityError)
  {
    MinutesSectionWellFormed();
    DataFlipRejected(m, MinutesSection, k);
  }
}
