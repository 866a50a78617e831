/**
 * The date sections of the DCF77 bit field (src/dcf77/date.rs): the day of
 * the month at bits 18 to 23, the day of the week at bits 15 to 17 and the
 * month at bits 10 to 14, none of them with a parity bit, and the year at
 * bits 2 to 9 with its even-parity bit at bit 1.
 *
 * The range checks are strict (`max_data > input`): day 31 and month 12
 * are refused although the comments describe the inclusive ranges
 * `[0..31]` and `[0..12]`; weekday 7 is refused as the comment `[0..7)`
 * says, but chrono numbers Sunday 7.
 */
module Date {
  import opened Bits
  import opened Dcf77
  import opened Section

  /** Rust's `i32`. */
  type I32 = x: int | -0x8000_0000 <= x < 0x8000_0000

  /** `DAY_BIT_MASK`: six data bits. */
  const DayBitMask: Word64 := Ones(6, 64)

  /** `DAY_POSITION`. */
  const DayPosition: nat := 18

  /** `DAY_MASK`: the day's data bits in the carrier. */
  const DayMask: Word64 := Shl(DayBitMask, DayPosition)

  /** `MAX_DAY`. */
  const MaxDay: U32 := 31

  /** The section `code_day` and `process_day` build: no parity bit. */
  const DaySection: SectionInBitfield := SectionInBitfield(DayBitMask, DayPosition, Zero(64), MaxDay)

  /** `DAY_OF_WEEK_BIT_MASK`: three data bits. */
  const DayOfWeekBitMask: Word64 := Ones(3, 64)

  /** `DAY_OF_WEEK_POSITION`. */
  const DayOfWeekPosition: nat := 15

  /** `DAY_OF_WEEK_MASK`: the weekday's data bits in the carrier. */
  const DayOfWeekMask: Word64 := Shl(DayOfWeekBitMask, DayOfWeekPosition)

  /** `MAX_DAY_OF_WEEK`. */
  const MaxDayOfWeek: U32 := 7

  /** The section `code_day_of_the_week` and `process_day_of_week` build: no parity bit. */
  const DayOfWeekSection: SectionInBitfield :=
    SectionInBitfield(DayOfWeekBitMask, DayOfWeekPosition, Zero(64), MaxDayOfWeek)

  /** `MONTH_BIT_MASK`: five data bits. */
  const MonthBitMask: Word64 := Ones(5, 64)

  /** `MONTH_POSITION`. */
  const MonthPosition: nat := 10

  /** `MONTH_MASK`: the month's data bits in the carrier. */
  const MonthMask: Word64 := Shl(MonthBitMask, MonthPosition)

  /** `MAX_MONTH`. */
  const MaxMonth: U32 := 12

  /** The section `code_month` and `process_month` build: no parity bit. */
  const MonthSection: SectionInBitfield := SectionInBitfield(MonthBitMask, MonthPosition, Zero(64), MaxMonth)

  /** `YEAR_BIT_MASK`: eight data bits. */
  const YearBitMask: Word64 := Ones(8, 64)

  /** `YEAR_POSITION`. */
  const YearPosition: nat := 2

  /** `YEAR_MASK`: the year's data bits in the carrier. */
  const YearMask: Word64 := Shl(YearBitMask, YearPosition)

  /** `MAX_YEAR`: the sum of all weights. */
  const MaxYear: U32 := 165

  /** `PARITY_YEAR_BIT_MASK`: `1 << 1`. */
  const ParityYearBitMask: Word64 := Single(1, 64)

  /** The section `code_year` and `process_year` build. */
  const YearSection: SectionInBitfield := SectionInBitfield(YearBitMask, YearPosition, ParityYearBitMask, MaxYear)

  /** The year section is usable and has one parity bit, outside its data. */
  lemma YearSectionWellFormed()
    ensures Valid(YearSection) && ParityBitOutside(YearSection) && !IsZero(ParityYearBitMask)
  {
    assert ParityYearBitMask[1];
    CountSingle(1, 64);
    SingleOutside(1, AlignedMask(YearSection));
  }

  // ---------------------------------------------------------------------
  // Day of the month
  // ---------------------------------------------------------------------

  /** `code_day`: a range error for 31 and above; otherwise a fragment inside bits 18 to 23. */
  function CodeDay(input: U32): (r: Result<Word64>)
    ensures r.Err? <==> input >= 31
    ensures r.Err? ==> r.error == RangeError(input)
    ensures r.Ok? ==> Confined(r.value, 18, 23)
  {
    CodeDcf77(input, DaySection)
  }

  /** `process_day`: never fails, and reads at most 45 (the six smallest weights). */
  function ProcessDay(input: Word64): (r: Result<U32>)
    ensures r.Ok? && r.value <= 45
  {
    DecodeBound(input, DaySection, 6);
    PrefixTotals();
    DecodeDcf77(input, DaySection)
  }

  /** `process_day(code_day(d)) == d` for every day the encoder accepts. */
  lemma DayRoundTrip(d: U32)
    requires d < 31
    ensures ProcessDay(CodeDay(d).value) == Ok(d)
  {
    PulseOfFits(d, 6);
    RoundTrip(d, DaySection, 6);
  }

  // ---------------------------------------------------------------------
  // Day of the week
  // ---------------------------------------------------------------------

  /**
   * `code_day_of_the_week`: the `u8` is widened to `u32`; a range error for
   * 7 and above (so Sunday, day 7 counted from Monday, is refused);
   * otherwise a fragment inside bits 15 to 17.
   */
  function CodeDayOfTheWeek(input: U8): (r: Result<Word64>)
    ensures r.Err? <==> input >= 7
    ensures r.Err? ==> r.error == RangeError(input)
    ensures r.Ok? ==> Confined(r.value, 15, 17)
  {
    CodeDcf77(input as U32, DayOfWeekSection)
  }

  /** `process_day_of_week`: never fails, and reads at most 7 (the three smallest weights). */
  function ProcessDayOfWeek(input: Word64): (r: Result<U32>)
    ensures r.Ok? && r.value <= 7
  {
    DecodeBound(input, DayOfWeekSection, 3);
    PrefixTotals();
    DecodeDcf77(input, DayOfWeekSection)
  }

  /** `process_day_of_week(code_day_of_the_week(w)) == w` for every weekday the encoder accepts. */
  lemma DayOfWeekRoundTrip(w: U8)
    requires w < 7
    ensures ProcessDayOfWeek(CodeDayOfTheWeek(w).value) == Ok(w)
  {
    PulseOfFits(w, 3);
    RoundTrip(w, DayOfWeekSection, 3);
  }

  // ---------------------------------------------------------------------
  // Month
  // ---------------------------------------------------------------------

  /** `code_month`: a range error for 12 and above; otherwise a fragment inside bits 10 to 14. */
  function CodeMonth(input: U32): (r: Result<Word64>)
    ensures r.Err? <==> input >= 12
    ensures r.Err? ==> r.error == RangeError(input)
    ensures r.Ok? ==> Confined(r.value, 10, 14)
  {
    CodeDcf77(input, MonthSection)
  }

  /** `process_month`: never fails, and reads at most 25 (the five smallest weights). */
  function ProcessMonth(input: Word64): (r: Result<U32>)
    ensures r.Ok? && r.value <= 25
  {
    DecodeBound(input, MonthSection, 5);
    PrefixTotals();
    DecodeDcf77(input, MonthSection)
  }

  /** `process_month(code_month(m)) == m` for every month the encoder accepts. */
  lemma MonthRoundTrip(m: U32)
    requires m < 12
    ensures ProcessMonth(CodeMonth(m).value) == Ok(m)
  {
    PulseOfFits(m, 5);
    RoundTrip(m, MonthSection, 5);
  }

  // ---------------------------------------------------------------------
  // Year
  // ---------------------------------------------------------------------

  /**
   * `code_year`: the `i32` is converted to `u32`, which panics for a
   * negative year; then a range error for 165 and above, otherwise a
   * fragment inside bits 1 to 9.
   */
  function CodeYear(input: I32): (r: Result<Word64>)
    requires input >= 0
    ensures r.Err? <==> input >= 165
    ensures r.Err? ==> r.error == RangeError(input as nat)
    ensures r.Ok? ==> Confined(r.value, 1, 9)
  {
    CodeDcf77(input as U32, YearSection)
  }

  /**
   * `process_year`: a parity error exactly when bits 1 to 9 of the carrier
   * are odd; otherwise at most 165.
   */
  function ProcessYear(input: Word64): (r: Result<U32>)
    ensures r.Err? <==> ComputeParity(And(input, Or(YearMask, ParityYearBitMask)))
    ensures r.Err? ==> r.error == ParityError
    ensures r.Ok? ==> r.value <= 165
  {
    YearSectionWellFormed();
    DecodeFails(input, YearSection);
    DecodeDcf77(input, YearSection)
  }

  /** An encoded year, data and parity bit together, has even parity. */
  lemma YearEvenParity(y: I32)
    requires 0 <= y < 165
    ensures !ComputeParity(CodeYear(y).value)
  {
    YearSectionWellFormed();
    CodedEvenParity(y as U16, YearMask, YearPosition, ParityYearBitMask, MaxYear);
  }

  /** `process_year(code_year(y)) == y` for every year the encoder accepts. */
  lemma YearRoundTrip(y: I32)
    requires 0 <= y < 165
    ensures ProcessYear(CodeYear(y).value) == Ok(y as U32)
  {
    YearSectionWellFormed();
    PulseOfWeight(y);
    RoundTrip(y as U32, YearSection, 8);
  }

  /** Flipping the year's parity bit in an encoded year makes `process_year` fail with a parity error. */
  lemma YearParityFlipRejected(y: I32)
    requires 0 <= y < 165
    ensures ProcessYear(Xor(CodeYear(y).value, ParityYearBitMask)) == Err(ParityError)
  {
    ParityFlipRejected(y as U32, YearSection, 1);
  }

  /** Flipping any one of the data bits 2 to 9 of an encoded year makes `process_year` fail with a parity error. */
  lemma YearDataFlipRejected(y: I32, k: nat)
    requires 0 <= y < 165 && 2 <= k <= 9
    ensures ProcessYear(Xor(CodeYear(y).value, Single(k, 64))) == Err(ParityError)
  {
    YearSectionWellFormed();
    DataFlipRejected(y as U32, YearSection, k);
  }
}
