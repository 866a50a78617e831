/**
 * The single-bit status flags of the DCF77 bit field
 * (src/dcf77/metadata.rs): the antenna bit R at bit 44, the announcement
 * of a daylight-saving switch A1 at bit 43, daylight saving time Z1 and
 * standard time Z2 both at bit 42, and the leap-second announcement at
 * bit 41. Each flag is coded as its mask or zero and read back by testing
 * `0 < input & mask`.
 *
 * Z1 and Z2 share one bit as written, so each reads the other; under the
 * bit = 59 - second mapping Z2 and A2 would sit at bits 41 and 40.
 */
module Metadata {
  import opened Bits
  import opened Dcf77

  /** `ANTENNA_BIT_MASK`: `1 << 44`. */
  const AntennaBitMask: Word64 := Single(44, 64)

  /** `ANNOUNCE_DAYLIGHT_SAVING_SWITCHING`: `1 << 43`. */
  const AnnounceDaylightSavingSwitching: Word64 := Single(43, 64)

  /** `ANNOUNCE_DAYLIGHT_SAVING`: `1 << 42`. */
  const AnnounceDaylightSaving: Word64 := Single(42, 64)

  /** `ANNOUNCE_STANDARD_TIME`: `1 << 42`, the same bit as daylight saving. */
  const AnnounceStandardTime: Word64 := Single(42, 64)

  /** `ANNOUNCE_BIT_LEAP_FOR_SECOND`: `1 << 41`. */
  const AnnounceBitLeapForSecond: Word64 := Single(41, 64)

  /** `code_antenna`: bit 44 exactly when the flag is given, nothing else. */
  function CodeAntenna(input: bool): (r: Word64)
    ensures forall i :: 0 <= i < 64 ==> (r[i] <==> input && i == 44)
  {
    if input then AntennaBitMask else Zero(64)
  }

  /** `process_antenna`: reads bit 44 and nothing else. */
  function ProcessAntenna(input: Word64): (r: bool)
    ensures r <==> input[44]
  {
    AndSingle(input, 44);
    !IsZero(And(input, AntennaBitMask))
  }

  /** `code_announce_daylight_saving_switching`: bit 43 exactly when the flag is given. */
  function CodeAnnounceDaylightSavingSwitching(input: bool): (r: Word64)
    ensures forall i :: 0 <= i < 64 ==> (r[i] <==> input && i == 43)
  {
    if input then AnnounceDaylightSavingSwitching else Zero(64)
  }

  /** `process_daylight_saving_switch`: reads bit 43 and nothing else. */
  function ProcessDaylightSavingSwitch(input: Word64): (r: bool)
    ensures r <==> input[43]
  {
    AndSingle(input, 43);
    !IsZero(And(input, AnnounceDaylightSavingSwitching))
  }

  /** `code_daylight_saving`: bit 42 exactly when the flag is given. */
  function CodeDaylightSaving(input: bool): (r: Word64)
    ensures forall i :: 0 <= i < 64 ==> (r[i] <==> input && i == 42)
  {
    if input then AnnounceDaylightSaving else Zero(64)
  }

  /** `process_daylight_saving`: reads bit 42 and nothing else. */
  function ProcessDaylightSaving(input: Word64): (r: bool)
    ensures r <==> input[42]
  {
    AndSingle(input, 42);
    !IsZero(And(input, AnnounceDaylightSaving))
  }

  /** `code_standard_time`: bit 42 exactly when the flag is given. */
  function CodeStandardTime(input: bool): (r: Word64)
    ensures forall i :: 0 <= i < 64 ==> (r[i] <==> input && i == 42)
  {
    if input then AnnounceStandardTime else Zero(64)
  }

  /** `process_standard_time`: reads bit 42 and nothing else. */
  function ProcessStandardTime(input: Word64): (r: bool)
    ensures r <==> input[42]
  {
    AndSingle(input, 42);
    !IsZero(And(input, AnnounceStandardTime))
  }

  /** `code_bit_leap_second`: bit 41 exactly when the flag is given. */
  function CodeBitLeapSecond(input: bool): (r: Word64)
    ensures forall i :: 0 <= i < 64 ==> (r[i] <==> input && i == 41)
  {
    if input then AnnounceBitLeapForSecond else Zero(64)
  }

  /** `process_bit_leap_second`: reads bit 41 and nothing else. */
  function ProcessBitLeapSecond(input: Word64): (r: bool)
    ensures r <==> input[41]
  {
    AndSingle(input, 41);
    !IsZero(And(input, AnnounceBitLeapForSecond))
  }

  /**
   * What each flag test does: starting from an empty field, OR in the
   * flag coded as false, which reads back false; then OR in the flag
   * coded as true, which reads back true. The same holds on any field
   * whose flag bit is clear, whatever else it carries.
   */
  lemma FlagsRoundTrip(field: Word64)
    requires !field[41] && !field[42] && !field[43] && !field[44]
    ensures !ProcessAntenna(Or(field, CodeAntenna(false)))
    ensures ProcessAntenna(Or(Or(field, CodeAntenna(false)), CodeAntenna(true)))
    ensures !ProcessDaylightSavingSwitch(Or(field, CodeAnnounceDaylightSavingSwitching(false)))
    ensures ProcessDaylightSavingSwitch(Or(Or(field, CodeAnnounceDaylightSavingSwitching(false)), CodeAnnounceDaylightSavingSwitching(true)))
    ensures !ProcessDaylightSaving(Or(field, CodeDaylightSaving(false)))
    ensures ProcessDaylightSaving(Or(Or(field, CodeDaylightSaving(false)), CodeDaylightSaving(true)))
    ensures !ProcessStandardTime(Or(field, CodeStandardTime(false)))
    ensures ProcessStandardTime(Or(Or(field, CodeStandardTime(false)), CodeStandardTime(true)))
    ensures !ProcessBitLeapSecond(Or(field, CodeBitLeapSecond(false)))
    ensures ProcessBitLeapSecond(Or(Or(field, CodeBitLeapSecond(false)), CodeBitLeapSecond(true)))
  {
  }

  /**
   * Daylight saving and standard time share bit 42: setting either flag is
   * read back as both.
   */
  lemma SharedDaylightSavingBit(b: bool)
    ensures AnnounceDaylightSaving == AnnounceStandardTime
    ensures ProcessDaylightSaving(CodeStandardTime(b)) == b
    ensures ProcessStandardTime(CodeDaylightSaving(b)) == b
  {
  }

  /** The antenna, switch announcement and leap-second bits are three different bits. */
  lemma DistinctFlagBits()
    ensures IsZero(And(AntennaBitMask, AnnounceDaylightSavingSwitching))
    ensures IsZero(And(AntennaBitMask, AnnounceBitLeapForSecond))
    ensures IsZero(And(AnnounceDaylightSavingSwitching, AnnounceBitLeapForSecond))
  {
    SingleOutside(44, AnnounceDaylightSavingSwitching);
    SingleOutside(44, AnnounceBitLeapForSecond);
    SingleOutside(43, AnnounceBitLeapForSecond);
  }
}
