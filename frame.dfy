/**
 * The frame assembler of src/lib.rs: `to_dcf77` codes a date, a time and
 * five status flags into one DCF77 bit field, `from_dcf77` reads them back.
 *
 * `DateTime<Utc>` is replaced by a record of its broken-down fields; the
 * day of the week, which chrono derives from the date, is given to
 * `ToDcf77` by the caller as `number_from_monday` (1 to 7).
 */
module Frame {
  import opened Bits
  import opened Dcf77
  import opened Section
  import opened Hour
  import opened Date
  import opened Metadata

  /** The broken-down fields of a UTC date and time. */
  datatype DateTime = DateTime(year: I32, month: U32, day: U32, hour: U32, minute: U32, second: U32)

  /** `DCF77`: a date and time with the five status flags of the frame. */
  datatype DCF77 = DCF77(
    date: DateTime,
    antenna: bool,
    announceDailySavingTime: bool,
    dailySavingTime: bool,
    standardTime: bool,
    bitLeapSecond: bool)

  /** `weekday().number_from_monday()`: Monday is 1, Sunday 7. */
  type WeekdayNumber = x: nat | 1 <= x <= 7 witness 1

  /** Every field that `to_dcf77` codes before the year is in range. */
  predicate FieldsBeforeYearInRange(date: DateTime, weekday: WeekdayNumber)
  {
    date.hour < 24 && date.minute < 60 && date.day < 31 && weekday < 7 && date.month < 12
  }

  /** Every field `to_dcf77` codes is in range. */
  predicate InRange(date: DateTime, weekday: WeekdayNumber)
  {
    FieldsBeforeYearInRange(date, weekday) && 0 <= date.year < 165
  }

  /**
   * `to_dcf77`: codes hour, minute, day, weekday, month and year in that
   * order, stopping at the first range error, then ORs the six fragments
   * and the five flag fragments together. The daylight-saving bit is coded
   * from the switch announcement, as at src/lib.rs:157. A negative year
   * that reaches `code_year` would panic, which the caller must avoid.
   */
  function ToDcf77(data: DCF77, weekday: WeekdayNumber): (r: Result<Word64>)
    requires FieldsBeforeYearInRange(data.date, weekday) ==> data.date.year >= 0
    ensures r.Ok? <==> InRange(data.date, weekday)
    ensures data.date.hour >= 24 ==> r == Err(RangeError(data.date.hour))
    ensures data.date.hour < 24 && data.date.minute >= 60 ==> r == Err(RangeError(data.date.minute))
    ensures data.date.hour < 24 && data.date.minute < 60 && data.date.day >= 31 ==> r == Err(RangeError(data.date.day))
    ensures data.date.hour < 24 && data.date.minute < 60 && data.date.day < 31 && weekday == 7 ==>
      r == Err(RangeError(7))
    ensures data.date.hour < 24 && data.date.minute < 60 && data.date.day < 31 && weekday < 7 && data.date.month >= 12 ==>
      r == Err(RangeError(data.date.month))
    ensures FieldsBeforeYearInRange(data.date, weekday) && data.date.year >= 165 ==>
      r == Err(RangeError(data.date.year as nat))
  {
    var date := data.date;
    var codedHour := CodeHour(date.hour);
    if codedHour.Err? then Err(codedHour.error) else
    var codedMinutes := CodeMinutes(date.minute);
    if codedMinutes.Err? then Err(codedMinutes.error) else
    var codedDay := CodeDay(date.day);
    if codedDay.Err? then Err(codedDay.error) else
    var codedDayOfWeek := CodeDayOfTheWeek(weekday as U8);
    if codedDayOfWeek.Err? then Err(codedDayOfWeek.error) else
    var codedMonth := CodeMonth(date.month);
    if codedMonth.Err? then Err(codedMonth.error) else
    var codedYear := CodeYear(date.year);
    if codedYear.Err? then Err(codedYear.error) else
    var codedAntenna := CodeAntenna(data.antenna);
    var codedAnnounceDailySavingTime := CodeAnnounceDaylightSavingSwitching(data.announceDailySavingTime);
    var codedDailySavingTime := CodeDaylightSaving(data.announceDailySavingTime);
    var codedStandardTime := CodeStandardTime(data.standardTime);
    var codedBitLeapSecond := CodeBitLeapSecond(data.bitLeapSecond);
    Ok(Or(Or(Or(Or(Or(Or(Or(Or(Or(Or(
      codedHour.value,
      codedMinutes.value),
      codedDay.value),
      codedDayOfWeek.value),
      codedMonth.value),
      codedYear.value),
      codedAntenna),
      codedAnnounceDailySavingTime),
      codedDailySavingTime),
      codedStandardTime),
      codedBitLeapSecond))
  }

  /**
   * `from_dcf77`: reads hour, minute, day, month and year in that order,
   * stopping at the first error, and the five flags; the weekday section
   * is never read and the second is 0. Only the hour, minute and year
   * sections carry parity, so those are the only ways to fail.
   */
  function FromDcf77(input: Word64): (r: Result<DCF77>)
    ensures r.Err? <==>
      ProcessHour(input).Err? || ProcessMinutes(input).Err? || ProcessYear(input).Err?
    ensures r.Err? ==> r.error == ParityError
    ensures r.Ok? ==> r.value.date.second == 0
    ensures r.Ok? ==> r.value.dailySavingTime == r.value.standardTime
    ensures r.Ok? ==> r.value.antenna == input[44] && r.value.announceDailySavingTime == input[43]
    ensures r.Ok? ==> r.value.standardTime == input[42] && r.value.bitLeapSecond == input[41]
  {
    var processedHour := ProcessHour(input);
    if processedHour.Err? then Err(processedHour.error) else
    var processedMinutes := ProcessMinutes(input);
    if processedMinutes.Err? then Err(processedMinutes.error) else
    // `process_day` and `process_month` never fail, so their `?` never returns.
    var processedDay := ProcessDay(input);
    var processedMonth := ProcessMonth(input);
    var processedYear := ProcessYear(input);
    if processedYear.Err? then Err(processedYear.error) else
    Ok(DCF77(
      DateTime(processedYear.value as I32, processedMonth.value, processedDay.value,
               processedHour.value, processedMinutes.value, 0),
      ProcessAntenna(input),
      ProcessDaylightSavingSwitch(input),
      ProcessDaylightSaving(input),
      ProcessStandardTime(input),
      ProcessBitLeapSecond(input)))
  }

  // ---------------------------------------------------------------------
  // The layout of the sections
  // ---------------------------------------------------------------------

  /** The bits a section reads: its aligned data mask and its parity bit. */
  function Footprint(s: SectionInBitfield): (w: Word64)
    requires s.dataPosition < 64
    ensures forall i :: 0 <= i < 64 ==> (w[i] <==> AlignedMask(s)[i] || s.parityMask[i])
  {
    Or(AlignedMask(s), s.parityMask)
  }

  /** The six sections, from the lowest bits to the highest. */
  const Sections: seq<SectionInBitfield> :=
    [YearSection, MonthSection, DayOfWeekSection, DaySection, HourSection, MinutesSection]

  /** The lowest bit of each section's footprint, in the order of `Sections`. */
  const SectionLow: seq<nat> := [1, 10, 15, 18, 24, 31]

  /** The highest bit of each section's footprint, in the order of `Sections`. */
  const SectionHigh: seq<nat> := [9, 14, 17, 23, 30, 38]

  /**
   * Each section reads exactly the bits from its lowest to its highest,
   * and each starts above the one before it ends, so no two sections share
   * a bit and all of them lie in bits 1 to 38.
   */
  lemma SectionsDisjoint()
    ensures forall x, i | 0 <= x < 6 && 0 <= i < 64 :: Footprint(Sections[x])[i] <==> SectionLow[x] <= i <= SectionHigh[x]
    ensures forall x | 0 <= x < 5 :: SectionHigh[x] < SectionLow[x + 1]
    ensures forall x, y, i | 0 <= x < y < 6 && 0 <= i < 64 :: !(Footprint(Sections[x])[i] && Footprint(Sections[y])[i])
  {
    forall x, i | 0 <= x < 6 && 0 <= i < 64
      ensures Footprint(Sections[x])[i] <==> SectionLow[x] <= i <= SectionHigh[x]
    {
      assert x == 0 || x == 1 || x == 2 || x == 3 || x == 4 || x == 5;
    }
    forall x, y | 0 <= x < y < 6
      ensures SectionHigh[x] < SectionLow[y]
    {
      assert x == 0 || x == 1 || x == 2 || x == 3 || x == 4;
      assert y == 1 || y == 2 || y == 3 || y == 4 || y == 5;
    }
  }

  // ---------------------------------------------------------------------
  // The bits of a frame
  // ---------------------------------------------------------------------

  /** The frame `to_dcf77` codes when every field is in range. */
  lemma ToDcf77Value(data: DCF77, weekday: WeekdayNumber)
    requires InRange(data.date, weekday)
    ensures ToDcf77(data, weekday) == Ok(Or(Or(Or(Or(Or(Or(Or(Or(Or(Or(
      CodeHour(data.date.hour).value,
      CodeMinutes(data.date.minute).value),
      CodeDay(data.date.day).value),
      CodeDayOfTheWeek(weekday as U8).value),
      CodeMonth(data.date.month).value),
      CodeYear(data.date.year).value),
      CodeAntenna(data.antenna)),
      CodeAnnounceDaylightSavingSwitching(data.announceDailySavingTime)),
      CodeDaylightSaving(data.announceDailySavingTime)),
      CodeStandardTime(data.standardTime)),
      CodeBitLeapSecond(data.bitLeapSecond)))
  {
  }

  /** Bit `i` of a coded frame is set exactly when one of its eleven fragments sets it. */
  lemma FrameBit(data: DCF77, weekday: WeekdayNumber, i: nat)
    requires InRange(data.date, weekday) && i < 64
    ensures ToDcf77(data, weekday).value[i] <==>
      CodeHour(data.date.hour).value[i] || CodeMinutes(data.date.minute).value[i] ||
      CodeDay(data.date.day).value[i] || CodeDayOfTheWeek(weekday as U8).value[i] ||
      CodeMonth(data.date.month).value[i] || CodeYear(data.date.year).value[i] ||
      (i == 44 && data.antenna) || (i == 43 && data.announceDailySavingTime) ||
      (i == 42 && (data.announceDailySavingTime || data.standardTime)) || (i == 41 && data.bitLeapSecond)
  {
    ToDcf77Value(data, weekday);
  }

  /**
   * The layout of a coded frame: bit 0, bits 39 and 40 and bits 45 to 63
   * are always clear, and bits 1 to 38 are exactly the bits of the six
   * date and time sections; only bits 41 to 44 carry flags.
   */
  lemma FrameLayout(data: DCF77, weekday: WeekdayNumber)
    requires InRange(data.date, weekday)
    ensures forall i | 0 <= i < 64 && (i == 0 || 39 <= i <= 40 || 45 <= i) :: !ToDcf77(data, weekday).value[i]
    ensures forall i | 1 <= i <= 38 :: ToDcf77(data, weekday).value[i] <==>
      CodeHour(data.date.hour).value[i] || CodeMinutes(data.date.minute).value[i] ||
      CodeDay(data.date.day).value[i] || CodeDayOfTheWeek(weekday as U8).value[i] ||
      CodeMonth(data.date.month).value[i] || CodeYear(data.date.year).value[i]
  {
    forall i | 0 <= i < 64
      ensures ToDcf77(data, weekday).value[i] <==>
        CodeHour(data.date.hour).value[i] || CodeMinutes(data.date.minute).value[i] ||
        CodeDay(data.date.day).value[i] || CodeDayOfTheWeek(weekday as U8).value[i] ||
        CodeMonth(data.date.month).value[i] || CodeYear(data.date.year).value[i] ||
        (i == 44 && data.antenna) || (i == 43 && data.announceDailySavingTime) ||
        (i == 42 && (data.announceDailySavingTime || data.standardTime)) || (i == 41 && data.bitLeapSecond)
    {
      FrameBit(data, weekday, i);
    }
  }

  // ---------------------------------------------------------------------
  // Reading a coded frame back
  // ---------------------------------------------------------------------

  /** `process_hour` reads back the hour of a coded frame. */
  lemma FrameHour(data: DCF77, weekday: WeekdayNumber)
    requires InRange(data.date, weekday)
    ensures ProcessHour(ToDcf77(data, weekday).value) == Ok(data.date.hour)
  {
    var frame := ToDcf77(data, weekday).value;
    var fragment := CodeHour(data.date.hour).value;
    forall i | 0 <= i < 64 && (AlignedMask(HourSection)[i] || HourSection.parityMask[i])
      ensures frame[i] == fragment[i]
    {
      FrameBit(data, weekday, i);
    }
    DecodeLocal(frame, fragment, HourSection);
    HourRoundTrip(data.date.hour);
  }

  /** `process_minutes` reads back the minute of a coded frame. */
  lemma FrameMinutes(data: DCF77, weekday: WeekdayNumber)
    requires InRange(data.date, weekday)
    ensures ProcessMinutes(ToDcf77(data, weekday).value) == Ok(data.date.minute)
  {
    var frame := ToDcf77(data, weekday).value;
    var fragment := CodeMinutes(data.date.minute).value;
    forall i | 0 <= i < 64 && (AlignedMask(MinutesSection)[i] || MinutesSection.parityMask[i])
      ensures frame[i] == fragment[i]
    {
      FrameBit(data, weekday, i);
    }
    DecodeLocal(frame, fragment, MinutesSection);
    MinutesRoundTrip(data.date.minute);
  }

  /** `process_day` reads back the day of a coded frame. */
  lemma FrameDay(data: DCF77, weekday: WeekdayNumber)
    requires InRange(data.date, weekday)
    ensures ProcessDay(ToDcf77(data, weekday).value) == Ok(data.date.day)
  {
    var frame := ToDcf77(data, weekday).value;
    var fragment := CodeDay(data.date.day).value;
    forall i | 0 <= i < 64 && (AlignedMask(DaySection)[i] || DaySection.parityMask[i])
      ensures frame[i] == fragment[i]
    {
      FrameBit(data, weekday, i);
    }
    DecodeLocal(frame, fragment, DaySection);
    DayRoundTrip(data.date.day);
  }

  /** `process_month` reads back the month of a coded frame. */
  lemma FrameMonth(data: DCF77, weekday: WeekdayNumber)
    requires InRange(data.date, weekday)
    ensures ProcessMonth(ToDcf77(data, weekday).value) == Ok(data.date.month)
  {
    var frame := ToDcf77(data, weekday).value;
    var fragment := CodeMonth(data.date.month).value;
    forall i | 0 <= i < 64 && (AlignedMask(MonthSection)[i] || MonthSection.parityMask[i])
      ensures frame[i] == fragment[i]
    {
      FrameBit(data, weekday, i);
    }
    DecodeLocal(frame, fragment, MonthSection);
    MonthRoundTrip(data.date.month);
  }

  /** `process_year` reads back the year of a coded frame. */
  lemma FrameYear(data: DCF77, weekday: WeekdayNumber)
    requires InRange(data.date, weekday)
    ensures ProcessYear(ToDcf77(data, weekday).value) == Ok(data.date.year as U32)
  {
    var frame := ToDcf77(data, weekday).value;
    var fragment := CodeYear(data.date.year).value;
    forall i | 0 <= i < 64 && (AlignedMask(YearSection)[i] || YearSection.parityMask[i])
      ensures frame[i] == fragment[i]
    {
      FrameBit(data, weekday, i);
    }
    DecodeLocal(frame, fragment, YearSection);
    YearRoundTrip(data.date.year);
  }

  /**
   * Coding a record and reading the frame back gives the date and time
   * with the second set to 0, the antenna, switch-announcement and
   * leap-second flags unchanged, and both daylight saving and standard
   * time read from bit 42, which holds the switch announcement or the
   * standard-time flag.
   */
  lemma FrameRoundTrip(data: DCF77, weekday: WeekdayNumber)
    requires InRange(data.date, weekday)
    ensures FromDcf77(ToDcf77(data, weekday).value) == Ok(DCF77(
      DateTime(data.date.year, data.date.month, data.date.day, data.date.hour, data.date.minute, 0),
      data.antenna,
      data.announceDailySavingTime,
      data.announceDailySavingTime || data.standardTime,
      data.announceDailySavingTime || data.standardTime,
      data.bitLeapSecond))
  {
    FrameHour(data, weekday);
    FrameMinutes(data, weekday);
    FrameDay(data, weekday);
    FrameMonth(data, weekday);
    FrameYear(data, weekday);
    FrameFlags(data, weekday);
  }

  /** The flag tests read back the flags of a coded frame, bit 42 holding announcement or standard time. */
  lemma FrameFlags(data: DCF77, weekday: WeekdayNumber)
    requires InRange(data.date, weekday)
    ensures ProcessAntenna(ToDcf77(data, weekday).value) == data.antenna
    ensures ProcessDaylightSavingSwitch(ToDcf77(data, weekday).value) == data.announceDailySavingTime
    ensures ProcessDaylightSaving(ToDcf77(data, weekday).value) == (data.announceDailySavingTime || data.standardTime)
    ensures ProcessStandardTime(ToDcf77(data, weekday).value) == (data.announceDailySavingTime || data.standardTime)
    ensures ProcessBitLeapSecond(ToDcf77(data, weekday).value) == data.bitLeapSecond
  {
    FrameBit(data, weekday, 44);
    FrameBit(data, weekday, 43);
    FrameBit(data, weekday, 42);
    FrameBit(data, weekday, 41);
  }

  /**
   * Bit 42 of a coded frame is set exactly when the switch announcement or
   * standard time is; the daylight-saving flag of the record is never read.
   */
  lemma FrameDaylightSavingBit(data: DCF77, weekday: WeekdayNumber, dailySavingTime: bool)
    requires InRange(data.date, weekday)
    ensures ToDcf77(data, weekday).value[42] <==> data.announceDailySavingTime || data.standardTime
    ensures ToDcf77(data.(dailySavingTime := dailySavingTime), weekday) == ToDcf77(data, weekday)
  {
    FrameBit(data, weekday, 42);
  }

  /** `from_dcf77` never reads the weekday bits 15 to 17: frames that differ only there decode alike. */
  lemma FromDcf77IgnoresWeekday(a: Word64, b: Word64)
    requires forall i | 0 <= i < 64 && !(15 <= i <= 17) :: a[i] == b[i]
    ensures FromDcf77(a) == FromDcf77(b)
  {
    SectionsIgnoreWeekday(a, b);
    assert a[41] == b[41] && a[42] == b[42] && a[43] == b[43] && a[44] == b[44];
  }

  /** The five sections `from_dcf77` reads all lie outside bits 15 to 17. */
  lemma SectionsIgnoreWeekday(a: Word64, b: Word64)
    requires forall i | 0 <= i < 64 && !(15 <= i <= 17) :: a[i] == b[i]
    ensures ProcessHour(a) == ProcessHour(b) && ProcessMinutes(a) == ProcessMinutes(b)
    ensures ProcessDay(a) == ProcessDay(b) && ProcessMonth(a) == ProcessMonth(b)
    ensures ProcessYear(a) == ProcessYear(b)
  {
    DecodeLocal(a, b, HourSection);
    DecodeLocal(a, b, MinutesSection);
    DecodeLocal(a, b, DaySection);
    DecodeLocal(a, b, MonthSection);
    DecodeLocal(a, b, YearSection);
  }
}
