# dcf77_chrono in Dafny

A model of the core of `dcf77_chrono`, a Rust crate that converts between a
broken-down UTC date and time with five status flags and one `u64` carrying
a DCF77 minute frame. DCF77 is the PTB long-wave time signal. The parity
bits and the R, A1 and Z1 flags sit at bit `59 - s` of the `u64` for the
pulse of second `s`; Z2 and A2 (the leap-second announcement) sit one bit
too high, at bits 42 and 41 instead of 41 and 40. Inside each field the crate does not follow that mapping:
`create_pulse` with `code_generic` puts weight 1 at the field's lowest
bit. For example, the minute's weight 1 lands at bit 32 (second 27),
where the broadcast sends it at second 21 (bit 38). Every field is
therefore bit-reversed relative to the broadcast order. `compute_pulse`'s
reversed reading matches the broadcast order only for the 8-bit year.

The model has four layers:

- **Pulse codec and even parity** (`dcf77.dfy`, module `Dcf77`, and its
  byte-wide copy in `pulse_u8.dfy`, module `PulseU8`). This covers:
  - the non-binary weight table `[1, 2, 4, 8, 10, 20, 40, 80]`;
  - `compute_pulse` and `create_pulse`, as loops with invariants;
  - `proof_parity` and `compute_parity`;
  - `code_generic`, as a method that updates `coded_value`;
  - `decode_generic` and `decode_generic_parity`.
- **Section codec** (`section.dfy`, module `Section`). This is
  `SectionInBitfield` with `code_dcf77` and `decode_dcf77`.
  - Encoding is `code_generic` under `data_bit_mask << data_position`.
  - Decoding cuts the carrier down to that mask. It fails with a parity
    error when the section has a parity bit and data plus parity bit are
    odd. Otherwise it reads the data, shifted down, with weight `j` on bit
    `j`: the order `create_pulse` writes.
- **Field catalogue**:
  - `hour.dfy`: hour and minute;
  - `date.dfy`: day, weekday, month and year;
  - `metadata.dfy`: the five flags antenna, A1, Z1, Z2 and leap second.
- **Frame assembler** (`frame.dfy`, module `Frame`). This is `to_dcf77` and
  `from_dcf77` over a record of integers that stands in for `DateTime<Utc>`.

`bits.dfy` (module `Bits`) supplies machine words as sequences of bits,
least significant first, with the length as the width. On these it defines
`&`, `|`, `^`, `<<`, `>>`, `count_ones`, and checked widening and
narrowing. Every fact about an operator is a fact about one bit position.

The model follows the code as written, quirks included. Each quirk is
stated as a lemma:

- **Opposite weight orders.**
  - `compute_pulse` pairs bit `i` with `BIT_WEIGHTS[7 - i]`.
  - `create_pulse` writes `BIT_WEIGHTS[j]` at bit `j`.
  - So `compute_pulse(create_pulse(1)) == 80`
    (`Dcf77.ComputeAfterCreateReversed`).
- **Operator precedence in `decode_generic`.** `input & mask >> offset`
  shifts the mask, not the input, so it never reads an encoded hour
  (`Hour.DecodeGenericMissesHour`).
- **`decode_generic_parity` demands odd data.** It requires an odd number
  of data bits and a set parity bit. It therefore rejects every correctly
  coded field whose data is even, midnight included
  (`Dcf77.DecodeGenericParityAccepts`,
  `Hour.DecodeGenericParityRejectsMidnight`).
- **Strict range checks.** The check is `max > input`.
  - It refuses day 31 and month 12, although the comments at
    src/dcf77/date.rs:17 and src/dcf77/date.rs:78 describe the inclusive
    ranges `[0..31]` and `[0..12]`.
  - It refuses weekday 7. The comment at src/dcf77/date.rs:48 does say
    `[0..7)`, but chrono's `number_from_monday` numbers Sunday 7, so
    `to_dcf77` refuses every Sunday.
  - It refuses every year from 165 on, calendar years such as 2021
    included.
- **Z1 and Z2 share bit 42, and A2 sits at bit 41.** Z2 (second 18) belongs
  at bit 41 and A2 (second 19) at bit 40, but src/dcf77/metadata.rs:54 puts
  Z2 at bit 42 and src/dcf77/metadata.rs:71 puts A2 at bit 41. Daylight
  saving and standard time therefore read each other
  (`Metadata.SharedDaylightSavingBit`), and the leap-second announcement
  occupies the bit where Z2 belongs (`Metadata.CodeBitLeapSecond`).
- **The daylight-saving flag is never coded.** `to_dcf77` codes the
  daylight-saving bit from the switch announcement. The daylight-saving
  flag of the record is never read (`Frame.FrameDaylightSavingBit`).
- **`from_dcf77` skips the weekday.** It never reads the weekday section
  (`Frame.FromDcf77IgnoresWeekday`).

## Model

| member | source | states |
|---|---|---|
| `Dcf77.WeightsSuperIncreasing` | src/dcf77/mod.rs:22 | each weight is at most one more than the sum of all smaller weights, which is why the greedy coding is exact |
| `Dcf77.PrefixTotals` | src/dcf77/mod.rs:22 | the sums of the 1 to 8 smallest weights are 1, 3, 7, 15, 25, 45, 85 and 165 |
| `Dcf77.ComputeParity` | src/dcf77/mod.rs:29-32 | `compute_parity(x)` equals the exclusive or of all bits of `x`, an independent definition of odd parity |
| `Dcf77.ProofParity` | src/dcf77/mod.rs:24-27 | whatever `proof_parity(x, p)` accepts is even once the parity bit `p` is counted in; it never accepts with `p` false, so an even word with its parity bit rightly clear is refused; with `p` true it is `compute_parity(x)` |
| `Dcf77.ParityOfAddedBit` | src/dcf77/mod.rs:64-65 | OR-ing in one bit that the word does not have flips its parity |
| `Dcf77.PulseValue` | src/dcf77/mod.rs:35-43 | the value `compute_pulse` returns never exceeds 165, the sum of all weights |
| `Dcf77.ComputePulse` | src/dcf77/mod.rs:35-43 | the loop returns the sum of `BIT_WEIGHTS[7 - i]` over the set bits `i` below 8; the `u16` accumulator cannot overflow |
| `Dcf77.ReadSumLowBits` | src/dcf77/mod.rs:37-41 | `compute_pulse` ignores bits 8 and up: words that agree on bits 0 to 7 give the same value |
| `Dcf77.ReadSumOfZero` | src/dcf77/mod.rs:36-42 | a word with no bit set reads as 0 |
| `Dcf77.GreedyInvariant` | src/dcf77/mod.rs:47-54 | along `create_pulse`'s loop, remainder plus pattern weight equals the input; unvisited bits and bits 8 to 15 stay clear; no weight above the input is used; for inputs up to 165 the remainder fits in the weights still to come |
| `Dcf77.PulseOfWeight` | src/dcf77/mod.rs:46-56 | `create_pulse` sets only bits 0 to 7, for every input up to 165 the weights of its set bits sum exactly to the input, and it never uses a weight larger than the input |
| `Dcf77.PulseOfFits` | src/dcf77/mod.rs:49-53 | an input below every weight from position `width` up is coded in the low `width` bits |
| `Dcf77.CreatePulse` | src/dcf77/mod.rs:46-56 | the loop returns the greedy pattern characterised by `PulseOfWeight` |
| `Dcf77.ComputeAfterCreateReversed` | src/dcf77/mod.rs:37-51 | `create_pulse(1)` is bit 0 and `compute_pulse` reads it back as 80: the pair does not round-trip |
| `Dcf77.Coded` | src/dcf77/mod.rs:59-71 | `code_generic` fails exactly when `input >= max_value`, with an error that carries the input; on success the result lies within `mask \| parity_mask`, and within `mask` alone when the parity mask is zero |
| `Dcf77.CodeGeneric` | src/dcf77/mod.rs:59-71 | the method that updates `coded_value` step by step returns what `Coded` describes |
| `Dcf77.CodedEvenParity` | src/dcf77/mod.rs:64-65 | with a one-bit parity mask outside `mask`, the coded value has even popcount, is the placed pattern with or without the parity bit, and carries the parity bit exactly when the placed pattern is odd |
| `Dcf77.DecodeGeneric` | src/dcf77/mod.rs:74-77 | `decode_generic` reads `input & (mask >> offset)`, which must fit in `u16`, and returns at most 165 |
| `Dcf77.DecodeGenericOfOutside` | src/dcf77/mod.rs:75-76 | an input with no bit under `mask >> offset` decodes to 0 |
| `Dcf77.DecodeGenericParity` | src/dcf77/mod.rs:81-89 | succeeds exactly when the data under `mask` is odd and the parity bit is set; otherwise it fails with a parity error; on success it returns at most 165; `input >> offset` must fit in a byte |
| `Dcf77.DecodeGenericParityAccepts` | src/dcf77/mod.rs:82-87 | whatever it accepts has even popcount over data plus parity bit, and every input with even data is rejected, even with the parity bit correctly clear |
| `PulseU8.ComputePulse` | src/pulse.rs:17-25 | the byte-wide loop gives the same sum as the `u16` version, and its `u8` accumulator cannot overflow, since 165 < 256 |
| `PulseU8.CreatePulse` | src/pulse.rs:28-38 | the byte-wide loop builds the same pattern as the `u16` version, so its set-bit weights sum to every input up to 165 |
| `PulseU8.CodeGeneric` | src/pulse.rs:41-53 | fails exactly when `input >= max_value`; otherwise it equals the `u16` version, which lies within `mask \| parity_mask`; OR-ing in a zero parity mask without the guard changes nothing |
| `Section.CodeDcf77` | src/dcf77/hour.rs:21-27 | coding a section fails exactly when the input is not below `max_data`, with the input as error, and otherwise sets nothing outside the aligned mask and the parity bit |
| `Section.DecodeDcf77` | src/dcf77/hour.rs:30-37 | decoding a section fails only with a parity error of a section that has a parity bit, and otherwise returns at most 165 |
| `Section.DecodeLocal` | src/dcf77/hour.rs:30-37 | decoding reads only the aligned mask and the parity bit: carriers that agree there decode alike |
| `Section.DataFlipRejected` | src/dcf77/hour.rs:30-36 | in a section with a parity bit, flipping any one data bit of a coded value makes decoding fail with a parity error |
| `Section.DecodeFails` | src/dcf77/hour.rs:30-37 | decoding fails exactly when the section has a parity bit and its data plus parity bit are odd |
| `Section.DecodeBound` | src/dcf77/date.rs:27-34 | a section of `width` data bits decodes to at most the sum of the `width` smallest weights |
| `Section.RoundTrip` | src/dcf77/hour.rs:101-111 | for a section whose data mask is the low `width` bits, whose values fit in those bits and whose parity bit is outside the data, decoding the coded value gives the value back |
| `Section.ParityFlipRejected` | src/dcf77/hour.rs:30-36 | flipping the parity bit of a coded value makes decoding fail with a parity error |
| `Hour.HourSectionWellFormed` | src/dcf77/hour.rs:6-18 | the hour section has one parity bit, bit 24, outside its data bits 25 to 30 |
| `Hour.CodeHour` | src/dcf77/hour.rs:21-27 | `code_hour(h)` fails exactly when `h >= 24`, and otherwise sets only bits 24 to 30 |
| `Hour.ProcessHour` | src/dcf77/hour.rs:30-37 | `process_hour` fails with a parity error exactly when bits 24 to 30 are odd, and otherwise returns at most 45, since the maximum is not checked when decoding |
| `Hour.HourEvenParity` | src/dcf77/hour.rs:21-27 | an encoded hour, data and parity bit together, has even popcount |
| `Hour.HourRoundTrip` | src/dcf77/hour.rs:101-123 | `process_hour(code_hour(h)) == h` for every `h < 24` |
| `Hour.HourParityFlipRejected` | src/dcf77/hour.rs:30-36 | flipping bit 24 of an encoded hour makes `process_hour` fail with a parity error |
| `Hour.HourDataFlipRejected` | src/dcf77/hour.rs:30-36 | flipping any one of the data bits 25 to 30 of an encoded hour makes `process_hour` fail with a parity error |
| `Hour.DecodeGenericMissesHour` | src/dcf77/mod.rs:74-77 | `decode_generic` with the hour mask and position reads 0 for every encoded hour, because of operator precedence |
| `Hour.DecodeGenericParityRejectsMidnight` | src/dcf77/mod.rs:81-88 | `decode_generic_parity` rejects the correctly coded hour 0 |
| `Hour.MinutesSectionWellFormed` | src/dcf77/hour.rs:40-52 | the minute section has one parity bit, bit 31, outside its data bits 32 to 38 |
| `Hour.CodeMinutes` | src/dcf77/hour.rs:55-61 | `code_minutes(m)` fails exactly when `m >= 60`, and otherwise sets only bits 31 to 38 |
| `Hour.ProcessMinutes` | src/dcf77/hour.rs:64-71 | `process_minutes` fails with a parity error exactly when bits 31 to 38 are odd, and otherwise returns at most 85 |
| `Hour.MinutesEvenParity` | src/dcf77/hour.rs:55-61 | an encoded minute, data and parity bit together, has even popcount |
| `Hour.MinutesRoundTrip` | src/dcf77/hour.rs:78-100 | `process_minutes(code_minutes(m)) == m` for every `m < 60` |
| `Hour.MinutesParityFlipRejected` | src/dcf77/hour.rs:64-70 | flipping bit 31 of an encoded minute makes `process_minutes` fail with a parity error |
| `Hour.MinutesDataFlipRejected` | src/dcf77/hour.rs:64-70 | flipping any one of the data bits 32 to 38 of an encoded minute makes `process_minutes` fail with a parity error |
| `Date.YearSectionWellFormed` | src/dcf77/date.rs:98-110 | the year section has one parity bit, bit 1, outside its data bits 2 to 9 |
| `Date.CodeDay` | src/dcf77/date.rs:18-24 | `code_day(d)` fails exactly when `d >= 31`, so day 31 is refused; otherwise it sets only bits 18 to 23, with no parity bit |
| `Date.ProcessDay` | src/dcf77/date.rs:27-34 | `process_day` never fails and returns at most 45 |
| `Date.DayRoundTrip` | src/dcf77/date.rs:160-180 | `process_day(code_day(d)) == d` for every `d < 31` |
| `Date.CodeDayOfTheWeek` | src/dcf77/date.rs:49-55 | `code_day_of_the_week(w)` fails exactly when `w >= 7`, so Sunday is refused; otherwise it sets only bits 15 to 17 |
| `Date.ProcessDayOfWeek` | src/dcf77/date.rs:58-64 | `process_day_of_week` never fails and returns at most 7 |
| `Date.DayOfWeekRoundTrip` | src/dcf77/date.rs:137-159 | `process_day_of_week(code_day_of_the_week(w)) == w` for every `w < 7` |
| `Date.CodeMonth` | src/dcf77/date.rs:79-85 | `code_month(m)` fails exactly when `m >= 12`, so month 12 is refused; otherwise it sets only bits 10 to 14 |
| `Date.ProcessMonth` | src/dcf77/date.rs:88-95 | `process_month` never fails and returns at most 25 |
| `Date.MonthRoundTrip` | src/dcf77/date.rs:181-202 | `process_month(code_month(m)) == m` for every `m < 12` |
| `Date.CodeYear` | src/dcf77/date.rs:113-119 | `code_year(y)` needs `y >= 0` (the `try_into().unwrap()`), fails exactly when `y >= 165`, and otherwise sets only bits 1 to 9 |
| `Date.ProcessYear` | src/dcf77/date.rs:122-129 | `process_year` fails with a parity error exactly when bits 1 to 9 are odd, and otherwise returns at most 165 |
| `Date.YearEvenParity` | src/dcf77/date.rs:113-119 | an encoded year, data and parity bit together, has even popcount |
| `Date.YearRoundTrip` | src/dcf77/date.rs:203-224 | `process_year(code_year(y)) == y` for every `0 <= y < 165` |
| `Date.YearParityFlipRejected` | src/dcf77/date.rs:122-129 | flipping bit 1 of an encoded year makes `process_year` fail with a parity error |
| `Date.YearDataFlipRejected` | src/dcf77/date.rs:122-129 | flipping any one of the data bits 2 to 9 of an encoded year makes `process_year` fail with a parity error |
| `Metadata.CodeAntenna` | src/dcf77/metadata.rs:6-12 | the fragment has bit 44 exactly when the flag is given, and no other bit |
| `Metadata.ProcessAntenna` | src/dcf77/metadata.rs:15-17 | holds exactly when bit 44 is set, so OR-ing in other fragments never changes it |
| `Metadata.CodeAnnounceDaylightSavingSwitching` | src/dcf77/metadata.rs:23-29 | the fragment has bit 43 exactly when the flag is given, and no other bit |
| `Metadata.ProcessDaylightSavingSwitch` | src/dcf77/metadata.rs:32-34 | holds exactly when bit 43 is set |
| `Metadata.CodeDaylightSaving` | src/dcf77/metadata.rs:40-46 | the fragment has bit 42 exactly when the flag is given, and no other bit |
| `Metadata.ProcessDaylightSaving` | src/dcf77/metadata.rs:49-51 | holds exactly when bit 42 is set |
| `Metadata.CodeStandardTime` | src/dcf77/metadata.rs:57-63 | the fragment has bit 42 exactly when the flag is given, and no other bit |
| `Metadata.ProcessStandardTime` | src/dcf77/metadata.rs:66-68 | holds exactly when bit 42 is set |
| `Metadata.CodeBitLeapSecond` | src/dcf77/metadata.rs:74-80 | the fragment has bit 41 exactly when the flag is given, and no other bit |
| `Metadata.ProcessBitLeapSecond` | src/dcf77/metadata.rs:83-85 | holds exactly when bit 41 is set |
| `Metadata.FlagsRoundTrip` | src/dcf77/metadata.rs:90-129 | each flag test: a field without the flag bit reads false after OR-ing in `code(false)` and true after OR-ing in `code(true)` |
| `Metadata.SharedDaylightSavingBit` | src/dcf77/metadata.rs:37-54 | Z1 and Z2 have the same mask, so standard time is read as daylight saving and the other way round |
| `Metadata.DistinctFlagBits` | src/dcf77/metadata.rs:3-71 | the antenna, switch-announcement and leap-second masks are pairwise disjoint |
| `Frame.SectionsDisjoint` | src/dcf77/date.rs:6-110 | each of the six sections reads exactly its own range of bits (year 1 to 9, month 10 to 14, weekday 15 to 17, day 18 to 23, hour 24 to 30, minute 31 to 38); the ranges ascend, so no two sections share a bit |
| `Frame.ToDcf77` | src/lib.rs:146-171 | succeeds exactly when hour, minute, day, weekday, month and year are all in range; otherwise it reports the first field out of range, in that order |
| `Frame.FromDcf77` | src/lib.rs:92-111 | fails (with a parity error) exactly when the hour, minute or year parity fails; on success the second is 0, daylight saving equals standard time, and each flag is its own bit |
| `Frame.FrameLayout` | src/lib.rs:160-170 | a coded frame never sets bit 0, bits 39 and 40 or bits 45 to 63, and its bits 1 to 38 are exactly the bits of the six date and time fragments |
| `Frame.FrameBit` | src/lib.rs:160-170 | bit `i` of a frame is set exactly when one of its fragments sets it |
| `Frame.FrameHour` | src/lib.rs:93 | `process_hour` of a coded frame gives back its hour, whatever the other fields hold |
| `Frame.FrameMinutes` | src/lib.rs:94 | `process_minutes` of a coded frame gives back its minute |
| `Frame.FrameDay` | src/lib.rs:95 | `process_day` of a coded frame gives back its day |
| `Frame.FrameMonth` | src/lib.rs:96 | `process_month` of a coded frame gives back its month |
| `Frame.FrameYear` | src/lib.rs:97 | `process_year` of a coded frame gives back its year |
| `Frame.FrameRoundTrip` | src/lib.rs:92-171 | `from_dcf77(to_dcf77(d))` returns `d`'s date and time with second 0, its antenna, A1 and leap-second flags, and announcement-or-standard-time in both daylight saving and standard time |
| `Frame.FrameFlags` | src/lib.rs:105-109 | decoded antenna, A1 and leap-second flags equal the coded ones; both bit-42 flags read announcement or standard time |
| `Frame.FrameDaylightSavingBit` | src/lib.rs:157-158 | bit 42 of a coded frame is set exactly when the switch announcement or standard time is, and the daylight-saving flag never changes the frame |
| `Frame.SectionsIgnoreWeekday` | src/lib.rs:93-97 | hour, minute, day, month and year decode alike on carriers that differ only in bits 15 to 17 |
| `Frame.FromDcf77IgnoresWeekday` | src/lib.rs:92-111 | `from_dcf77` gives the same result for carriers that differ only in the weekday bits 15 to 17 |

## Left out

- Machine words are sequences of bits, not `u16`/`u64` integers. Shifts by
  64 or more, which panic in debug builds (release builds mask the shift
  amount), are excluded by preconditions; every shift in the crate is by
  a constant below 64.
- Numbers are unbounded naturals restricted by subtype to the Rust width
  (`U8`, `U16`, `U32`, `I32`); no arithmetic in the core wraps.
- hour.rs and date.rs import `super::*`, but src/dcf77/mod.rs defines
  none of `SectionInBitfield`, `code_dcf77` or `decode_dcf77`, so the crate
  as written does not build. `Section` defines them as described above.
  Decoding does not check `max_data`.
- Decoding reads with `create_pulse`'s weight order; `compute_pulse`'s
  reversed order is modelled separately and is not used by the section
  codec (see Findings).
- `println!` tracing in process_hour, process_minutes, process_day,
  process_month and process_year has no effect on the results and is left
  out.
- `std::io::Error::from_raw_os_error` payloads are replaced by the
  `Error` datatype: `RangeError(value)` carries the rejected input and
  `ParityError` stands for code 0.
- `try_into().unwrap()` panics become preconditions (`Dcf77.DecodeGeneric`,
  `Dcf77.DecodeGenericParity`, `Date.CodeYear`, `Frame.ToDcf77`).
- `DateTime<Utc>` is a record of integers. chrono's calendar logic is left
  out:
  - `with_ymd_and_hms(...).single().unwrap()` (which panics on an invalid
    date such as day 0);
  - `weekday().number_from_monday()`, whose value 1 to 7 the caller of
    `Frame.ToDcf77` supplies;
  - `date_naive`, `time()`, nanoseconds and time zones.
- The `DateTimeNacho` struct in src/dcf77/mod.rs is unused and left out.
- src/dcf77/mod.rs declares only `hour` and `date`, not `metadata`, and
  src/lib.rs:106 calls `process_announce_daylight_saving_switch`, which
  metadata.rs spells `process_daylight_saving_switch`. As written the crate
  does not build; the model wires the metadata functions in under the
  names metadata.rs defines.
- Tests that depend on `Utc::now()` and the commented-out tests of
  date.rs are not modelled; the properties they assert are stated as
  round-trip lemmas instead.

## Findings

| source | as written | input that shows it | evidently intended | confidence | as-written member | corrected member |
|---|---|---|---|---|---|---|
| src/dcf77/mod.rs:37-39 | `compute_pulse` pairs bit `i` with `BIT_WEIGHTS[7 - i]`, while `create_pulse` writes `BIT_WEIGHTS[j]` at bit `j` | `compute_pulse(create_pulse(1))` is 80 | reading bit `j` with `BIT_WEIGHTS[j]`, so that decoding inverts `create_pulse` for every value up to 165, as the round trips asserted by the tests in hour.rs and date.rs require; the broadcast order itself is the reverse within each field (see above) | high, not executed | `Dcf77.ComputeAfterCreateReversed` | `Dcf77.PulseOfWeight` |
