/**
 * The pulse codec and even-parity helpers of the DCF77 bit field
 * (src/dcf77/mod.rs).
 *
 * A DCF77 number is sent as a pattern of pulses whose weights are not
 * binary: bit `j` of a pattern stands for `BitWeights[j]`. `create_pulse`
 * turns a number into such a pattern greedily, largest weight first;
 * `compute_pulse` adds weights back up, but it pairs bit `i` with
 * `BitWeights[7 - i]`, the opposite order. Both are modelled as written.
 *
 * Numbers (`u16` values compared and added) are `nat`s; bit patterns
 * (`u16` and `u64` values combined with `&`, `|` and shifts) are words.
 */
module Dcf77 {
  import opened Bits

  /** Rust's `u8` used as a number. */
  type U8 = x: nat | x < 0x100

  /** Rust's `u16` used as a number. */
  type U16 = x: nat | x < 0x1_0000

  /** A `u16` used as a bit pattern. */
  type Word16 = w: Word | |w| == 16 witness Zero(16)

  /** A `u64` used as a bit pattern: the DCF77 carrier and its masks. */
  type Word64 = w: Word | |w| == 64 witness Zero(64)

  /** The errors the codec reports: a value out of range, or a failed parity check. */
  datatype Error = RangeError(value: nat) | ParityError

  datatype Result<+T> = Ok(value: T) | Err(error: Error)

  /** `BIT_WEIGHTS`: the weight of each pulse position, least significant first. */
  const BitWeights: seq<nat> := [1, 2, 4, 8, 10, 20, 40, 80]

  /** The sum of all weights: the largest number a pattern can stand for. */
  const WeightTotal: nat := 165

  /** The sum of the `n` smallest weights, `BitWeights[0]` to `BitWeights[n - 1]`. */
  function PrefixTotal(n: nat): nat
    requires n <= 8
  {
    if n == 0 then 0 else PrefixTotal(n - 1) + BitWeights[n - 1]
  }

  /** The sum of the `n` largest weights; with the `8 - n` smallest it makes up `WeightTotal`. */
  function TopTotal(n: nat): (t: nat)
    requires n <= 8
    ensures t + PrefixTotal(8 - n) == WeightTotal
  {
    if n == 0 then 0 else TopTotal(n - 1) + BitWeights[8 - n]
  }

  /**
   * Each weight is at most one more than the sum of all smaller weights, so
   * taking weights greedily, largest first, leaves nothing over for any
   * number up to `WeightTotal`.
   */
  lemma WeightsSuperIncreasing(k: nat)
    requires k < 8
    ensures BitWeights[k] <= PrefixTotal(k) + 1
  {
    PrefixTotals();
  }

  /** The sums of the smallest weights, one count at a time. */
  lemma PrefixTotals()
    ensures PrefixTotal(1) == 1 && PrefixTotal(2) == 3 && PrefixTotal(3) == 7 && PrefixTotal(4) == 15
    ensures PrefixTotal(5) == 25 && PrefixTotal(6) == 45 && PrefixTotal(7) == 85 && PrefixTotal(8) == 165
  {
    assert PrefixTotal(1) == 1 && PrefixTotal(2) == 3 && PrefixTotal(3) == 7 && PrefixTotal(4) == 15;
    assert PrefixTotal(5) == 25 && PrefixTotal(6) == 45 && PrefixTotal(7) == 85;
  }

  // ---------------------------------------------------------------------
  // proof_parity and compute_parity
  // ---------------------------------------------------------------------

  /**
   * `compute_parity`: the word has an odd number of set bits, which is the
   * exclusive or of all its bits.
   */
  function ComputeParity(input: Word64): (r: bool)
    ensures r <==> XorAll(input)
  {
    CountParity(input);
    Count(input) % 2 > 0
  }

  /**
   * `proof_parity`, documented as checking even parity against the given
   * parity bit. What it accepts is indeed even once the parity bit is
   * counted in, but it accepts nothing without the parity bit: an even
   * word with its parity bit rightly clear is refused.
   */
  function ProofParity(input: Word64, parity: bool): (r: bool)
    ensures r ==> (Count(input) + (if parity then 1 else 0)) % 2 == 0
    ensures !parity ==> !r
    ensures parity ==> (r <==> ComputeParity(input))
  {
    Count(input) % 2 > 0 && parity
  }

  /** Adding one bit outside a word flips its parity. */
  lemma ParityOfAddedBit(x: Word64, q: Word64)
    requires IsZero(And(x, q)) && Count(q) == 1
    ensures ComputeParity(Or(x, q)) <==> !ComputeParity(x)
  {
    CountOr(x, q);
  }

  // ---------------------------------------------------------------------
  // compute_pulse
  // ---------------------------------------------------------------------

  /**
   * What `compute_pulse` has added up after reading bits 0 to `n - 1`:
   * bit `i` adds `BitWeights[7 - i]`.
   */
  function ReadSum(b: Word, n: nat): (r: nat)
    requires n <= 8 <= |b|
    ensures r <= TopTotal(n)
  {
    if n == 0 then 0
    else ReadSum(b, n - 1) + (if b[n - 1] then BitWeights[7 - (n - 1)] else 0)
  }

  /** The value `compute_pulse` returns for a pattern; never more than `WeightTotal`. */
  function PulseValue(b: Word): (r: nat)
    requires 8 <= |b|
    ensures r <= WeightTotal
  {
    ReadSum(b, 8)
  }

  /** `compute_pulse`: adds `BitWeights[7 - index]` for every set bit `index` below 8. */
  method ComputePulse(input: Word16) returns (output: U16)
    ensures output == PulseValue(input)
  {
    output := 0;
    for index := 0 to 8
      invariant output == ReadSum(input, index)
    {
      var value := BitWeights[|BitWeights| - 1 - index];
      AndSingle(input, index);
      if !IsZero(And(input, Single(index, 16))) {
        output := output + value;
      }
    }
  }

  /** `compute_pulse` reads only bits 0 to 7: words that agree there read alike. */
  lemma {:induction false} ReadSumLowBits(a: Word, b: Word, n: nat)
    requires n <= 8 <= |a| && 8 <= |b|
    requires forall j :: 0 <= j < 8 ==> a[j] == b[j]
    ensures ReadSum(a, n) == ReadSum(b, n)
  {
    if n > 0 {
      ReadSumLowBits(a, b, n - 1);
    }
  }

  /** A pattern with no bit set reads as zero. */
  lemma {:induction false} ReadSumOfZero(b: Word, n: nat)
    requires n <= 8 <= |b| && IsZero(b)
    ensures ReadSum(b, n) == 0
  {
    if n > 0 {
      ReadSumOfZero(b, n - 1);
    }
  }

  // ---------------------------------------------------------------------
  // create_pulse
  // ---------------------------------------------------------------------

  /**
   * The number a pattern stands for when bit `j` carries `BitWeights[j]`
   * (the order `create_pulse` writes), summed over bits 0 to `n - 1`.
   */
  function WeightedSum(b: Word, n: nat): (r: nat)
    requires n <= 8 <= |b|
    ensures r <= PrefixTotal(n)
  {
    if n == 0 then 0
    else WeightedSum(b, n - 1) + (if b[n - 1] then BitWeights[n - 1] else 0)
  }

  /** The number a whole pattern stands for, in `create_pulse`'s order. */
  function PulseWeight(b: Word): (r: nat)
    requires 8 <= |b|
    ensures r <= WeightTotal
  {
    WeightedSum(b, 8)
  }

  /** A pattern with no bit set stands for zero. */
  lemma {:induction false} WeightedSumOfZero(b: Word, n: nat)
    requires n <= 8 <= |b| && IsZero(b)
    ensures WeightedSum(b, n) == 0
  {
    if n > 0 {
      WeightedSumOfZero(b, n - 1);
    }
  }

  /** Patterns that agree on bits 0 to 7 stand for the same number. */
  lemma {:induction false} WeightedSumLowBits(a: Word, b: Word, n: nat)
    requires n <= 8 <= |a| && 8 <= |b|
    requires forall j :: 0 <= j < 8 ==> a[j] == b[j]
    ensures WeightedSum(a, n) == WeightedSum(b, n)
  {
    if n > 0 {
      WeightedSumLowBits(a, b, n - 1);
    }
  }

  /** Bits from `width` to 7 that are clear add nothing: the sum stops growing at `width`. */
  lemma {:induction false} WeightedSumFits(b: Word, width: nat, n: nat)
    requires width <= n <= 8 <= |b|
    requires forall j :: width <= j < 8 ==> !b[j]
    ensures WeightedSum(b, n) == WeightedSum(b, width)
  {
    if n > width {
      WeightedSumFits(b, width, n - 1);
    }
  }

  /** Setting a clear bit `k` adds its weight once bit `k` is within the sum. */
  lemma {:induction false} WeightedSumSet(b: Word, k: nat, n: nat)
    requires k < 8 && n <= 8 <= |b| && !b[k]
    ensures WeightedSum(b[k := true], n) == WeightedSum(b, n) + (if k < n then BitWeights[k] else 0)
  {
    if n > 0 {
      WeightedSumSet(b, k, n - 1);
    }
  }

  /**
   * The state `(aux, output)` of `create_pulse`'s loop after `n` turns. Turn
   * `index` looks at `BitWeights[7 - index]`: when the remainder still holds
   * that weight, bit `7 - index` is set and the weight taken off.
   */
  function Greedy(input: nat, n: nat): (st: (nat, Word16))
    requires n <= 8
  {
    if n == 0 then
      (input, Zero(16))
    else
      var (aux, p) := Greedy(input, n - 1);
      var k := 8 - n;
      if aux >= BitWeights[k] then (aux - BitWeights[k], Or(p, Single(k, 16))) else (aux, p)
  }

  /**
   * Along `create_pulse`'s loop the remainder and the pattern together stand
   * for the input, bits not yet visited (and bits 8 to 15) stay clear, no
   * weight larger than the input is used, and for inputs up to
   * `WeightTotal` the remainder fits in the weights still to come.
   */
  lemma {:induction false} GreedyInvariant(input: nat, n: nat)
    requires n <= 8
    ensures Greedy(input, n).0 <= input
    ensures Greedy(input, n).0 + WeightedSum(Greedy(input, n).1, 8) == input
    ensures forall j :: 0 <= j < 8 - n ==> !Greedy(input, n).1[j]
    ensures FitsIn(Greedy(input, n).1, 8)
    ensures forall j :: 0 <= j < 8 && input < BitWeights[j] ==> !Greedy(input, n).1[j]
    ensures input <= WeightTotal ==> Greedy(input, n).0 <= PrefixTotal(8 - n)
  {
    if n == 0 {
      WeightedSumOfZero(Zero(16), 8);
      assert PrefixTotal(8) == WeightTotal;
    } else {
      GreedyInvariant(input, n - 1);
      var (aux, p) := Greedy(input, n - 1);
      var k := 8 - n;
      WeightsSuperIncreasing(k);
      assert PrefixTotal(k + 1) == PrefixTotal(k) + BitWeights[k];
      if aux >= BitWeights[k] {
        OrSingle(p, k);
        WeightedSumSet(p, k, 8);
      }
    }
  }

  /** The pattern `create_pulse` returns for a number. */
  function PulseOf(input: nat): Word16
  {
    Greedy(input, 8).1
  }

  /**
   * `create_pulse` is exact on its range: it sets only bits 0 to 7, every
   * number up to `WeightTotal` is the weight of its pattern, and no weight
   * larger than the number is used.
   */
  lemma PulseOfWeight(input: nat)
    ensures FitsIn(PulseOf(input), 8)
    ensures input <= WeightTotal ==> PulseWeight(PulseOf(input)) == input
    ensures forall j :: 0 <= j < 8 && input < BitWeights[j] ==> !PulseOf(input)[j]
  {
    GreedyInvariant(input, 8);
  }

  /** A number below every weight from `width` up has a pattern of at most `width` bits. */
  lemma PulseOfFits(input: nat, width: nat)
    requires width <= 8
    requires forall j :: width <= j < 8 ==> input < BitWeights[j]
    ensures FitsIn(PulseOf(input), width)
  {
    PulseOfWeight(input);
  }

  /** `create_pulse`: greedy decomposition of `input` over the weights, largest first. */
  method CreatePulse(input: U16) returns (output: Word16)
    ensures output == PulseOf(input)
  {
    var aux: U16 := input;
    output := Zero(16);
    for index := 0 to 8
      invariant (aux, output) == Greedy(input, index)
    {
      var value := BitWeights[|BitWeights| - 1 - index];
      if aux >= value {
        output := Or(output, Single(|BitWeights| - 1 - index, 16));
        aux := aux - value;
      }
    }
  }

  /**
   * `compute_pulse` does not undo `create_pulse`: the two loops pair bits
   * with weights in opposite orders, so 1 is written as bit 0 and read back
   * as 80.
   */
  lemma ComputeAfterCreateReversed()
    ensures PulseOf(1) == Single(0, 16)
    ensures PulseValue(PulseOf(1)) == 80
  {
    assert Greedy(1, 7) == (1, Zero(16));
    assert Or(Zero(16), Single(0, 16)) == Single(0, 16);
  }

  // ---------------------------------------------------------------------
  // code_generic
  // ---------------------------------------------------------------------

  /** The pulse pattern of `input`, widened to 64 bits, shifted to `offset` and cut down to `mask`. */
  function Placed(input: nat, mask: Word64, offset: nat): Word64
    requires offset < 64
  {
    And(Shl(Widen(PulseOf(input), 64), offset), mask)
  }

  /**
   * What `code_generic` returns: a range error carrying the input when it is
   * not below `maxValue`; otherwise the placed pattern, with `parityMask`
   * added when the parity mask is non-zero and the placed pattern has an odd
   * number of set bits. The result never leaves `mask | parityMask`, and
   * with a zero parity mask it never leaves `mask`.
   */
  function Coded(input: U16, mask: Word64, offset: nat, parityMask: Word64, maxValue: U16): (r: Result<Word64>)
    requires offset < 64
    ensures r.Err? <==> input >= maxValue
    ensures r.Err? ==> r.error == RangeError(input)
    ensures r.Ok? ==> Within(r.value, Or(mask, parityMask))
    ensures r.Ok? && IsZero(parityMask) ==> Within(r.value, mask)
  {
    if maxValue > input then
      var placed := Placed(input, mask, offset);
      Ok(if !IsZero(parityMask) && ComputeParity(placed) then Or(placed, parityMask) else placed)
    else
      Err(RangeError(input))
  }

  /** `code_generic`: range check, pulse coding, placement under the mask, even parity. */
  method CodeGeneric(input: U16, mask: Word64, offset: nat, parityMask: Word64, maxValue: U16)
    returns (r: Result<Word64>)
    requires offset < 64
    ensures r == Coded(input, mask, offset, parityMask, maxValue)
  {
    var codedValue: Word64;
    if maxValue > input {
      var pulse := CreatePulse(input);
      codedValue := Widen(pulse, 64);
      codedValue := And(Shl(codedValue, offset), mask);
      if !IsZero(parityMask) && ComputeParity(codedValue) {
        codedValue := Or(codedValue, parityMask);
      }
      r := Ok(codedValue);
    } else {
      r := Err(RangeError(input));
    }
  }

  /**
   * When the parity mask is a single bit outside `mask`, every coded value
   * has an even number of set bits: the parity bit is set exactly when the
   * placed data alone is odd.
   */
  lemma CodedEvenParity(input: U16, mask: Word64, offset: nat, parityMask: Word64, maxValue: U16)
    requires offset < 64 && input < maxValue
    requires IsZero(And(parityMask, mask)) && Count(parityMask) == 1
    ensures !ComputeParity(Coded(input, mask, offset, parityMask, maxValue).value)
    ensures Coded(input, mask, offset, parityMask, maxValue).value == Placed(input, mask, offset)
            || Coded(input, mask, offset, parityMask, maxValue).value == Or(Placed(input, mask, offset), parityMask)
    ensures And(Coded(input, mask, offset, parityMask, maxValue).value, parityMask) == parityMask
            <==> ComputeParity(Placed(input, mask, offset))
  {
    var placed := Placed(input, mask, offset);
    CountZero(parityMask);
    assert IsZero(And(placed, parityMask)) by {
      forall i | 0 <= i < 64
        ensures !(placed[i] && parityMask[i])
      {
        assert !And(parityMask, mask)[i];
      }
    }
    var q := Coded(input, mask, offset, parityMask, maxValue).value;
    if ComputeParity(placed) {
      ParityOfAddedBit(placed, parityMask);
      assert And(q, parityMask) == parityMask;
    } else {
      assert exists i :: 0 <= i < 64 && parityMask[i] && !And(q, parityMask)[i];
    }
  }

  // ---------------------------------------------------------------------
  // decode_generic and decode_generic_parity
  // ---------------------------------------------------------------------

  /**
   * `decode_generic`. By Rust's operator precedence the shift binds first,
   * so the word read is `input & (mask >> offset)`, not the field under
   * `mask`; its narrowing to `u16` must not fail.
   */
  function DecodeGeneric(input: Word64, mask: Word64, offset: nat): (r: nat)
    requires offset < 64
    requires FitsIn(And(input, Shr(mask, offset)), 16)
    ensures r <= WeightTotal
  {
    PulseValue(Narrow(And(input, Shr(mask, offset)), 16))
  }

  /** `decode_generic` reads zero whenever the input has no bit under `mask >> offset`. */
  lemma DecodeGenericOfOutside(input: Word64, mask: Word64, offset: nat)
    requires offset < 64
    requires IsZero(And(input, Shr(mask, offset)))
    ensures DecodeGeneric(input, mask, offset) == 0
  {
    ReadSumOfZero(Narrow(And(input, Shr(mask, offset)), 16), 8);
  }

  /**
   * `decode_generic_parity`: succeeds only when the data under `mask` has an
   * odd number of set bits and the parity bit is set, and then reads the
   * whole input shifted down by `offset`, which must fit in a byte.
   */
  function DecodeGenericParity(input: Word64, mask: Word64, offset: nat, parityMask: Word64): (r: Result<nat>)
    requires offset < 64
    requires ProofParity(And(input, mask), !IsZero(And(input, parityMask))) ==> FitsIn(Shr(input, offset), 8)
    ensures r.Ok? <==> Count(And(input, mask)) % 2 == 1 && !IsZero(And(input, parityMask))
    ensures r.Err? ==> r.error == ParityError
    ensures r.Ok? ==> r.value <= WeightTotal
  {
    if ProofParity(And(input, mask), !IsZero(And(input, parityMask))) then
      Ok(PulseValue(Widen(Narrow(Shr(input, offset), 8), 16)))
    else
      Err(ParityError)
  }

  /**
   * Whatever `decode_generic_parity` accepts has even parity over the data
   * and its (single) parity bit; but it also rejects every word whose data
   * has an even number of set bits, although the parity bit is then
   * correctly clear.
   */
  lemma DecodeGenericParityAccepts(input: Word64, mask: Word64, offset: nat, parityMask: Word64)
    requires offset < 64
    requires ProofParity(And(input, mask), !IsZero(And(input, parityMask))) ==> FitsIn(Shr(input, offset), 8)
    requires IsZero(And(parityMask, mask)) && Count(parityMask) == 1
    ensures DecodeGenericParity(input, mask, offset, parityMask).Ok? ==>
              Count(Or(And(input, mask), And(input, parityMask))) % 2 == 0
    ensures Count(And(input, mask)) % 2 == 0 ==> DecodeGenericParity(input, mask, offset, parityMask).Err?
  {
    if DecodeGenericParity(input, mask, offset, parityMask).Ok? {
      CountAndOne(input, parityMask);
      assert IsZero(And(And(input, mask), And(input, parityMask))) by {
        forall i | 0 <= i < 64
          ensures !(And(input, mask)[i] && And(input, parityMask)[i])
        {
          assert !And(parityMask, mask)[i];
        }
      }
      CountOr(And(input, mask), And(input, parityMask));
    }
  }
}
