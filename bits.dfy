/**
 * Machine words as sequences of bits, least significant bit first; the
 * length of the sequence is the width of the word (8, 16 or 64 here). The
 * bitwise operators the codec uses (`&`, `|`, `^`, `<<`, `>>`, widening and
 * narrowing conversions, comparison with zero and `count_ones`) are defined
 * bit by bit, so that every fact about them is a fact about one position.
 */
module Bits {

  /** A machine word, least significant bit first. */
  type Word = seq<bool>

  /** The word `0`. */
  function Zero(width: nat): (w: Word)
    ensures |w| == width
  {
    seq(width, i requires 0 <= i < width => false)
  }

  /** The word `1 << k`. */
  function Single(k: nat, width: nat): (w: Word)
    requires k < width
    ensures |w| == width
  {
    seq(width, i requires 0 <= i < width => i == k)
  }

  /** The word `(1 << n) - 1`: the `n` low bits set. */
  function Ones(n: nat, width: nat): (w: Word)
    requires n <= width
    ensures |w| == width
  {
    seq(width, i requires 0 <= i < width => i < n)
  }

  /** `a & b`. */
  function And(a: Word, b: Word): (w: Word)
    requires |a| == |b|
    ensures |w| == |a|
  {
    seq(|a|, i requires 0 <= i < |a| => a[i] && b[i])
  }

  /** `a | b`. */
  function Or(a: Word, b: Word): (w: Word)
    requires |a| == |b|
    ensures |w| == |a|
  {
    seq(|a|, i requires 0 <= i < |a| => a[i] || b[i])
  }

  /** `a ^ b`. */
  function Xor(a: Word, b: Word): (w: Word)
    requires |a| == |b|
    ensures |w| == |a|
  {
    seq(|a|, i requires 0 <= i < |a| => a[i] != b[i])
  }

  /** `a << n`: bits shifted past the top are lost. Rust refuses shifts by the width or more. */
  function Shl(a: Word, n: nat): (w: Word)
    requires n < |a|
    ensures |w| == |a|
  {
    seq(|a|, i requires 0 <= i < |a| => n <= i && a[i - n])
  }

  /** `a >> n` (logical). */
  function Shr(a: Word, n: nat): (w: Word)
    requires n < |a|
    ensures |w| == |a|
  {
    seq(|a|, i requires 0 <= i < |a| => i + n < |a| && a[i + n])
  }

  /** A lossless conversion to a wider word (`into()`). */
  function Widen(a: Word, width: nat): (w: Word)
    requires |a| <= width
    ensures |w| == width
  {
    seq(width, i requires 0 <= i < width => i < |a| && a[i])
  }

  /** The word is zero (so `0 < a` fails). */
  predicate IsZero(a: Word)
  {
    forall i :: 0 <= i < |a| ==> !a[i]
  }

  /** The word has no bit at `width` or above, so `try_into` a `width`-bit type succeeds. */
  predicate FitsIn(a: Word, width: nat)
  {
    forall i :: width <= i < |a| ==> !a[i]
  }

  /** A checked conversion to a narrower word (`try_into().unwrap()`). */
  function Narrow(a: Word, width: nat): (w: Word)
    requires width <= |a| && FitsIn(a, width)
    ensures |w| == width
  {
    a[..width]
  }

  /** Every set bit of `a` is set in `m`, so `a & !m == 0`. */
  predicate Within(a: Word, m: Word)
    requires |a| == |m|
  {
    forall i :: 0 <= i < |a| && a[i] ==> m[i]
  }

  /** The number of set bits (`count_ones`). */
  function Count(a: Word): (n: nat)
    ensures n <= |a|
  {
    if a == [] then 0 else (if a[0] then 1 else 0) + Count(a[1..])
  }

  /** The exclusive or of all bits of a word: its parity, bit by bit. */
  function XorAll(a: Word): bool
  {
    if a == [] then false else a[0] != XorAll(a[1..])
  }

  // ---------------------------------------------------------------------
  // Bit tests
  // ---------------------------------------------------------------------

  /** `a & (1 << k) > 0` tests bit `k`. */
  lemma AndSingle(a: Word, k: nat)
    requires k < |a|
    ensures !IsZero(And(a, Single(k, |a|))) <==> a[k]
  {
    if a[k] {
      assert And(a, Single(k, |a|))[k];
    }
  }

  /** `a | (1 << k)` sets bit `k` and leaves every other bit as it was. */
  lemma OrSingle(a: Word, k: nat)
    requires k < |a|
    ensures Or(a, Single(k, |a|)) == a[k := true]
  {
  }

  /** Setting a bit commutes with widening. */
  lemma WidenOrSingle(a: Word, k: nat, width: nat)
    requires k < |a| <= width
    ensures Widen(Or(a, Single(k, |a|)), width) == Or(Widen(a, width), Single(k, width))
  {
  }

  /** `a | b == a` when `b` is zero. */
  lemma OrZero(a: Word, b: Word)
    requires |a| == |b| && IsZero(b)
    ensures Or(a, b) == a
  {
  }

  /** `(1 << k) & m == 0` when bit `k` of `m` is clear. */
  lemma SingleOutside(k: nat, m: Word)
    requires k < |m| && !m[k]
    ensures IsZero(And(Single(k, |m|), m))
  {
  }

  /** `(a & m) | (a & q) == a & (m | q)`. */
  lemma AndOverOr(a: Word, m: Word, q: Word)
    requires |a| == |m| == |q|
    ensures Or(And(a, m), And(a, q)) == And(a, Or(m, q))
  {
  }

  /** Flipping bits outside `m` leaves `a & m` alone. */
  lemma XorOutside(a: Word, m: Word, q: Word)
    requires |a| == |m| == |q| && IsZero(And(q, m))
    ensures And(Xor(a, q), m) == And(a, m)
  {
    forall i | 0 <= i < |a|
      ensures And(Xor(a, q), m)[i] == And(a, m)[i]
    {
      assert !And(q, m)[i];
    }
  }

  /** A word inside `m | q` is the union of its parts under `m` and under `q`. */
  lemma SplitWithin(a: Word, m: Word, q: Word)
    requires |a| == |m| == |q| && Within(a, Or(m, q))
    ensures Or(And(a, m), And(a, q)) == a
  {
    forall i | 0 <= i < |a|
      ensures Or(And(a, m), And(a, q))[i] == a[i]
    {
      if a[i] {
        assert Or(m, q)[i];
      }
    }
  }

  /** Flipping bits of `q` keeps a word inside `m | q`. */
  lemma XorWithin(a: Word, m: Word, q: Word)
    requires |a| == |m| == |q| && Within(a, Or(m, q))
    ensures Within(Xor(a, q), Or(m, q))
  {
    forall i | 0 <= i < |a| && Xor(a, q)[i]
      ensures Or(m, q)[i]
    {
      if a[i] {
        assert Or(m, q)[i];
      }
    }
  }

  /** A word inside `m` is unchanged by `& m`. */
  lemma AndWithin(a: Word, m: Word)
    requires |a| == |m| && Within(a, m)
    ensures And(a, m) == a
  {
    forall i | 0 <= i < |a|
      ensures And(a, m)[i] == a[i]
    {
      if a[i] {
        assert m[i];
      }
    }
  }

  /** Flipping a bit inside `m` and then cutting down to `m` is cutting down and then flipping. */
  lemma AndFlipInside(a: Word, m: Word, k: nat)
    requires |a| == |m| && k < |m| && m[k]
    ensures And(Xor(a, Single(k, |m|)), m) == Xor(And(a, m), Single(k, |m|))
  {
  }

  /** Widening zero gives zero. */
  lemma WidenZero(n: nat, width: nat)
    requires n <= width
    ensures Widen(Zero(n), width) == Zero(width)
  {
  }

  // ---------------------------------------------------------------------
  // Counting bits
  // ---------------------------------------------------------------------

  /** Counting a union of two disjoint words adds their counts. */
  lemma {:induction false} CountUnion(a: Word, b: Word, c: Word)
    requires |a| == |b| == |c|
    requires forall i :: 0 <= i < |c| ==> (c[i] <==> a[i] || b[i])
    requires forall i :: 0 <= i < |c| ==> !(a[i] && b[i])
    ensures Count(c) == Count(a) + Count(b)
  {
    if c != [] {
      CountUnion(a[1..], b[1..], c[1..]);
    }
  }

  /** `count_ones(a | b) == count_ones(a) + count_ones(b)` when `a & b == 0`. */
  lemma CountOr(a: Word, b: Word)
    requires |a| == |b| && IsZero(And(a, b))
    ensures Count(Or(a, b)) == Count(a) + Count(b)
  {
    forall i | 0 <= i < |a|
      ensures !(a[i] && b[i])
    {
      assert !And(a, b)[i];
    }
    CountUnion(a, b, Or(a, b));
  }

  /** A word counts zero exactly when it is zero. */
  lemma {:induction false} CountZero(a: Word)
    ensures Count(a) == 0 <==> IsZero(a)
  {
    if a != [] {
      CountZero(a[1..]);
      if IsZero(a[1..]) && !a[0] {
        forall i | 0 <= i < |a|
          ensures !a[i]
        {
          if i > 0 {
            assert a[i] == a[1..][i - 1];
          }
        }
      }
    }
  }

  /** Clearing bits never raises the count. */
  lemma {:induction false} CountWithin(a: Word, b: Word)
    requires |a| == |b| && Within(a, b)
    ensures Count(a) <= Count(b)
  {
    if a != [] {
      CountWithin(a[1..], b[1..]);
    }
  }

  /** A word with exactly one set bit, masked by any word, is that bit or nothing. */
  lemma CountAndOne(x: Word, q: Word)
    requires |x| == |q| && Count(q) == 1
    ensures IsZero(And(x, q)) || Count(And(x, q)) == 1
  {
    CountWithin(And(x, q), q);
    CountZero(And(x, q));
  }

  /** `count_ones(1 << k) == 1`. */
  lemma {:induction false} CountSingle(k: nat, width: nat)
    requires k < width
    ensures Count(Single(k, width)) == 1
  {
    if k == 0 {
      CountZero(Single(k, width)[1..]);
    } else {
      assert Single(k, width)[1..] == Single(k - 1, width - 1);
      CountSingle(k - 1, width - 1);
    }
  }

  /** A word has an odd number of set bits exactly when the exclusive or of its bits is 1. */
  lemma {:induction false} CountParity(a: Word)
    ensures Count(a) % 2 == 1 <==> XorAll(a)
  {
    if a != [] {
      CountParity(a[1..]);
    }
  }

  /** Flipping one bit changes the count by one, up or down. */
  lemma CountFlip(a: Word, k: nat)
    requires k < |a|
    ensures Count(Xor(a, Single(k, |a|))) == Count(a) + 1 || Count(a) == Count(Xor(a, Single(k, |a|))) + 1
  {
    var q := Single(k, |a|);
    CountSingle(k, |a|);
    if a[k] {
      CountUnion(Xor(a, q), q, a);
    } else {
      CountUnion(a, q, Xor(a, q));
    }
  }
}
