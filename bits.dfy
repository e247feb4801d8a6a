/** Rust's `u64` words and the bit operations the card set and the registers use, on unbounded
    naturals: a word is a `nat` below 2^64 and every operation is defined bit by bit. */
module Bits {

  /** 2^n, i.e. `1u64 << n` for n < 64. */
  function Pow2(n: nat): (r: nat)
    ensures r >= 1
  {
    if n == 0 then 1 else 2 * Pow2(n - 1)
  }

  /** 2^64, one more than the largest `u64`; written out so that no proof has to evaluate
      `Pow2(64)`. */
  const WORD_BOUND: nat := 0x1_0000_0000_0000_0000

  /** `1u64 << 63`, the top bit of a word. */
  const TOP_BIT: nat := 0x8000_0000_0000_0000

  /** A `u64` value. */
  type Word = w: nat | w < WORD_BOUND

  /** Bit `i` of `w`, bit 0 being the least significant. */
  predicate Bit(w: nat, i: nat)
  {
    if i == 0 then w % 2 == 1 else Bit(w / 2, i - 1)
  }

  /** `a & b`. */
  function And(a: nat, b: nat): nat
  {
    if a == 0 || b == 0 then 0
    else 2 * And(a / 2, b / 2) + (if a % 2 == 1 && b % 2 == 1 then 1 else 0)
  }

  /** `a | b`. */
  function Or(a: nat, b: nat): nat
  {
    if a == 0 then b
    else if b == 0 then a
    else 2 * Or(a / 2, b / 2) + (if a % 2 == 1 || b % 2 == 1 then 1 else 0)
  }

  /** `a ^ b`. */
  function Xor(a: nat, b: nat): nat
  {
    if a == 0 then b
    else if b == 0 then a
    else 2 * Xor(a / 2, b / 2) + (if a % 2 != b % 2 then 1 else 0)
  }

  /** The complement of `a` within `n` bits; `!a` on a `u64` is `NotN(a, 64)`. */
  function NotN(a: nat, n: nat): nat
  {
    if n == 0 then 0 else 2 * NotN(a / 2, n - 1) + (if a % 2 == 1 then 0 else 1)
  }

  /** `count_ones`. */
  function PopCount(w: nat): nat
  {
    if w == 0 then 0 else w % 2 + PopCount(w / 2)
  }

  /** The number of set bits of `w` at positions `lo <= i < hi`. */
  function CountIn(w: nat, lo: nat, hi: nat): nat
    decreases hi - lo
  {
    if lo >= hi then 0 else (if Bit(w, lo) then 1 else 0) + CountIn(w, lo + 1, hi)
  }

  /** `trailing_zeros` of a `u64`: 64 for the zero word. */
  function TrailingZeros(w: nat): nat
  {
    if w == 0 then 64 else LowestBit(w)
  }

  /** The position of the lowest set bit of a non-zero value. */
  function LowestBit(w: nat): nat
    requires w > 0
  {
    if w % 2 == 1 then 0 else 1 + LowestBit(w / 2)
  }

  /** The number of significant bits: 0 for 0, otherwise one more than the highest set bit. */
  function BitLength(w: nat): nat
  {
    if w == 0 then 0 else 1 + BitLength(w / 2)
  }

  /** `leading_zeros` of a `u64`: 64 for the zero word. */
  function LeadingZeros(w: Word): (r: nat)
    ensures r <= 64
  {
    Pow2Of64();
    BitLengthBound(w, 64);
    64 - BitLength(w)
  }

  /** The mask of the bits at positions `lo <= i < hi`. */
  function RangeMask(lo: nat, hi: nat): nat
  {
    if hi == 0 then 0
    else if lo == 0 then 2 * RangeMask(0, hi - 1) + 1
    else 2 * RangeMask(lo - 1, hi - 1)
  }

  /** `w << 1` on a `u64`: the top bit falls off. */
  function Shl1(w: Word): Word
  {
    if w < TOP_BIT then 2 * w else 2 * w - WORD_BOUND
  }

  /** `w >> 1` on a `u64`. */
  function Shr1(w: Word): Word
  {
    w / 2
  }

  // ---------------------------------------------------------------------------------------------
  // Powers of two

  lemma {:induction false} Pow2Monotonic(m: nat, n: nat)
    requires m < n
    ensures Pow2(m) < Pow2(n)
  {
    if m < n - 1 {
      Pow2Monotonic(m, n - 1);
    }
  }

  /** Comparing two powers of two compares their exponents. */
  lemma Pow2Compare(m: nat, n: nat)
    ensures Pow2(m) <= Pow2(n) <==> m <= n
    ensures Pow2(m) == Pow2(n) <==> m == n
  {
    if m < n {
      Pow2Monotonic(m, n);
    } else if n < m {
      Pow2Monotonic(n, m);
    }
  }

  lemma {:induction false} Pow2Add(a: nat, b: nat)
    ensures Pow2(a + b) == Pow2(a) * Pow2(b)
  {
    if b > 0 {
      Pow2Add(a, b - 1);
    }
  }

  /** The values of the powers the card set and the cursors use, built up from 2^4. */
  lemma Pow2Of16()
    ensures Pow2(4) == 0x10 && Pow2(16) == 0x1_0000
  {
    Pow2Add(4, 4);
    Pow2Add(8, 8);
  }

  lemma Pow2Of32()
    ensures Pow2(32) == 0x1_0000_0000
  {
    Pow2Of16();
    Pow2Add(16, 16);
  }

  lemma Pow2Of52()
    ensures Pow2(52) == 0x10_0000_0000_0000
  {
    Pow2Of16();
    Pow2Of32();
    Pow2Add(32, 16);
    Pow2Add(48, 4);
  }

  lemma Pow2Of64()
    ensures Pow2(63) == TOP_BIT && Pow2(64) == WORD_BOUND
  {
    Pow2Of32();
    Pow2Add(32, 32);
  }

  lemma Pow2IsWord(n: nat)
    requires n < 64
    ensures Pow2(n) < WORD_BOUND
  {
    Pow2Monotonic(n, 64);
    Pow2Of64();
  }

  // ---------------------------------------------------------------------------------------------
  // Bits of the operations

  lemma BitOfDouble(x: nat, b: nat, i: nat)
    requires b < 2
    ensures Bit(2 * x + b, i) == if i == 0 then b == 1 else Bit(x, i - 1)
  {
    assert (2 * x + b) / 2 == x;
  }

  lemma {:induction false} BitOfZero(i: nat)
    ensures !Bit(0, i)
  {
    if i > 0 {
      BitOfZero(i - 1);
    }
  }

  lemma {:induction false} BitOfPow2(n: nat, i: nat)
    ensures Bit(Pow2(n), i) <==> i == n
  {
    if n == 0 {
      if i > 0 {
        BitOfDouble(0, 1, i);
        BitOfZero(i - 1);
      }
    } else {
      BitOfDouble(Pow2(n - 1), 0, i);
      if i > 0 {
        BitOfPow2(n - 1, i - 1);
      }
    }
  }

  lemma {:induction false} BitOfAnd(a: nat, b: nat, i: nat)
    ensures Bit(And(a, b), i) <==> Bit(a, i) && Bit(b, i)
  {
    if a == 0 || b == 0 {
      BitOfZero(i);
    } else {
      var c := if a % 2 == 1 && b % 2 == 1 then 1 else 0;
      BitOfDouble(And(a / 2, b / 2), c, i);
      if i > 0 {
        BitOfAnd(a / 2, b / 2, i - 1);
      }
    }
  }

  lemma {:induction false} BitOfOr(a: nat, b: nat, i: nat)
    ensures Bit(Or(a, b), i) <==> Bit(a, i) || Bit(b, i)
  {
    if a == 0 {
      BitOfZero(i);
    } else if b == 0 {
      BitOfZero(i);
    } else {
      var c := if a % 2 == 1 || b % 2 == 1 then 1 else 0;
      BitOfDouble(Or(a / 2, b / 2), c, i);
      if i > 0 {
        BitOfOr(a / 2, b / 2, i - 1);
      }
    }
  }

  lemma {:induction false} BitOfXor(a: nat, b: nat, i: nat)
    ensures Bit(Xor(a, b), i) <==> Bit(a, i) != Bit(b, i)
  {
    if a == 0 {
      BitOfZero(i);
    } else if b == 0 {
      BitOfZero(i);
    } else {
      var c := if a % 2 != b % 2 then 1 else 0;
      BitOfDouble(Xor(a / 2, b / 2), c, i);
      if i > 0 {
        BitOfXor(a / 2, b / 2, i - 1);
      }
    }
  }

  lemma {:induction false} BitOfNotN(a: nat, n: nat, i: nat)
    ensures Bit(NotN(a, n), i) <==> i < n && !Bit(a, i)
  {
    if n == 0 {
      BitOfZero(i);
    } else {
      var c := if a % 2 == 1 then 0 else 1;
      BitOfDouble(NotN(a / 2, n - 1), c, i);
      if i > 0 {
        BitOfNotN(a / 2, n - 1, i - 1);
      }
    }
  }

  lemma {:induction false} BitOfRangeMask(lo: nat, hi: nat, i: nat)
    ensures Bit(RangeMask(lo, hi), i) <==> lo <= i < hi
  {
    if hi == 0 {
      BitOfZero(i);
    } else if lo == 0 {
      BitOfDouble(RangeMask(0, hi - 1), 1, i);
      if i > 0 {
        BitOfRangeMask(0, hi - 1, i - 1);
      }
    } else {
      BitOfDouble(RangeMask(lo - 1, hi - 1), 0, i);
      if i > 0 {
        BitOfRangeMask(lo - 1, hi - 1, i - 1);
      }
    }
  }

  // ---------------------------------------------------------------------------------------------
  // Bits determine values

  /** Two values with the same bits are equal. */
  lemma {:induction false} BitsEqual(a: nat, b: nat)
    requires forall i: nat :: Bit(a, i) == Bit(b, i)
    ensures a == b
    decreases a + b
  {
    if a != 0 || b != 0 {
      assert Bit(a, 0) == Bit(b, 0);
      forall i: nat
        ensures Bit(a / 2, i) == Bit(b / 2, i)
      {
        assert Bit(a, i + 1) == Bit(b, i + 1);
      }
      BitsEqual(a / 2, b / 2);
    }
  }

  /** A value below 2^n has no bit at or above n. */
  lemma {:induction false} BitAboveBound(w: nat, n: nat, i: nat)
    requires w < Pow2(n) && n <= i
    ensures !Bit(w, i)
  {
    if n == 0 {
      BitOfZero(i);
    } else {
      BitAboveBound(w / 2, n - 1, i - 1);
    }
  }

  /** A value with no bit at or above n is below 2^n. */
  lemma {:induction false} BoundFromBits(w: nat, n: nat)
    requires forall i: nat :: n <= i ==> !Bit(w, i)
    ensures w < Pow2(n)
  {
    if n == 0 {
      forall i: nat
        ensures Bit(w, i) == Bit(0, i)
      {
        BitOfZero(i);
      }
      BitsEqual(w, 0);
    } else {
      forall i: nat | n - 1 <= i
        ensures !Bit(w / 2, i)
      {
        assert !Bit(w, i + 1);
      }
      BoundFromBits(w / 2, n - 1);
    }
  }

  // ---------------------------------------------------------------------------------------------
  // Width of the results

  lemma OrBound(a: nat, b: nat, n: nat)
    requires a < Pow2(n) && b < Pow2(n)
    ensures Or(a, b) < Pow2(n)
  {
    forall i: nat | n <= i
      ensures !Bit(Or(a, b), i)
    {
      BitOfOr(a, b, i);
      BitAboveBound(a, n, i);
      BitAboveBound(b, n, i);
    }
    BoundFromBits(Or(a, b), n);
  }

  lemma XorBound(a: nat, b: nat, n: nat)
    requires a < Pow2(n) && b < Pow2(n)
    ensures Xor(a, b) < Pow2(n)
  {
    forall i: nat | n <= i
      ensures !Bit(Xor(a, b), i)
    {
      BitOfXor(a, b, i);
      BitAboveBound(a, n, i);
      BitAboveBound(b, n, i);
    }
    BoundFromBits(Xor(a, b), n);
  }

  lemma AndBound(a: nat, b: nat, n: nat)
    requires a < Pow2(n) || b < Pow2(n)
    ensures And(a, b) < Pow2(n)
  {
    forall i: nat | n <= i
      ensures !Bit(And(a, b), i)
    {
      BitOfAnd(a, b, i);
      if a < Pow2(n) {
        BitAboveBound(a, n, i);
      } else {
        BitAboveBound(b, n, i);
      }
    }
    BoundFromBits(And(a, b), n);
  }

  lemma NotNBound(a: nat, n: nat)
    ensures NotN(a, n) < Pow2(n)
  {
    forall i: nat | n <= i
      ensures !Bit(NotN(a, n), i)
    {
      BitOfNotN(a, n, i);
    }
    BoundFromBits(NotN(a, n), n);
  }

  lemma RangeMaskBound(lo: nat, hi: nat)
    ensures RangeMask(lo, hi) < Pow2(hi)
  {
    forall i: nat | hi <= i
      ensures !Bit(RangeMask(lo, hi), i)
    {
      BitOfRangeMask(lo, hi, i);
    }
    BoundFromBits(RangeMask(lo, hi), hi);
  }

  // ---------------------------------------------------------------------------------------------
  // Single bits

  /** Masking with a single bit keeps that bit or nothing. */
  lemma AndPow2(w: nat, i: nat)
    ensures And(w, Pow2(i)) == (if Bit(w, i) then Pow2(i) else 0)
    ensures And(Pow2(i), w) == And(w, Pow2(i))
    ensures And(w, Pow2(i)) != 0 <==> Bit(w, i)
  {
    var r := if Bit(w, i) then Pow2(i) else 0;
    forall j: nat
      ensures Bit(And(w, Pow2(i)), j) == Bit(r, j)
      ensures Bit(And(Pow2(i), w), j) == Bit(r, j)
    {
      BitOfAnd(w, Pow2(i), j);
      BitOfAnd(Pow2(i), w, j);
      BitOfPow2(i, j);
      BitOfZero(j);
    }
    BitsEqual(And(w, Pow2(i)), r);
    BitsEqual(And(Pow2(i), w), r);
  }

  /** `1 << n` has bit `n` and no other. */
  lemma OnlyBitOfPow2(n: nat)
    ensures forall i :: Bit(Pow2(n), i) <==> i == n
  {
    forall i
      ensures Bit(Pow2(n), i) <==> i == n
    {
      BitOfPow2(n, i);
    }
  }

  lemma {:induction false} PopCountPow2(n: nat)
    ensures PopCount(Pow2(n)) == 1
  {
    if n > 0 {
      PopCountPow2(n - 1);
      assert Pow2(n) / 2 == Pow2(n - 1);
    }
  }

  lemma {:induction false} LowestBitPow2(n: nat)
    ensures LowestBit(Pow2(n)) == n
  {
    if n > 0 {
      LowestBitPow2(n - 1);
      assert Pow2(n) / 2 == Pow2(n - 1);
    }
  }

  lemma TrailingZerosPow2(n: nat)
    ensures TrailingZeros(Pow2(n)) == n
  {
    LowestBitPow2(n);
  }

  /** The lowest set bit is set and nothing below it is. */
  lemma {:induction false} LowestBitIsLowest(w: nat, i: nat)
    requires w > 0
    ensures Bit(w, LowestBit(w))
    ensures i < LowestBit(w) ==> !Bit(w, i)
  {
    if w % 2 == 0 {
      LowestBitIsLowest(w / 2, if i > 0 then i - 1 else 0);
    }
  }

  /** `w < 2^n` bounds the number of significant bits by n. */
  lemma {:induction false} BitLengthBound(w: nat, n: nat)
    requires w < Pow2(n)
    ensures BitLength(w) <= n
  {
    if w > 0 {
      BitLengthBound(w / 2, n - 1);
    }
  }

  /** Bit `BitLength(w) - 1` is the highest set bit. */
  lemma {:induction false} BitLengthIsHighest(w: nat, i: nat)
    ensures w > 0 ==> Bit(w, BitLength(w) - 1)
    ensures BitLength(w) <= i ==> !Bit(w, i)
  {
    if w == 0 {
      BitOfZero(i);
    } else if w / 2 == 0 {
      assert w == 1;
      if i > 0 {
        BitOfZero(i - 1);
      }
    } else {
      BitLengthIsHighest(w / 2, if i > 0 then i - 1 else 0);
    }
  }

  lemma Shl1Pow2(n: nat)
    requires n < 63
    ensures Pow2(n) < WORD_BOUND && Shl1(Pow2(n)) == Pow2(n + 1)
  {
    Pow2Monotonic(n, 63);
    Pow2Of64();
  }

  /** `Shl1` is the doubling of a `u64` modulo 2^64. */
  lemma Shl1IsWrapping(w: Word)
    ensures Shl1(w) == (w * 2) % WORD_BOUND
  {
  }

  lemma Shr1Pow2(n: nat)
    requires n < 64
    ensures Pow2(n) < WORD_BOUND
    ensures Shr1(Pow2(n)) == if n == 0 then 0 else Pow2(n - 1)
  {
    Pow2IsWord(n);
  }

  // ---------------------------------------------------------------------------------------------
  // Counting

  lemma {:induction false} CountInZero(lo: nat, hi: nat)
    ensures CountIn(0, lo, hi) == 0
    decreases hi - lo
  {
    if lo < hi {
      BitOfZero(lo);
      CountInZero(lo + 1, hi);
    }
  }

  lemma {:induction false} CountInShift(w: nat, lo: nat, hi: nat)
    ensures CountIn(w, lo + 1, hi + 1) == CountIn(w / 2, lo, hi)
    decreases hi - lo
  {
    if lo < hi {
      CountInShift(w, lo + 1, hi);
    }
  }

  /** `count_ones` counts the set bits below the width. */
  lemma {:induction false} PopCountIsCount(w: nat, n: nat)
    requires w < Pow2(n)
    ensures PopCount(w) == CountIn(w, 0, n)
  {
    if w == 0 {
      CountInZero(0, n);
    } else {
      PopCountIsCount(w / 2, n - 1);
      CountInShift(w, 0, n - 1);
    }
  }

  lemma {:induction false} CountInSplit(w: nat, lo: nat, mid: nat, hi: nat)
    requires lo <= mid <= hi
    ensures CountIn(w, lo, hi) == CountIn(w, lo, mid) + CountIn(w, mid, hi)
    decreases mid - lo
  {
    if lo < mid {
      CountInSplit(w, lo + 1, mid, hi);
    }
  }

  lemma {:induction false} CountInCongruent(a: nat, b: nat, lo: nat, hi: nat)
    requires forall i: nat :: lo <= i < hi ==> Bit(a, i) == Bit(b, i)
    ensures CountIn(a, lo, hi) == CountIn(b, lo, hi)
    decreases hi - lo
  {
    if lo < hi {
      CountInCongruent(a, b, lo + 1, hi);
    }
  }

  /** The population of a word masked to `[lo, hi)` counts the word's bits in that range. */
  lemma PopCountInRange(w: nat, lo: nat, hi: nat)
    requires lo <= hi <= 64
    ensures PopCount(And(w, RangeMask(lo, hi))) == CountIn(w, lo, hi)
  {
    var m := And(w, RangeMask(lo, hi));
    assert PopCount(m) == CountIn(m, 0, 64) by {
      RangeMaskBound(lo, hi);
      Pow2Compare(hi, 64);
      AndBound(w, RangeMask(lo, hi), 64);
      PopCountIsCount(m, 64);
    }
    assert forall i: nat :: Bit(m, i) <==> Bit(w, i) && lo <= i < hi by {
      forall i: nat
        ensures Bit(m, i) <==> Bit(w, i) && lo <= i < hi
      {
        BitOfAnd(w, RangeMask(lo, hi), i);
        BitOfRangeMask(lo, hi, i);
      }
    }
    assert CountIn(m, 0, lo) == 0 && CountIn(m, hi, 64) == 0 by {
      forall i: nat | 0 <= i < lo || hi <= i < 64
        ensures Bit(m, i) == Bit(0, i)
      {
        BitOfZero(i);
      }
      CountInCongruent(m, 0, 0, lo);
      CountInCongruent(m, 0, hi, 64);
      CountInZero(0, lo);
      CountInZero(hi, 64);
    }
    assert CountIn(m, lo, hi) == CountIn(w, lo, hi) by {
      CountInCongruent(m, w, lo, hi);
    }
    CountInSplit(m, 0, lo, 64);
    CountInSplit(m, lo, hi, 64);
  }

  /** Setting the bit just above a range mask extends the range by one. */
  lemma RangeMaskGrow(lo: nat, hi: nat)
    requires lo <= hi
    ensures Or(RangeMask(lo, hi), Pow2(hi)) == RangeMask(lo, hi + 1)
  {
    forall i: nat
      ensures Bit(Or(RangeMask(lo, hi), Pow2(hi)), i) == Bit(RangeMask(lo, hi + 1), i)
    {
      BitOfOr(RangeMask(lo, hi), Pow2(hi), i);
      BitOfRangeMask(lo, hi, i);
      BitOfRangeMask(lo, hi + 1, i);
      BitOfPow2(hi, i);
    }
    BitsEqual(Or(RangeMask(lo, hi), Pow2(hi)), RangeMask(lo, hi + 1));
  }

  /** Setting one more bit inside a range adds one to its count. */
  lemma CountInOneMore(a: nat, b: nat, lo: nat, hi: nat, j: nat)
    requires lo <= j < hi && !Bit(a, j) && Bit(b, j)
    requires forall i: nat :: lo <= i < hi && i != j ==> Bit(a, i) == Bit(b, i)
    ensures CountIn(b, lo, hi) == CountIn(a, lo, hi) + 1
  {
    CountInSplit(a, lo, j, hi);
    CountInSplit(b, lo, j, hi);
    assert CountIn(a, j, hi) == CountIn(a, j + 1, hi);
    assert CountIn(b, j, hi) == 1 + CountIn(b, j + 1, hi);
    CountInCongruent(a, b, lo, j);
    CountInCongruent(a, b, j + 1, hi);
  }

  /** An empty range has an empty mask. */
  lemma {:induction false} RangeMaskEmpty(lo: nat)
    ensures RangeMask(lo, lo) == 0
  {
    if lo > 0 {
      RangeMaskEmpty(lo - 1);
    }
  }

  /** Only the zero word has no set bits. */
  lemma {:induction false} PopCountZero(w: nat)
    ensures PopCount(w) == 0 <==> w == 0
  {
    if w > 0 {
      PopCountZero(w / 2);
    }
  }
}
