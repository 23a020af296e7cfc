/** The bit-field primitives of bit.c: unsigned field extraction, sign
    extension by a left shift followed by an arithmetic right shift, and a
    single-bit test, all over 64-bit words. */
module Bits {

  /** A bit position 0..63. The C functions take a uint32_t here, but a
      shift by 64 or more is undefined in C, so only these positions are
      meaningful. */
  type Index = bv6

  /** The word whose bits 0..n-1 are set and the others clear: 2^n - 1. */
  function Below(n: Index): bv64 { ((1 as bv64) << n) - 1 }

  lemma MaskLemma(count: Index)
    requires 1 <= count <= 32
    ensures ((0xffff_ffff as bv32) >> (32 - count)) as bv64 == Below(count)
  {}

  /** get_bits: the count-bit unsigned field of num starting at bit start,
      that is, (num >> start) modulo 2^count. A count of 0 would shift the
      32-bit mask by 32, which C leaves undefined, hence 1 <= count. */
  function GetBits(num: bv64, start: Index, count: Index): (r: bv32)
    requires 1 <= count <= 32
    ensures r as bv64 == (num >> start) & Below(count)
    ensures (r as bv64) < 1 << count
  {
    var mask: bv32 := 0xffff_ffff >> (32 - count);
    MaskLemma(count);
    ((num >> start) & mask as bv64) as bv32
  }

  lemma BitTestFwd(num: bv64, which: Index)
    requires (num >> which) & 1 == 1
    ensures num & (1 << which) != 0
  {}

  lemma BitTestBwd(num: bv64, which: Index)
    requires num & (1 << which) != 0
    ensures (num >> which) & 1 == 1
  {}

  /** Bit `which` shifted down to bit 0 is set exactly when the
      single-bit mask finds it. */
  lemma BitTest(num: bv64, which: Index)
    ensures (num >> which) & 1 == 1 <==> num & (1 << which) != 0
  {
    if (num >> which) & 1 == 1 { BitTestFwd(num, which); }
    if num & (1 << which) != 0 { BitTestBwd(num, which); }
  }

  /** get_bit: whether bit `which` of num is set. */
  predicate GetBit(num: bv64, which: Index)
    ensures GetBit(num, which) <==> GetBits(num, which, 1) == 1
    ensures GetBit(num, which) <==> num & (1 << which) != 0
  {
    BitTest(num, which);
    (num >> which) & 1 == 1
  }

  /** The uint64_t shifts x << n and x >> n for an amount below 64. */
  function Shl(x: bv64, n: Index): bv64 { x << n }
  function Shr(x: bv64, n: Index): bv64 { x >> n }

  /** Whether x is a shift amount C defines for a 64-bit operand. */
  predicate ShiftInRange(x: bv64) { x < 64 }

  /** The uint64_t sum, difference and product, modulo 2^64, and the
      bitwise and. */
  function Add(x: bv64, y: bv64): bv64 { x + y }
  function Sub(x: bv64, y: bv64): bv64 { x - y }
  function Mul(x: bv64, y: bv64): bv64 { x * y }
  function And(x: bv64, y: bv64): bv64 { x & y }

  /** The int64_t value a 64-bit pattern stands for in two's complement. */
  function ToSigned(x: bv64): int
  {
    if x < 0x8000_0000_0000_0000 then x as int else x as int - 0x1_0000_0000_0000_0000
  }

  /** `>>` on an int64_t: a right shift that copies the sign bit (bit 63)
      into the vacated high positions. */
  function ArithShiftRight(x: bv64, n: Index): bv64
  {
    if x & 0x8000_0000_0000_0000 != 0 then (x >> n) | !(0xffff_ffff_ffff_ffff >> n) else x >> n
  }

  /** sign_extend: bit `start` is the sign; it is shifted up to bit 63 and
      arithmetically shifted back down by the same distance. */
  function SignExtend(num: bv64, start: Index): bv64
  {
    var distance := 63 - start;
    ArithShiftRight(num << distance, distance)
  }

  lemma ExtendSet0(num: bv64, start: Index)
    requires num & (1 << start) != 0 && start < 16
    ensures SignExtend(num, start) == num | !Below(start)
  {}

  lemma ExtendClear0(num: bv64, start: Index)
    requires num & (1 << start) == 0 && start < 16
    ensures SignExtend(num, start) == num & Below(start)
  {}

  lemma ExtendSet16(num: bv64, start: Index)
    requires num & (1 << start) != 0 && 16 <= start < 32
    ensures SignExtend(num, start) == num | !Below(start)
  {}

  lemma ExtendClear16(num: bv64, start: Index)
    requires num & (1 << start) == 0 && 16 <= start < 32
    ensures SignExtend(num, start) == num & Below(start)
  {}

  lemma ExtendSet32(num: bv64, start: Index)
    requires num & (1 << start) != 0 && 32 <= start < 48
    ensures SignExtend(num, start) == num | !Below(start)
  {}

  lemma ExtendClear32(num: bv64, start: Index)
    requires num & (1 << start) == 0 && 32 <= start < 48
    ensures SignExtend(num, start) == num & Below(start)
  {}

  lemma ExtendSet48(num: bv64, start: Index)
    requires num & (1 << start) != 0 && 48 <= start < 56
    ensures SignExtend(num, start) == num | !Below(start)
  {}

  lemma ExtendClear48(num: bv64, start: Index)
    requires num & (1 << start) == 0 && 48 <= start < 56
    ensures SignExtend(num, start) == num & Below(start)
  {}

  lemma ExtendSet56(num: bv64, start: Index)
    requires num & (1 << start) != 0 && 56 <= start
    ensures SignExtend(num, start) == num | !Below(start)
  {}

  lemma ExtendClear56(num: bv64, start: Index)
    requires num & (1 << start) == 0 && 56 <= start
    ensures SignExtend(num, start) == num & Below(start)
  {}

  lemma ExtendSet(num: bv64, start: Index)
    requires num & (1 << start) != 0
    ensures SignExtend(num, start) == num | !Below(start)
  {
    if start < 16 { ExtendSet0(num, start); }
    else if start < 32 { ExtendSet16(num, start); }
    else if start < 48 { ExtendSet32(num, start); }
    else if start < 56 { ExtendSet48(num, start); }
    else { ExtendSet56(num, start); }
  }

  lemma ExtendClear(num: bv64, start: Index)
    requires num & (1 << start) == 0
    ensures SignExtend(num, start) == num & Below(start)
  {
    if start < 16 { ExtendClear0(num, start); }
    else if start < 32 { ExtendClear16(num, start); }
    else if start < 48 { ExtendClear32(num, start); }
    else if start < 56 { ExtendClear48(num, start); }
    else { ExtendClear56(num, start); }
  }

  /** sign_extend in closed form: with the sign bit set every bit from
      `start` up is set, with it clear every bit from `start` up is cleared,
      and bits below `start` are those of num. */
  lemma SignExtendClosedForm(num: bv64, start: Index)
    ensures GetBit(num, start) ==> SignExtend(num, start) == num | !Below(start)
    ensures !GetBit(num, start) ==> SignExtend(num, start) == num & Below(start)
  {
    if num & (1 << start) != 0 { ExtendSet(num, start); } else { ExtendClear(num, start); }
  }

  lemma LowBitSet(num: bv64, start: Index, i: Index)
    requires num & (1 << start) != 0 && i <= start
    ensures (num | !Below(start)) & (1 << i) == num & (1 << i)
  {}

  lemma LowBitClear(num: bv64, start: Index, i: Index)
    requires num & (1 << start) == 0 && i <= start
    ensures (num & Below(start)) & (1 << i) == num & (1 << i)
  {}

  /** Bits 0..start of the result are those of num. */
  lemma SignExtendLowBits(num: bv64, start: Index, i: Index)
    requires i <= start
    ensures GetBit(SignExtend(num, start), i) == GetBit(num, i)
  {
    if num & (1 << start) != 0 {
      ExtendSet(num, start); LowBitSet(num, start, i);
    } else {
      ExtendClear(num, start); LowBitClear(num, start, i);
    }
  }

  /** Every bit above `start` is a copy of bit `start`. */
  lemma SignExtendHighBits(num: bv64, start: Index, i: Index)
    requires start < i
    ensures GetBit(SignExtend(num, start), i) == GetBit(num, start)
  {
    SignExtendClosedForm(num, start);
  }

  /** The result is negative exactly when bit `start` of num is set, and as
      a two's-complement value it lies in [-2^start, 2^start). */
  lemma SignExtendRange(num: bv64, start: Index)
    ensures ToSigned(SignExtend(num, start)) < 0 <==> GetBit(num, start)
    ensures GetBit(num, start) ==> SignExtend(num, start) >= -(1 << start)
    ensures !GetBit(num, start) ==> SignExtend(num, start) < 1 << start
  {
    SignExtendClosedForm(num, start);
  }

  lemma SmallFacts(num: bv64, start: Index)
    requires num < 1 << start
    ensures num & (1 << start) == 0 && num & Below(start) == num
  {}

  /** A value that already fits below the sign bit is unchanged. */
  lemma SignExtendSmall(num: bv64, start: Index)
    requires num < 1 << start
    ensures SignExtend(num, start) == num
  {
    SmallFacts(num, start);
    ExtendClear(num, start);
  }

  /** The two worked cases: 7 fits below bit 3 and is kept, while 8 has
      bit 3 set and reads back as -8. */
  lemma SignExtendExamples()
    ensures SignExtend(7, 3) == 7
    ensures ToSigned(SignExtend(8, 3)) == -8
  {
    SignExtendSmall(7, 3);
    ExtendSet(8, 3);
  }

  lemma IdemSet(num: bv64, start: Index)
    requires num & (1 << start) != 0
    ensures (num | !Below(start)) & (1 << start) != 0
    ensures (num | !Below(start)) | !Below(start) == num | !Below(start)
  {}

  lemma IdemClear(num: bv64, start: Index)
    requires num & (1 << start) == 0
    ensures (num & Below(start)) & (1 << start) == 0
    ensures (num & Below(start)) & Below(start) == num & Below(start)
  {}

  lemma FixedSet(r: bv64, start: Index)
    requires r & (1 << start) != 0 && r | !Below(start) == r
    ensures SignExtend(r, start) == r
  {
    ExtendSet(r, start);
  }

  lemma FixedClear(r: bv64, start: Index)
    requires r & (1 << start) == 0 && r & Below(start) == r
    ensures SignExtend(r, start) == r
  {
    ExtendClear(r, start);
  }

  lemma IdempotentSet(num: bv64, start: Index)
    requires num & (1 << start) != 0
    ensures SignExtend(SignExtend(num, start), start) == SignExtend(num, start)
  {
    var r := SignExtend(num, start);
    ExtendSet(num, start);
    IdemSet(num, start);
    FixedSet(r, start);
  }

  lemma IdempotentClear(num: bv64, start: Index)
    requires num & (1 << start) == 0
    ensures SignExtend(SignExtend(num, start), start) == SignExtend(num, start)
  {
    var r := SignExtend(num, start);
    ExtendClear(num, start);
    IdemClear(num, start);
    FixedClear(r, start);
  }

  /** Extending an extended value again at the same position changes nothing. */
  lemma SignExtendIdempotent(num: bv64, start: Index)
    ensures SignExtend(SignExtend(num, start), start) == SignExtend(num, start)
  {
    if num & (1 << start) != 0 {
      IdempotentSet(num, start);
    } else {
      IdempotentClear(num, start);
    }
  }
}
