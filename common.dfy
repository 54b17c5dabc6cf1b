/** The 64-bit packing macros and the millisecond time type of common.h.

    The macros are modelled on bit patterns: a C integer argument of at most
    32 bits is given as its 32-bit pattern (bv32), an int64_t as its 64-bit
    two's-complement pattern (bv64). */
module Common {

  datatype Option<T> = None | Some(value: T)

  /** `msec_t` is a C `int`. */
  newtype Msec = x: int | -0x8000_0000 <= x < 0x8000_0000

  /** `TIMEOUT_INFINITE` is `(msec_t) -1`. */
  const TIMEOUT_INFINITE: Msec := -1

  /** A finite timeout is a non-negative msec_t; the sentinel is never one of them. */
  lemma InfiniteIsNotFinite(msec: Msec)
    requires msec >= 0
    ensures msec != TIMEOUT_INFINITE
  {
  }

  /** `INT64_MAKE(lo, hi)` with the shift done without overflow:
      `((uint64_t) (unsigned int) hi << 32) | (unsigned int) lo`.
      Whether `hi` is signed or unsigned, its bits above the low 32 are shifted
      out, so only its 32-bit pattern matters; `lo` is zero-extended because of
      the `(unsigned int)` cast. */
  function Make(lo: bv32, hi: bv32): (x: bv64)
    ensures x == (hi as bv64) * 0x1_0000_0000 + (lo as bv64)
  {
    ((hi as bv64) << 32) | (lo as bv64)
  }

  /** `INT64_LOW(x)`: `(unsigned int) x`, the low 32 bits. */
  function Low(x: bv64): (lo: bv32)
    ensures lo as bv64 == x & 0xFFFF_FFFF
  {
    (x & 0xFFFF_FFFF) as bv32
  }

  /** `INT64_HIGH(x)`: `(unsigned int) (x >> 32)`. An arithmetic and a logical
      shift agree on the 32 bits that the cast keeps. */
  function High(x: bv64): (hi: bv32)
    ensures hi as bv64 == x >> 32
  {
    (x >> 32) as bv32
  }

  /** Section 6.5.7 of ISO C99: `E1 << E2` on a signed `E1` is defined only when
      `E1` is non-negative and `E1 * 2^E2` is representable. For
      `(int64_t) hi << 32` that is exactly "the top bit of hi's 32-bit pattern
      is clear", whether `hi` is an `int` or an `unsigned int`. */
  predicate ShiftDefined(hi: bv32)
  {
    hi & 0x8000_0000 == 0
  }

  /** `INT64_MAKE` as written: `((int64_t) (hi) << 32) | (unsigned int) (lo)`,
      with None where the signed shift is undefined behaviour. */
  function MakeAsWritten(lo: bv32, hi: bv32): (r: Option<bv64>)
    ensures r.Some? <==> ShiftDefined(hi)
    ensures r.Some? ==> r.value == Make(lo, hi)
  {
    if ShiftDefined(hi) then Some(((hi as bv64) << 32) | (lo as bv64)) else None
  }

  /** INT64_LOW(INT64_MAKE(lo, hi)) == lo. */
  lemma LowOfMake(lo: bv32, hi: bv32)
    ensures Low(Make(lo, hi)) == lo
  {
  }

  /** INT64_HIGH(INT64_MAKE(lo, hi)) == hi. */
  lemma HighOfMake(lo: bv32, hi: bv32)
    ensures High(Make(lo, hi)) == hi
  {
  }

  /** INT64_MAKE(INT64_LOW(x), INT64_HIGH(x)) == x for every 64-bit x. */
  lemma MakeOfParts(x: bv64)
    ensures Make(Low(x), High(x)) == x
  {
  }

  /** Where the macro as written is defined, the packed value is the
      non-negative int64 `hi * 2^32 + lo` and both halves come back out. */
  lemma {:induction false} MakeAsWrittenRoundTrip(lo: bv32, hi: bv32)
    requires ShiftDefined(hi)
    ensures MakeAsWritten(lo, hi).Some?
    ensures MakeAsWritten(lo, hi).value & 0x8000_0000_0000_0000 == 0
    ensures Low(MakeAsWritten(lo, hi).value) == lo
    ensures High(MakeAsWritten(lo, hi).value) == hi
  {
    LowOfMake(lo, hi);
    HighOfMake(lo, hi);
  }

  /** The macro as written cannot rebuild any negative int64 from its halves:
      INT64_HIGH of such a value has its top bit set, so the signed shift in
      INT64_MAKE overflows. x == -1 is one such value. */
  lemma MakeAsWrittenFailsOnNegative(x: bv64)
    requires x & 0x8000_0000_0000_0000 != 0
    ensures MakeAsWritten(Low(x), High(x)) == None
  {
  }

  /** Sign extension of a 32-bit `int`: what `(int64_t) lo` would give. */
  function SignExtend(v: bv32): (w: bv64)
    ensures w & 0xFFFF_FFFF == v as bv64
    ensures w >> 32 == if v & 0x8000_0000 == 0 then 0 else 0xFFFF_FFFF
  {
    if v & 0x8000_0000 == 0 then v as bv64 else (v as bv64) | 0xFFFF_FFFF_0000_0000
  }

  /** Why `lo` is cast to `unsigned int`: a negative `lo` left sign-extended
      would set every bit of the high half, while the macro keeps `hi`. */
  lemma {:induction false} NegativeLowKeepsHigh(lo: bv32, hi: bv32)
    requires lo & 0x8000_0000 != 0
    ensures High(Make(lo, hi)) == hi
    ensures High(((hi as bv64) << 32) | SignExtend(lo)) == 0xFFFF_FFFF
  {
    HighOfMake(lo, hi);
  }
}
