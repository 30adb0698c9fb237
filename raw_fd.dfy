/** `NonNegativeI32` (src/file/raw.rs): a non-negative `i32` stored in a
    `NonZeroU32` with the sign bit forced on, so that `Option<Self>` needs no
    extra space; decoding masks the sign bit off again.

    The bit operations on a 32-bit value are written as the arithmetic they
    perform: `u | NEG_FLAG` adds 2^31 unless bit 31 is already set, and
    `u & RANGE_MASK` keeps `u` modulo 2^31. */
module RawFd {
  import opened Wrappers
  import opened Machine

  const U32_LIMIT: int := 0x1_0000_0000
  /** `u32::MAX >> 1`, the largest value below the sign bit. */
  const RANGE_MASK: int := 0x7FFF_FFFF
  /** `!RANGE_MASK`: the weight of the sign bit. */
  const NEG_FLAG: int := 0x8000_0000

  /** A value of Rust's `u32`. */
  type U32 = x: int | 0 <= x < U32_LIMIT

  /** `NonZeroU32`. */
  type NonZeroU32 = x: int | 0 < x < U32_LIMIT witness 1

  datatype NonNegativeI32 = NonNegativeI32(bits: NonZeroU32)

  /** `i as u32`: the two's-complement reinterpretation. */
  function AsU32(i: I32): (u: U32)
    ensures i >= 0 ==> u == i
    ensures i < 0 ==> u >= NEG_FLAG
  {
    if i < 0 then i + U32_LIMIT else i
  }

  /** `u as i32`: the inverse reinterpretation. */
  function AsI32(u: U32): (i: I32)
    ensures AsU32(i) == u
    ensures i < 0 <==> SignBitSet(u)
  {
    if u >= NEG_FLAG then u - U32_LIMIT else u
  }

  /** `u & NEG_FLAG != 0`. */
  predicate SignBitSet(u: U32)
  {
    u >= NEG_FLAG
  }

  /** `u | NEG_FLAG`: sets the sign bit and keeps the lower 31 bits. */
  function OrNegFlag(u: U32): (r: U32)
    ensures SignBitSet(r)
    ensures AndRangeMask(r) == AndRangeMask(u)
  {
    if SignBitSet(u) then u else u + NEG_FLAG
  }

  /** `u & RANGE_MASK`: clears the sign bit and keeps the lower 31 bits. */
  function AndRangeMask(u: U32): (r: U32)
    ensures !SignBitSet(r)
    ensures !SignBitSet(u) ==> r == u
    ensures SignBitSet(u) ==> r == u - NEG_FLAG
  {
    u % NEG_FLAG
  }

  /** `is_negative`: tests the sign bit of `val as u32`, which is set exactly
      for the negative values. */
  function IsNegative(val: I32): (r: bool)
    ensures r <==> val < 0
  {
    SignBitSet(AsU32(val))
  }

  /** The store of every value built by `new` or `new_unchecked`: the sign
      bit is set. */
  predicate Encoded(x: NonNegativeI32)
  {
    SignBitSet(x.bits)
  }

  /** `new`: `None` exactly for a negative value; otherwise an encoded store
      that decodes back to `raw`. */
  function New(raw: I32): (r: Option<NonNegativeI32>)
    ensures r.None? <==> raw < 0
    ensures r.Some? ==> Encoded(r.value) && Get(r.value) == raw
  {
    if IsNegative(raw) then None
    else Some(NonNegativeI32(OrNegFlag(AsU32(raw))))
  }

  /** `get`: masks the sign bit off, so the result is never negative, and it
      is the store less 2^31 for an encoded store. */
  function Get(x: NonNegativeI32): (r: I32)
    ensures r >= 0
    ensures Encoded(x) ==> r == x.bits - NEG_FLAG
  {
    AsI32(AndRangeMask(x.bits))
  }

  /** `new_unchecked`: stores `raw as u32 | NEG_FLAG` without testing the
      sign. The store is encoded, but a negative `raw` decodes to
      `raw + 2^31`, not to `raw`. */
  function NewUnchecked(raw: I32): (r: NonNegativeI32)
    ensures Encoded(r)
    ensures raw >= 0 ==> Get(r) == raw && Some(r) == New(raw)
    ensures raw < 0 ==> Get(r) == raw + NEG_FLAG
  {
    NonNegativeI32(OrNegFlag(AsU32(raw)))
  }

  /** `new_or`: `or` exactly when `raw` is negative. */
  function NewOr(raw: I32, or: NonNegativeI32): (r: NonNegativeI32)
    ensures raw < 0 ==> r == or
    ensures raw >= 0 ==> Encoded(r) && Get(r) == raw
  {
    match New(raw)
    case Some(v) => v
    case None => or
  }

  /** `new_or_else`: calls `f` exactly when `raw` is negative. */
  function NewOrElse(raw: I32, f: () -> NonNegativeI32): (r: NonNegativeI32)
    ensures raw < 0 ==> r == f()
    ensures raw >= 0 ==> Encoded(r) && Get(r) == raw
  {
    match New(raw)
    case Some(v) => v
    case None => f()
  }

  /** `new_or_panic`, and `From<i32>` which calls it: panics exactly when
      `raw` is negative, otherwise round-trips. */
  function NewOrPanic(raw: I32): (r: Run<NonNegativeI32>)
    ensures r.Panicked? <==> raw < 0
    ensures r.Returned? ==> Encoded(r.value) && Get(r.value) == raw
  {
    match New(raw)
    case Some(v) => Returned(v)
    case None => Panicked
  }

  /** `PartialEq<i32> for NonNegativeI32`: on an encoded store, equality with
      an `i32` holds exactly when the store is that value's encoding. */
  function EqI32(x: NonNegativeI32, i: I32): (r: bool)
    ensures r ==> i >= 0
    ensures Encoded(x) ==> (r <==> New(i) == Some(x))
  {
    Get(x) == i
  }

  /** `PartialEq<NonNegativeI32> for i32`: the same relation seen from the
      other side. */
  function I32EqNonNegative(i: I32, x: NonNegativeI32): (r: bool)
    ensures r == EqI32(x, i)
  {
    i == Get(x)
  }

  /** `PartialOrd<i32> for NonNegativeI32`: always defined; compares the
      decoded value, so `x` is above every negative `i32`. */
  function PartialCmpI32(x: NonNegativeI32, i: I32): (r: Option<Ordering>)
    ensures r.Some?
    ensures r.value == Equal <==> EqI32(x, i)
    ensures r.value == Less <==> Get(x) < i
    ensures i < 0 ==> r.value == Greater
  {
    Some(Compare(Get(x), i))
  }

  /** `PartialOrd<NonNegativeI32> for i32`: the mirror image of
      `PartialCmpI32`. */
  function I32PartialCmp(i: I32, x: NonNegativeI32): (r: Option<Ordering>)
    ensures r.Some?
    ensures r.value == Less <==> PartialCmpI32(x, i).value == Greater
    ensures r.value == Equal <==> I32EqNonNegative(i, x)
  {
    Some(Compare(i, Get(x)))
  }

  /** `From<NonNegativeI32> for i32`. */
  function IntoI32(x: NonNegativeI32): (r: I32)
    ensures r >= 0
    ensures Encoded(x) ==> New(r) == Some(x)
  {
    Get(x)
  }

  /** The derived `Ord` of `NonNegativeI32`: compares the stored `u32`s. */
  function CmpStore(a: NonNegativeI32, b: NonNegativeI32): (r: Ordering)
    ensures r == Equal <==> a == b
  {
    Compare(a.bits, b.bits)
  }

  /** Decoding after `new` gives back every non-negative value, and encoding
      after decoding gives back every encoded store. */
  lemma NewRoundTrip(raw: I32, x: NonNegativeI32)
    ensures raw >= 0 ==> New(raw).Some? && Get(New(raw).value) == raw
    ensures Encoded(x) ==> New(Get(x)) == Some(x)
  {
  }

  /** The stored `u32` always has its sign bit set, so it is never zero,
      whichever constructor built it; `new` and `new_unchecked` agree on
      every value `new` accepts. */
  lemma StoreNeverZero(raw: I32)
    ensures Encoded(NewUnchecked(raw)) && NewUnchecked(raw).bits >= NEG_FLAG
    ensures New(raw).Some? ==> New(raw) == Some(NewUnchecked(raw))
  {
  }

  /** On encoded stores, the derived order and equality agree with the
      order and equality of the decoded `i32`s. */
  lemma StoreOrderMatchesValue(a: NonNegativeI32, b: NonNegativeI32)
    requires Encoded(a) && Encoded(b)
    ensures CmpStore(a, b) == Compare(Get(a), Get(b))
    ensures a == b <==> Get(a) == Get(b)
  {
  }
}
