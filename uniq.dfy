/** `UniqueSlice<u8>` (src/uniq.rs): the exclusive owner of the bytes between
    two non-null addresses `mem` and `end`. The element type is fixed to `u8`,
    so `size_of::<T>()` is 1 and `len()` is a plain byte distance. */
module Uniq {
  import opened Wrappers
  import opened Machine

  datatype UniqueSlice = UniqueSlice(mem: Ptr, end: Ptr)

  /** `*const [u8]` / `*mut [u8]`: a base address and an element count. */
  datatype RawSlice = RawSlice(ptr: Ptr, len: Usize)

  /** `Range<*mut u8>`. */
  datatype PtrRange = PtrRange(start: Ptr, end: Ptr)

  /** `is_empty`: the two addresses coincide. */
  predicate IsEmpty(s: UniqueSlice)
  {
    s.mem == s.end
  }

  /** `len`: `end.sub(mem) as usize / size_of::<u8>()`. It is zero exactly for
      the empty slice, and the byte distance whenever `mem <= end`. */
  function Len(s: UniqueSlice): (n: Usize)
    ensures n == 0 <==> IsEmpty(s)
    ensures s.mem <= s.end ==> s.mem + n == s.end
  {
    WrappingSub(s.end, s.mem) / 1
  }

  /** `get_ptr`: no pointer for an empty slice, otherwise its start. */
  function GetPtr(s: UniqueSlice): (r: Option<Ptr>)
    ensures r.None? <==> IsEmpty(s)
    ensures r.Some? ==> r.value == s.mem
  {
    if IsEmpty(s) then None else Some(s.mem)
  }

  /** `first`: the address of the first byte, which lies inside the slice. */
  function First(s: UniqueSlice): (r: Option<Usize>)
    ensures r.None? <==> Len(s) == 0
    ensures r.Some? ==> r.value == s.mem
    ensures r.Some? && s.mem <= s.end ==> s.mem <= r.value < s.end
  {
    if IsEmpty(s) then None else Some(s.mem)
  }

  /** `last`: the address of the last byte, one before `end`, which lies
      inside the slice. */
  function Last(s: UniqueSlice): (r: Option<Usize>)
    ensures r.None? <==> Len(s) == 0
    ensures r.Some? ==> r.value + 1 == s.end
    ensures r.Some? && s.mem <= s.end ==> s.mem <= r.value < s.end && r.value == s.mem + Len(s) - 1
  {
    if IsEmpty(s) then None else Some(s.end - 1)
  }

  /** `first_mut` points where `first` does. */
  function FirstMut(s: UniqueSlice): (r: Option<Usize>)
    ensures r == First(s)
  {
    if IsEmpty(s) then None else Some(s.mem)
  }

  /** `last_mut` points where `last` does. */
  function LastMut(s: UniqueSlice): (r: Option<Usize>)
    ensures r == Last(s)
  {
    if IsEmpty(s) then None else Some(s.end - 1)
  }

  /** `as_raw_slice`: both branches describe the same slice, starting at
      `mem` with `len()` elements. */
  function AsRawSlice(s: UniqueSlice): (r: RawSlice)
    ensures r.ptr == s.mem && r.len == Len(s)
  {
    if IsEmpty(s) then RawSlice(s.mem, 0) else RawSlice(s.mem, Len(s))
  }

  /** `as_raw_slice_mut` describes the same slice as `as_raw_slice`. */
  function AsRawSliceMut(s: UniqueSlice): (r: RawSlice)
    ensures r == AsRawSlice(s)
  {
    if IsEmpty(s) then RawSlice(s.mem, 0) else RawSlice(s.mem, Len(s))
  }

  /** `as_ptr_range`: `mem..end`, whose width is `len()` for a slice that
      does not wrap. */
  function AsPtrRange(s: UniqueSlice): (r: PtrRange)
    ensures r.start == s.mem && r.end == s.end
    ensures s.mem <= s.end ==> r.end - r.start == Len(s)
  {
    PtrRange(s.mem, s.end)
  }

  /** `PartialEq::eq`: pointer equality of both addresses, which is equality
      of the slices. */
  function Eq(a: UniqueSlice, b: UniqueSlice): (r: bool)
    ensures r <==> a == b
  {
    a.mem == b.mem && a.end == b.end
  }

  /** `Ord::cmp`: compares the `end` addresses only. */
  function Cmp(a: UniqueSlice, b: UniqueSlice): (r: Ordering)
    ensures r == Equal <==> a.end == b.end
    ensures r == Less <==> a.end < b.end
  {
    Compare(a.end, b.end)
  }

  /** `PartialOrd::partial_cmp`: always defined, and equal to `cmp`. */
  function PartialCmp(a: UniqueSlice, b: UniqueSlice): (r: Option<Ordering>)
    ensures r == Some(Cmp(a, b))
  {
    Some(Compare(a.end, b.end))
  }

  /** As written, `cmp` and `eq` disagree: two distinct slices that share an
      `end` compare `Equal`. */
  lemma CmpDisagreesWithEq()
    ensures var a, b := UniqueSlice(1, 5), UniqueSlice(2, 5);
      Cmp(a, b) == Equal && !Eq(a, b)
  {
  }

  /** An ordering consistent with `eq`: by `end`, then by `mem`. */
  function CmpByRange(a: UniqueSlice, b: UniqueSlice): (r: Ordering)
    ensures Cmp(a, b) != Equal ==> r == Cmp(a, b)
  {
    if a.end != b.end then Compare(a.end, b.end) else Compare(a.mem, b.mem)
  }

  /** The corrected ordering is `Equal` exactly when the slices are equal,
      and it is antisymmetric. */
  lemma CmpByRangeConsistent(a: UniqueSlice, b: UniqueSlice)
    ensures CmpByRange(a, b) == Equal <==> Eq(a, b)
    ensures CmpByRange(a, b) == Less <==> CmpByRange(b, a) == Greater
  {
  }

  /** A one-byte slice has its first and last byte at the same address. */
  lemma FirstIsLastOfOneByte(s: UniqueSlice)
    requires s.mem <= s.end && Len(s) == 1
    ensures First(s) == Last(s) == Some(s.mem)
  {
  }
}
