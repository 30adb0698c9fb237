/** `UnmanagedFD` (src/file/unmanaged.rs): a file descriptor that is named
    but not owned, stored as a `NonNegativeI32`. Dropping it closes
    nothing, so the model has no drop. */
module Unmanaged {
  import opened Wrappers
  import opened Machine
  import opened RawFd

  datatype UnmanagedFD = UnmanagedFD(fd: NonNegativeI32)

  /** The values the public constructors build: the store is an encoding. */
  predicate Valid(u: UnmanagedFD)
  {
    Encoded(u.fd)
  }

  /** `UnmanagedFD::new`: aliases the descriptor `alias.as_raw_fd()`, going
      through the panicking `From<i32>`; it panics exactly for a negative
      descriptor and otherwise names that descriptor. */
  function New(aliasFd: I32): (r: Run<UnmanagedFD>)
    ensures r.Panicked? <==> aliasFd < 0
    ensures r.Returned? ==> Valid(r.value) && AsRawFd(r.value) == aliasFd
  {
    match RawFd.NewOrPanic(aliasFd)
    case Returned(v) => Returned(UnmanagedFD(v))
    case Panicked => Panicked
  }

  /** `new_or_panic`: panics exactly for a negative descriptor. */
  function NewOrPanic(raw: I32): (r: Run<UnmanagedFD>)
    ensures r.Panicked? <==> raw < 0
    ensures r.Returned? ==> Valid(r.value) && Get(r.value) == raw
  {
    match RawFd.NewOrPanic(raw)
    case Returned(v) => Returned(UnmanagedFD(v))
    case Panicked => Panicked
  }

  /** `new_unchecked`: never panics; a negative `raw` is stored as
      `raw | NEG_FLAG` and so reads back as `raw + 2^31`. */
  function NewUnchecked(raw: I32): (r: UnmanagedFD)
    ensures Valid(r)
    ensures raw >= 0 ==> Get(r) == raw
    ensures raw < 0 ==> Get(r) == raw + NEG_FLAG
  {
    UnmanagedFD(RawFd.NewUnchecked(raw))
  }

  /** `get`: the descriptor, never negative. */
  function Get(u: UnmanagedFD): (r: I32)
    ensures r >= 0
    ensures Valid(u) ==> RawFd.New(r) == Some(u.fd)
  {
    RawFd.Get(u.fd)
  }

  /** `AsRawFd::as_raw_fd`: the same descriptor as `get`. */
  function AsRawFd(u: UnmanagedFD): (r: I32)
    ensures r == Get(u)
  {
    RawFd.Get(u.fd)
  }

  /** `From<RawFd> for UnmanagedFD`: a negative descriptor panics, at the
      debug assertion or, in a release build, in the panicking `From<i32>`;
      past that test the conversion cannot fail. */
  function FromRaw(from: I32): (r: Run<UnmanagedFD>)
    ensures r.Panicked? <==> from < 0
    ensures r.Returned? ==> Valid(r.value) && Get(r.value) == from
  {
    if from < 0 then Panicked
    else Returned(UnmanagedFD(RawFd.NewOrPanic(from).value))
  }

  /** `FromRawFd::from_raw_fd`: the panicking `From<i32>` without the debug
      assertion; the same outcome as `From<RawFd>`. */
  function FromRawFd(fd: I32): (r: Run<UnmanagedFD>)
    ensures r == FromRaw(fd)
  {
    match RawFd.NewOrPanic(fd)
    case Returned(v) => Returned(UnmanagedFD(v))
    case Panicked => Panicked
  }

  /** `From<UnmanagedFD> for RawFd`. */
  function IntoRaw(u: UnmanagedFD): (r: I32)
    ensures r == Get(u)
  {
    RawFd.Get(u.fd)
  }

  /** The derived `Ord` of `UnmanagedFD`, which is that of the store. */
  function Cmp(a: UnmanagedFD, b: UnmanagedFD): (r: Ordering)
    ensures r == Equal <==> a == b
  {
    CmpStore(a.fd, b.fd)
  }

  /** Converting a descriptor in and back out gives it back, and converting
      a valid value out and back in gives it back. */
  lemma RoundTrip(raw: I32, u: UnmanagedFD)
    ensures raw >= 0 ==> FromRaw(raw).Returned? && IntoRaw(FromRaw(raw).value) == raw
    ensures Valid(u) ==> FromRaw(IntoRaw(u)) == Returned(u)
  {
    if Valid(u) {
      RawFd.NewRoundTrip(0, u.fd);
    }
  }

  /** On valid values, the derived equality and order are those of the
      descriptors they name. */
  lemma OrderIsDescriptorOrder(a: UnmanagedFD, b: UnmanagedFD)
    requires Valid(a) && Valid(b)
    ensures Cmp(a, b) == Compare(Get(a), Get(b))
    ensures a == b <==> Get(a) == Get(b)
  {
    StoreOrderMatchesValue(a.fd, b.fd);
  }
}
