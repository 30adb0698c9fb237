/** `MappedFile<T>` (src/lib.rs): a memory mapping that owns both the file it
    maps and the `MappedSlice` of address space the mapping occupies. The
    mapping calls go to the `Kernel` object; `T::as_raw_fd` is a parameter
    `asRawFd`, and the kernel's decisions are an oracle `oracle(i)` for the
    `i`-th `mmap` of a call. */
module MappedFiles {
  import opened Wrappers
  import opened Machine
  import opened MmapFlags
  import opened Uniq
  import opened Kernel
  import RawFd

  /** A mapping over `file`. Its `mapping` (the field `map`) is the `MappedSlice`, which unmaps
      `[mem, mem + len())` when dropped. */
  datatype MappedFile<T> = MappedFile(file: T, mapping: UniqueSlice)

  /** `TryNewError<T>`: the error, with the value that was passed in. */
  datatype TryNewError<T> = TryNewError(error: IoError, value: T)

  /** The handle type `B` of a dual buffer: a counted reference to the one
      file, whose `as_raw_fd` is that file's. */
  datatype SharedHandle<T> = SharedHandle(inner: T)

  /** `Anonymous`, the file of an anonymous mapping. */
  datatype Anonymous = Anonymous

  /** The outcome of a constructor: a mapping, an error carrying the file
      back, or a panic. */
  type Outcome<T> = Run<Result<MappedFile<T>, TryNewError<T>>>

  /** The sender `tx` and the receiver `rx` of a dual buffer. */
  type Pair<T> = (MappedFile<SharedHandle<T>>, MappedFile<SharedHandle<T>>)

  type PairOutcome<T> = Run<Result<Pair<T>, TryNewError<T>>>

  /** `NonZeroUsize`, the number of rings. */
  type NonZeroUsize = x: int | 0 < x < USIZE_LIMIT witness 1

  // ---------------------------------------------------------------------
  // The address checks every mapping macro performs

  /** What a mapping macro makes of the address `mmap` returned. */
  datatype Mapping = MapFailed | InvalidAddress | Mapped(slice: UniqueSlice)

  /** `MAP_FAILED` is a failure; a null address, or one whose `add(len)` is
      null, panics; otherwise the slice starts at the address and spans
      exactly `len` bytes. */
  function SliceAt(p: Usize, len: Usize): (r: Mapping)
    ensures r.MapFailed? <==> p == MAP_FAILED
    ensures r.InvalidAddress? <==> p != MAP_FAILED && (p == NULL || WrappingAdd(p, len) == 0)
    ensures r.Mapped? ==> r.slice.mem == p && Len(r.slice) == len
    ensures r.Mapped? && p + len < USIZE_LIMIT ==> r.slice.end == p + len
  {
    if p == MAP_FAILED then MapFailed
    else if p == NULL then InvalidAddress
    else
      var end := WrappingAdd(p, len);
      if end == 0 then InvalidAddress
      else
        assert WrappingSub(end, p) == len by {
          if p + len >= USIZE_LIMIT {
            assert end == p + len - USIZE_LIMIT;
          }
        }
        Mapped(UniqueSlice(p, end))
  }

  /** `MappedSlice::drop`: unmaps `[mem, mem + len())`. */
  function Drop(s: Sys, slice: UniqueSlice): Sys
  {
    MunmapOn(s, slice.mem, Len(slice))
  }

  // ---------------------------------------------------------------------
  // TryNewError

  /** `TryNewError::wrap`: taking the parts apart gives them back. */
  function Wrap<T>(error: IoError, value: T): (r: TryNewError<T>)
    ensures IntoParts(r) == (value, error)
  {
    TryNewError(error, value)
  }

  /** `TryNewError::wrap_last_error`: the current `errno`, as an OS error,
      with the value. */
  function WrapLastError<T>(errno: int, value: T): (r: TryNewError<T>)
    ensures IntoError(r) == Os(errno) && IntoInner(r) == value
  {
    Wrap(Os(errno), value)
  }

  /** `TryNewError::into_inner`. */
  function IntoInner<T>(e: TryNewError<T>): T
  {
    e.value
  }

  /** `TryNewError::into_error`. */
  function IntoError<T>(e: TryNewError<T>): IoError
  {
    e.error
  }

  /** `TryNewError::into_parts`: the value and the error, in that order. */
  function IntoParts<T>(e: TryNewError<T>): (r: (T, IoError))
    ensures r.0 == IntoInner(e) && r.1 == IntoError(e)
  {
    (e.value, e.error)
  }

  /** Wrapping the parts of an error rebuilds that error. */
  lemma PartsRoundTrip<T>(e: TryNewError<T>)
    ensures Wrap(IntoParts(e).1, IntoParts(e).0) == e
  {
  }

  // ---------------------------------------------------------------------
  // Accessors

  /** `MappedFile::len`: zero exactly for an empty mapping. */
  function MappedLen<T>(m: MappedFile<T>): (n: Usize)
    ensures n == 0 <==> MappedIsEmpty(m)
  {
    Len(m.mapping)
  }

  /** `MappedFile::is_empty`. */
  predicate MappedIsEmpty<T>(m: MappedFile<T>)
  {
    IsEmpty(m.mapping)
  }

  /** `Anonymous::as_raw_fd`: -1, which no `NonNegativeI32` accepts. */
  function AnonymousAsRawFd(a: Anonymous): (fd: I32)
    ensures fd < 0 && RawFd.New(fd).None?
  {
    -1
  }

  /** `replace_inner_unchecked`: the same mapping over `other`, and the old
      file. */
  function ReplaceInnerUnchecked<T, U>(m: MappedFile<T>, other: U): (r: (MappedFile<U>, T))
    ensures r.0.mapping == m.mapping && r.0.file == other && r.1 == m.file
  {
    var MappedFile(file, mapping) := m;
    (MappedFile(other, mapping), file)
  }

  /** `replace_inner`: panics exactly when the two descriptors differ;
      otherwise the same mapping over `other` (the old file is forgotten). */
  function ReplaceInner<T, U>(m: MappedFile<T>, other: U, fdOfT: T -> I32, fdOfU: U -> I32): (r: Run<MappedFile<U>>)
    ensures r.Panicked? <==> fdOfT(m.file) != fdOfU(other)
    ensures r.Returned? ==> r.value.mapping == m.mapping && r.value.file == other
  {
    if fdOfT(m.file) != fdOfU(other) then Panicked
    else Returned(ReplaceInnerUnchecked(m, other).0)
  }

  /** Replacing the file and then putting the old one back restores the
      mapping and hands back the replacement. */
  lemma ReplaceInnerRoundTrip<T, U>(m: MappedFile<T>, other: U)
    ensures var (m1, old1) := ReplaceInnerUnchecked(m, other);
            ReplaceInnerUnchecked(m1, old1) == (m, other)
  {
  }

  // ---------------------------------------------------------------------
  // try_new

  /** The outcome of `try_new` once `mmap` returned `p`: on `MAP_FAILED`
      the file comes back with the current `errno`; an invalid address
      panics; otherwise the mapping starts at `p` and is `len` bytes long. */
  function TryNewOutcome<T>(file: T, len: Usize, p: Usize, errno: int): (r: Outcome<T>)
    ensures r.Panicked? <==> p != MAP_FAILED && (p == NULL || WrappingAdd(p, len) == 0)
    ensures r.Returned? && r.value.Err? <==> p == MAP_FAILED
    ensures r.Returned? && r.value.Err? ==> r.value.error == TryNewError(Os(errno), file)
    ensures r.Returned? && r.value.Ok? ==>
              r.value.value.file == file && r.value.value.mapping.mem == p && MappedLen(r.value.value) == len
  {
    match SliceAt(p, len)
    case MapFailed => Returned(Err(WrapLastError(errno, file)))
    case InvalidAddress => Panicked
    case Mapped(slice) => Returned(Ok(MappedFile(file, slice)))
  }

  /** The state after `try_new`: the one `mmap` call's. */
  function TryNewState(s: Sys, fd: I32, len: Usize, perm: Perm, flags: Mask, reply: MmapReply): Sys
  {
    MmapOn(s, NULL, len, GetProt(perm), flags, fd, 0, reply).1
  }

  /** When `mmap` refuses, `try_new` gives back exactly the file with the
      refusal's error code, and the address space is untouched. */
  lemma TryNewRefusedKeepsFile<T>(s: Sys, file: T, fd: I32, len: Usize, perm: Perm, flags: Mask, reply: MmapReply)
    requires reply.Refused?
    ensures var s1 := TryNewState(s, fd, len, perm, flags, reply);
            TryNewOutcome(file, len, MmapResult(NULL, flags, reply), s1.errno) == Returned(Err(TryNewError(Os(reply.errno), file)))
            && s1.space == s.space
  {
  }

  /** Against a working kernel `try_new` never panics, and it fails
      exactly when `mmap` refuses: the error then carries the file and the
      refusal's code, and the address space is untouched. On success the
      `errno` is left as it was. */
  lemma TryNewFailsOnlyOnRefusal<T>(s: Sys, file: T, fd: I32, len: Usize, perm: Perm, flags: Mask, reply: MmapReply)
    requires Plausible(NULL, len, flags, reply)
    ensures var s1 := TryNewState(s, fd, len, perm, flags, reply);
            var r := TryNewOutcome(file, len, MmapResult(NULL, flags, reply), s1.errno);
            r.Returned?
            && (r.value.Err? <==> reply.Refused?)
            && (r.value.Err? ==> r.value.error == TryNewError(Os(reply.errno), file) && s1.space == s.space)
            && (r.value.Ok? ==> s1.errno == s.errno)
  {
    PlausibleFailsOnlyOnRefusal(NULL, len, flags, reply);
  }

  /** When `try_new` succeeds, the mapping holds the file, starts at the
      address `mmap` chose, is `len` bytes long and empty exactly when
      `len` is zero, and its byte `i` shows byte `i` of the file with the
      requested protection. */
  lemma TryNewMapsFile<T>(s: Sys, file: T, fd: I32, len: Usize, perm: Perm, flags: Mask, reply: MmapReply, i: nat)
    requires flags & MAP_ANONYMOUS == 0
    requires var p := MmapResult(NULL, flags, reply);
             TryNewOutcome(file, len, p, TryNewState(s, fd, len, perm, flags, reply).errno).Returned?
    ensures var p := MmapResult(NULL, flags, reply);
            var s1 := TryNewState(s, fd, len, perm, flags, reply);
            var r := TryNewOutcome(file, len, p, s1.errno);
            r.value.Ok? ==>
              reply.Granted? && r.value.value.file == file && r.value.value.mapping.mem == p
              && MappedLen(r.value.value) == len && (MappedIsEmpty(r.value.value) <==> len == 0)
              && (i < len ==> At(s1.space, p + i) == Some(Frame(Descriptor(fd), i, GetProt(perm))))
  {
    var p := MmapResult(NULL, flags, reply);
    PlaceAt(s.space, p, len, BackingOf(flags, fd), 0, GetProt(perm), p + i);
  }

  /** `try_new` (src/lib.rs:96-120): one `mmap` of `len` bytes at offset 0
      with the permission's protection and the given flags. */
  method TryNew<T>(k: Kernel, file: T, asRawFd: T -> I32, len: Usize, perm: Perm, flags: Mask, reply: MmapReply) returns (r: Outcome<T>)
    modifies k
    ensures k.State() == TryNewState(old(k.State()), asRawFd(file), len, perm, flags, reply)
    ensures r == TryNewOutcome(file, len, MmapResult(NULL, flags, reply), k.errno)
    ensures k.advisories == old(k.advisories)
  {
    var fd := asRawFd(file);
    var p := k.Mmap(NULL, len, GetProt(perm), flags, fd, 0, reply);
    match SliceAt(p, len)
    case MapFailed =>
      r := Returned(Err(WrapLastError(k.errno, file)));
    case InvalidAddress =>
      r := Panicked;
    case Mapped(slice) =>
      r := Returned(Ok(MappedFile(file, slice)));
  }

  /** `new` (src/lib.rs:261-264): `try_new` with the file dropped on
      failure; the error is the one `try_new` carried. */
  method New<T>(k: Kernel, file: T, asRawFd: T -> I32, len: Usize, perm: Perm, flags: Mask, reply: MmapReply) returns (r: Run<Result<MappedFile<T>, IoError>>)
    modifies k
    ensures k.State() == TryNewState(old(k.State()), asRawFd(file), len, perm, flags, reply)
    ensures k.advisories == old(k.advisories)
    ensures var t := TryNewOutcome(file, len, MmapResult(NULL, flags, reply), k.errno);
            (r.Panicked? <==> t.Panicked?)
            && (t.Returned? && t.value.Ok? ==> r == Returned(Ok(t.value.value)))
            && (t.Returned? && t.value.Err? ==> r == Returned(Err(IntoError(t.value.error))))
    ensures reply.Refused? ==> r == Returned(Err(Os(reply.errno)))
  {
    var t := TryNew(k, file, asRawFd, len, perm, flags, reply);
    match t {
      case Panicked =>
        r := Panicked;
      case Returned(Ok(m)) =>
        r := Returned(Ok(m));
      case Returned(Err(e)) =>
        r := Returned(Err(IntoError(e)));
    }
  }

  // ---------------------------------------------------------------------
  // into_inner, flush, advise

  /** `into_inner` (src/lib.rs:386-390): drops the slice, then hands back
      the file. */
  method IntoInnerMapped<T>(k: Kernel, m: MappedFile<T>) returns (file: T)
    modifies k
    ensures file == m.file
    ensures k.State() == Drop(old(k.State()), m.mapping)
    ensures k.advisories == old(k.advisories)
  {
    k.Munmap(m.mapping.mem, Len(m.mapping));
    file := m.file;
  }

  /** A mapping built by `try_new` and given up by `into_inner` leaves every
      address `a` as it was, less the range the mapping took. */
  lemma TryNewThenIntoInner<T>(s: Sys, file: T, fd: I32, len: Usize, perm: Perm, flags: Mask, reply: MmapReply, a: int)
    requires var s1 := TryNewState(s, fd, len, perm, flags, reply);
             TryNewOutcome(file, len, MmapResult(NULL, flags, reply), s1.errno).Returned?
    ensures var p := MmapResult(NULL, flags, reply);
            var s1 := TryNewState(s, fd, len, perm, flags, reply);
            var r := TryNewOutcome(file, len, p, s1.errno);
            r.value.Ok? ==>
              r.value.value.file == file
              && At(Drop(s1, r.value.value.mapping).space, a) == if InRange(a, p, len) then None else At(s.space, a)
  {
    var p := MmapResult(NULL, flags, reply);
    var s1 := TryNewState(s, fd, len, perm, flags, reply);
    var r := TryNewOutcome(file, len, p, s1.errno);
    if r.value.Ok? {
      UnmapAfterPlace(s.space, p, len, BackingOf(flags, fd), 0, GetProt(perm), a);
      UnmapAt(s.space, p, len, a);
    }
  }

  /** The result of `msync` or `madvise` as `io::Result<()>`: an OS error
      with `errno` for any non-zero return. */
  function CallResult(rc: int, errno: int): (r: Result<(), IoError>)
    ensures r.Ok? <==> rc == 0
    ensures r.Err? ==> r.error == Os(errno)
  {
    if rc == 0 then Ok(()) else Err(Os(errno))
  }

  /** `flush` (src/lib.rs:272-281): `msync` over the whole mapping with the
      flush mode's flags. */
  method Flush<T>(k: Kernel, m: MappedFile<T>, flush: Flush, reply: Reply) returns (r: Result<(), IoError>)
    modifies k
    ensures k.advisories == old(k.advisories) + [MsyncCall(m.mapping.mem, MappedLen(m), GetMs(flush))]
    ensures k.space == old(k.space)
    ensures r.Ok? <==> reply.Done?
    ensures reply.Done? ==> k.errno == old(k.errno)
    ensures reply.Failed? ==> k.errno == reply.errno && r.error == Os(reply.errno)
  {
    var rc := k.Msync(m.mapping.mem, Len(m.mapping), GetMs(flush), reply);
    r := CallResult(rc, k.errno);
  }

  /** `into_inner_synced` (src/lib.rs:307-312): flushes, panicking if that
      fails, then unmaps and hands back the file. */
  method IntoInnerSynced<T>(k: Kernel, m: MappedFile<T>, flush: Flush, reply: Reply) returns (r: Run<T>)
    modifies k
    ensures k.advisories == old(k.advisories) + [MsyncCall(m.mapping.mem, MappedLen(m), GetMs(flush))]
    ensures r.Panicked? <==> reply.Failed?
    ensures r.Returned? ==> r.value == m.file && k.State() == Drop(old(k.State()), m.mapping)
  {
    var flushed := Flush(k, m, flush, reply);
    if flushed.Err? {
      r := Panicked;
    } else {
      var file := IntoInnerMapped(k, m);
      r := Returned(file);
    }
  }

  /** The `needed` part of the `madvise` argument: nothing, `MADV_WILLNEED`
      or `MADV_DONTNEED`. */
  function NeededCode(needed: Option<bool>): (r: Mask)
    ensures needed.None? ==> r == 0
    ensures needed == Some(true) ==> r == MADV_WILLNEED
    ensures needed == Some(false) ==> r == MADV_DONTNEED
  {
    match needed
    case None => 0
    case Some(n) => if n then MADV_WILLNEED else MADV_DONTNEED
  }

  /** The single `advice` argument `advise` passes to `madvise`: the access
      pattern's code ORed with the `needed` code. */
  function AdviseArg(adv: Advice, needed: Option<bool>): (r: Mask)
    ensures needed.None? ==> r == GetMadv(adv)
    ensures needed == Some(true) ==> r == MADV_WILLNEED
    ensures needed == Some(false) ==> r == MADV_DONTNEED + GetMadv(adv)
    ensures r in {MADV_NORMAL, MADV_RANDOM, MADV_SEQUENTIAL, MADV_WILLNEED, MADV_DONTNEED}
            <==> needed != Some(false) || adv == Normal
  {
    GetMadv(adv) | NeededCode(needed)
  }

  /** The Linux `madvise` codes are enumerated values, not bits: ORing
      them loses the access pattern or forms a code that is none of them. */
  lemma AdviseArgMixesCodes()
    ensures AdviseArg(RandomAccess, Some(true)) == AdviseArg(Normal, Some(true)) == MADV_WILLNEED
    ensures AdviseArg(Sequential, Some(true)) == MADV_WILLNEED
    ensures AdviseArg(Sequential, Some(false)) == 6
    ensures 6 !in {MADV_NORMAL, MADV_RANDOM, MADV_SEQUENTIAL, MADV_WILLNEED, MADV_DONTNEED}
  {
  }

  /** The advice as it was meant: the access pattern and the `needed`
      code as separate `madvise` calls, in that order. */
  function AdviceCodes(adv: Advice, needed: Option<bool>): (r: seq<Mask>)
    ensures 1 <= |r| <= 2 && r[0] == GetMadv(adv)
    ensures |r| == 2 <==> needed.Some?
    ensures |r| == 2 ==> r[1] == NeededCode(needed)
  {
    match needed
    case None => [GetMadv(adv)]
    case Some(_) => [GetMadv(adv), NeededCode(needed)]
  }

  /** Every separate code is a valid advice value, and the codes determine
      both the access pattern and `needed`. */
  lemma AdviceCodesFaithful(a: Advice, n: Option<bool>, b: Advice, m: Option<bool>)
    ensures forall c | c in AdviceCodes(a, n) :: c in {MADV_NORMAL, MADV_RANDOM, MADV_SEQUENTIAL, MADV_WILLNEED, MADV_DONTNEED}
    ensures AdviceCodes(a, n) == AdviceCodes(b, m) ==> a == b && n == m
  {
    GetMadvInjective(a, b);
  }

  /** `advise` (src/lib.rs:323-335): one `madvise` over the whole mapping
      with the combined code. */
  method Advise<T>(k: Kernel, m: MappedFile<T>, adv: Advice, needed: Option<bool>, reply: Reply) returns (r: Result<(), IoError>)
    modifies k
    ensures k.advisories == old(k.advisories) + [MadviseCall(m.mapping.mem, MappedLen(m), AdviseArg(adv, needed))]
    ensures k.space == old(k.space)
    ensures r.Ok? <==> reply.Done?
    ensures reply.Done? ==> k.errno == old(k.errno)
    ensures reply.Failed? ==> k.errno == reply.errno && r.error == Os(reply.errno)
  {
    var rc := k.Madvise(m.mapping.mem, Len(m.mapping), AdviseArg(adv, needed), reply);
    r := CallResult(rc, k.errno);
  }

  /** The `madvise` calls that pass `codes` over the whole of `m`. */
  function MadviseCalls<T>(m: MappedFile<T>, codes: seq<Mask>): (r: seq<Advisory>)
    ensures |r| == |codes|
    ensures forall i | 0 <= i < |codes| :: r[i] == MadviseCall(m.mapping.mem, MappedLen(m), codes[i])
  {
    if codes == [] then []
    else [MadviseCall(m.mapping.mem, MappedLen(m), codes[0])] + MadviseCalls(m, codes[1..])
  }

  /** `advise` with the codes passed separately: each code is its own
      `madvise` call, and the first failure stops it. */
  method AdviseSeparately<T>(k: Kernel, m: MappedFile<T>, adv: Advice, needed: Option<bool>, replies: seq<Reply>) returns (r: Result<(), IoError>)
    requires |replies| == |AdviceCodes(adv, needed)|
    modifies k
    ensures k.space == old(k.space)
    ensures r.Ok? <==> forall i | 0 <= i < |replies| :: replies[i].Done?
    ensures replies[0].Failed? ==> k.advisories == old(k.advisories) + MadviseCalls(m, AdviceCodes(adv, needed)[..1])
    ensures replies[0].Done? ==> k.advisories == old(k.advisories) + MadviseCalls(m, AdviceCodes(adv, needed))
  {
    var codes := AdviceCodes(adv, needed);
    var rc := k.Madvise(m.mapping.mem, Len(m.mapping), codes[0], replies[0]);
    r := CallResult(rc, k.errno);
    if r.Ok? && |codes| == 2 {
      rc := k.Madvise(m.mapping.mem, Len(m.mapping), codes[1], replies[1]);
      r := CallResult(rc, k.errno);
    }
  }

  /** `try_with_advice` (src/lib.rs:342-351): the mapping back unchanged,
      either as the result or inside the error with `madvise`'s code. */
  method TryWithAdvice<T>(k: Kernel, m: MappedFile<T>, adv: Advice, needed: Option<bool>, reply: Reply)
    returns (r: Result<MappedFile<T>, TryNewError<MappedFile<T>>>)
    modifies k
    ensures k.advisories == old(k.advisories) + [MadviseCall(m.mapping.mem, MappedLen(m), AdviseArg(adv, needed))]
    ensures k.space == old(k.space)
    ensures reply.Done? ==> r == Ok(m) && k.errno == old(k.errno)
    ensures reply.Failed? ==> r == Err(TryNewError(Os(reply.errno), m)) && k.errno == reply.errno
  {
    var advised := Advise(k, m, adv, needed, reply);
    match advised
    case Ok(_) =>
      r := Ok(m);
    case Err(error) =>
      r := Err(TryNewError(error, m));
  }

  /** `with_advice` (src/lib.rs:357-361): `try_with_advice`, keeping only
      `madvise`'s error on failure; the error value that held the mapping
      is dropped, and with it the mapping's slice is unmapped. */
  method WithAdvice<T>(k: Kernel, m: MappedFile<T>, adv: Advice, needed: Option<bool>, reply: Reply) returns (r: Result<MappedFile<T>, IoError>)
    modifies k
    ensures k.advisories == old(k.advisories) + [MadviseCall(m.mapping.mem, MappedLen(m), AdviseArg(adv, needed))]
    ensures reply.Done? ==> r == Ok(m) && k.State() == old(k.State())
    ensures reply.Failed? ==> r == Err(Os(reply.errno)) && k.State() == Drop(Sys(old(k.space), reply.errno), m.mapping)
  {
    var tried := TryWithAdvice(k, m, adv, needed, reply);
    match tried
    case Ok(v) =>
      r := Ok(v);
    case Err(e) =>
      k.Munmap(e.value.mapping.mem, Len(e.value.mapping));
      r := Err(IntoError(e));
  }
}
