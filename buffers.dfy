/** The dual mapping of `MappedFile::try_new_buffer_raw` (src/lib.rs:140-249):
    a sender `tx` and a receiver `rx` over the same file, placed side by side
    in one reserved range, and the ring variant that reserves room for
    several such pairs. */
module Buffers {
  import opened Wrappers
  import opened Machine
  import opened MmapFlags
  import opened Uniq
  import opened Kernel
  import opened MappedFiles

  /** The protections of the writer and of the reader half: the writer can
      always write and the reader always read; the writer can also read, and
      the reader also write, exactly when unsafe writes are allowed. */
  function ProtPair(allowUnsafeWrites: bool): (r: (Mask, Mask))
    ensures r.0 & PROT_WRITE != 0 && r.1 & PROT_READ != 0
    ensures (r.0 & PROT_READ != 0) <==> allowUnsafeWrites
    ensures (r.1 & PROT_WRITE != 0) <==> allowUnsafeWrites
    ensures r.0 & PROT_EXEC == 0 && r.1 & PROT_EXEC == 0
  {
    if allowUnsafeWrites then
      var p := GetProt(ReadWrite);
      (p, p)
    else
      (GetProt(Writeonly), GetProt(Readonly))
  }

  /** The bits `ReservationFlags` does not decide. */
  const KEPT_BITS: Mask := !(MAP_SHARED | MAP_PRIVATE | MAP_ANONYMOUS)

  /** The flags of the reservation: private and anonymous, never shared, and
      every other bit of the caller's flags kept. */
  function ReservationFlags(flags: Mask): (r: Mask)
    ensures r & MAP_SHARED == 0 && r & MAP_PRIVATE != 0 && r & MAP_ANONYMOUS != 0
    ensures r & KEPT_BITS == flags & KEPT_BITS
  {
    (flags & !MAP_SHARED) | MAP_PRIVATE | MAP_ANONYMOUS
  }

  /** `flags | MAP_FIXED`: the flags of each half. */
  function FixedFlags(flags: Mask): (r: Mask)
    ensures r & MAP_FIXED != 0
    ensures r & MAP_ANONYMOUS == flags & MAP_ANONYMOUS
  {
    flags | MAP_FIXED
  }

  // ---------------------------------------------------------------------
  // The two steps of a dual mapping

  /** The reservation: an inaccessible anonymous mapping of `mapLen` bytes
      wherever the kernel likes, recorded as a slice of `sliceLen` bytes. */
  function Reserve(s0: Sys, mapLen: Usize, flags: Mask, reply: MmapReply, sliceLen: Usize): (Mapping, Sys)
  {
    var (p, s1) := MmapOn(s0, NULL, mapLen, PROT_NONE, flags, -1, 0, reply);
    (SliceAt(p, sliceLen), s1)
  }

  /** A refused reservation changes nothing but `errno`. A granted one
      starts where `mmap` put it, is recorded with `sliceLen` bytes, and
      covers `[root, root + mapLen)` with inaccessible anonymous memory;
      every address `a` outside that range is as it was. */
  lemma ReserveLayout(s0: Sys, mapLen: Usize, flags: Mask, reply: MmapReply, sliceLen: Usize, a: Usize)
    requires flags & MAP_ANONYMOUS != 0
    ensures var (m, s1) := Reserve(s0, mapLen, flags, reply, sliceLen);
            (reply.Refused? ==> m.MapFailed? && s1 == Sys(s0.space, reply.errno))
            && (m.Mapped? ==>
                  var root := m.slice.mem;
                  reply.Granted? && root == MmapResult(NULL, flags, reply) && Len(m.slice) == sliceLen
                  && At(s1.space, a) == if InRange(a, root, mapLen) then Some(Frame(Backing.Anonymous, a - root, PROT_NONE)) else At(s0.space, a))
  {
    var (m, s1) := Reserve(s0, mapLen, flags, reply, sliceLen);
    if m.Mapped? {
      PlaceAt(s0.space, m.slice.mem, mapLen, Backing.Anonymous, 0, PROT_NONE, a);
    }
  }

  /** How mapping the two halves of one window ended. */
  datatype Halves =
    | ReaderFailed(errno: int)
    | WriterFailed(errno: int, rm: UniqueSlice)
    | HalvesInvalid
    | HalvesMapped(tm: UniqueSlice, rm: UniqueSlice)

  /** The reader `MAP_FIXED` at `base + len`, then the writer `MAP_FIXED` at
      `base`, both over the file from offset 0. */
  function MapHalves(s: Sys, base: Usize, len: Usize, protW: Mask, protR: Mask, flags: Mask, fd: I32, readerReply: MmapReply, writerReply: MmapReply): (Halves, Sys)
  {
    var (p1, s1) := MmapOn(s, WrappingAdd(base, len), len, protR, FixedFlags(flags), fd, 0, readerReply);
    match SliceAt(p1, len)
    case MapFailed => (ReaderFailed(s1.errno), s1)
    case InvalidAddress => (HalvesInvalid, s1)
    case Mapped(rm) =>
      var (p2, s2) := MmapOn(s1, base, len, protW, FixedFlags(flags), fd, 0, writerReply);
      match SliceAt(p2, len)
      case MapFailed => (WriterFailed(s2.errno, rm), s2)
      case InvalidAddress => (HalvesInvalid, s2)
      case Mapped(tm) => (HalvesMapped(tm, rm), s2)
  }

  /** A refused reader changes nothing but `errno`. */
  lemma HalvesReaderRefused(s: Sys, base: Usize, len: Usize, protW: Mask, protR: Mask, flags: Mask, fd: I32, readerReply: MmapReply, writerReply: MmapReply)
    requires readerReply.Refused?
    ensures MapHalves(s, base, len, protW, protR, flags, fd, readerReply, writerReply)
         == (ReaderFailed(readerReply.errno), Sys(s.space, readerReply.errno))
  {
  }

  /** When both halves map, the writer covers `[base, base + len)` and the
      reader `[base + len, base + 2 * len)`, byte `i` of each showing byte
      `i` of the file with its own protection, and every address `a`
      outside `[base, base + 2 * len)` is as it was. */
  lemma HalvesLayout(s: Sys, base: Usize, len: Usize, protW: Mask, protR: Mask, flags: Mask, fd: I32, readerReply: MmapReply, writerReply: MmapReply, i: nat, a: Usize)
    requires flags & MAP_ANONYMOUS == 0
    requires base + 2 * len < USIZE_LIMIT
    requires MapHalves(s, base, len, protW, protR, flags, fd, readerReply, writerReply).0.HalvesMapped?
    ensures var (h, s2) := MapHalves(s, base, len, protW, protR, flags, fd, readerReply, writerReply);
            h.tm.mem == base && h.rm.mem == base + len && Len(h.tm) == len && Len(h.rm) == len
            && (i < len ==>
                  At(s2.space, base + i) == Some(Frame(Descriptor(fd), i, protW))
                  && At(s2.space, base + len + i) == Some(Frame(Descriptor(fd), i, protR)))
            && (!InRange(a, base, 2 * len) ==> At(s2.space, a) == At(s.space, a))
  {
    var (p1, s1) := MmapOn(s, WrappingAdd(base, len), len, protR, FixedFlags(flags), fd, 0, readerReply);
    assert WrappingAdd(base, len) == base + len;
    assert readerReply.Granted? && p1 == base + len;
    var (p2, s2) := MmapOn(s1, base, len, protW, FixedFlags(flags), fd, 0, writerReply);
    assert writerReply.Granted? && p2 == base;
    assert BackingOf(FixedFlags(flags), fd) == Descriptor(fd);
    if i < len {
      MmapOnAt(s1, base, len, protW, FixedFlags(flags), fd, 0, writerReply, base + i);
      MmapOnAt(s1, base, len, protW, FixedFlags(flags), fd, 0, writerReply, base + len + i);
      MmapOnAt(s, WrappingAdd(base, len), len, protR, FixedFlags(flags), fd, 0, readerReply, base + len + i);
    }
    MmapOnAt(s1, base, len, protW, FixedFlags(flags), fd, 0, writerReply, a);
    MmapOnAt(s, WrappingAdd(base, len), len, protR, FixedFlags(flags), fd, 0, readerReply, a);
  }

  // ---------------------------------------------------------------------
  // Dual mapping without rings

  /** `try_new_buffer_raw` without rings, as written. The reservation of
      `2 * len` bytes is recorded as a slice of `len` bytes, since every
      mapping macro ends its slice at `ptr.add(len)`. A failed reader map
      drops that slice; a failed writer map drops the reader and then it;
      and on success it is dropped at the end of the block. */
  function DualAsWritten<T>(s0: Sys, file: T, fd: I32, len: Usize, allowUnsafeWrites: bool, flags: Mask, oracle: nat -> MmapReply): (PairOutcome<T>, Sys)
  {
    var (protW, protR) := ProtPair(allowUnsafeWrites);
    var (m, s1) := Reserve(s0, WrappingMul(len, 2), ReservationFlags(flags), oracle(0), len);
    match m
    case MapFailed => (Returned(Err(WrapLastError(s1.errno, file))), s1)
    case InvalidAddress => (Panicked, s1)
    case Mapped(root) =>
      var (h, s2) := MapHalves(s1, root.mem, len, protW, protR, flags, fd, oracle(1), oracle(2));
      match h
      case ReaderFailed(e) => (Returned(Err(WrapLastError(e, file))), Drop(s2, root))
      case WriterFailed(e, rm) => (Returned(Err(WrapLastError(e, file))), Drop(Drop(s2, rm), root))
      case HalvesInvalid => (Panicked, s2)
      case HalvesMapped(tm, rm) =>
        (Returned(Ok((MappedFile(SharedHandle(file), tm), MappedFile(SharedHandle(file), rm)))), Drop(s2, root))
  }

  /** `try_new_buffer_raw` without rings, as intended: the reservation is
      recorded as the `2 * len` bytes it spans, a failed reader map releases
      all of it, and on success it is forgotten, because the two halves have
      replaced it and each unmaps its own. */
  function DualCorrected<T>(s0: Sys, file: T, fd: I32, len: Usize, allowUnsafeWrites: bool, flags: Mask, oracle: nat -> MmapReply): (PairOutcome<T>, Sys)
  {
    var (protW, protR) := ProtPair(allowUnsafeWrites);
    var (m, s1) := Reserve(s0, WrappingMul(len, 2), ReservationFlags(flags), oracle(0), WrappingMul(len, 2));
    match m
    case MapFailed => (Returned(Err(WrapLastError(s1.errno, file))), s1)
    case InvalidAddress => (Panicked, s1)
    case Mapped(root) =>
      var (h, s2) := MapHalves(s1, root.mem, len, protW, protR, flags, fd, oracle(1), oracle(2));
      match h
      case ReaderFailed(e) => (Returned(Err(WrapLastError(e, file))), Drop(s2, root))
      case WriterFailed(e, rm) => (Returned(Err(WrapLastError(e, file))), Drop(Drop(s2, rm), root))
      case HalvesInvalid => (Panicked, s2)
      case HalvesMapped(tm, rm) =>
        (Returned(Ok((MappedFile(SharedHandle(file), tm), MappedFile(SharedHandle(file), rm)))), s2)
  }

  /** The address of the reservation, where the writer half starts. */
  function Root(flags: Mask, oracle: nat -> MmapReply): Usize
  {
    MmapResult(NULL, ReservationFlags(flags), oracle(0))
  }

  /** The reservation is never `MAP_FIXED` when the caller's flags are not. */
  lemma ReservationNotFixed(flags: Mask)
    requires flags & MAP_FIXED == 0
    ensures ReservationFlags(flags) & MAP_FIXED == 0
  {
    assert MAP_FIXED & KEPT_BITS == MAP_FIXED;
  }

  /** Both halves hold a handle to the file, so both report its descriptor;
      the writer starts at the reservation and the reader `len` bytes above
      it, and each is `len` bytes long. */
  lemma DualHalves<T>(s0: Sys, file: T, asRawFd: T -> I32, len: Usize, allowUnsafeWrites: bool, flags: Mask, oracle: nat -> MmapReply)
    requires var r := DualAsWritten(s0, file, asRawFd(file), len, allowUnsafeWrites, flags, oracle).0;
             r.Returned? && r.value.Ok?
    ensures var (tx, rx) := DualAsWritten(s0, file, asRawFd(file), len, allowUnsafeWrites, flags, oracle).0.value.value;
            tx.file == rx.file == SharedHandle(file) && asRawFd(tx.file.inner) == asRawFd(rx.file.inner) == asRawFd(file)
            && tx.mapping.mem == Root(flags, oracle) && rx.mapping.mem == WrappingAdd(Root(flags, oracle), len)
            && MappedLen(tx) == MappedLen(rx) == len
  {
  }

  /** A successful dual mapping, as written, went through a granted
      reservation at `Root` and two mapped halves, and ends by dropping the
      reservation's slice from the state the halves left. */
  lemma DualAsWrittenStages<T>(s0: Sys, file: T, fd: I32, len: Usize, allowUnsafeWrites: bool, flags: Mask, oracle: nat -> MmapReply)
    requires var r := DualAsWritten(s0, file, fd, len, allowUnsafeWrites, flags, oracle).0;
             r.Returned? && r.value.Ok?
    ensures var (m, s1) := Reserve(s0, WrappingMul(len, 2), ReservationFlags(flags), oracle(0), len);
            m.Mapped? && m.slice.mem == Root(flags, oracle)
            && var (h, s2) := MapHalves(s1, m.slice.mem, len, ProtPair(allowUnsafeWrites).0, ProtPair(allowUnsafeWrites).1, flags, fd, oracle(1), oracle(2));
               h.HalvesMapped? && DualAsWritten(s0, file, fd, len, allowUnsafeWrites, flags, oracle).1 == Drop(s2, m.slice)
  {
  }

  /** As written, a successful dual mapping ends by dropping the reservation's
      slice, which covers `[root, root + len)`: exactly the bytes of the
      writer half `tx` are unmapped while `tx` still refers to them, and only
      the reader half is left. */
  lemma WriterWindowUnmapped<T>(s0: Sys, file: T, fd: I32, len: Usize, allowUnsafeWrites: bool, flags: Mask, oracle: nat -> MmapReply, i: nat)
    requires flags & MAP_ANONYMOUS == 0
    requires Root(flags, oracle) + 2 * len < USIZE_LIMIT
    requires var r := DualAsWritten(s0, file, fd, len, allowUnsafeWrites, flags, oracle).0;
             r.Returned? && r.value.Ok?
    ensures var (r, s) := DualAsWritten(s0, file, fd, len, allowUnsafeWrites, flags, oracle);
            var root := Root(flags, oracle);
            var tx := r.value.value.0;
            tx.mapping.mem == root && MappedLen(tx) == len
            && (i < len ==>
                  At(s.space, root + i) == None
                  && At(s.space, root + len + i) == Some(Frame(Descriptor(fd), i, ProtPair(allowUnsafeWrites).1)))
  {
    DualAsWrittenStages(s0, file, fd, len, allowUnsafeWrites, flags, oracle);
    var (m, s1) := Reserve(s0, WrappingMul(len, 2), ReservationFlags(flags), oracle(0), len);
    var root := m.slice.mem;
    var (protW, protR) := (ProtPair(allowUnsafeWrites).0, ProtPair(allowUnsafeWrites).1);
    var (h, s2) := MapHalves(s1, root, len, protW, protR, flags, fd, oracle(1), oracle(2));
    HalvesLayout(s1, root, len, protW, protR, flags, fd, oracle(1), oracle(2), i, 0);
    if i < len {
      MunmapOnAt(s2, root, len, root + i);
      MunmapOnAt(s2, root, len, root + len + i);
    }
  }

  /** A successful corrected dual mapping went through a granted
      reservation at `Root` and two mapped halves, and ends in the state the
      halves left. */
  lemma DualCorrectedStages<T>(s0: Sys, file: T, fd: I32, len: Usize, allowUnsafeWrites: bool, flags: Mask, oracle: nat -> MmapReply)
    requires var r := DualCorrected(s0, file, fd, len, allowUnsafeWrites, flags, oracle).0;
             r.Returned? && r.value.Ok?
    ensures var full := WrappingMul(len, 2);
            var (m, s1) := Reserve(s0, full, ReservationFlags(flags), oracle(0), full);
            m.Mapped? && m.slice.mem == Root(flags, oracle)
            && var (h, s2) := MapHalves(s1, m.slice.mem, len, ProtPair(allowUnsafeWrites).0, ProtPair(allowUnsafeWrites).1, flags, fd, oracle(1), oracle(2));
               h.HalvesMapped? && DualCorrected(s0, file, fd, len, allowUnsafeWrites, flags, oracle).1 == s2
  {
  }

  /** As intended, a successful dual mapping leaves every byte `i` below
      `len` mapped twice: at `root + i` for the writer with its protection
      and at `root + len + i` for the reader with its own, both showing byte
      `i` of the file. */
  lemma DualCorrectedAliases<T>(s0: Sys, file: T, fd: I32, len: Usize, allowUnsafeWrites: bool, flags: Mask, oracle: nat -> MmapReply, i: nat)
    requires flags & MAP_ANONYMOUS == 0
    requires Root(flags, oracle) + 2 * len < USIZE_LIMIT
    requires var r := DualCorrected(s0, file, fd, len, allowUnsafeWrites, flags, oracle).0;
             r.Returned? && r.value.Ok?
    ensures var s := DualCorrected(s0, file, fd, len, allowUnsafeWrites, flags, oracle).1;
            var root := Root(flags, oracle);
            i < len ==>
            At(s.space, root + i) == Some(Frame(Descriptor(fd), i, ProtPair(allowUnsafeWrites).0))
            && At(s.space, root + len + i) == Some(Frame(Descriptor(fd), i, ProtPair(allowUnsafeWrites).1))
  {
    DualCorrectedStages(s0, file, fd, len, allowUnsafeWrites, flags, oracle);
    if i >= len { return; }
    var full := WrappingMul(len, 2);
    var (m, s1) := Reserve(s0, full, ReservationFlags(flags), oracle(0), full);
    HalvesLayout(s1, m.slice.mem, len, ProtPair(allowUnsafeWrites).0, ProtPair(allowUnsafeWrites).1, flags, fd, oracle(1), oracle(2), i, 0);
  }

  /** As intended, a successful dual mapping leaves every address `a`
      outside `[root, root + 2 * len)` as it was. */
  lemma DualCorrectedFrame<T>(s0: Sys, file: T, fd: I32, len: Usize, allowUnsafeWrites: bool, flags: Mask, oracle: nat -> MmapReply, a: Usize)
    requires flags & MAP_ANONYMOUS == 0
    requires Root(flags, oracle) + 2 * len < USIZE_LIMIT
    requires var r := DualCorrected(s0, file, fd, len, allowUnsafeWrites, flags, oracle).0;
             r.Returned? && r.value.Ok?
    requires !InRange(a, Root(flags, oracle), 2 * len)
    ensures var s := DualCorrected(s0, file, fd, len, allowUnsafeWrites, flags, oracle).1;
            At(s.space, a) == At(s0.space, a)
  {
    var (protW, protR) := ProtPair(allowUnsafeWrites);
    var full := WrappingMul(len, 2);
    assert full == 2 * len;
    var (m, s1) := Reserve(s0, full, ReservationFlags(flags), oracle(0), full);
    ReserveLayout(s0, full, ReservationFlags(flags), oracle(0), full, a);
    HalvesLayout(s1, m.slice.mem, len, protW, protR, flags, fd, oracle(1), oracle(2), 0, a);
  }

  /** As written, when the reader map fails after the reservation succeeded,
      only the reservation's slice `[root, root + len)` is released: the
      upper half `[root + len, root + 2 * len)` stays mapped as inaccessible
      anonymous memory that nothing owns. */
  lemma ReaderFailureLeaks<T>(s0: Sys, file: T, fd: I32, len: Usize, allowUnsafeWrites: bool, flags: Mask, oracle: nat -> MmapReply, a: Usize)
    requires oracle(0).Granted? && oracle(1).Refused?
    requires flags & MAP_FIXED == 0
    requires 0 < len && 0 < oracle(0).addr && oracle(0).addr + 2 * len < USIZE_LIMIT
    ensures var (r, s) := DualAsWritten(s0, file, fd, len, allowUnsafeWrites, flags, oracle);
            var root := oracle(0).addr;
            r == Returned(Err(TryNewError(Os(oracle(1).errno), file)))
            && (InRange(a, root, len) ==> At(s.space, a) == None)
            && (InRange(a, root + len, len) ==> At(s.space, a) == Some(Frame(Backing.Anonymous, a - root, PROT_NONE)))
  {
    var (protW, protR) := ProtPair(allowUnsafeWrites);
    assert WrappingMul(len, 2) == 2 * len;
    ReservationNotFixed(flags);
    var (m, s1) := Reserve(s0, 2 * len, ReservationFlags(flags), oracle(0), len);
    ReserveLayout(s0, 2 * len, ReservationFlags(flags), oracle(0), len, a);
    assert m.Mapped?;
    HalvesReaderRefused(s1, m.slice.mem, len, protW, protR, flags, fd, oracle(1), oracle(2));
    UnmapAt(s1.space, m.slice.mem, len, a);
  }

  /** As intended, a failed reader map releases the whole reservation and
      leaves every address outside it as it was. */
  lemma ReaderFailureReleases<T>(s0: Sys, file: T, fd: I32, len: Usize, allowUnsafeWrites: bool, flags: Mask, oracle: nat -> MmapReply, a: Usize)
    requires oracle(0).Granted? && oracle(1).Refused?
    requires flags & MAP_FIXED == 0
    requires 0 < len && 0 < oracle(0).addr && oracle(0).addr + 2 * len < USIZE_LIMIT
    ensures var (r, s) := DualCorrected(s0, file, fd, len, allowUnsafeWrites, flags, oracle);
            var root := oracle(0).addr;
            r == Returned(Err(TryNewError(Os(oracle(1).errno), file)))
            && At(s.space, a) == if InRange(a, root, 2 * len) then None else At(s0.space, a)
  {
    var (protW, protR) := ProtPair(allowUnsafeWrites);
    assert WrappingMul(len, 2) == 2 * len;
    ReservationNotFixed(flags);
    var (m, s1) := Reserve(s0, 2 * len, ReservationFlags(flags), oracle(0), 2 * len);
    ReserveLayout(s0, 2 * len, ReservationFlags(flags), oracle(0), 2 * len, a);
    assert m.Mapped?;
    HalvesReaderRefused(s1, m.slice.mem, len, protW, protR, flags, fd, oracle(1), oracle(2));
    UnmapAt(s1.space, m.slice.mem, 2 * len, a);
  }

  // ---------------------------------------------------------------------
  // Rings

  /** `usize::checked_mul`: the product when it fits, and then it agrees
      with the wrapping product. */
  function CheckedMul(a: Usize, b: Usize): (r: Option<Usize>)
    ensures r.Some? <==> a * b <= USIZE_MAX
    ensures r.Some? ==> r.value == a * b == WrappingMul(a, b)
    ensures r.Some? && b > 0 ==> a <= r.value
  {
    if a * b <= USIZE_MAX then
      assert b > 0 ==> a <= a * b by {
        if b > 0 {
          MulMonotone(a, 1, b);
        }
      }
      Some(a * b)
    else None
  }

  /** The first `n` items of `successors(Some(first), |x| Some(x.sub(step)))`. */
  function Successors(first: Usize, step: Usize, n: nat): (r: seq<Usize>)
    ensures |r| == n
    decreases n
  {
    if n == 0 then [] else [first] + Successors(WrappingSub(first, step), step, n - 1)
  }

  /** While no subtraction wraps, item `i` is `first - i * step`. */
  lemma {:induction false} SuccessorsDescend(first: Usize, step: Usize, n: nat, i: nat)
    requires i < n && step * (n - 1) <= first
    ensures Successors(first, step, n)[i] == first - step * i
    decreases n
  {
    if i > 0 {
      assert step * (n - 1) == step * (n - 2) + step;
      assert WrappingSub(first, step) == first - step;
      SuccessorsDescend(WrappingSub(first, step), step, n - 1, i - 1);
      assert step * i == step * (i - 1) + step;
    }
  }

  /** `a * (b + c) == a * b + a * c`. */
  lemma MulSplit(a: nat, b: nat, c: nat)
    ensures a * (b + c) == a * b + a * c
  {
  }

  /** Multiplying by a larger factor gives a larger product. */
  lemma MulMonotone(a: nat, b: nat, c: nat)
    requires b <= c
    ensures a * b <= a * c
  {
    MulSplit(a, b, c - b);
  }

  /** The window bases of a ring of `pages` windows of `len2` bytes over a
      reservation at `root`: window `i` starts `pages - 1 - i` windows
      above `root`, so it lies inside the reservation. */
  lemma RingBaseAt(root: Usize, len2: Usize, pages: nat, i: nat)
    requires 0 < pages && root + len2 * pages < USIZE_LIMIT
    requires i < pages
    ensures var bases := Successors(WrappingAdd(root, len2 * pages - len2), len2, pages);
            bases[i] == root + len2 * (pages - 1 - i)
            && root <= bases[i] && bases[i] + len2 <= root + len2 * pages
  {
    var n := pages - 1;
    MulSplit(len2, n, 1);
    var first := root + len2 * n;
    assert WrappingAdd(root, len2 * pages - len2) == first;
    SuccessorsDescend(first, len2, pages, i);
    MulSplit(len2, n - i, i);
    MulSplit(len2, n - i, 1);
    MulMonotone(len2, n - i + 1, pages);
  }

  /** The windows are mapped from the top of the reservation down: a later
      window ends no higher than where an earlier one starts, so no two
      windows overlap. */
  lemma RingBasesDescend(root: Usize, len2: Usize, pages: nat, i: nat, j: nat)
    requires 0 < pages && root + len2 * pages < USIZE_LIMIT
    requires j < i < pages
    ensures var bases := Successors(WrappingAdd(root, len2 * pages - len2), len2, pages);
            bases[i] + len2 <= bases[j]
  {
    RingBaseAt(root, len2, pages, i);
    RingBaseAt(root, len2, pages, j);
    var n := pages - 1;
    MulSplit(len2, n - i, i - j);
    MulMonotone(len2, 1, i - j);
  }

  /** A window of the ring whose both halves mapped: the writer `tm` and the
      reader `rm`. */
  datatype Pivot = Pivot(tm: UniqueSlice, rm: UniqueSlice)

  /** How mapping the windows ended: every window mapped, a map failed with
      `errno`, or the kernel returned an invalid address. */
  datatype Windows = Collected(pivots: seq<Pivot>) | Stopped(errno: int) | Crashed

  /** `MappedSlice` drops of the collected windows, in vector order, each
      writer before its reader. */
  function DropPivots(s: Sys, pivots: seq<Pivot>): Sys
    decreases |pivots|
  {
    if |pivots| == 0 then s
    else
      var last := pivots[|pivots| - 1];
      Drop(Drop(DropPivots(s, pivots[..|pivots| - 1]), last.tm), last.rm)
  }

  /** Whether address `a` lies in either half of pivot `p`. */
  predicate Covers(p: Pivot, a: int)
  {
    InRange(a, p.tm.mem, Len(p.tm)) || InRange(a, p.rm.mem, Len(p.rm))
  }

  /** Dropping the pivots unmaps every byte of pivot `j`. */
  lemma {:induction false} DropPivotsUnmaps(s: Sys, pivots: seq<Pivot>, j: nat, a: Usize)
    ensures j < |pivots| && Covers(pivots[j], a) ==> At(DropPivots(s, pivots).space, a) == None
    decreases |pivots|
  {
    if j < |pivots| && Covers(pivots[j], a) {
      var n := |pivots| - 1;
      var init := pivots[..n];
      var last := pivots[n];
      var s1 := DropPivots(s, init);
      var s2 := Drop(s1, last.tm);
      MunmapOnAt(s1, last.tm.mem, Len(last.tm), a);
      MunmapOnAt(s2, last.rm.mem, Len(last.rm), a);
      if j < n {
        assert init[j] == pivots[j];
        DropPivotsUnmaps(s, init, j, a);
      }
    }
  }

  /** Dropping the pivots leaves `errno` untouched, and an address outside
      every pivot as it was. */
  lemma {:induction false} DropPivotsKeeps(s: Sys, pivots: seq<Pivot>, a: Usize)
    ensures DropPivots(s, pivots).errno == s.errno
    ensures (forall j :: 0 <= j < |pivots| ==> !Covers(pivots[j], a))
            ==> At(DropPivots(s, pivots).space, a) == At(s.space, a)
    decreases |pivots|
  {
    if |pivots| > 0 {
      var n := |pivots| - 1;
      var init := pivots[..n];
      var last := pivots[n];
      DropPivotsKeeps(s, init, a);
      var s1 := DropPivots(s, init);
      var s2 := Drop(s1, last.tm);
      MunmapOnAt(s1, last.tm.mem, Len(last.tm), a);
      MunmapOnAt(s2, last.rm.mem, Len(last.rm), a);
      if forall j :: 0 <= j < |pivots| ==> !Covers(pivots[j], a) {
        assert forall j :: 0 <= j < n ==> init[j] == pivots[j];
      }
    }
  }

  /** The windows from `k` on, the `k` before them already collected in
      `acc`. Window `k` is mapped at `bases[k]` with the kernel's replies
      `oracle(1 + 2 * k)` for its reader and `oracle(2 + 2 * k)` for its
      writer. A failure ends the collection and drops what was mapped: the
      failed window's reader, if any, then the collected windows. */
  function MapWindows(s: Sys, bases: seq<Usize>, k: nat, len: Usize, protW: Mask, protR: Mask, flags: Mask, fd: I32, oracle: nat -> MmapReply, acc: seq<Pivot>): (Windows, Sys)
    decreases |bases| - k
  {
    if k >= |bases| then (Collected(acc), s)
    else
      var (h, s1) := MapHalves(s, bases[k], len, protW, protR, flags, fd, oracle(1 + 2 * k), oracle(2 + 2 * k));
      if h.HalvesMapped? then MapWindows(s1, bases, k + 1, len, protW, protR, flags, fd, oracle, acc + [Pivot(h.tm, h.rm)])
      else Abandon(s1, h, acc)
  }

  /** How the collection ends when window `h` did not map: a failed map
      drops the window's reader, if it mapped, then the collected windows;
      an invalid address panics with nothing dropped. */
  function Abandon(s: Sys, h: Halves, acc: seq<Pivot>): (r: (Windows, Sys))
    requires !h.HalvesMapped?
    ensures h.ReaderFailed? ==> r.0 == Stopped(h.errno)
    ensures h.WriterFailed? ==> r.0 == Stopped(h.errno)
    ensures h.HalvesInvalid? ==> r == (Crashed, s)
  {
    match h
    case ReaderFailed(e) => (Stopped(e), DropPivots(s, acc))
    case WriterFailed(e, rm) => (Stopped(e), DropPivots(Drop(s, rm), acc))
    case HalvesInvalid => (Crashed, s)
  }

  /** When every window maps, one pivot is collected per base, and pivot
      `j` has its writer at `bases[j]` and its reader `len` bytes above,
      each `len` bytes long. */
  lemma {:induction false} MapWindowsCollects(s: Sys, bases: seq<Usize>, k: nat, len: Usize, protW: Mask, protR: Mask, flags: Mask, fd: I32, oracle: nat -> MmapReply, acc: seq<Pivot>, j: nat)
    requires |acc| == k <= |bases|
    requires j < k ==> acc[j].tm.mem == bases[j] && acc[j].rm.mem == WrappingAdd(bases[j], len) && Len(acc[j].tm) == Len(acc[j].rm) == len
    ensures var w := MapWindows(s, bases, k, len, protW, protR, flags, fd, oracle, acc).0;
            w.Collected? ==>
              |w.pivots| == |bases|
              && (j < |bases| ==> w.pivots[j].tm.mem == bases[j] && w.pivots[j].rm.mem == WrappingAdd(bases[j], len)
                                  && Len(w.pivots[j].tm) == Len(w.pivots[j].rm) == len)
    decreases |bases| - k
  {
    if k < |bases| {
      var (h, s1) := MapHalves(s, bases[k], len, protW, protR, flags, fd, oracle(1 + 2 * k), oracle(2 + 2 * k));
      if h.HalvesMapped? {
        var acc' := acc + [Pivot(h.tm, h.rm)];
        assert j < k ==> acc'[j] == acc[j];
        MapWindowsCollects(s1, bases, k + 1, len, protW, protR, flags, fd, oracle, acc', j);
      }
    }
  }

  /** The flags of the ring's reservation. */
  const RING_RESERVATION_FLAGS: Mask := MAP_PRIVATE | MAP_ANONYMOUS

  /** The ring branch of `try_new_buffer_raw`, as written: the size of the
      reservation, `2 * len * pages`, must not overflow; the reservation is
      recorded as a slice of `len` bytes; the windows are mapped from its
      top down; a failure drops what was mapped and the reservation's
      slice; and when every window maps the function panics, since that
      case is left `todo!`. */
  function RingAsWritten<T>(s0: Sys, file: T, fd: I32, len: Usize, pages: NonZeroUsize, allowUnsafeWrites: bool, flags: Mask, oracle: nat -> MmapReply): (PairOutcome<T>, Sys)
  {
    var len2 := WrappingMul(len, 2);
    match CheckedMul(len2, pages)
    case None => (Returned(Err(Wrap(OutOfMemory, file))), s0)
    case Some(full) =>
      var (m, s1) := Reserve(s0, full, RING_RESERVATION_FLAGS, oracle(0), len);
      match m
      case MapFailed => (Returned(Err(WrapLastError(s1.errno, file))), s1)
      case InvalidAddress => (Panicked, s1)
      case Mapped(root) => RingWindows(s1, file, fd, len, root, WrappingAdd(root.mem, full - len2), len2, pages, allowUnsafeWrites, flags, oracle)
  }

  /** The ring once its reservation `root` is mapped: the windows are
      mapped from `top` down in steps of `len2`; a failure drops what was
      mapped and then `root`. */
  function RingWindows<T>(s1: Sys, file: T, fd: I32, len: Usize, root: UniqueSlice, top: Usize, len2: Usize, pages: NonZeroUsize, allowUnsafeWrites: bool, flags: Mask, oracle: nat -> MmapReply): (PairOutcome<T>, Sys)
  {
    var (protW, protR) := ProtPair(allowUnsafeWrites);
    var (w, s2) := MapWindows(s1, Successors(top, len2, pages), 0, len, protW, protR, flags, fd, oracle, []);
    match w
    case Stopped(e) => (Returned(Err(WrapLastError(e, file))), Drop(s2, root))
    case Crashed => (Panicked, s2)
    case Collected(_) => (Panicked, s2)
  }

  /** When `2 * len * pages` overflows, the ring hands back the file with
      an out-of-memory error and has made no call at all. */
  lemma RingOverflowKeepsFile<T>(s0: Sys, file: T, fd: I32, len: Usize, pages: NonZeroUsize, allowUnsafeWrites: bool, flags: Mask, oracle: nat -> MmapReply)
    requires WrappingMul(len, 2) * pages > USIZE_MAX
    ensures RingAsWritten(s0, file, fd, len, pages, allowUnsafeWrites, flags, oracle)
         == (Returned(Err(TryNewError(OutOfMemory, file))), s0)
  {
  }

  /** The ring never hands out a pair: it either panics or returns an error
      that carries the file; that error is out-of-memory or the `errno` of
      a refused `mmap`. */
  lemma RingNeverSucceeds<T>(s0: Sys, file: T, fd: I32, len: Usize, pages: NonZeroUsize, allowUnsafeWrites: bool, flags: Mask, oracle: nat -> MmapReply)
    ensures var r := RingAsWritten(s0, file, fd, len, pages, allowUnsafeWrites, flags, oracle).0;
            r.Returned? ==>
              r.value.Err? && IntoInner(r.value.error) == file
              && (r.value.error.error == OutOfMemory || r.value.error.error.Os?)
  {
  }

  // ---------------------------------------------------------------------
  // The calls, one at a time

  /** One reservation `mmap`, then the macro's address checks. */
  method ReserveOn(k: Kernel, mapLen: Usize, flags: Mask, reply: MmapReply, sliceLen: Usize) returns (m: Mapping)
    modifies k
    ensures (m, k.State()) == Reserve(old(k.State()), mapLen, flags, reply, sliceLen)
    ensures k.advisories == old(k.advisories)
  {
    var p := k.Mmap(NULL, mapLen, PROT_NONE, flags, -1, 0, reply);
    m := SliceAt(p, sliceLen);
  }

  /** `MappedSlice::drop` on the kernel. */
  method DropSlice(k: Kernel, slice: UniqueSlice)
    modifies k
    ensures k.State() == Drop(old(k.State()), slice)
    ensures k.advisories == old(k.advisories)
  {
    k.Munmap(slice.mem, Len(slice));
  }

  /** The reader, then the writer, of one window. */
  method MapHalvesOn(k: Kernel, base: Usize, len: Usize, protW: Mask, protR: Mask, flags: Mask, fd: I32, readerReply: MmapReply, writerReply: MmapReply) returns (h: Halves)
    modifies k
    ensures (h, k.State()) == MapHalves(old(k.State()), base, len, protW, protR, flags, fd, readerReply, writerReply)
    ensures k.advisories == old(k.advisories)
  {
    var p1 := k.Mmap(WrappingAdd(base, len), len, protR, FixedFlags(flags), fd, 0, readerReply);
    match SliceAt(p1, len)
    case MapFailed =>
      h := ReaderFailed(k.errno);
    case InvalidAddress =>
      h := HalvesInvalid;
    case Mapped(rm) =>
      var p2 := k.Mmap(base, len, protW, FixedFlags(flags), fd, 0, writerReply);
      match SliceAt(p2, len)
      case MapFailed =>
        h := WriterFailed(k.errno, rm);
      case InvalidAddress =>
        h := HalvesInvalid;
      case Mapped(tm) =>
        h := HalvesMapped(tm, rm);
  }

  /** Drops the collected windows in order, each writer before its reader. */
  method DropAll(k: Kernel, pivots: seq<Pivot>)
    modifies k
    ensures k.State() == DropPivots(old(k.State()), pivots)
    ensures k.advisories == old(k.advisories)
  {
    var j := 0;
    while j < |pivots|
      invariant 0 <= j <= |pivots|
      invariant k.State() == DropPivots(old(k.State()), pivots[..j])
      invariant k.advisories == old(k.advisories)
    {
      assert pivots[..j + 1][..j] == pivots[..j];
      DropSlice(k, pivots[j].tm);
      DropSlice(k, pivots[j].rm);
      j := j + 1;
    }
    assert pivots[..j] == pivots;
  }

  /** Ends the collection after window `h` did not map. */
  method AbandonOn(k: Kernel, h: Halves, pivots: seq<Pivot>) returns (w: Windows)
    requires !h.HalvesMapped?
    modifies k
    ensures (w, k.State()) == Abandon(old(k.State()), h, pivots)
    ensures k.advisories == old(k.advisories)
  {
    match h {
      case ReaderFailed(e) =>
        DropAll(k, pivots);
        w := Stopped(e);
      case WriterFailed(e, rm) =>
        DropSlice(k, rm);
        DropAll(k, pivots);
        w := Stopped(e);
      case HalvesInvalid =>
        w := Crashed;
    }
  }

  /** The `map(...).collect()` over the window bases: maps window after
      window until one fails, and then drops what was mapped. */
  method CollectWindows(k: Kernel, bases: seq<Usize>, len: Usize, protW: Mask, protR: Mask, flags: Mask, fd: I32, oracle: nat -> MmapReply) returns (w: Windows)
    modifies k
    ensures (w, k.State()) == MapWindows(old(k.State()), bases, 0, len, protW, protR, flags, fd, oracle, [])
    ensures k.advisories == old(k.advisories)
  {
    ghost var whole := MapWindows(k.State(), bases, 0, len, protW, protR, flags, fd, oracle, []);
    var pivots: seq<Pivot> := [];
    var i := 0;
    while i < |bases|
      invariant 0 <= i <= |bases|
      invariant MapWindows(k.State(), bases, i, len, protW, protR, flags, fd, oracle, pivots) == whole
      invariant k.advisories == old(k.advisories)
      decreases |bases| - i
    {
      ghost var before := k.State();
      var h := MapHalvesOn(k, bases[i], len, protW, protR, flags, fd, oracle(1 + 2 * i), oracle(2 + 2 * i));
      assert MapWindows(before, bases, i, len, protW, protR, flags, fd, oracle, pivots)
          == if h.HalvesMapped? then MapWindows(k.State(), bases, i + 1, len, protW, protR, flags, fd, oracle, pivots + [Pivot(h.tm, h.rm)])
             else Abandon(k.State(), h, pivots);
      if !h.HalvesMapped? {
        w := AbandonOn(k, h, pivots);
        return;
      }
      pivots := pivots + [Pivot(h.tm, h.rm)];
      i := i + 1;
    }
    w := Collected(pivots);
  }

  /** The branch of `try_new_buffer_raw` without rings (src/lib.rs:194-221). */
  method DualBuffer<T>(k: Kernel, file: T, fd: I32, len: Usize, allowUnsafeWrites: bool, flags: Mask, oracle: nat -> MmapReply) returns (r: PairOutcome<T>)
    modifies k
    ensures (r, k.State()) == DualAsWritten(old(k.State()), file, fd, len, allowUnsafeWrites, flags, oracle)
    ensures k.advisories == old(k.advisories)
  {
    var (protW, protR) := ProtPair(allowUnsafeWrites);
    var root := ReserveOn(k, WrappingMul(len, 2), ReservationFlags(flags), oracle(0), len);
    match root {
      case MapFailed =>
        r := Returned(Err(WrapLastError(k.errno, file)));
      case InvalidAddress =>
        r := Panicked;
      case Mapped(rootSlice) =>
        var h := MapHalvesOn(k, rootSlice.mem, len, protW, protR, flags, fd, oracle(1), oracle(2));
        match h {
          case ReaderFailed(e) =>
            DropSlice(k, rootSlice);
            r := Returned(Err(WrapLastError(e, file)));
          case WriterFailed(e, rm) =>
            DropSlice(k, rm);
            DropSlice(k, rootSlice);
            r := Returned(Err(WrapLastError(e, file)));
          case HalvesInvalid =>
            r := Panicked;
          case HalvesMapped(tm, rm) =>
            DropSlice(k, rootSlice);
            r := Returned(Ok((MappedFile(SharedHandle(file), tm), MappedFile(SharedHandle(file), rm))));
        }
    }
  }

  /** The ring branch of `try_new_buffer_raw` (src/lib.rs:222-245). */
  method RingBuffer<T>(k: Kernel, file: T, fd: I32, len: Usize, pages: NonZeroUsize, allowUnsafeWrites: bool, flags: Mask, oracle: nat -> MmapReply) returns (r: PairOutcome<T>)
    modifies k
    ensures (r, k.State()) == RingAsWritten(old(k.State()), file, fd, len, pages, allowUnsafeWrites, flags, oracle)
    ensures k.advisories == old(k.advisories)
  {
    var len2 := WrappingMul(len, 2);
    match CheckedMul(len2, pages) {
      case None =>
        r := Returned(Err(Wrap(OutOfMemory, file)));
      case Some(full) =>
        var root := ReserveOn(k, full, RING_RESERVATION_FLAGS, oracle(0), len);
        match root {
          case MapFailed =>
            r := Returned(Err(WrapLastError(k.errno, file)));
          case InvalidAddress =>
            r := Panicked;
          case Mapped(rootSlice) =>
            r := RingWindowsOn(k, file, fd, len, rootSlice, WrappingAdd(rootSlice.mem, full - len2), len2, pages, allowUnsafeWrites, flags, oracle);
        }
    }
  }

  /** The windows of the ring, once its reservation is mapped. */
  method RingWindowsOn<T>(k: Kernel, file: T, fd: I32, len: Usize, root: UniqueSlice, top: Usize, len2: Usize, pages: NonZeroUsize, allowUnsafeWrites: bool, flags: Mask, oracle: nat -> MmapReply) returns (r: PairOutcome<T>)
    modifies k
    ensures (r, k.State()) == RingWindows(old(k.State()), file, fd, len, root, top, len2, pages, allowUnsafeWrites, flags, oracle)
    ensures k.advisories == old(k.advisories)
  {
    var (protW, protR) := ProtPair(allowUnsafeWrites);
    var w := CollectWindows(k, Successors(top, len2, pages), len, protW, protR, flags, fd, oracle);
    match w {
      case Stopped(e) =>
        DropSlice(k, root);
        r := Returned(Err(WrapLastError(e, file)));
      case Crashed =>
        r := Panicked;
      case Collected(_) =>
        r := Panicked;
    }
  }

  /** `try_new_buffer_raw` (src/lib.rs:140-249) on the kernel: `rings`
      chooses between the dual mapping and the ring. */
  method TryNewBufferRaw<T>(k: Kernel, file: T, asRawFd: T -> I32, len: Usize, rings: Option<NonZeroUsize>, allowUnsafeWrites: bool, flags: Mask, oracle: nat -> MmapReply) returns (r: PairOutcome<T>)
    modifies k
    ensures rings.None? ==> (r, k.State()) == DualAsWritten(old(k.State()), file, asRawFd(file), len, allowUnsafeWrites, flags, oracle)
    ensures rings.Some? ==> (r, k.State()) == RingAsWritten(old(k.State()), file, asRawFd(file), len, rings.value, allowUnsafeWrites, flags, oracle)
    ensures k.advisories == old(k.advisories)
  {
    match rings {
      case None =>
        r := DualBuffer(k, file, asRawFd(file), len, allowUnsafeWrites, flags, oracle);
      case Some(pages) =>
        r := RingBuffer(k, file, asRawFd(file), len, pages, allowUnsafeWrites, flags, oracle);
    }
  }

  /** `try_new_buffer` (src/lib.rs:134-137): the dual mapping without rings
      and without unsafe writes. */
  method TryNewBuffer<T>(k: Kernel, file: T, asRawFd: T -> I32, len: Usize, flags: Mask, oracle: nat -> MmapReply) returns (r: PairOutcome<T>)
    modifies k
    ensures (r, k.State()) == DualAsWritten(old(k.State()), file, asRawFd(file), len, false, flags, oracle)
    ensures k.advisories == old(k.advisories)
  {
    r := TryNewBufferRaw(k, file, asRawFd, len, None, false, flags, oracle);
  }
}
