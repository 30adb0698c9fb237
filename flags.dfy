/** The closed flag enumerations of `MappedFile` and their OS bit masks
    (src/flags.rs), with the Linux x86-64 values of the libc constants. */
module MmapFlags {

  /** A `c_int` used as a bit mask. */
  type Mask = bv32

  const PROT_NONE: Mask := 0
  const PROT_READ: Mask := 1
  const PROT_WRITE: Mask := 2
  const PROT_EXEC: Mask := 4

  const MAP_SHARED: Mask := 0x01
  const MAP_PRIVATE: Mask := 0x02
  const MAP_FIXED: Mask := 0x10
  const MAP_ANONYMOUS: Mask := 0x20

  const MS_ASYNC: Mask := 1
  const MS_INVALIDATE: Mask := 2
  const MS_SYNC: Mask := 4

  /** `madvise` advice values. On Linux these are enumerated codes, not bits. */
  const MADV_NORMAL: Mask := 0
  const MADV_RANDOM: Mask := 1
  const MADV_SEQUENTIAL: Mask := 2
  const MADV_WILLNEED: Mask := 3
  const MADV_DONTNEED: Mask := 4

  /** Permissions for the mapped pages. */
  datatype Perm = ReadWrite | Readonly | Writeonly | RX | WRX

  /** Flags for mapping a file descriptor. */
  datatype Flags = Shared | Private

  /** Options for flushing a mapping with `msync()`. */
  datatype Flush = Wait | Async | Invalidate | InvalidateAsync

  /** Advice to the kernel about how the mapped pages will be accessed. */
  datatype Advice = Normal | Sequential | RandomAccess

  /** The `Default` variants of the four enumerations. */
  const DEFAULT_PERM: Perm := ReadWrite
  const DEFAULT_FLAGS: Flags := Shared
  const DEFAULT_FLUSH: Flush := Wait
  const DEFAULT_ADVICE: Advice := Normal

  /** `Flags::get_flags`: exactly one of MAP_SHARED and MAP_PRIVATE, and
      MAP_SHARED precisely for the flags that require write access. */
  function GetFlags(f: Flags): (r: Mask)
    ensures r == MAP_SHARED || r == MAP_PRIVATE
    ensures r == MAP_SHARED <==> RequiresWriteAccess(f)
    ensures r & (MAP_FIXED | MAP_ANONYMOUS) == 0
  {
    match f
    case Shared => MAP_SHARED
    case Private => MAP_PRIVATE
  }

  /** `Flags::requires_write_access`: only a shared mapping writes back. */
  predicate RequiresWriteAccess(f: Flags): (r: bool)
    ensures r <==> f == Shared
  {
    match f
    case Shared => true
    case _ => false
  }

  /** `Perm::get_prot`: each PROT bit is set exactly for the permissions that
      grant it, and no other bit is set. */
  function GetProt(p: Perm): (r: Mask)
    ensures (r & PROT_READ != 0) <==> !p.Writeonly?
    ensures (r & PROT_WRITE != 0) <==> (p.ReadWrite? || p.Writeonly? || p.WRX?)
    ensures (r & PROT_EXEC != 0) <==> (p.RX? || p.WRX?)
    ensures r & !(PROT_READ | PROT_WRITE | PROT_EXEC) == 0
  {
    match p
    case ReadWrite => PROT_READ | PROT_WRITE
    case Readonly => PROT_READ
    case Writeonly => PROT_WRITE
    case RX => PROT_READ | PROT_EXEC
    case WRX => PROT_READ | PROT_WRITE | PROT_EXEC
  }

  /** `Perm::open_rw`: whether a file must be opened for reading and for
      writing to back a mapping with permission `p` and mode `f`. */
  function OpenRw(p: Perm, f: Flags): (r: (bool, bool))
    ensures r.0 <==> !p.Writeonly?
    ensures r.1 <==> (p.ReadWrite? || p.WRX? || p.Writeonly?) && f.Shared?
  {
    var wr := RequiresWriteAccess(f);
    match p
    case ReadWrite | WRX => (true, wr)
    case Readonly | RX => (true, false)
    case Writeonly => (false, wr)
  }

  /** `Flush::get_ms`: exactly one of MS_SYNC and MS_ASYNC, MS_INVALIDATE for
      the two invalidating variants, and no other bit. */
  function GetMs(f: Flush): (r: Mask)
    ensures (r & MS_SYNC != 0) != (r & MS_ASYNC != 0)
    ensures (r & MS_ASYNC != 0) <==> (f.Async? || f.InvalidateAsync?)
    ensures (r & MS_INVALIDATE != 0) <==> (f.Invalidate? || f.InvalidateAsync?)
    ensures r & !(MS_SYNC | MS_ASYNC | MS_INVALIDATE) == 0
  {
    match f
    case Wait => MS_SYNC
    case Async => MS_ASYNC
    case Invalidate => MS_SYNC | MS_INVALIDATE
    case InvalidateAsync => MS_ASYNC | MS_INVALIDATE
  }

  /** `Advice::get_madv`: one of the three access-pattern codes. */
  function GetMadv(a: Advice): (r: Mask)
    ensures r == MADV_NORMAL || r == MADV_SEQUENTIAL || r == MADV_RANDOM
  {
    match a
    case Normal => MADV_NORMAL
    case Sequential => MADV_SEQUENTIAL
    case RandomAccess => MADV_RANDOM
  }

  /** Distinct permissions request distinct protections. */
  lemma GetProtInjective(p: Perm, q: Perm)
    ensures GetProt(p) == GetProt(q) ==> p == q
  {
  }

  /** The read-only permissions never ask for PROT_WRITE, and they are the
      only ones that do not. */
  lemma ReadonlyNeverWrites(p: Perm)
    ensures GetProt(p) & PROT_WRITE == 0 <==> (p.Readonly? || p.RX?)
  {
  }

  /** `open_rw` agrees with the protection: the file is opened for reading
      iff the mapping can read, and for writing iff the mapping can write and
      the mode writes back. */
  lemma OpenRwMatchesProt(p: Perm, f: Flags)
    ensures OpenRw(p, f).0 <==> GetProt(p) & PROT_READ != 0
    ensures OpenRw(p, f).1 <==> GetProt(p) & PROT_WRITE != 0 && GetFlags(f) == MAP_SHARED
  {
  }

  /** Distinct flush modes issue distinct `msync` flags. */
  lemma GetMsInjective(f: Flush, g: Flush)
    ensures GetMs(f) == GetMs(g) ==> f == g
  {
  }

  /** Distinct advice values issue distinct `madvise` codes. */
  lemma GetMadvInjective(a: Advice, b: Advice)
    ensures GetMadv(a) == GetMadv(b) ==> a == b
  {
  }

  /** The defaults map to a read-write shared mapping, synchronous flushing
      and normal access. */
  lemma DefaultsMasks()
    ensures GetProt(DEFAULT_PERM) == PROT_READ | PROT_WRITE
    ensures GetFlags(DEFAULT_FLAGS) == MAP_SHARED
    ensures GetMs(DEFAULT_FLUSH) == MS_SYNC
    ensures GetMadv(DEFAULT_ADVICE) == MADV_NORMAL
  {
  }
}
