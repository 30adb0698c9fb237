/** The part of the operating system `MappedFile` talks to: the process
    address space and the four calls `mmap`, `munmap`, `msync` and
    `madvise`. Where the kernel decides (where to place a mapping, whether a
    call fails, with which `errno`) the decision is a parameter of the call.

    The address space is kept as the changes made to it, oldest first; what
    an address shows is decided by the newest change whose range covers it. */
module Kernel {
  import opened Wrappers
  import opened Machine
  import opened MmapFlags

  /** `MAP_FAILED`, the all-ones address. */
  const MAP_FAILED: Usize := USIZE_MAX
  /** The null pointer. */
  const NULL: Usize := 0

  /** What a mapped byte shows: anonymous memory or a file descriptor. */
  datatype Backing = Anonymous | Descriptor(fd: I32)

  /** One mapped byte: its backing, its offset in the backing and its
      protection. */
  datatype Frame = Frame(backing: Backing, offset: int, prot: Mask)

  /** One change to the address space: `[addr, addr + len)` mapped so that
      byte `addr + i` shows byte `offset + i` of the backing, or that range
      removed. */
  datatype Change =
    | Placed(addr: Usize, len: Usize, backing: Backing, offset: int, prot: Mask)
    | Removed(addr: Usize, len: Usize)

  type Space = seq<Change>

  /** The kernel's answer to `mmap`: an error number, or the address it
      chose (which a `MAP_FIXED` request ignores). */
  datatype MmapReply = Refused(errno: int) | Granted(addr: Usize)

  /** The kernel's answer to `msync` and `madvise`. */
  datatype Reply = Done | Failed(errno: int)

  /** A call that leaves the address space as it is, kept in order. */
  datatype Advisory = MsyncCall(addr: Usize, len: Usize, flags: Mask) | MadviseCall(addr: Usize, len: Usize, advice: Mask)

  predicate InRange(a: int, addr: int, len: int)
  {
    addr <= a < addr + len
  }

  /** What address `a` shows: the frame of the newest mapping covering it,
      or nothing when the newest change covering it removed it or no change
      covers it. */
  function At(space: Space, a: int): Option<Frame>
    decreases |space|
  {
    if |space| == 0 then None
    else
      var c := space[|space| - 1];
      if !InRange(a, c.addr, c.len) then At(space[..|space| - 1], a)
      else if c.Placed? then Some(Frame(c.backing, c.offset + (a - c.addr), c.prot))
      else None
  }

  /** The backing a mapping request asks for. */
  function BackingOf(flags: Mask, fd: I32): (b: Backing)
    ensures b.Anonymous? <==> flags & MAP_ANONYMOUS != 0
  {
    if flags & MAP_ANONYMOUS != 0 then Anonymous else Descriptor(fd)
  }

  /** Maps `[addr, addr + len)` over whatever was there. */
  function Place(space: Space, addr: Usize, len: Usize, backing: Backing, offset: int, prot: Mask): Space
  {
    space + [Placed(addr, len, backing, offset, prot)]
  }

  /** Removes `[addr, addr + len)`. */
  function Unmap(space: Space, addr: Usize, len: Usize): Space
  {
    space + [Removed(addr, len)]
  }

  /** After `Place`, byte `addr + i` of the range shows byte `offset + i` of
      the backing, and every address outside the range is as it was. */
  lemma PlaceAt(space: Space, addr: Usize, len: Usize, backing: Backing, offset: int, prot: Mask, a: int)
    ensures At(Place(space, addr, len, backing, offset, prot), a)
         == if InRange(a, addr, len) then Some(Frame(backing, offset + (a - addr), prot)) else At(space, a)
  {
    var r := Place(space, addr, len, backing, offset, prot);
    assert r[..|r| - 1] == space;
  }

  /** After `Unmap`, nothing in the range is mapped, and every address
      outside it is as it was. */
  lemma UnmapAt(space: Space, addr: Usize, len: Usize, a: int)
    ensures At(Unmap(space, addr, len), a) == if InRange(a, addr, len) then None else At(space, a)
  {
    var r := Unmap(space, addr, len);
    assert r[..|r| - 1] == space;
  }

  /** The address `mmap` returns: `MAP_FAILED` on refusal, the hint for a
      `MAP_FIXED` request, and the kernel's choice otherwise. */
  function MmapResult(hint: Usize, flags: Mask, reply: MmapReply): (p: Usize)
    ensures reply.Refused? ==> p == MAP_FAILED
    ensures reply.Granted? && flags & MAP_FIXED != 0 ==> p == hint
    ensures reply.Granted? && flags & MAP_FIXED == 0 ==> p == reply.addr
  {
    match reply
    case Refused(_) => MAP_FAILED
    case Granted(addr) => if flags & MAP_FIXED != 0 then hint else addr
  }

  /** The address space after `mmap`: unchanged on refusal, otherwise the
      new mapping at the returned address, over whatever was there. */
  function MmapSpace(space: Space, hint: Usize, len: Usize, prot: Mask, flags: Mask, fd: I32, offset: Usize, reply: MmapReply): (r: Space)
    ensures reply.Refused? ==> r == space
  {
    match reply
    case Refused(_) => space
    case Granted(_) => Place(space, MmapResult(hint, flags, reply), len, BackingOf(flags, fd), offset, prot)
  }

  /** `errno` after a call: the refusal's, or unchanged. */
  function ErrnoAfter(errno: int, reply: MmapReply): (e: int)
    ensures reply.Refused? ==> e == reply.errno
    ensures reply.Granted? ==> e == errno
  {
    match reply
    case Refused(code) => code
    case Granted(_) => errno
  }

  /** What a working kernel guarantees of a granted `mmap`: the address it
      returns is neither null nor `MAP_FAILED`, and the whole range lies
      below the top of the address space. A `MAP_FIXED` request at an
      address that breaks this is refused. */
  predicate Plausible(hint: Usize, len: Usize, flags: Mask, reply: MmapReply)
  {
    reply.Granted? ==>
      var p := MmapResult(hint, flags, reply);
      p != NULL && p != MAP_FAILED && p + len <= USIZE_MAX
  }

  /** From a working kernel, `mmap` returns `MAP_FAILED` exactly when it
      refuses, and the mapping it grants does not wrap. */
  lemma PlausibleFailsOnlyOnRefusal(hint: Usize, len: Usize, flags: Mask, reply: MmapReply)
    requires Plausible(hint, len, flags, reply)
    ensures MmapResult(hint, flags, reply) == MAP_FAILED <==> reply.Refused?
    ensures reply.Granted? ==> WrappingAdd(MmapResult(hint, flags, reply), len) == MmapResult(hint, flags, reply) + len
  {
  }

  /** What a call may change: the address space and `errno`. */
  datatype Sys = Sys(space: Space, errno: int)

  /** `mmap` as a function of the state: the address it returns and the
      state after it. */
  function MmapOn(s: Sys, hint: Usize, len: Usize, prot: Mask, flags: Mask, fd: I32, offset: Usize, reply: MmapReply): (Usize, Sys)
  {
    (MmapResult(hint, flags, reply),
     Sys(MmapSpace(s.space, hint, len, prot, flags, fd, offset, reply), ErrnoAfter(s.errno, reply)))
  }

  /** `munmap` as a function of the state. */
  function MunmapOn(s: Sys, addr: Usize, len: Usize): Sys
  {
    Sys(Unmap(s.space, addr, len), s.errno)
  }

  /** After `mmap`, a refusal has changed only `errno`; a grant shows, at
      the returned address `p` plus `i`, byte `offset + i` of the backing,
      and leaves every address outside `[p, p + len)` as it was. */
  lemma MmapOnAt(s: Sys, hint: Usize, len: Usize, prot: Mask, flags: Mask, fd: I32, offset: Usize, reply: MmapReply, a: int)
    ensures var (p, s1) := MmapOn(s, hint, len, prot, flags, fd, offset, reply);
            (reply.Refused? ==> s1 == Sys(s.space, reply.errno))
            && (reply.Granted? ==>
                  s1.errno == s.errno
                  && At(s1.space, a) == if InRange(a, p, len) then Some(Frame(BackingOf(flags, fd), offset + (a - p), prot)) else At(s.space, a))
  {
    if reply.Granted? {
      PlaceAt(s.space, MmapResult(hint, flags, reply), len, BackingOf(flags, fd), offset, prot, a);
    }
  }

  /** After `munmap`, nothing in the range is mapped, every address outside
      it is as it was, and `errno` is unchanged. */
  lemma MunmapOnAt(s: Sys, addr: Usize, len: Usize, a: int)
    ensures var s1 := MunmapOn(s, addr, len);
            s1.errno == s.errno
            && At(s1.space, a) == if InRange(a, addr, len) then None else At(s.space, a)
  {
    UnmapAt(s.space, addr, len, a);
  }

  /** Unmapping what was just mapped leaves every address as unmapping the
      same range before the mapping would: nothing of the mapping survives,
      and nothing outside its range is disturbed. */
  lemma UnmapAfterPlace(space: Space, addr: Usize, len: Usize, backing: Backing, offset: int, prot: Mask, a: int)
    ensures At(Unmap(Place(space, addr, len, backing, offset, prot), addr, len), a) == At(Unmap(space, addr, len), a)
  {
    PlaceAt(space, addr, len, backing, offset, prot, a);
    UnmapAt(Place(space, addr, len, backing, offset, prot), addr, len, a);
    UnmapAt(space, addr, len, a);
  }

  class Kernel {
    var space: Space
    var errno: int
    var advisories: seq<Advisory>

    function State(): Sys
      reads this
    {
      Sys(space, errno)
    }

    constructor(space0: Space)
      ensures space == space0 && errno == 0 && advisories == []
    {
      space := space0;
      errno := 0;
      advisories := [];
    }

    /** `mmap(hint, len, prot, flags, fd, offset)`. */
    method Mmap(hint: Usize, len: Usize, prot: Mask, flags: Mask, fd: I32, offset: Usize, reply: MmapReply) returns (p: Usize)
      modifies this
      ensures p == MmapResult(hint, flags, reply)
      ensures space == MmapSpace(old(space), hint, len, prot, flags, fd, offset, reply)
      ensures errno == ErrnoAfter(old(errno), reply)
      ensures advisories == old(advisories)
    {
      p := MmapResult(hint, flags, reply);
      match reply
      case Refused(code) =>
        errno := code;
      case Granted(_) =>
        space := Place(space, p, len, BackingOf(flags, fd), offset, prot);
    }

    /** `munmap(addr, len)`; its result is ignored by every caller. */
    method Munmap(addr: Usize, len: Usize)
      modifies this
      ensures space == Unmap(old(space), addr, len)
      ensures errno == old(errno) && advisories == old(advisories)
    {
      space := Unmap(space, addr, len);
    }

    /** `msync(addr, len, flags)`: 0 on success, -1 with `errno` set. */
    method Msync(addr: Usize, len: Usize, flags: Mask, reply: Reply) returns (rc: int)
      modifies this
      ensures advisories == old(advisories) + [MsyncCall(addr, len, flags)]
      ensures space == old(space)
      ensures reply.Done? ==> rc == 0 && errno == old(errno)
      ensures reply.Failed? ==> rc == -1 && errno == reply.errno
    {
      advisories := advisories + [MsyncCall(addr, len, flags)];
      match reply
      case Done =>
        rc := 0;
      case Failed(code) =>
        errno := code;
        rc := -1;
    }

    /** `madvise(addr, len, advice)`: 0 on success, -1 with `errno` set. */
    method Madvise(addr: Usize, len: Usize, advice: Mask, reply: Reply) returns (rc: int)
      modifies this
      ensures advisories == old(advisories) + [MadviseCall(addr, len, advice)]
      ensures space == old(space)
      ensures reply.Done? ==> rc == 0 && errno == old(errno)
      ensures reply.Failed? ==> rc == -1 && errno == reply.errno
    {
      advisories := advisories + [MadviseCall(addr, len, advice)];
      match reply
      case Done =>
        rc := 0;
      case Failed(code) =>
        errno := code;
        rc := -1;
    }
  }
}
