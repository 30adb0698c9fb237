# mapped-file, modelled in Dafny

A model of the core of the Rust crate `mapped-file`. The crate gives safe,
owning wrappers over POSIX memory mappings:

- `MappedFile<T>` owns a file `T` and the `MappedSlice` of address space
  mapped over it.
- `try_new` maps a file and hands the file back if `mmap` fails.
- `flush`, `advise` and `try_with_advice` issue `msync` and `madvise`.
- `into_inner`, `into_inner_synced` and `replace_inner[_unchecked]` take a
  mapping apart.
- `try_new_buffer_raw` builds a dual mapping. The writer `tx` and the reader
  `rx` are placed side by side in one reserved range, over the same file.
  The ring variant reserves room for several such windows.
- `UniqueSlice` is the exclusive `(mem, end)` address pair.
- The flag tables `Perm`, `Flags`, `Flush` and `Advice` map onto OS masks.
- `MapHugeFlag` and `HugePage` resolve a huge-page size to a `MAP_HUGE_*`
  flag, and `scan_hugepages` parses the entry names of
  `/sys/kernel/mm/hugepages/`.
- `NonNegativeI32` and `UnmanagedFD` encode file descriptors.

## How the model is built

- **Modules.**
  - `Wrappers` holds `Option`, `Result`, `Run` (a value or a panic) and `IoError`.
  - `Machine` holds `usize`, `i32` and wrapping arithmetic.
  - `MmapFlags` holds `src/flags.rs` with Linux x86-64 constants.
  - `Uniq`, `RawFd` and `Unmanaged` are pure functions over values.
  - `HugeScan` and `HugeTlb` cover `src/hugetlb.rs`.
  - `Kernel` is the operating system. `MappedFiles` is `MappedFile` and
    `TryNewError`. `Buffers` is `try_new_buffer[_raw]`.
- **The kernel.** `Kernel.Kernel` is a class whose fields the calls update:
  - the address space, kept as the list of `mmap`/`munmap` changes, where
    `At(space, a)` is the backing, offset and protection address `a` shows;
  - `errno`;
  - the list of `msync`/`madvise` calls made.

  Each `mmap` is answered by a parameter: a refusal with an `errno`, or the
  address the kernel chose. A `MAP_FIXED` request is placed at its hint over
  whatever was there.
- **Methods and functions.** The source's step-by-step operations are
  methods on the kernel object, for example `MappedFiles.TryNew` and
  `Buffers.TryNewBufferRaw`. Each is proved equal to a function of the old
  state, for example `DualAsWritten` and `RingAsWritten`. What the source
  promises is proved about those functions by pointwise lemmas on `At`.
- **Panics.** A panic is the outcome `Run.Panicked`, never a precondition.
- **As-written semantics.** Where the code and its documentation or evident
  intent disagree, the operations follow the code. The corrected behaviour
  is a separate definition with its property proved; see "## Findings".
  Where the doc comment on `HugePage::Dynamic` (src/hugetlb.rs:158) says an
  overflow behaves like `Smallest`, the code (src/hugetlb.rs:237-239) gives
  `None`, and the model follows the code (`HugeTlb.DynamicOverflowIsNone`).

## Model

| member | source | states |
|---|---|---|
| MmapFlags.GetFlags | src/flags.rs:29-39 | exactly one of MAP_SHARED and MAP_PRIVATE, MAP_SHARED exactly when write access is required, never MAP_FIXED or MAP_ANONYMOUS |
| MmapFlags.RequiresWriteAccess | src/flags.rs:41-47 | true exactly for `Shared` |
| MmapFlags.GetProt | src/flags.rs:53-65 | each PROT bit is set exactly for the permissions that grant it, and no other bit |
| MmapFlags.GetProtInjective | src/flags.rs:53-65 | distinct permissions give distinct protections |
| MmapFlags.ReadonlyNeverWrites | src/flags.rs:53-65 | PROT_WRITE is absent exactly for Readonly and RX |
| MmapFlags.OpenRw | src/flags.rs:67-75 | read is false only for Writeonly; write is true iff the perm is ReadWrite, WRX or Writeonly and the flags are Shared |
| MmapFlags.OpenRwMatchesProt | src/flags.rs:67-75 | `open_rw` reads iff the protection reads, and writes iff the protection writes and the mapping is shared |
| MmapFlags.GetMs | src/flags.rs:92-104 | exactly one of MS_SYNC and MS_ASYNC; MS_INVALIDATE iff an invalidating variant; no other bit |
| MmapFlags.GetMsInjective | src/flags.rs:92-104 | distinct flush modes give distinct `msync` flags |
| MmapFlags.GetMadv | src/flags.rs:119-131 | one of MADV_NORMAL, MADV_SEQUENTIAL and MADV_RANDOM |
| MmapFlags.GetMadvInjective | src/flags.rs:119-131 | distinct advice values give distinct codes |
| MmapFlags.DefaultsMasks | src/flags.rs:6-22 | the defaults ReadWrite and Shared (and Wait and Normal, src/flags.rs:79-111) map to R\|W, MAP_SHARED, MS_SYNC and MADV_NORMAL |
| Uniq.Len | src/uniq.rs:174-180 | zero exactly for an empty slice (`mem == end`), and `end - mem` when `mem <= end` |
| Uniq.GetPtr | src/uniq.rs:133-141 | `None` iff empty, else `Some(mem)` |
| Uniq.First | src/uniq.rs:181-189 | `None` iff the length is zero; otherwise `mem`, inside the slice |
| Uniq.Last | src/uniq.rs:190-198 | `None` iff the length is zero; otherwise `end - 1`, inside the slice and `mem + len - 1` |
| Uniq.FirstMut | src/uniq.rs:199-207 | points where `first` does |
| Uniq.LastMut | src/uniq.rs:208-216 | points where `last` does |
| Uniq.AsRawSlice | src/uniq.rs:165-173 | both branches give the slice at `mem` with `len()` elements (0 when empty) |
| Uniq.AsRawSliceMut | src/uniq.rs:156-164 | the same raw slice as `as_raw_slice` |
| Uniq.AsPtrRange | src/uniq.rs:218-223 | exactly `mem..end`, of width `len()` |
| Uniq.Eq | src/uniq.rs:79-87 | true iff both addresses are equal, that is iff the slices are equal |
| Uniq.Cmp | src/uniq.rs:61-68 | `Equal` iff the `end`s are equal, `Less` iff `a.end < b.end` |
| Uniq.PartialCmp | src/uniq.rs:69-76 | always `Some(cmp)` |
| Uniq.CmpDisagreesWithEq | src/uniq.rs:61-87 | two distinct slices sharing an `end` compare `Equal` while `eq` is false |
| Uniq.CmpByRange | src/uniq.rs:61-68 | agrees with `cmp` wherever `cmp` is not `Equal` |
| Uniq.CmpByRangeConsistent | src/uniq.rs:78-87 | the corrected order is `Equal` iff `eq`, and antisymmetric |
| Uniq.FirstIsLastOfOneByte | src/uniq.rs:181-198 | a one-byte slice has `first == last == mem` |
| RawFd.OrNegFlag | src/file/raw.rs:51 | `u \| NEG_FLAG` sets the sign bit and keeps the low 31 bits |
| RawFd.AndRangeMask | src/file/raw.rs:58 | `u & RANGE_MASK` clears the sign bit and keeps the low 31 bits |
| RawFd.IsNegative | src/file/raw.rs:13-17 | true iff `val < 0`, the sign bit of `val as u32` |
| RawFd.New | src/file/raw.rs:45-53 | `None` iff `raw < 0`; otherwise an encoded store that decodes to `raw` |
| RawFd.Get | src/file/raw.rs:55-59 | never negative; the store less 2^31 for an encoded store |
| RawFd.NewUnchecked | src/file/raw.rs:61-65 | always encoded; agrees with `new` for `raw >= 0`; decodes to `raw + 2^31` for a negative `raw` |
| RawFd.NewOr | src/file/raw.rs:26-30 | `or` iff `raw < 0`, else the encoding of `raw` |
| RawFd.NewOrElse | src/file/raw.rs:21-25 | `f()` iff `raw < 0`, else the encoding of `raw` |
| RawFd.NewOrPanic | src/file/raw.rs:31-44 | panics iff `raw < 0`, else the encoding of `raw` |
| RawFd.EqI32 | src/file/raw.rs:75-82 | on an encoded store, equal to `i` iff the store is `new(i)` |
| RawFd.I32EqNonNegative | src/file/raw.rs:84-91 | the same relation as `EqI32`, from the `i32` side |
| RawFd.PartialCmpI32 | src/file/raw.rs:68-74 | always defined; `Equal` iff equal, `Less` iff `get() < i`, `Greater` for any negative `i` |
| RawFd.I32PartialCmp | src/file/raw.rs:93-99 | the mirror image of `PartialCmpI32` |
| RawFd.IntoI32 | src/file/raw.rs:101-108 | never negative, and re-encodes to the store |
| RawFd.CmpStore | src/file/raw.rs:6-8 | the derived order is `Equal` iff the stores are equal |
| RawFd.NewRoundTrip | src/file/raw.rs:45-59 | `get(new(raw)) == raw` for `raw >= 0`, and `new(get(x)) == x` for an encoded `x` |
| RawFd.StoreNeverZero | src/file/raw.rs:45-65 | the store always has its sign bit set, so it is never zero; `new` and `new_unchecked` agree where `new` succeeds |
| RawFd.StoreOrderMatchesValue | src/file/raw.rs:6-8 | on encoded stores the derived order and equality are those of the decoded values |
| Unmanaged.New | src/file/unmanaged.rs:11-15 | panics iff the alias's descriptor is negative, else names exactly that descriptor |
| Unmanaged.NewOrPanic | src/file/unmanaged.rs:17-21 | panics iff `raw < 0`, else `get() == raw` |
| Unmanaged.NewUnchecked | src/file/unmanaged.rs:23-27 | never panics; `get() == raw` for `raw >= 0`, `raw + 2^31` otherwise |
| Unmanaged.Get | src/file/unmanaged.rs:29-33 | never negative, and re-encodes to the store |
| Unmanaged.AsRawFd | src/file/unmanaged.rs:65-71 | always equals `get()` |
| Unmanaged.FromRaw | src/file/unmanaged.rs:36-44 | panics iff the descriptor is negative, else `get()` gives it back |
| Unmanaged.FromRawFd | src/file/unmanaged.rs:57-62 | the same outcome as `From<RawFd>`: a panic for a negative descriptor |
| Unmanaged.IntoRaw | src/file/unmanaged.rs:46-53 | equals `get()` |
| Unmanaged.Cmp | src/file/unmanaged.rs:6-8 | the derived order is `Equal` iff the values are equal |
| Unmanaged.RoundTrip | src/file/unmanaged.rs:36-53 | `From<RawFd>` then `Into<RawFd>` gives back every non-negative descriptor, and the converse round trip gives back every valid value |
| Unmanaged.OrderIsDescriptorOrder | src/file/unmanaged.rs:6-8 | equality and order coincide with those of the descriptors |
| HugeScan.MemChr | src/hugetlb.rs:322 | the first index of the byte, `None` iff absent |
| HugeScan.MemRChr | src/hugetlb.rs:324 | the last index of the byte, `None` iff absent |
| HugeScan.ParseUsize | src/hugetlb.rs:332-336 | a parse succeeds only on an optional `+` and then one or more digits |
| HugeScan.ParseDecimal | src/hugetlb.rs:333 | `parse::<usize>` reads back every decimal numeral |
| HugeScan.EntrySize | src/hugetlb.rs:322-331 | a name with no `-` is skipped |
| HugeScan.EntrySizeSplit | src/hugetlb.rs:322-336 | the size is the parse of the text between the first `-` and the last `k` after it |
| HugeScan.EntrySizeOfDecimal | src/hugetlb.rs:322-339 | a name `<prefix>-<n>kB` gives `n` |
| HugeScan.TwoMegabyteEntry | src/hugetlb.rs:322-339 | "hugepages-2048kB" gives 2048 |
| HugeScan.MalformedEntriesSkipped | src/hugetlb.rs:332-338 | an empty number or a `-` sign is skipped |
| HugeScan.Step | src/hugetlb.rs:317-343 | a read error is yielded as `Err`, a name is skipped iff it does not parse |
| HugeScan.Items | src/hugetlb.rs:315-345 | the iterator yields at most one item per directory entry |
| HugeScan.ItemsAppend | src/hugetlb.rs:315-345 | each entry contributes on its own and in order |
| HugeScan.ItemsOfOne | src/hugetlb.rs:317-343 | one entry contributes exactly its size or its read error |
| HugeScan.CollectResultsMeaning | src/hugetlb.rs:280 | collecting gives every size in order when there is no error, and otherwise the first error |
| HugeScan.Scan | src/hugetlb.rs:304-307 | a failing `read_dir` is the error |
| HugeScan.FilteredIterator.constructor | src/hugetlb.rs:348 | the iterator starts on the whole directory |
| HugeScan.FilteredIterator.Next | src/hugetlb.rs:315-345 | yields the next item of `Items` and consumes the entries up to it; `None` iff no item is left |
| HugeScan.FilteredIterator.Collect | src/hugetlb.rs:280 | `collect()` over `next` is `CollectResults(Items(dir))` |
| HugeScan.ScanHugepages | src/hugetlb.rs:304-348 | scanning and collecting gives `Scan(dir)` |
| HugeTlb.Log2 | src/hugetlb.rs:57-61 | for `n >= 1`, `2^r <= n < 2^(r+1)` and `r < 64` |
| HugeTlb.LeadingZeros | src/hugetlb.rs:60 | at most 64, and 64 iff `n == 0` |
| HugeTlb.Log2Below32 | src/hugetlb.rs:91-104 | `log2(n) <= 31` iff `n < 2^32` |
| HugeTlb.CheckedShl | src/hugetlb.rs:96 | `None` iff the shift is 64 or more |
| HugeTlb.AsCInt | src/hugetlb.rs:86 | `as c_int` keeps small values and wraps values from 2^31 to 2^32 to negative |
| HugeTlb.ShiftedLog2 | src/hugetlb.rs:96-97 | `log2(k) << 26` loses no bit, and fits a `c_int` iff `k < 2^32` |
| HugeTlb.Calculate | src/hugetlb.rs:82-87 | `log2(k) << 26` below 2^32 kB; a negative mask from there up |
| HugeTlb.TryCalculate | src/hugetlb.rs:89-104 | `None` iff `k == 0` or `log2(k) << 26 > c_int::MAX` (`k >= 2^32`); otherwise `log2(k) << 26` |
| HugeTlb.CalculateAgrees | src/hugetlb.rs:82-104 | `try_calculate` is `Some(calculate)` where it succeeds; `calculate` wraps where it fails |
| HugeTlb.CalculateOrDefault | src/hugetlb.rs:106-117 | `try_calculate` when `Some`, `HUGE_DEFAULT` otherwise |
| HugeTlb.IsDefault | src/hugetlb.rs:119-124 | true iff the flag is `HUGE_DEFAULT` (the bare value 26) |
| HugeTlb.GetMask | src/hugetlb.rs:126-131 | the mask rebuilds the flag |
| HugeTlb.SortAscending | src/hugetlb.rs:261 | `sort_unstable`: an ascending permutation |
| HugeTlb.MaxOf | src/hugetlb.rs:240 | `iter().max()`: `None` iff empty, otherwise a member no smaller than any |
| HugeTlb.SystemHugepageSizes | src/hugetlb.rs:279-285 | the first scan's error, or its sizes as an ascending permutation |
| HugeTlb.SystemHugepages | src/hugetlb.rs:290-293 | `InvalidInput` iff the scan failed, else `calculate_or_default` of each sorted size |
| HugeTlb.AvailableSizes | src/hugetlb.rs:246-263 | the cached sorted list, else the sorted rescan, `None` iff both scans failed |
| HugeTlb.ComputeHuge | src/hugetlb.rs:229-274 | Smallest and Dynamic{0} give HUGE_DEFAULT; Static(m) gives m; Dynamic{k} gives `try_calculate(k)` for `k > 0` |
| HugeTlb.CalculateOrNoneOrDefault | src/hugetlb.rs:233-239 | HUGE_DEFAULT for 0, `try_calculate` otherwise |
| HugeTlb.TryFromHugePage | src/hugetlb.rs:28-37 | fails exactly when `compute_huge` is `None`, else its flag |
| HugeTlb.SelectedResolves | src/hugetlb.rs:241-272 | a selector gets the sizes in ascending order; its choice resolves as `Dynamic`, no choice as HUGE_DEFAULT |
| HugeTlb.LargestIsLastSize | src/hugetlb.rs:240 | `Largest` resolves as `Dynamic` of the last (largest) size, and to HUGE_DEFAULT for an empty list |
| HugeTlb.ScanFailureFails | src/hugetlb.rs:248-260 | when both scans fail, `Selected` and `Largest` give `None` and `try_from` fails |
| HugeTlb.DynamicOverflowIsNone | src/hugetlb.rs:237-239 | `Dynamic` from 2^32 kB gives `None`, unlike `Smallest` |
| HugeTlb.KilobyteLogarithmMissesTwoMegabytes | src/hugetlb.rs:82-104 | 2048 kB gives `11 << 26`, not MAP_HUGE_2MB; 1048576 kB does not give MAP_HUGE_1GB |
| HugeTlb.TryCalculateBytes | src/hugetlb.rs:89-104 | the corrected flag is `(log2(k) + 10) << 26`, `None` iff `k == 0` or it does not fit a `c_int` |
| HugeTlb.BytesLogarithmIsPageSize | src/hugetlb.rs:89-104 | the corrected size field `s` satisfies `2^s <= k * 1024 < 2^(s+1)` |
| HugeTlb.BytesLogarithmMatchesPredefined | src/hugetlb.rs:77-80 | the corrected flags of 2048 kB and 1048576 kB are MAP_HUGE_2MB and MAP_HUGE_1GB |
| Kernel.MmapOnAt | src/lib.rs:101-104 | a refused `mmap` changes only `errno`; a granted one maps `[p, p+len)` onto the backing from `offset` and leaves every other address as it was |
| Kernel.MunmapOnAt | src/lib.rs:60-68 | `munmap` unmaps the range, keeps every other address and `errno` |
| Kernel.UnmapAfterPlace | src/lib.rs:60-68 | unmapping what was just mapped leaves no trace of the mapping |
| Kernel.PlausibleFailsOnlyOnRefusal | src/lib.rs:101-104 | from a working kernel, `mmap` returns `MAP_FAILED` iff it refuses, and `ptr.add(len)` over a grant does not wrap |
| Kernel.Kernel.Mmap | src/lib.rs:101-103 | the call returns `MAP_FAILED`, the hint (MAP_FIXED) or the kernel's address, and updates the space and `errno` |
| Kernel.Kernel.Munmap | src/lib.rs:66 | records the removal; `errno` unchanged |
| MappedFiles.SliceAt | src/lib.rs:101-115 | `MAP_FAILED` fails; null, or an `add(len)` that wraps to null, panics; otherwise the slice starts at the address and `len()` is `len` |
| MappedFiles.Wrap | src/lib.rs:511-518 | `into_parts` gives back the value and the error |
| MappedFiles.WrapLastError | src/lib.rs:502-509 | the error is the OS error of `errno`, the value the one passed in |
| MappedFiles.IntoParts | src/lib.rs:532-537 | the value and the error, as `into_inner` and `into_error` give them |
| MappedFiles.PartsRoundTrip | src/lib.rs:511-537 | wrapping the parts rebuilds the error |
| MappedFiles.MappedLen | src/lib.rs:392-397 | zero iff `is_empty()` (src/lib.rs:429-432) |
| MappedFiles.AnonymousAsRawFd | src/lib.rs:610-615 | -1, which no `NonNegativeI32` accepts |
| MappedFiles.ReplaceInnerUnchecked | src/lib.rs:370-378 | the same mapping over `other`, and the old file |
| MappedFiles.ReplaceInner | src/lib.rs:291-299 | panics iff the two descriptors differ; else the same mapping over `other` |
| MappedFiles.ReplaceInnerRoundTrip | src/lib.rs:370-378 | swapping the file back restores the mapping |
| MappedFiles.TryNewOutcome | src/lib.rs:101-119 | `Err` with the file and `errno` iff `MAP_FAILED`; a panic iff the address is null or `add(len)` is null; else the mapping of `len` bytes at the address |
| MappedFiles.TryNewRefusedKeepsFile | src/lib.rs:91-104 | on refusal the error carries exactly the file passed in with the refusal's code, and the address space is untouched |
| MappedFiles.TryNewFailsOnlyOnRefusal | src/lib.rs:91-119 | against a working kernel `try_new` never panics and returns `Err` iff `mmap` refused; the error then carries the file and the refusal's code and the address space is untouched; on success `errno` is kept |
| MappedFiles.TryNewMapsFile | src/lib.rs:96-120 | on success the mapping holds the file, starts where `mmap` put it, has `len()` = `len`, is empty iff `len == 0`, and byte `i` shows file byte `i` with the requested protection |
| MappedFiles.TryNew | src/lib.rs:96-120 | one `mmap(NULL, len, get_prot, flags, fd, 0)`; the result and state are `TryNewOutcome` and `TryNewState` |
| MappedFiles.New | src/lib.rs:261-264 | the same state as `try_new`; a refusal gives the OS error of the refusal |
| MappedFiles.IntoInnerMapped | src/lib.rs:386-390 | returns the very file held and unmaps exactly `[mem, mem + len())` |
| MappedFiles.TryNewThenIntoInner | src/lib.rs:386-390 | `try_new` then `into_inner` leaves every address as it was, less the mapped range |
| MappedFiles.CallResult | src/lib.rs:275-280 | `Ok` iff the call returned 0, else the OS error of `errno` |
| MappedFiles.Flush | src/lib.rs:272-281 | one `msync` over `[mem, len())` with `get_ms()`; `Ok` iff it succeeds, else its `errno` |
| MappedFiles.IntoInnerSynced | src/lib.rs:307-312 | panics iff `msync` fails; else unmaps the mapping and returns the file |
| MappedFiles.NeededCode | src/lib.rs:331 | 0, MADV_WILLNEED or MADV_DONTNEED for None, Some(true), Some(false) |
| MappedFiles.AdviseArg | src/lib.rs:331 | for every advice: `get_madv()` when `needed` is None; MADV_WILLNEED for `Some(true)`, whatever the access pattern; MADV_DONTNEED plus the pattern's code (4, 5 or 6) for `Some(false)`; a valid MADV code iff `needed` is not `Some(false)` or the advice is `Normal` |
| MappedFiles.AdviseArgMixesCodes | src/lib.rs:331 | ORing enumerated codes: RandomAccess\|WILLNEED is WILLNEED, Sequential\|DONTNEED is 6, no valid advice |
| MappedFiles.AdviceCodes | src/lib.rs:331 | the corrected codes: `get_madv()`, then the `needed` code when there is one |
| MappedFiles.AdviceCodesFaithful | src/lib.rs:331 | every corrected code is valid, and the codes determine both the advice and `needed` |
| MappedFiles.Advise | src/lib.rs:323-335 | one `madvise` over the whole mapping with the ORed code; `Ok` iff it succeeds, else its `errno` |
| MappedFiles.AdviseSeparately | src/lib.rs:323-335 | the corrected advise: one `madvise` per code, stopping at the first failure |
| MappedFiles.TryWithAdvice | src/lib.rs:342-351 | the mapping back unchanged, as the result or inside the error with `madvise`'s code |
| MappedFiles.WithAdvice | src/lib.rs:357-361 | on failure only the error, and the mapping is unmapped |
| Buffers.ProtPair | src/lib.rs:194-199 | the writer writes and the reader reads; the writer reads and the reader writes iff unsafe writes are allowed; no exec |
| Buffers.ReservationFlags | src/lib.rs:206 | MAP_SHARED cleared, MAP_PRIVATE and MAP_ANONYMOUS set, every other bit kept |
| Buffers.FixedFlags | src/lib.rs:209-210 | MAP_FIXED set, MAP_ANONYMOUS as the caller gave it |
| Buffers.ReservationNotFixed | src/lib.rs:206 | the reservation is not MAP_FIXED unless the caller's flags are |
| Buffers.ReserveLayout | src/lib.rs:206 | the reservation covers `[root, root + mapLen)` with PROT_NONE anonymous memory and keeps every other address; its slice has `sliceLen` bytes |
| Buffers.HalvesReaderRefused | src/lib.rs:209 | a refused reader changes only `errno` |
| Buffers.HalvesLayout | src/lib.rs:209-210 | the writer at `base` and the reader at `base + len` each show file byte `i` at offset `i` with their own protection; nothing outside `[base, base + 2len)` changes |
| Buffers.DualHalves | src/lib.rs:207-220 | tx starts at the reservation and rx `len` above it, each `len` long; both report the original descriptor |
| Buffers.DualAsWrittenStages | src/lib.rs:202-221 | a successful dual mapping went through the reservation and both halves, then dropped the reservation's slice |
| Buffers.WriterWindowUnmapped | src/lib.rs:206-221 | as written, after success every byte of tx is unmapped and only rx remains |
| Buffers.DualCorrectedStages | src/lib.rs:202-221 | a successful corrected dual mapping ends in the state the halves left |
| Buffers.DualCorrectedAliases | src/lib.rs:205-210 | corrected: `root + i` and `root + len + i` both show file byte `i`, with the writer's and the reader's protection |
| Buffers.DualCorrectedFrame | src/lib.rs:205-210 | corrected: nothing outside `[root, root + 2len)` changes |
| Buffers.ReaderFailureLeaks | src/lib.rs:206-209 | as written, a failed reader map returns the file with its error but leaves `[root + len, root + 2len)` of the reservation mapped (anonymous, PROT_NONE) |
| Buffers.ReaderFailureReleases | src/lib.rs:206-209 | corrected: a failed reader map releases the whole reservation and keeps everything else |
| Buffers.CheckedMul | src/lib.rs:224-227 | `Some` iff `a * b` fits a `usize`, and then it is the product |
| Buffers.Successors | src/lib.rs:232-233 | `take(pages)` of the successor iterator yields `pages` items |
| Buffers.SuccessorsDescend | src/lib.rs:232 | item `i` is `first - i * step` while nothing wraps |
| Buffers.RingBaseAt | src/lib.rs:229-233 | window `i` starts at `root + 2len * (pages - 1 - i)` and lies inside the reservation |
| Buffers.RingBasesDescend | src/lib.rs:232-233 | the bases descend strictly: a later window ends where an earlier one starts or below |
| Buffers.Abandon | src/lib.rs:234-241 | a failed window stops the collection with its `errno`; an invalid address panics and drops nothing |
| Buffers.DropPivotsUnmaps | src/lib.rs:240-241 | dropping the collected windows unmaps every byte of each |
| Buffers.DropPivotsKeeps | src/lib.rs:240-241 | dropping the collected windows keeps `errno` and every address outside them |
| Buffers.MapWindowsCollects | src/lib.rs:230-241 | when every window maps, one pivot per base, writer at the base and reader `len` above |
| Buffers.RingOverflowKeepsFile | src/lib.rs:224-227 | an overflowing `2len * pages` gives `OutOfMemory` with the file and makes no call |
| Buffers.RingNeverSucceeds | src/lib.rs:222-245 | the ring never returns a pair: it panics, or returns an error that carries the file and is out-of-memory or a refused `mmap`'s code |
| Buffers.ReserveOn | src/lib.rs:206 | one reservation `mmap` and the macro's checks, as `Reserve` |
| Buffers.DropSlice | src/lib.rs:60-68 | `MappedSlice::drop` unmaps `[mem, mem + len())` |
| Buffers.MapHalvesOn | src/lib.rs:209-210 | the reader then the writer `mmap`, as `MapHalves` |
| Buffers.DropAll | src/lib.rs:240-241 | drops the pivots in order, each writer before its reader, as `DropPivots` |
| Buffers.AbandonOn | src/lib.rs:235-241 | ends the collection as `Abandon` |
| Buffers.CollectWindows | src/lib.rs:230-242 | maps window after window until one fails, as `MapWindows` |
| Buffers.DualBuffer | src/lib.rs:203-221 | the branch without rings, as `DualAsWritten` |
| Buffers.RingBuffer | src/lib.rs:222-245 | the ring branch, as `RingAsWritten` |
| Buffers.RingWindowsOn | src/lib.rs:230-245 | the windows of the ring once reserved, as `RingWindows` |
| Buffers.TryNewBufferRaw | src/lib.rs:140-249 | `rings` chooses the dual mapping or the ring; `msync`/`madvise` are never called |
| Buffers.TryNewBuffer | src/lib.rs:134-137 | the dual mapping without rings and without unsafe writes |

## Left out

- Mapped byte contents are not modelled. Aliasing is stated through the `(backing, offset)` each address shows.
- The kernel's answer to `mmap` is a free parameter. A grant may name any address, `NULL` and `MAP_FAILED` included, and a range that wraps past the top of the address space, which no working kernel returns. The operations are modelled for every answer. The properties that need a working kernel take `Kernel.Plausible` as a precondition (`MappedFiles.TryNewFailsOnlyOnRefusal`) or state the bounds on the granted address explicitly (`Buffers.ReaderFailureLeaks`, `Buffers.ReaderFailureReleases`).
- The kernel maps exactly `len` bytes. Rounding to pages is not modelled, and neither is the page-size requirement on `len` (src/lib.rs:133).
- `munmap` cannot fail, and its result is ignored as every caller ignores it.
- The state after a panic is the state when the panic happened. Destructors run during unwinding (a local `root` slice, `self` in `into_inner_synced`) are not modelled.
- Debug builds are not modelled; the model follows release builds:
  - `len * 2`, `ptr.add` and `ptr.sub` wrap instead of trapping (`WrappingMul`, `WrappingAdd`, `WrappingSub`);
  - a failed rescan panics in debug builds (src/hugetlb.rs:256-257); the model gives `None`, as release builds do;
  - the `debug_assert!` in `From<RawFd>` (src/file/unmanaged.rs:41) panics on the same inputs as the release path, so both are one outcome.
- The `MapFlags` trait and `get_mmap_flags` are not part of this model. The mapping flags are a mask parameter, and `Flags::get_flags` is one way to produce it.
- The buffer handle `B` of `try_new_buffer_raw` is modelled by `SharedHandle`. `B::from_value`, `B::from_wrapper` and the reference counting of src/ring/buffer.rs are not part of this model; both halves hold the one file.
- Buffers.RingBuffer: after every window maps, the source stops at `todo!` (src/lib.rs:244-245). The model records this as a panic and does not model the unwinding drops of the pivots and `root`.
- `T::as_raw_fd` is a function parameter. Closing the file when `T` is dropped (for example in `new` on failure) is not modelled.
- The lazily initialised `SYSTEM_HUGEPAGE_SIZES` and the rescan are parameters: the collected results of the two scans. `fs::read_dir` is given as the list of directory items.
- `sort_unstable` is a library sort applied in place. It is modelled as a pure function that returns a sorted permutation.
- `HugePage`'s `PartialEq`, `Hash` and `Debug` impls (src/hugetlb.rs:169-216) compare and hash function pointers, and are not modelled.
- `Display`, `Debug`, `Hash`, `Deref`, `Borrow`, `AsRef` and the `as_slice` views are not modelled, in src/lib.rs and src/uniq.rs. `UniqueSlice::drop` only drops elements, which bytes do not need.
- The element type of `UniqueSlice` is fixed to `u8`. `len()` (src/uniq.rs:178) subtracts `mem` as a count of elements, so `ptr.sub` steps back `mem * size_of::<T>()` bytes, and then divides by `size_of::<T>()`. The result is the element count only when `size_of::<T>()` is 1. The model therefore takes `T = u8`, the type `MappedFile` uses, and does not model `len()` for wider `T`.
- The bit operations of src/file/raw.rs are written as the integer arithmetic they perform on a `u32`.
- src/file/managed.rs, src/file/memory.rs, src/file.rs, src/ext.rs, src/ffi.rs and src/err.rs are not part of this model.
- MappedFiles.TryNewMapsFile, Buffers.HalvesLayout, Buffers.WriterWindowUnmapped, Buffers.DualCorrectedAliases and Buffers.DualCorrectedFrame state the layout only when no address wraps past the top of the address space and the mapping is not anonymous.
- HugeScan.ParseUsize states only what a successful parse requires. Its value is stated by `ParseDecimal` for decimal numerals without leading zeros.

## Findings

| source | as written | input that shows it | evidently intended | confidence | as-written member | corrected member |
|---|---|---|---|---|---|---|
| src/lib.rs:206-221 | the `2 * len` reservation `root` is recorded as a slice of `len` bytes, and it is dropped at the end of the block, which unmaps `[root, root + len)`: the writer window `tx` still refers to it | any successful `try_new_buffer` with `len > 0` | the halves replace the reservation, so nothing of it is unmapped after success and both windows stay mapped | high (not executed) | Buffers.WriterWindowUnmapped | Buffers.DualCorrectedAliases |
| src/lib.rs:206-209 | when the reader map fails, dropping `root` releases only `[root, root + len)` | reservation granted, reader `mmap` refused, `len > 0` | the whole `2 * len` reservation is released | high (not executed) | Buffers.ReaderFailureLeaks | Buffers.ReaderFailureReleases |
| src/lib.rs:331 | the `madvise` advice is `get_madv() \| needed_code`, but Linux MADV_* values are enumerated codes, not bits | `advise(Sequential, Some(false))` passes 6; `advise(RandomAccess, Some(true))` passes MADV_WILLNEED alone | the access pattern and the `needed` hint are passed as separate `madvise` calls | medium (not executed) | MappedFiles.AdviseArgMixesCodes | MappedFiles.AdviceCodesFaithful |
| src/uniq.rs:61-87 | `cmp` compares only `end` while `eq` compares `mem` and `end`, so `cmp == Equal` does not imply `==` as `Ord` requires | slices `(1, 5)` and `(2, 5)` | compare by `end`, then by `mem` | medium (not executed) | Uniq.CmpDisagreesWithEq | Uniq.CmpByRangeConsistent |
| src/hugetlb.rs:82-104 | the size field is `log2` of the size in kB, while a `MAP_HUGE_*` flag carries `log2` of the size in bytes | `try_calculate(2048)` gives `11 << 26`, not MAP_HUGE_2MB (`21 << 26`) | `(log2(kilobytes) + 10) << 26` | high (not executed) | HugeTlb.KilobyteLogarithmMissesTwoMegabytes | HugeTlb.BytesLogarithmIsPageSize |
