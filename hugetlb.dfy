/** Huge-page flags (src/hugetlb.rs): `MapHugeFlag`, the `MAP_HUGE_*` value
    of a page size, and `HugePage`, a request that resolves to one, possibly
    by consulting the sizes the system offers.

    The lazily initialised list `SYSTEM_HUGEPAGE_SIZES` and the rescan made
    when it holds an error are given as the collected results of the two
    scans (`initialScan`, `rescan`); the model sorts them as the code does. */
module HugeTlb {
  import opened Wrappers
  import opened Machine
  import opened HugeScan

  /** `libc::MAP_HUGE_SHIFT`. */
  const MAP_HUGE_SHIFT: nat := 26

  /** `1 << MAP_HUGE_SHIFT`: one step of the size field of a flag. */
  const HUGE_UNIT: nat := 0x400_0000

  /** A `c_int` holding a `MAP_HUGE_*` flag. */
  datatype MapHugeFlag = MapHugeFlag(mask: I32)

  /** `HUGE_DEFAULT` and `Default`: the bare value `MAP_HUGE_SHIFT`. */
  const HUGE_DEFAULT: MapHugeFlag := MapHugeFlag(MAP_HUGE_SHIFT)
  /** `libc::MAP_HUGE_2MB`: 21 << 26. */
  const HUGE_2MB: MapHugeFlag := MapHugeFlag(0x5400_0000)
  /** `libc::MAP_HUGE_1GB`: 30 << 26. */
  const HUGE_1GB: MapHugeFlag := MapHugeFlag(0x7800_0000)

  function Pow2(n: nat): (r: nat)
    ensures r >= 1
  {
    if n == 0 then 1 else 2 * Pow2(n - 1)
  }

  /** Powers of two grow with the exponent. */
  lemma {:induction false} Pow2Monotone(a: nat, b: nat)
    requires a <= b
    ensures Pow2(a) <= Pow2(b)
    ensures a < b ==> Pow2(a) < Pow2(b)
  {
    if a < b {
      Pow2Monotone(a, b - 1);
    }
  }

  /** Exponents add when powers multiply. */
  lemma {:induction false} Pow2Add(a: nat, b: nat)
    ensures Pow2(a + b) == Pow2(a) * Pow2(b)
  {
    if b > 0 {
      Pow2Add(a, b - 1);
      assert Pow2(a + b) == 2 * Pow2(a + b - 1);
      assert Pow2(a) * Pow2(b) == Pow2(a) * (2 * Pow2(b - 1));
    }
  }

  /** The powers of two up to the size field's unit. */
  lemma Pow2Small()
    ensures Pow2(6) == 64 && Pow2(10) == 1024 && Pow2(11) == 2048
    ensures Pow2(20) == 0x10_0000 && Pow2(22) == 0x40_0000
    ensures Pow2(MAP_HUGE_SHIFT) == HUGE_UNIT
  {
    assert Pow2(1) == 2;
    assert Pow2(2) == 4;
    assert Pow2(3) == 8;
    assert Pow2(4) == 16;
    assert Pow2(5) == 32;
    assert Pow2(6) == 64;
    Pow2Add(5, 5);
    Pow2Add(10, 1);
    Pow2Add(10, 10);
    Pow2Add(20, 2);
    Pow2Add(20, 6);
  }

  /** The powers of two of the machine's word widths. */
  lemma Pow2Wide()
    ensures Pow2(32) == 0x1_0000_0000 && Pow2(64) == USIZE_LIMIT
  {
    Pow2Small();
    Pow2Add(26, 6);
    Pow2Add(32, 32);
  }

  /** The powers of two the model uses. */
  lemma Pow2Values()
    ensures Pow2(10) == 1024 && Pow2(11) == 2048
    ensures Pow2(20) == 0x10_0000 && Pow2(22) == 0x40_0000
    ensures Pow2(MAP_HUGE_SHIFT) == HUGE_UNIT
    ensures Pow2(32) == 0x1_0000_0000 && Pow2(64) == USIZE_LIMIT
  {
    Pow2Small();
    Pow2Wide();
  }

  /** The number of significant bits of `n`: `n` lies below `2^r` and, when
      not zero, at or above `2^(r-1)`. */
  function BitLength(n: nat): (r: nat)
    ensures n < Pow2(r)
    ensures n > 0 ==> r >= 1 && Pow2(r - 1) <= n
    ensures n == 0 <==> r == 0
  {
    if n == 0 then 0 else 1 + BitLength(n / 2)
  }

  /** `usize::leading_zeros`. */
  function LeadingZeros(n: Usize): (r: nat)
    ensures r <= 64
    ensures n == 0 <==> r == 64
  {
    BitLengthOfUsize(n);
    64 - BitLength(n)
  }

  /** A `usize` has at most 64 significant bits. */
  lemma BitLengthOfUsize(n: Usize)
    ensures BitLength(n) <= 64
  {
    var b := BitLength(n);
    Pow2Values();
    if b > 64 {
      Pow2Monotone(64, b - 1);
    }
  }

  /** `log2`: `usize::BITS - n.leading_zeros() - 1`, the floor of the
      binary logarithm. Both callers pass a non-zero value. */
  function Log2(n: Usize): (r: nat)
    requires n >= 1
    ensures r < 64
    ensures Pow2(r) <= n < Pow2(r + 1)
  {
    64 - LeadingZeros(n) - 1
  }

  /** `log2` is 31 or less exactly for the sizes below 2^32. */
  lemma Log2Below32(n: Usize)
    requires n >= 1
    ensures Log2(n) <= 31 <==> n < 0x1_0000_0000
  {
    var r := Log2(n);
    Pow2Values();
    if r <= 31 {
      Pow2Monotone(r + 1, 32);
    } else {
      Pow2Monotone(32, r);
    }
  }

  /** `usize::checked_shl`: `None` only for a shift of 64 or more; the bits
      shifted out are lost. */
  function CheckedShl(x: Usize, s: nat): (r: Option<Usize>)
    ensures r.None? <==> s >= 64
  {
    if s < 64 then Some((x * Pow2(s)) % USIZE_LIMIT) else None
  }

  /** `x as c_int`: keeps the low 32 bits, read in two's complement. */
  function AsCInt(x: Usize): (r: I32)
    ensures x <= I32_MAX ==> r == x
    ensures I32_MAX < x < 0x1_0000_0000 ==> r == x - 0x1_0000_0000
  {
    var low := x % 0x1_0000_0000;
    if low > I32_MAX then low - 0x1_0000_0000 else low
  }

  /** `log2(k) << 26` keeps every bit and is `log2(k)` steps of the size
      field; it fits in a `c_int` exactly for the sizes below 2^32 kB. */
  lemma ShiftedLog2(k: Usize)
    requires k >= 1
    ensures CheckedShl(Log2(k), MAP_HUGE_SHIFT) == Some(Log2(k) * HUGE_UNIT)
    ensures Log2(k) * HUGE_UNIT < 0x1_0000_0000
    ensures Log2(k) * HUGE_UNIT <= I32_MAX <==> k < 0x1_0000_0000
  {
    Pow2Values();
    var r := Log2(k);
    Log2Below32(k);
    MulMonotone(r, 63, HUGE_UNIT);
    if r <= 31 {
      MulMonotone(r, 31, HUGE_UNIT);
    } else {
      MulMonotone(32, r, HUGE_UNIT);
    }
    assert (r * HUGE_UNIT) % USIZE_LIMIT == r * HUGE_UNIT;
  }

  lemma MulMonotone(a: nat, b: nat, m: nat)
    requires a <= b
    ensures a * m <= b * m
  {
  }

  /** `calculate`: `(log2(kilobytes) << 26) as c_int`. Sizes from 2^32 kB
      up wrap to a negative mask. */
  function Calculate(kilobytes: Usize): (r: MapHugeFlag)
    requires kilobytes >= 1
    ensures kilobytes < 0x1_0000_0000 ==> r.mask == Log2(kilobytes) * HUGE_UNIT
    ensures kilobytes >= 0x1_0000_0000 ==> r.mask < 0
  {
    ShiftedLog2(kilobytes);
    MapHugeFlag(AsCInt(CheckedShl(Log2(kilobytes), MAP_HUGE_SHIFT).value))
  }

  /** `try_calculate`: `None` for zero kilobytes and for every size whose
      shifted logarithm exceeds `c_int::MAX`, that is from 2^32 kB up;
      otherwise `log2(kilobytes) << 26`. */
  function TryCalculate(kilobytes: Usize): (r: Option<MapHugeFlag>)
    ensures r.None? <==> kilobytes == 0 || kilobytes >= 0x1_0000_0000
    ensures r.Some? ==> r.value.mask == Log2(kilobytes) * HUGE_UNIT && r.value.mask >= 0
  {
    if kilobytes == 0 then None
    else
      ShiftedLog2(kilobytes);
      match CheckedShl(Log2(kilobytes), MAP_HUGE_SHIFT)
      case Some(shift) =>
        if shift <= I32_MAX then Some(MapHugeFlag(shift)) else None
      case None => None
  }

  /** Where `try_calculate` succeeds it agrees with `calculate`; where the
      size is too large, `calculate` wraps to a negative mask. */
  lemma CalculateAgrees(kilobytes: Usize)
    requires kilobytes >= 1
    ensures kilobytes < 0x1_0000_0000 ==> TryCalculate(kilobytes) == Some(Calculate(kilobytes))
    ensures kilobytes >= 0x1_0000_0000 ==> TryCalculate(kilobytes).None? && Calculate(kilobytes).mask < 0
  {
  }

  /** `calculate_or_default`: the calculated flag, or `HUGE_DEFAULT` when
      there is none. */
  function CalculateOrDefault(kilobytes: Usize): (r: MapHugeFlag)
    ensures TryCalculate(kilobytes).Some? ==> r == TryCalculate(kilobytes).value
    ensures kilobytes == 0 || kilobytes >= 0x1_0000_0000 ==> r == HUGE_DEFAULT
  {
    match TryCalculate(kilobytes)
    case None => HUGE_DEFAULT
    case Some(x) => x
  }

  /** `is_default`: compares the mask with `HUGE_DEFAULT`'s. */
  function IsDefault(f: MapHugeFlag): (r: bool)
    ensures r <==> f == HUGE_DEFAULT
  {
    f.mask == HUGE_DEFAULT.mask
  }

  /** `get_mask` and `From<MapHugeFlag> for c_int`; `from_mask_unchecked`
      is the constructor. */
  function GetMask(f: MapHugeFlag): (r: I32)
    ensures MapHugeFlag(r) == f
  {
    f.mask
  }

  /** `HugePage`. A selector receives the available sizes in ascending
      order and may pick one. */
  datatype HugePage =
    | Static(flag: MapHugeFlag)
    | Dynamic(kilobytes: Usize)
    | Smallest
    | Largest
    | Selected(select: seq<Usize> -> Option<Usize>)

  /** `#[default]`. */
  const DEFAULT_HUGE_PAGE: HugePage := Smallest

  predicate Sorted(s: seq<Usize>)
  {
    forall i, j | 0 <= i < j < |s| :: s[i] <= s[j]
  }

  /** An ascending list stays ascending with a smaller first item in
      front. */
  lemma ConsSorted(a: Usize, t: seq<Usize>)
    requires Sorted(t) && (|t| > 0 ==> a <= t[0])
    ensures Sorted([a] + t)
  {
    var r := [a] + t;
    forall i, j | 0 <= i < j < |r|
      ensures r[i] <= r[j]
    {
      if i == 0 && j > 1 {
        assert r[j] == t[j - 1] && t[0] <= t[j - 1];
      }
    }
  }

  /** Places `x` into an ascending list. */
  function Insert(x: Usize, s: seq<Usize>): (r: seq<Usize>)
    requires Sorted(s)
    ensures Sorted(r)
    ensures multiset(r) == multiset(s) + multiset{x}
    ensures |r| == |s| + 1 && r[0] == (if |s| > 0 && s[0] < x then s[0] else x)
  {
    if |s| == 0 then [x]
    else if x <= s[0] then
      ConsSorted(x, s);
      [x] + s
    else
      assert s == [s[0]] + s[1..];
      var t := Insert(x, s[1..]);
      ConsSorted(s[0], t);
      [s[0]] + t
  }

  /** `sort_unstable` on a `Vec<usize>`: an ascending permutation. */
  function SortAscending(s: seq<Usize>): (r: seq<Usize>)
    ensures Sorted(r)
    ensures multiset(r) == multiset(s)
  {
    if |s| == 0 then []
    else
      assert s == [s[0]] + s[1..];
      Insert(s[0], SortAscending(s[1..]))
  }

  /** `sizes.iter().max()`: the largest size, if there is any. */
  function MaxOf(sizes: seq<Usize>): (r: Option<Usize>)
    ensures r.None? <==> |sizes| == 0
    ensures r.Some? ==> r.value in sizes && forall i | 0 <= i < |sizes| :: sizes[i] <= r.value
  {
    if |sizes| == 0 then None
    else
      assert forall i | 1 <= i < |sizes| :: sizes[i] == sizes[1..][i - 1];
      match MaxOf(sizes[1..])
      case None => Some(sizes[0])
      case Some(m) => if sizes[0] <= m then Some(m) else Some(sizes[0])
  }

  /** `SYSTEM_HUGEPAGE_SIZES`: the first scan's sizes sorted in place, or
      its error. */
  function SystemHugepageSizes(initialScan: Result<seq<Usize>, IoError>): (r: Result<seq<Usize>, IoError>)
    ensures r.Err? <==> initialScan.Err?
    ensures r.Ok? ==> Sorted(r.value) && multiset(r.value) == multiset(initialScan.value)
  {
    match initialScan
    case Ok(v) => Ok(SortAscending(v))
    case Err(e) => Err(e)
  }

  /** `SYSTEM_HUGEPAGES`: the flag of every available size, with
      `calculate_or_default`, or an `InvalidInput` error when the scan
      failed. */
  function SystemHugepages(initialScan: Result<seq<Usize>, IoError>): (r: Result<seq<MapHugeFlag>, IoError>)
    ensures r.Err? <==> initialScan.Err?
    ensures r.Err? ==> r.error == InvalidInput
    ensures r.Ok? ==> var sizes := SystemHugepageSizes(initialScan).value;
      |r.value| == |sizes| && forall i | 0 <= i < |sizes| :: r.value[i] == CalculateOrDefault(sizes[i])
  {
    match SystemHugepageSizes(initialScan)
    case Err(_) => Err(InvalidInput)
    case Ok(sizes) => Ok(seq(|sizes|, i requires 0 <= i < |sizes| => CalculateOrDefault(sizes[i])))
  }

  /** The sizes `compute_selected` hands to a selector: the cached list if
      the first scan succeeded, otherwise a fresh scan, sorted; `None` when
      that fails too (a release build). */
  function AvailableSizes(initialScan: Result<seq<Usize>, IoError>, rescan: Result<seq<Usize>, IoError>): (r: Option<seq<Usize>>)
    ensures r.None? <==> initialScan.Err? && rescan.Err?
    ensures r.Some? ==> Sorted(r.value)
    ensures initialScan.Ok? ==> r == Some(SystemHugepageSizes(initialScan).value)
    ensures initialScan.Err? && rescan.Ok? ==> multiset(r.value) == multiset(rescan.value)
  {
    match SystemHugepageSizes(initialScan)
    case Ok(avail) => Some(avail)
    case Err(_) =>
      match rescan
      case Err(_) => None
      case Ok(v) => Some(SortAscending(v))
  }

  /** The depth of the resolution: `Largest` becomes a selector, and a
      selector's choice becomes a `Dynamic`. */
  function Rank(h: HugePage): nat
  {
    match h
    case Largest => 2
    case Selected(_) => 1
    case _ => 0
  }

  /** `compute_huge`. */
  function ComputeHuge(h: HugePage, initialScan: Result<seq<Usize>, IoError>, rescan: Result<seq<Usize>, IoError>): (r: Option<MapHugeFlag>)
    ensures h.Smallest? || h == Dynamic(0) ==> r == Some(HUGE_DEFAULT)
    ensures h.Static? ==> r == Some(h.flag)
    ensures h.Dynamic? ==> r == CalculateOrNoneOrDefault(h.kilobytes)
    decreases Rank(h)
  {
    match h
    case Smallest => Some(HUGE_DEFAULT)
    case Static(mask) => if mask == HUGE_DEFAULT then Some(HUGE_DEFAULT) else Some(mask)
    case Dynamic(kilobytes) =>
      if kilobytes == 0 then Some(HUGE_DEFAULT) else TryCalculate(kilobytes)
    case Largest => ComputeHuge(Selected(MaxOf), initialScan, rescan)
    case Selected(select) =>
      match AvailableSizes(initialScan, rescan)
      case None => None
      case Some(sizes) =>
        match select(sizes)
        case Some(kilobytes) => ComputeHuge(Dynamic(kilobytes), initialScan, rescan)
        case None => Some(HUGE_DEFAULT)
  }

  /** What `Dynamic { kilobytes }` resolves to: the default for zero, else
      `try_calculate`, which is `None` on overflow. */
  function CalculateOrNoneOrDefault(kilobytes: Usize): (r: Option<MapHugeFlag>)
    ensures kilobytes == 0 ==> r == Some(HUGE_DEFAULT)
    ensures kilobytes > 0 ==> r == TryCalculate(kilobytes)
  {
    if kilobytes == 0 then Some(HUGE_DEFAULT) else TryCalculate(kilobytes)
  }

  /** `HugePageCalcErr`. */
  datatype HugePageCalcErr = HugePageCalcErr

  /** `TryFrom<HugePage> for MapHugeFlag`: fails exactly when `compute_huge`
      gives nothing. */
  function TryFromHugePage(h: HugePage, initialScan: Result<seq<Usize>, IoError>, rescan: Result<seq<Usize>, IoError>): (r: Result<MapHugeFlag, HugePageCalcErr>)
    ensures r.Err? <==> ComputeHuge(h, initialScan, rescan).None?
    ensures r.Ok? ==> Some(r.value) == ComputeHuge(h, initialScan, rescan)
  {
    match ComputeHuge(h, initialScan, rescan)
    case Some(f) => Ok(f)
    case None => Err(HugePageCalcErr)
  }

  /** A selector's choice resolves as `Dynamic` of the chosen size, and no
      choice resolves to the default; it is given the sizes in ascending
      order. */
  lemma SelectedResolves(select: seq<Usize> -> Option<Usize>, initialScan: Result<seq<Usize>, IoError>, rescan: Result<seq<Usize>, IoError>)
    requires AvailableSizes(initialScan, rescan).Some?
    ensures var sizes := AvailableSizes(initialScan, rescan).value;
      Sorted(sizes) &&
      ComputeHuge(Selected(select), initialScan, rescan) ==
        match select(sizes)
        case Some(kilobytes) => CalculateOrNoneOrDefault(kilobytes)
        case None => Some(HUGE_DEFAULT)
  {
  }

  /** `Largest` resolves as `Dynamic` of the last, largest available size,
      and to the default when none is available. */
  lemma LargestIsLastSize(initialScan: Result<seq<Usize>, IoError>, rescan: Result<seq<Usize>, IoError>)
    requires AvailableSizes(initialScan, rescan).Some?
    ensures var sizes := AvailableSizes(initialScan, rescan).value;
      (|sizes| == 0 ==> ComputeHuge(Largest, initialScan, rescan) == Some(HUGE_DEFAULT)) &&
      (|sizes| > 0 ==> ComputeHuge(Largest, initialScan, rescan) == CalculateOrNoneOrDefault(sizes[|sizes| - 1]))
  {
    var sizes := AvailableSizes(initialScan, rescan).value;
    assert ComputeHuge(Largest, initialScan, rescan) == ComputeHuge(Selected(MaxOf), initialScan, rescan);
    if |sizes| > 0 {
      MaxOfSorted(sizes);
    }
  }

  /** The maximum of an ascending list is its last element. */
  lemma MaxOfSorted(sizes: seq<Usize>)
    requires Sorted(sizes) && |sizes| > 0
    ensures MaxOf(sizes) == Some(sizes[|sizes| - 1])
  {
    var m := MaxOf(sizes).value;
    var i :| 0 <= i < |sizes| && sizes[i] == m;
    assert sizes[i] <= sizes[|sizes| - 1];
  }

  /** When the cached scan failed and the rescan fails too, the selecting
      requests resolve to nothing and `try_from` reports the error. */
  lemma ScanFailureFails(select: seq<Usize> -> Option<Usize>, e1: IoError, e2: IoError)
    ensures ComputeHuge(Selected(select), Err(e1), Err(e2)).None?
    ensures ComputeHuge(Largest, Err(e1), Err(e2)).None?
    ensures TryFromHugePage(Largest, Err(e1), Err(e2)) == Err(HugePageCalcErr)
  {
  }

  /** `Dynamic` with a size of 2^32 kB or more resolves to nothing, whereas
      `Smallest` resolves to the default. */
  lemma DynamicOverflowIsNone(kilobytes: Usize, initialScan: Result<seq<Usize>, IoError>, rescan: Result<seq<Usize>, IoError>)
    requires kilobytes >= 0x1_0000_0000
    ensures ComputeHuge(Dynamic(kilobytes), initialScan, rescan).None?
    ensures ComputeHuge(Dynamic(kilobytes), initialScan, rescan) != ComputeHuge(Smallest, initialScan, rescan)
  {
  }

  // Findings.

  /** As written, `calculate` takes the logarithm of the size in kB, while
      a `MAP_HUGE_*` value carries the logarithm of the size in bytes: the
      2 MiB size that the system lists as "2048" kB gives 11 << 26, not
      `MAP_HUGE_2MB`. */
  lemma KilobyteLogarithmMissesTwoMegabytes()
    ensures TryCalculate(2048) == Some(MapHugeFlag(11 * HUGE_UNIT))
    ensures TryCalculate(2048) != Some(HUGE_2MB)
    ensures TryCalculate(0x10_0000) != Some(HUGE_1GB)
  {
    Pow2Values();
    Log2Unique(2048, 11);
    Log2Unique(0x10_0000, 20);
  }

  /** The flag of a size in kB as the kernel reads it: the logarithm of
      the size in bytes, `log2(kilobytes) + 10`, shifted by 26. `None` for
      zero and for sizes whose flag does not fit in a `c_int`. */
  function TryCalculateBytes(kilobytes: Usize): (r: Option<MapHugeFlag>)
    ensures r.None? <==> kilobytes == 0 || kilobytes >= 0x40_0000
    ensures r.Some? ==> r.value.mask == (Log2(kilobytes) + 10) * HUGE_UNIT && r.value.mask >= 0
  {
    if kilobytes == 0 then None
    else
      var s := Log2(kilobytes) + 10;
      Log2Below22(kilobytes);
      assert s <= 31 ==> s * HUGE_UNIT <= 31 * HUGE_UNIT;
      assert s >= 32 ==> s * HUGE_UNIT >= 32 * HUGE_UNIT;
      if s * HUGE_UNIT <= I32_MAX then Some(MapHugeFlag(s * HUGE_UNIT)) else None
  }

  /** The corrected flag carries the logarithm of the page size in bytes:
      `2^s <= kilobytes * 1024 < 2^(s+1)` for its size field `s`. */
  lemma BytesLogarithmIsPageSize(kilobytes: Usize)
    requires TryCalculateBytes(kilobytes).Some?
    ensures var s := TryCalculateBytes(kilobytes).value.mask / HUGE_UNIT;
      Pow2(s) <= kilobytes * 1024 < Pow2(s + 1)
  {
    var l := Log2(kilobytes);
    Pow2Values();
    Pow2Add(l, 10);
    Pow2Add(l + 1, 10);
    assert TryCalculateBytes(kilobytes).value.mask / HUGE_UNIT == l + 10;
  }

  /** `log2` is 21 or less exactly for the sizes below 2^22. */
  lemma Log2Below22(n: Usize)
    requires n >= 1
    ensures Log2(n) <= 21 <==> n < 0x40_0000
  {
    var r := Log2(n);
    Pow2Values();
    if r <= 21 {
      Pow2Monotone(r + 1, 22);
    } else {
      Pow2Monotone(22, r);
    }
  }

  /** The corrected calculation gives the predefined flags for the sizes
      the system lists as "2048kB" and "1048576kB". */
  lemma BytesLogarithmMatchesPredefined()
    ensures TryCalculateBytes(2048) == Some(HUGE_2MB)
    ensures TryCalculateBytes(0x10_0000) == Some(HUGE_1GB)
  {
    Pow2Values();
    Log2Unique(2048, 11);
    Log2Unique(0x10_0000, 20);
  }

  /** The logarithm is the only exponent that brackets `n`. */
  lemma Log2Unique(n: Usize, r: nat)
    requires n >= 1 && Pow2(r) <= n < Pow2(r + 1)
    ensures Log2(n) == r
  {
    var l := Log2(n);
    if l < r {
      Pow2Monotone(l + 1, r);
    } else if l > r {
      Pow2Monotone(r + 1, l);
    }
  }
}
