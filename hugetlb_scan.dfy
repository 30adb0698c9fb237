/** The scan of `/sys/kernel/mm/hugepages/` in `scan_hugepages`
    (src/hugetlb.rs): the size in kB of each entry is read from its name
    ("hugepages-2048kB"), entries whose name does not parse are skipped, and
    read errors are passed on in order.

    The directory is given as the sequence of items `read_dir` yields, so
    no file system is involved. */
module HugeScan {
  import opened Wrappers
  import opened Machine

  type Byte = b: int | 0 <= b < 256

  const DASH: Byte := 0x2D
  const LOWER_K: Byte := 0x6B
  const UPPER_B: Byte := 0x42
  const PLUS: Byte := 0x2B
  const ZERO: Byte := 0x30

  /** One item of `fs::ReadDir`: an entry with its file name, or a read
      error. */
  datatype DirItem = Named(fileName: seq<Byte>) | ReadFailed(error: IoError)

  /** `memchr::memchr`: the index of the first `c` in `s`. */
  function MemChr(c: Byte, s: seq<Byte>): (r: Option<nat>)
    ensures r.None? <==> c !in s
    ensures r.Some? ==> r.value < |s| && s[r.value] == c && c !in s[..r.value]
  {
    if |s| == 0 then None
    else if s[0] == c then Some(0)
    else match MemChr(c, s[1..])
      case None => None
      case Some(i) =>
        assert s[..i + 1] == [s[0]] + s[1..][..i];
        Some(i + 1)
  }

  /** `memchr::memrchr`: the index of the last `c` in `s`. */
  function MemRChr(c: Byte, s: seq<Byte>): (r: Option<nat>)
    ensures r.None? <==> c !in s
    ensures r.Some? ==> r.value < |s| && s[r.value] == c && c !in s[r.value + 1..]
  {
    if |s| == 0 then None
    else if s[|s| - 1] == c then Some(|s| - 1)
    else
      var init := s[..|s| - 1];
      assert s == init + [s[|s| - 1]];
      match MemRChr(c, init)
      case None => None
      case Some(i) =>
        assert s[i + 1..] == init[i + 1..] + [s[|s| - 1]];
        Some(i)
  }

  predicate IsDigit(b: Byte)
  {
    ZERO <= b <= ZERO + 9
  }

  predicate AllDigits(s: seq<Byte>)
  {
    forall i | 0 <= i < |s| :: IsDigit(s[i])
  }

  /** The number a run of decimal digits denotes, most significant first. */
  function DigitsValue(ds: seq<Byte>): nat
    requires AllDigits(ds)
  {
    if |ds| == 0 then 0
    else DigitsValue(ds[..|ds| - 1]) * 10 + (ds[|ds| - 1] - ZERO)
  }

  /** `str::parse::<usize>`: an optional `+` followed by one or more ASCII
      digits whose value fits in a `usize`. A byte string that is not UTF-8
      contains a byte above 0x7F, which is no digit, so rejecting it before
      parsing (`from_utf8`) and rejecting it while parsing skip the same
      entries. */
  function ParseUsize(s: seq<Byte>): (r: Option<Usize>)
    ensures r.Some? ==> |s| > 0 && (s[0] == PLUS || IsDigit(s[0]))
    ensures r.Some? ==> forall i | 0 < i < |s| :: IsDigit(s[i])
    ensures r.Some? && s[0] == PLUS ==> |s| > 1
  {
    if |s| == 0 then None
    else
      var digits := if s[0] == PLUS then s[1..] else s;
      if |digits| == 0 || !AllDigits(digits) then None
      else if DigitsValue(digits) > USIZE_MAX then None
      else Some(DigitsValue(digits))
  }

  /** The size an entry name carries: the text between the first `-` and
      the last `k` after it, parsed as a `usize`; `None` skips the entry. */
  function EntrySize(fileName: seq<Byte>): (r: Option<Usize>)
    ensures DASH !in fileName ==> r.None?
  {
    match MemChr(DASH, fileName)
    case None => None
    case Some(dash) =>
      var name := fileName[dash + 1..];
      match MemRChr(LOWER_K, name)
      case None => None
      case Some(kLoc) => ParseUsize(name[..kLoc])
  }

  /** What one directory item contributes: nothing (skipped), a size, or its
      read error. */
  function Step(item: DirItem): (r: Option<Result<Usize, IoError>>)
    ensures item.ReadFailed? ==> r == Some(Err(item.error))
    ensures item.Named? ==> (r.None? <==> EntrySize(item.fileName).None?)
  {
    match item
    case ReadFailed(e) => Some(Err(e))
    case Named(fileName) =>
      match EntrySize(fileName)
      case None => None
      case Some(kb) => Some(Ok(kb))
  }

  /** The items `FilteredIterator` yields for a directory, in order. */
  function Items(dir: seq<DirItem>): (r: seq<Result<Usize, IoError>>)
    ensures |r| <= |dir|
  {
    if |dir| == 0 then []
    else
      (match Step(dir[0]) case None => [] case Some(x) => [x]) + Items(dir[1..])
  }

  /** Prepends sizes to a collected result. */
  function PrependOk(acc: seq<Usize>, r: Result<seq<Usize>, IoError>): Result<seq<Usize>, IoError>
  {
    match r
    case Ok(v) => Ok(acc + v)
    case Err(e) => Err(e)
  }

  /** `collect::<io::Result<Vec<usize>>>()` over the items. */
  function CollectResults(items: seq<Result<Usize, IoError>>): Result<seq<Usize>, IoError>
  {
    if |items| == 0 then Ok([])
    else match items[0]
      case Err(e) => Err(e)
      case Ok(v) => PrependOk([v], CollectResults(items[1..]))
  }

  /** Collecting gives the first error if there is one, and otherwise every
      size in order. */
  lemma {:induction false} CollectResultsMeaning(items: seq<Result<Usize, IoError>>)
    ensures CollectResults(items).Ok? <==> forall i | 0 <= i < |items| :: items[i].Ok?
    ensures CollectResults(items).Ok? ==>
      |CollectResults(items).value| == |items| &&
      forall i | 0 <= i < |items| :: CollectResults(items).value[i] == items[i].value
    ensures CollectResults(items).Err? ==> exists i | 0 <= i < |items| ::
      items[i] == Err(CollectResults(items).error) && forall j | 0 <= j < i :: items[j].Ok?
  {
    if |items| > 0 && items[0].Ok? {
      var rest := items[1..];
      CollectResultsMeaning(rest);
      if CollectResults(rest).Err? {
        var i :| 0 <= i < |rest| && rest[i] == Err(CollectResults(rest).error) && forall j | 0 <= j < i :: rest[j].Ok?;
        assert items[i + 1] == rest[i];
      } else {
        assert forall i | 0 < i < |items| :: items[i] == rest[i - 1];
      }
    } else if |items| > 0 {
      assert items[0] == Err(CollectResults(items).error);
    }
  }

  /** Collecting one more item in front: an error ends the collection, a
      size is prepended to it. */
  lemma CollectCons(x: Result<Usize, IoError>, rest: seq<Result<Usize, IoError>>)
    ensures x.Err? ==> CollectResults([x] + rest) == Err(x.error)
    ensures x.Ok? ==> CollectResults([x] + rest) == PrependOk([x.value], CollectResults(rest))
  {
    assert ([x] + rest)[1..] == rest;
  }

  lemma PrependTwice(a: seq<Usize>, b: seq<Usize>, r: Result<seq<Usize>, IoError>)
    ensures PrependOk(a, PrependOk(b, r)) == PrependOk(a + b, r)
    ensures PrependOk([], r) == r
    ensures PrependOk(a, Ok([])) == Ok(a)
  {
    if r.Ok? {
      assert a + (b + r.value) == (a + b) + r.value;
      assert [] + r.value == r.value;
    }
    assert a + [] == a;
  }

  /** `scan_hugepages().and_then(|x| x.into_iter().collect())`: the error of
      `read_dir`, or the collected items of the directory. */
  function Scan(dir: Result<seq<DirItem>, IoError>): (r: Result<seq<Usize>, IoError>)
    ensures dir.Err? ==> r == Err(dir.error)
  {
    match dir
    case Err(e) => Err(e)
    case Ok(items) => CollectResults(Items(items))
  }

  /** The decimal numeral of `n`, most significant digit first, without
      leading zeros. */
  function Decimal(n: nat): (r: seq<Byte>)
    ensures 1 <= |r| && AllDigits(r)
    ensures |r| > 1 ==> r[0] != ZERO
  {
    if n < 10 then [ZERO + n] else Decimal(n / 10) + [ZERO + n % 10]
  }

  /** The numeral of `n` denotes `n`. */
  lemma {:induction false} DecimalValue(n: nat)
    ensures DigitsValue(Decimal(n)) == n
  {
    if n >= 10 {
      var d := Decimal(n);
      assert d[..|d| - 1] == Decimal(n / 10);
      DecimalValue(n / 10);
    }
  }

  /** `parse::<usize>` reads back every numeral `Decimal` writes. */
  lemma ParseDecimal(n: Usize)
    ensures ParseUsize(Decimal(n)) == Some(n)
  {
    DecimalValue(n);
  }

  /** The first `-` of a name whose prefix has none is the one after the
      prefix. */
  lemma FirstDash(prefix: seq<Byte>, rest: seq<Byte>)
    requires DASH !in prefix
    ensures MemChr(DASH, prefix + [DASH] + rest) == Some(|prefix|)
  {
    var s := prefix + [DASH] + rest;
    assert s[|prefix|] == DASH;
    assert s[..|prefix|] == prefix;
  }

  /** The last `k` of a name whose suffix has none is the one before the
      suffix. */
  lemma LastK(mid: seq<Byte>, suffix: seq<Byte>)
    requires LOWER_K !in suffix
    ensures MemRChr(LOWER_K, mid + [LOWER_K] + suffix) == Some(|mid|)
  {
    var s := mid + [LOWER_K] + suffix;
    assert s[|mid|] == LOWER_K;
    assert s[|mid| + 1..] == suffix;
  }

  /** With no `-` in the prefix, the size is read from what follows the
      dash after it. */
  lemma EntrySizeAfterDash(prefix: seq<Byte>, rest: seq<Byte>)
    requires DASH !in prefix
    ensures EntrySize(prefix + [DASH] + rest)
         == match MemRChr(LOWER_K, rest) case None => None case Some(kLoc) => ParseUsize(rest[..kLoc])
  {
    FirstDash(prefix, rest);
    assert (prefix + [DASH] + rest)[|prefix| + 1..] == rest;
  }

  /** A name splits at its first `-` and at the last `k` after it: with no
      `-` before the dash and no `k` after the `k`, the size is whatever the
      text in between parses to. */
  lemma EntrySizeSplit(prefix: seq<Byte>, mid: seq<Byte>, suffix: seq<Byte>)
    requires DASH !in prefix && LOWER_K !in suffix
    ensures EntrySize(prefix + [DASH] + mid + [LOWER_K] + suffix) == ParseUsize(mid)
  {
    var rest := mid + [LOWER_K] + suffix;
    assert prefix + [DASH] + mid + [LOWER_K] + suffix == prefix + [DASH] + rest;
    EntrySizeAfterDash(prefix, rest);
    LastK(mid, suffix);
    assert rest[..|mid|] == mid;
  }

  /** A name of the form `<prefix>-<n>kB`, with no `-` in the prefix, gives
      the size `n`. */
  lemma EntrySizeOfDecimal(prefix: seq<Byte>, n: Usize)
    requires DASH !in prefix
    ensures EntrySize(prefix + [DASH] + Decimal(n) + [LOWER_K, UPPER_B]) == Some(n)
  {
    assert prefix + [DASH] + Decimal(n) + [LOWER_K, UPPER_B]
      == prefix + [DASH] + Decimal(n) + [LOWER_K] + [UPPER_B];
    EntrySizeSplit(prefix, Decimal(n), [UPPER_B]);
    ParseDecimal(n);
  }

  /** "hugepages-2048kB" carries 2048 kB. */
  lemma TwoMegabyteEntry(name: seq<Byte>)
    requires name == [0x68, 0x75, 0x67, 0x65, 0x70, 0x61, 0x67, 0x65, 0x73, 0x2D,
                      0x32, 0x30, 0x34, 0x38, 0x6B, 0x42]
    ensures EntrySize(name) == Some(2048)
  {
    var prefix: seq<Byte> := [0x68, 0x75, 0x67, 0x65, 0x70, 0x61, 0x67, 0x65, 0x73];
    assert Decimal(2048) == [0x32, 0x30, 0x34, 0x38];
    assert name == prefix + [DASH] + Decimal(2048) + [LOWER_K, UPPER_B];
    EntrySizeOfDecimal(prefix, 2048);
  }

  /** A name with nothing between the dash and the `k`, or with a sign
      other than `+`, is skipped. */
  lemma MalformedEntriesSkipped(prefix: seq<Byte>, suffix: seq<Byte>, n: Usize)
    requires DASH !in prefix && LOWER_K !in suffix
    ensures EntrySize(prefix + [DASH] + [] + [LOWER_K] + suffix).None?
    ensures EntrySize(prefix + [DASH] + ([DASH] + Decimal(n)) + [LOWER_K] + suffix).None?
  {
    EntrySizeSplit(prefix, [], suffix);
    EntrySizeSplit(prefix, [DASH] + Decimal(n), suffix);
  }

  /** The items of a directory read in two parts are those of the first
      part followed by those of the second: each entry contributes on its
      own and in order. */
  lemma {:induction false} ItemsAppend(a: seq<DirItem>, b: seq<DirItem>)
    ensures Items(a + b) == Items(a) + Items(b)
  {
    if |a| == 0 {
      assert a + b == b;
    } else {
      assert (a + b)[1..] == a[1..] + b;
      ItemsAppend(a[1..], b);
    }
  }

  /** A single entry contributes exactly its size or its read error. */
  lemma ItemsOfOne(x: DirItem)
    ensures Items([x]) == match Step(x) case None => [] case Some(y) => [y]
  {
    assert [x][1..] == [];
  }

  /** `FilteredIterator`: the directory iterator, of which `remaining` is
      what is still to be read. */
  class FilteredIterator {
    var remaining: seq<DirItem>

    constructor(dir: seq<DirItem>)
      ensures remaining == dir
    {
      remaining := dir;
    }

    /** `Iterator::next`: reads past the entries whose name does not parse
        and yields the next size or read error; `None` once the directory
        is exhausted. */
    method Next() returns (r: Option<Result<Usize, IoError>>)
      modifies this
      ensures r.None? <==> Items(old(remaining)) == []
      ensures r.None? ==> remaining == []
      ensures r.Some? ==> [r.value] + Items(remaining) == Items(old(remaining))
      ensures r.Some? ==> |remaining| < |old(remaining)|
    {
      while |remaining| > 0
        invariant Items(remaining) == Items(old(remaining))
        invariant |remaining| <= |old(remaining)|
        decreases |remaining|
      {
        var next := remaining[0];
        ghost var before := remaining;
        remaining := remaining[1..];
        match next
        case ReadFailed(e) =>
          r := Some(Err(e));
          return;
        case Named(fileName) =>
          var dash := MemChr(DASH, fileName);
          if dash.None? {
            continue;
          }
          var name := fileName[dash.value + 1..];
          var kLoc := MemRChr(LOWER_K, name);
          if kLoc.None? {
            continue;
          }
          var kb := ParseUsize(name[..kLoc.value]);
          if kb.None? {
            continue;
          }
          r := Some(Ok(kb.value));
          return;
      }
      r := None;
    }

    /** `into_iter().collect()`: calls `next` until the directory is
        exhausted or an error is yielded. */
    method Collect() returns (r: Result<seq<Usize>, IoError>)
      modifies this
      ensures r == CollectResults(Items(old(remaining)))
    {
      ghost var whole := CollectResults(Items(remaining));
      var acc: seq<Usize> := [];
      PrependTwice([], [], whole);
      while true
        invariant whole == PrependOk(acc, CollectResults(Items(remaining)))
        decreases |remaining|
      {
        var x := Next();
        match x
        case None =>
          PrependTwice(acc, [], Ok([]));
          return Ok(acc);
        case Some(Err(e)) =>
          CollectCons(Err(e), Items(remaining));
          return Err(e);
        case Some(Ok(v)) =>
          CollectCons(Ok(v), Items(remaining));
          PrependTwice(acc, [v], CollectResults(Items(remaining)));
          acc := acc + [v];
      }
    }
  }

  /** `scan_hugepages` followed by the collection: the same result as
      `Scan`. */
  method ScanHugepages(dir: Result<seq<DirItem>, IoError>) returns (r: Result<seq<Usize>, IoError>)
    ensures r == Scan(dir)
  {
    match dir
    case Err(e) =>
      return Err(e);
    case Ok(items) =>
      var it := new FilteredIterator(items);
      r := it.Collect();
  }
}
