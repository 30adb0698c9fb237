/** Machine integers of the x86-64 target: `usize`, `i32`, non-null pointers,
    wrapping arithmetic and three-way comparison. */
module Machine {

  const USIZE_LIMIT: int := 0x1_0000_0000_0000_0000
  const USIZE_MAX: int := USIZE_LIMIT - 1
  const I32_MIN: int := -0x8000_0000
  const I32_MAX: int := 0x7FFF_FFFF

  /** A value of Rust's `usize` (64 bits). */
  type Usize = x: int | 0 <= x < USIZE_LIMIT

  /** A value of Rust's `i32`, also `c_int` and `RawFd`. */
  type I32 = x: int | I32_MIN <= x <= I32_MAX

  /** The address held by a `NonNull<u8>`. */
  type Ptr = x: int | 0 < x < USIZE_LIMIT witness 1

  /** `usize` addition and pointer offsetting as the hardware does them. */
  function WrappingAdd(a: Usize, b: Usize): Usize
  {
    (a + b) % USIZE_LIMIT
  }

  /** `usize` subtraction as the hardware does it. */
  function WrappingSub(a: Usize, b: Usize): Usize
  {
    (a - b) % USIZE_LIMIT
  }

  /** `usize` multiplication without overflow checks (a release build). */
  function WrappingMul(a: Usize, b: Usize): Usize
  {
    (a * b) % USIZE_LIMIT
  }

  /** `std::cmp::Ordering`. */
  datatype Ordering = Less | Equal | Greater

  /** `Ord::cmp` on integers. */
  function Compare(a: int, b: int): (r: Ordering)
    ensures r == Equal <==> a == b
    ensures r == Less <==> a < b
  {
    if a < b then Less else if a == b then Equal else Greater
  }
}
