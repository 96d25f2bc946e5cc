/** Fixed-width C++ integer types used by the renderer.
    Dafny integers are unbounded; these subset types and the wrap-around
    subtraction below make the source's `size_t`, `uint64_t`, `int64_t` and
    `int` arithmetic explicit where it can overflow. */
module Machine {

  /** 2^64, the number of distinct `size_t` / `uint64_t` values (x86-64). */
  const SIZE_LIMIT: int := 0x1_0000_0000_0000_0000

  /** `size_t` and `uint64_t`. */
  type Size = x: int | 0 <= x < SIZE_LIMIT

  /** `int64_t`. */
  type Int64 = x: int | -0x8000_0000_0000_0000 <= x < 0x8000_0000_0000_0000

  /** `int` (32 bits). */
  type Int32 = x: int | -0x8000_0000 <= x < 0x8000_0000

  /** Unsigned subtraction `a - b` on `size_t`, which wraps below zero. */
  function SizeSub(a: Size, b: Size): (r: Size)
    ensures b <= a ==> r == a - b
    ensures a < b ==> r == SIZE_LIMIT - (b - a)
  {
    if b <= a then a - b else SIZE_LIMIT - (b - a)
  }

  /** The usual arithmetic conversion of a (possibly negative) `int` to `size_t`. */
  function IntToSize(p: Int32): (r: Size)
    ensures 0 <= p ==> r == p
    ensures p < 0 ==> r == SIZE_LIMIT + p && r >= SIZE_LIMIT - 0x8000_0000
  {
    if p >= 0 then p else SIZE_LIMIT + p
  }
}
