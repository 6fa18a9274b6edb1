/** Go's fixed-width integers, as ranges of int. */
module Words {
  const TWO32: int := 0x1_0000_0000
  const TWO63: int := 0x8000_0000_0000_0000
  const TWO64: int := 0x1_0000_0000_0000_0000

  /** Go's int64(x) of a uint64. */
  function ToInt64(x: int): int { if x >= TWO63 then x - TWO64 else x }

  /** Go's uint64(x) of an int64. */
  function ToUint64(x: int): int { if x < 0 then x + TWO64 else x }

  predicate FitsInt64(x: int) { -TWO63 <= x < TWO63 }
}
