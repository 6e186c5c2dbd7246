/** The program's integers. */
module Machine {
  const MIN_INT32 := -0x8000_0000
  const MAX_INT32 := 0x7fff_ffff

  function Min(a: int, b: int): int { if a < b then a else b }

  predicate IsInt32(x: int) { MIN_INT32 <= x <= MAX_INT32 }

  /** The int32 that an exact result becomes. */
  function Wrap32(x: int): (y: int)
    ensures IsInt32(y)
    ensures IsInt32(x) ==> y == x
    ensures MAX_INT32 < x <= MAX_INT32 - MIN_INT32 ==> y == x - 0x1_0000_0000
    ensures 2 * MIN_INT32 <= x < MIN_INT32 ==> y == x + 0x1_0000_0000
  {
    (x - MIN_INT32) % 0x1_0000_0000 + MIN_INT32
  }
}
