/** Go's fixed-width integers, as subset types, and the wrap-around of int64 arithmetic. */
module Ints {
  const MAX_INT64 := 0x7FFF_FFFF_FFFF_FFFF
  const MIN_INT64 := -0x8000_0000_0000_0000
  const TWO_TO_THE_64 := 0x1_0000_0000_0000_0000

  type int64 = x: int | MIN_INT64 <= x <= MAX_INT64
  type byte = x: int | 0 <= x < 256
  type uint64 = x: int | 0 <= x < TWO_TO_THE_64

  /** The int64 congruent to `x` modulo 2^64: what Go's unchecked arithmetic leaves behind. */
  function Wrap64(x: int): (r: int64)
    ensures (x - r) % TWO_TO_THE_64 == 0
  {
    var m := x % TWO_TO_THE_64;
    if m <= MAX_INT64 then m else m - TWO_TO_THE_64
  }

  lemma Wrap64Exact(x: int)
    ensures Wrap64(x) == x <==> MIN_INT64 <= x <= MAX_INT64
  {}
}
