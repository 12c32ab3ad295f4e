/** Machine integers, as ranges of the unbounded ones. */
module Words {
  const TWO32 := 0x1_0000_0000

  type byte = i: int | 0 <= i < 256
  type uint32 = i: int | 0 <= i < 0x1_0000_0000
  type int32 = i: int | -0x8000_0000 <= i < 0x8000_0000
}
