/** The machine integers, as ranges of the unbounded ones. */
module Words {
  const TWO24: int := 0x100_0000
  const TWO31: int := 0x8000_0000
  const TWO32: int := 0x1_0000_0000
  const TWO48: int := 0x1_0000_0000_0000
  const TWO54: int := 0x40_0000_0000_0000
  const TWO55: int := 0x80_0000_0000_0000
  const TWO56: int := 0x100_0000_0000_0000
  const TWO63: int := 0x8000_0000_0000_0000
  const TWO64: int := 0x1_0000_0000_0000_0000
  const TWO127: int := 0x8000_0000_0000_0000_0000_0000_0000_0000
  const TWO128: int := 0x1_0000_0000_0000_0000_0000_0000_0000_0000
  const TWO255: int := TWO127 * TWO128

  const U32_MAX: int := 0xffff_ffff
  const I64_MAX: int := 0x7fff_ffff_ffff_ffff
  const I64_MIN: int := -0x8000_0000_0000_0000
  const I128_MAX: int := 0x7fff_ffff_ffff_ffff_ffff_ffff_ffff_ffff
  const I128_MIN: int := -0x8000_0000_0000_0000_0000_0000_0000_0000

  type U32 = x: int | 0 <= x <= U32_MAX
  type I32 = x: int | -TWO31 <= x < TWO31
  type U64 = x: int | 0 <= x < TWO64
  type I64 = x: int | I64_MIN <= x <= I64_MAX
  type U128 = x: int | 0 <= x < TWO128
  type I128 = x: int | I128_MIN <= x <= I128_MAX
}
