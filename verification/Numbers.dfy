/** Machine integers of the source: unsigned widths and saturating addition. */
module Numbers {
  const U64_MAX: nat := 0xFFFF_FFFF_FFFF_FFFF
  const U32_MAX: nat := 0xFFFF_FFFF

  type u64 = n: nat | n <= 0xFFFF_FFFF_FFFF_FFFF
  type u32 = n: nat | n <= 0xFFFF_FFFF

  function SatAdd64(a: u64, b: u64): u64 { if a + b <= U64_MAX then a + b else U64_MAX }

  function SatAdd32(a: u32, b: u32): u32 { if a + b <= U32_MAX then a + b else U32_MAX }
}
