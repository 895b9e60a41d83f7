/** Optional values, results and machine words. */
module Wrappers {
  datatype Option<+T> = None | Some(value: T)

  datatype Result<+T> = Ok(value: T) | Err

  const MAX_U32 := 0xFFFF_FFFF
  const MAX_U64 := 0xFFFF_FFFF_FFFF_FFFF
  const MAX_I64 := 0x7FFF_FFFF_FFFF_FFFF

  type u32 = x: int | 0 <= x <= MAX_U32
  type u64 = x: int | 0 <= x <= MAX_U64
}
