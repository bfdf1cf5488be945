/** Types shared by the other modules. */
module Prelude {

  datatype Option<+T> = None | Some(value: T)

  datatype Result<+T, +E> = Ok(value: T) | Err(error: E)

  type byte = n: int | 0 <= n < 256

  const TWO_32 := 0x1_0000_0000
  const TWO_63 := 0x8000_0000_0000_0000
  const TWO_64 := 0x1_0000_0000_0000_0000

  type u32 = n: int | 0 <= n < TWO_32

  type u64 = n: int | 0 <= n < TWO_64
}
