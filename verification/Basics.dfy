/** What several modules share: optional values, bytes, and the widths of machine words. */
module Basics {

  datatype Option<+T> = None | Some(value: T)

  type Byte = x: int | 0 <= x < 256

  /** The number of values of size_t, whatever its width from 32 bits up. */
  type Width = w: nat | w >= 0x1_0000_0000 witness 0x1_0000_0000

  /** 2^64 */
  const UINT64 := 0x1_0000_0000_0000_0000
}
