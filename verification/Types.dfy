/** Machine types and small containers shared by the other modules. */
module Types {

  /** Go's `byte` and `[]byte`. */
  type Byte = x: int | 0 <= x < 0x100
  type Bytes = seq<Byte>

  const UINT16_LIMIT := 0x1_0000
  const UINT32_LIMIT := 0x1_0000_0000

  type UInt16 = x: int | 0 <= x < UINT16_LIMIT
  type UInt32 = x: int | 0 <= x < UINT32_LIMIT
  type Int32 = x: int | -0x8000_0000 <= x < 0x8000_0000

  /** A 20-byte account address, read as a number; 0 is the zero address. */
  type Address = x: int | 0 <= x

  datatype Option<+T> = None | Some(value: T)
}
