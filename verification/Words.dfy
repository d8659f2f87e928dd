/** Unsigned numbers of eight and of sixteen bits, the range of 32 bits, and values that may be missing. */
module Words {
  type Byte = x: nat | x < 0x100
  type Word = x: nat | x < 0x10000

  const UINT: nat := 0x1_0000_0000

  datatype Option<T> = None | Some(value: T)
}
