/** The machine's integers and the sizes of its memory. */
module Types {
  const UINT_LIMIT: nat := 0x1_0000_0000
  const PGSIZE: nat := 4096
  const KERNBASE: nat := 0x8000_0000

  type Byte = x: int | 0 <= x < 256
  type Word = x: int | 0 <= x < 0x1_0000_0000
}
