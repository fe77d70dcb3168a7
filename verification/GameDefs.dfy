/** What the whole program agrees on. */
module GameDefs {
  /** A table has at least two seats. */
  type TableSize = n: nat | n >= 2 witness 2

  /** The number of seats of a table. The source sets it to 2; nothing here depends on the value. */
  const MAX_NUMBER_OF_PLAYERS: TableSize

  /** The ranges of the machine's numbers. */
  const INT_MAX: int := 0x7FFF_FFFF
  const UINT_MAX: int := 0xFFFF_FFFF
}
