/** The widths of the program's unsigned integers. */
module Machine {
  const UINT32: nat := 0x1_0000_0000
  const UINT64: nat := 0x1_0000_0000_0000_0000

  type uint32 = n: nat | n < UINT32
}
