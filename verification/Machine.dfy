/** The unsigned 32-bit integers of the server. */
module Machine {

  const UINT32_LIMIT: int := 0x1_0000_0000

  type uint32 = x: int | 0 <= x < UINT32_LIMIT
}
