// How many values the unsigned integers of the machine have.
module Limits {
  const UINT_LIMIT: nat := 0x1_0000_0000
  const ULONG_LIMIT: nat := 0x1_0000_0000_0000_0000
}
