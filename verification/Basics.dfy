/** What several parts share. */
module Basics {

  // Costs of a broken link and of an unreachable router
  const LINK_COST_BROKEN: nat := 0x00ff_ffff
  const ROUTE_COST_BROKEN: nat := 0xffff_ffff

  datatype Option<+T> = None | Some(value: T)

  newtype Byte = x: int | 0 <= x < 256

  // An IP address, of 4 or 16 bytes.
  type Address = seq<bv8>
}
