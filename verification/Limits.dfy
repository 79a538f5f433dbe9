/** Sizes and counts the parts of the appliance agree on. */
module Limits {
  /** The packet buffers, and the largest packet. */
  const JUMBO_MAX := 9216
  /** The largest frame on the WAN: a 14-byte Ethernet header and the MTU of 9000. */
  const WIRE_MAX := 9014
  const WORKERS := 6
  const TX_SLOTS := 4
}
