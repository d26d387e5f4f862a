/** Host Controller Interface vocabulary used by the filter accept list
    commands: status codes, address types and advertising handles
    (Bluetooth Core Specification v5.3, Vol 4, Part E). */
module Hci {

  /** The status codes the modelled commands can return. */
  datatype ErrorCode =
    | Success                       // 0x00
    | MemoryCapacityExceeded        // 0x07
    | CommandDisallowed             // 0x0C
    | InvalidHciCommandParameters   // 0x12
    | UnknownAdvertisingIdentifier  // 0x42

  /** Address_Type of the filter accept list commands. */
  datatype FilterAcceptListAddressType = Public | Random

  /** A 48-bit Bluetooth device address. */
  type Address = a: int | 0 <= a < 0x1_0000_0000_0000

  /** Advertising_Handle of the extended advertising commands (0x00 to 0xEF). */
  type AdvertisingHandle = h: int | 0 <= h <= 0xEF
}
