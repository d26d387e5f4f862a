/** Filter policies of the procedures that may consult the filter accept
    list, and the single classifier deciding whether a policy does. */
module FilterPolicy {

  /** Scanning_Filter_Policy of LE Set Scan Parameters (values 0x00 to 0x03). */
  datatype LeScanningFilterPolicy =
    | AcceptAll
    | FilterAcceptListOnly
    | CheckInitiatorsIdentity
    | FilterAcceptListAndInitiatorsIdentity

  /** Advertising_Filter_Policy of the legacy and extended advertising
      parameter commands (values 0x00 to 0x03). */
  datatype AdvertisingFilterPolicy =
    | AllDevices
    | ListedScan
    | ListedConnect
    | ListedScanAndConnect

  /** A scanner consults the list under the two accept-list variants. */
  predicate ScanUsesAcceptList(p: LeScanningFilterPolicy) {
    p == FilterAcceptListOnly || p == FilterAcceptListAndInitiatorsIdentity
  }

  /** An advertiser consults the list for every policy except AllDevices. */
  predicate AdvertisingUsesAcceptList(p: AdvertisingFilterPolicy) {
    p != AllDevices
  }
}
