/** The slice of the LE link-layer controller that decides whether the
    filter accept list may change: the list itself, the scanner, the legacy
    advertiser and the extended advertising sets, each with its enable flag
    and filter policy. Every command is a total function from the current
    controller to a status code and the next controller. Section numbers
    refer to the Bluetooth Core Specification v5.3, Vol 4, Part E. */
module LinkLayer {
  import opened Hci
  import opened FilterPolicy
  import opened AcceptList

  /** Whether a procedure is running, and the filter policy it was given. */
  datatype Procedure<P> = Procedure(enabled: bool, policy: P)

  datatype Controller = Controller(
    filterAcceptListSize: nat,   // capacity, fixed by the controller properties
    filterAcceptList: seq<Entry>,
    scanner: Procedure<LeScanningFilterPolicy>,
    legacyAdvertiser: Procedure<AdvertisingFilterPolicy>,
    advertisingSets: map<AdvertisingHandle, Procedure<AdvertisingFilterPolicy>>)

  /** What a command returns: its status code and the controller after it. */
  datatype Reply = Reply(status: ErrorCode, next: Controller)

  /** The store invariant: no duplicate entries and never over capacity. */
  predicate Valid(c: Controller) {
    NoDuplicates(c.filterAcceptList) && |c.filterAcceptList| <= c.filterAcceptListSize
  }

  /** `d` differs from `c` at most in the contents of the accept list. */
  predicate SameProcedures(c: Controller, d: Controller) {
    && d.filterAcceptListSize == c.filterAcceptListSize
    && d.scanner == c.scanner
    && d.legacyAdvertiser == c.legacyAdvertiser
    && d.advertisingSets == c.advertisingSets
  }

  predicate ScannerUsesList(c: Controller) {
    c.scanner.enabled && ScanUsesAcceptList(c.scanner.policy)
  }

  predicate LegacyAdvertiserUsesList(c: Controller) {
    c.legacyAdvertiser.enabled && AdvertisingUsesAcceptList(c.legacyAdvertiser.policy)
  }

  predicate SetUsesList(s: Procedure<AdvertisingFilterPolicy>) {
    s.enabled && AdvertisingUsesAcceptList(s.policy)
  }

  /** Some enabled procedure filters through the accept list, so the list
      must not change under it. */
  predicate FilterAcceptListBusy(c: Controller) {
    || ScannerUsesList(c)
    || LegacyAdvertiserUsesList(c)
    || exists h :: h in c.advertisingSets && SetUsesList(c.advertisingSets[h])
  }

  /** A controller just constructed from its properties: empty list,
      nothing enabled, no advertising set. */
  function Fresh(filterAcceptListSize: nat): (c: Controller)
    ensures Valid(c) && !FilterAcceptListBusy(c)
    ensures c.filterAcceptListSize == filterAcceptListSize
    ensures forall e :: e !in c.filterAcceptList
  {
    Controller(filterAcceptListSize, [], Procedure(false, AcceptAll),
               Procedure(false, AllDevices), map[])
  }

  /** Walks the procedures one by one to decide whether the list is in use. */
  method ActiveDependentProcedureExists(c: Controller) returns (busy: bool)
    ensures busy <==> FilterAcceptListBusy(c)
  {
    busy := ScannerUsesList(c) || LegacyAdvertiserUsesList(c);
    var remaining := c.advertisingSets.Keys;
    while remaining != {} && !busy
      invariant remaining <= c.advertisingSets.Keys
      invariant busy <==> || ScannerUsesList(c) || LegacyAdvertiserUsesList(c)
                          || exists h :: h in c.advertisingSets.Keys - remaining
                                         && SetUsesList(c.advertisingSets[h])
      decreases remaining
    {
      var h :| h in remaining;
      busy := SetUsesList(c.advertisingSets[h]);
      remaining := remaining - {h};
    }
  }

  /** HCI_LE_Add_Device_To_Filter_Accept_List (section 7.8.16). */
  function LeAddDeviceToFilterAcceptList(c: Controller, addressType: FilterAcceptListAddressType,
                                         address: Address): (r: Reply)
    ensures r.status == Success || r.status == CommandDisallowed || r.status == MemoryCapacityExceeded
    ensures r.status == CommandDisallowed <==> FilterAcceptListBusy(c)
    ensures r.status == MemoryCapacityExceeded <==>
              && !FilterAcceptListBusy(c)
              && Entry(addressType, address) !in c.filterAcceptList
              && |c.filterAcceptList| >= c.filterAcceptListSize
    ensures r.status != Success ==> r.next == c
    ensures r.status == Success ==> Entry(addressType, address) in r.next.filterAcceptList
    ensures !FilterAcceptListBusy(c) && Entry(addressType, address) in c.filterAcceptList ==>
              r == Reply(Success, c)
    ensures r.status == Success && Entry(addressType, address) !in c.filterAcceptList ==>
              r.next.filterAcceptList == c.filterAcceptList + [Entry(addressType, address)]
    ensures forall x :: x != Entry(addressType, address) ==>
              (x in r.next.filterAcceptList <==> x in c.filterAcceptList)
    ensures SameProcedures(c, r.next)
    ensures Valid(c) ==> Valid(r.next)
  {
    var e := Entry(addressType, address);
    if FilterAcceptListBusy(c) then Reply(CommandDisallowed, c)
    else if e in c.filterAcceptList then Reply(Success, c)
    else if |c.filterAcceptList| >= c.filterAcceptListSize then Reply(MemoryCapacityExceeded, c)
    else Reply(Success, c.(filterAcceptList := Insert(c.filterAcceptList, e)))
  }

  /** HCI_LE_Remove_Device_From_Filter_Accept_List (section 7.8.17). An
      entry that is not in the list is not an error. */
  function LeRemoveDeviceFromFilterAcceptList(c: Controller, addressType: FilterAcceptListAddressType,
                                              address: Address): (r: Reply)
    ensures r.status == Success || r.status == CommandDisallowed
    ensures r.status == CommandDisallowed <==> FilterAcceptListBusy(c)
    ensures r.status == CommandDisallowed ==> r.next == c
    ensures r.status == Success ==> Entry(addressType, address) !in r.next.filterAcceptList
    ensures forall x :: x != Entry(addressType, address) ==>
              (x in r.next.filterAcceptList <==> x in c.filterAcceptList)
    ensures SameProcedures(c, r.next)
    ensures Valid(c) ==> Valid(r.next)
  {
    if FilterAcceptListBusy(c) then Reply(CommandDisallowed, c)
    else Reply(Success, c.(filterAcceptList := Delete(c.filterAcceptList, Entry(addressType, address))))
  }

  /** Stores the scanning filter policy without touching the enable flag. */
  function SetLeScanFilterPolicy(c: Controller, policy: LeScanningFilterPolicy): (d: Controller)
    ensures d.scanner.policy == policy && d.scanner.enabled == c.scanner.enabled
    ensures d.filterAcceptList == c.filterAcceptList && d.filterAcceptListSize == c.filterAcceptListSize
    ensures d.legacyAdvertiser == c.legacyAdvertiser && d.advertisingSets == c.advertisingSets
  {
    c.(scanner := c.scanner.(policy := policy))
  }

  /** Starts (or stops) scanning with the stored filter policy. */
  function SetLeScanEnable(c: Controller, enable: bool): (d: Controller)
    ensures d.scanner.enabled == enable && d.scanner.policy == c.scanner.policy
    ensures d.filterAcceptList == c.filterAcceptList && d.filterAcceptListSize == c.filterAcceptListSize
    ensures d.legacyAdvertiser == c.legacyAdvertiser && d.advertisingSets == c.advertisingSets
  {
    c.(scanner := c.scanner.(enabled := enable))
  }

  /** HCI_LE_Set_Advertising_Parameters (section 7.8.5), reduced to the
      filter policy; refused while legacy advertising is enabled. */
  function LeSetAdvertisingParameters(c: Controller, policy: AdvertisingFilterPolicy): (r: Reply)
    ensures r.status == Success || r.status == CommandDisallowed
    ensures r.status == CommandDisallowed <==> c.legacyAdvertiser.enabled
    ensures r.status == CommandDisallowed ==> r.next == c
    ensures r.status == Success ==> r.next.legacyAdvertiser == Procedure(false, policy)
    ensures r.next.filterAcceptList == c.filterAcceptList && r.next.filterAcceptListSize == c.filterAcceptListSize
    ensures r.next.scanner == c.scanner && r.next.advertisingSets == c.advertisingSets
  {
    if c.legacyAdvertiser.enabled then Reply(CommandDisallowed, c)
    else Reply(Success, c.(legacyAdvertiser := Procedure(false, policy)))
  }

  /** HCI_LE_Set_Advertising_Enable (section 7.8.9). */
  function LeSetAdvertisingEnable(c: Controller, enable: bool): (r: Reply)
    ensures r.status == Success
    ensures r.next.legacyAdvertiser.enabled == enable
    ensures r.next.legacyAdvertiser.policy == c.legacyAdvertiser.policy
    ensures r.next.filterAcceptList == c.filterAcceptList && r.next.filterAcceptListSize == c.filterAcceptListSize
    ensures r.next.scanner == c.scanner && r.next.advertisingSets == c.advertisingSets
  {
    Reply(Success, c.(legacyAdvertiser := c.legacyAdvertiser.(enabled := enable)))
  }

  /** HCI_LE_Set_Extended_Advertising_Parameters (section 7.8.53), reduced
      to the handle and the filter policy. Creates the set if needed; refused
      while the set is enabled. */
  function SetLeExtendedAdvertisingParameters(c: Controller, handle: AdvertisingHandle,
                                              policy: AdvertisingFilterPolicy): (r: Reply)
    ensures r.status == Success || r.status == CommandDisallowed
    ensures r.status == CommandDisallowed <==>
              handle in c.advertisingSets && c.advertisingSets[handle].enabled
    ensures r.status == CommandDisallowed ==> r.next == c
    ensures r.status == Success ==>
              && r.next.advertisingSets.Keys == c.advertisingSets.Keys + {handle}
              && r.next.advertisingSets[handle] == Procedure(false, policy)
              && forall h :: h in c.advertisingSets && h != handle ==>
                   r.next.advertisingSets[h] == c.advertisingSets[h]
    ensures r.next.filterAcceptList == c.filterAcceptList && r.next.filterAcceptListSize == c.filterAcceptListSize
    ensures r.next.scanner == c.scanner && r.next.legacyAdvertiser == c.legacyAdvertiser
  {
    if handle in c.advertisingSets && c.advertisingSets[handle].enabled then Reply(CommandDisallowed, c)
    else Reply(Success, c.(advertisingSets := c.advertisingSets[handle := Procedure(false, policy)]))
  }

  predicate Distinct(handles: seq<AdvertisingHandle>) {
    forall i, j :: 0 <= i < j < |handles| ==> handles[i] != handles[j]
  }

  /** Sets the enable flag of every listed set, leaving the others alone. */
  function SetEnabled(sets: map<AdvertisingHandle, Procedure<AdvertisingFilterPolicy>>,
                      handles: seq<AdvertisingHandle>, enable: bool)
    : (r: map<AdvertisingHandle, Procedure<AdvertisingFilterPolicy>>)
    requires forall i :: 0 <= i < |handles| ==> handles[i] in sets
    ensures r.Keys == sets.Keys
    ensures forall h :: h in r ==> r[h].policy == sets[h].policy
    ensures forall h :: h in r ==> r[h].enabled == (if h in handles then enable else sets[h].enabled)
    decreases |handles|
  {
    if |handles| == 0 then sets
    else SetEnabled(sets[handles[0] := sets[handles[0]].(enabled := enable)], handles[1..], enable)
  }

  /** HCI_LE_Set_Extended_Advertising_Enable (section 7.8.56), with the
      per-set duration left out. Disabling with an empty list disables
      every set; enabling with an empty list, a repeated handle or an
      unknown handle is refused and changes nothing. */
  function SetLeExtendedAdvertisingEnable(c: Controller, enable: bool,
                                          handles: seq<AdvertisingHandle>): (r: Reply)
    ensures r.status == Success || r.status == InvalidHciCommandParameters
            || r.status == UnknownAdvertisingIdentifier
    ensures r.status == InvalidHciCommandParameters <==> (enable && |handles| == 0) || !Distinct(handles)
    ensures r.status == UnknownAdvertisingIdentifier <==>
              Distinct(handles) && exists i :: 0 <= i < |handles| && handles[i] !in c.advertisingSets
    ensures r.status != Success ==> r.next == c
    ensures r.status == Success ==>
              && r.next.advertisingSets.Keys == c.advertisingSets.Keys
              && forall h :: h in c.advertisingSets ==>
                   && r.next.advertisingSets[h].policy == c.advertisingSets[h].policy
                   && r.next.advertisingSets[h].enabled ==
                        (if h in handles || |handles| == 0 then enable else c.advertisingSets[h].enabled)
    ensures r.next.filterAcceptList == c.filterAcceptList && r.next.filterAcceptListSize == c.filterAcceptListSize
    ensures r.next.scanner == c.scanner && r.next.legacyAdvertiser == c.legacyAdvertiser
  {
    if |handles| == 0 then
      if enable then Reply(InvalidHciCommandParameters, c)
      else Reply(Success, c.(advertisingSets := map h | h in c.advertisingSets :: c.advertisingSets[h].(enabled := false)))
    else if !Distinct(handles) then Reply(InvalidHciCommandParameters, c)
    else if exists i :: 0 <= i < |handles| && handles[i] !in c.advertisingSets then
      Reply(UnknownAdvertisingIdentifier, c)
    else Reply(Success, c.(advertisingSets := SetEnabled(c.advertisingSets, handles, enable)))
  }
}
