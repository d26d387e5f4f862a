/** Properties of the admission rule that relate several commands: what the
    gate depends on, what add and remove undo, and how disabling a
    procedure lifts the gate. */
module AdmissionProperties {
  import opened Hci
  import opened FilterPolicy
  import opened AcceptList
  import opened LinkLayer

  /** Adding an absent device and removing it again, with nothing using the
      list, leaves the controller exactly as it was. */
  lemma AddThenRemoveRestores(c: Controller, t: FilterAcceptListAddressType, a: Address)
    requires !FilterAcceptListBusy(c)
    requires Entry(t, a) !in c.filterAcceptList
    requires |c.filterAcceptList| < c.filterAcceptListSize
    ensures LeAddDeviceToFilterAcceptList(c, t, a).status == Success
    ensures LeRemoveDeviceFromFilterAcceptList(LeAddDeviceToFilterAcceptList(c, t, a).next, t, a)
            == Reply(Success, c)
  {
    var added := LeAddDeviceToFilterAcceptList(c, t, a).next;
    assert added.filterAcceptList == Insert(c.filterAcceptList, Entry(t, a));
    DeleteInsertRoundTrip(c.filterAcceptList, Entry(t, a));
  }

  /** Removing a device that is not in the list succeeds and changes nothing. */
  lemma RemoveAbsentIsNoOp(c: Controller, t: FilterAcceptListAddressType, a: Address)
    requires !FilterAcceptListBusy(c)
    requires Entry(t, a) !in c.filterAcceptList
    ensures LeRemoveDeviceFromFilterAcceptList(c, t, a) == Reply(Success, c)
  {
  }

  /** Adding the same device twice succeeds twice; the second add changes
      nothing and the list grew by at most one entry. */
  lemma AddIsIdempotent(c: Controller, t: FilterAcceptListAddressType, a: Address)
    requires Valid(c) && !FilterAcceptListBusy(c)
    requires Entry(t, a) in c.filterAcceptList || |c.filterAcceptList| < c.filterAcceptListSize
    ensures LeAddDeviceToFilterAcceptList(c, t, a).status == Success
    ensures var once := LeAddDeviceToFilterAcceptList(c, t, a).next;
            && LeAddDeviceToFilterAcceptList(once, t, a) == Reply(Success, once)
            && |once.filterAcceptList| <= |c.filterAcceptList| + 1
  {
  }

  /** Removing an address under the other address type succeeds and keeps
      the stored entry; the list shrinks only if the other-typed entry was
      there too. */
  lemma RemoveOtherAddressTypeKeepsEntry(c: Controller, a: Address)
    requires Valid(c) && !FilterAcceptListBusy(c)
    requires Entry(Public, a) in c.filterAcceptList
    ensures var r := LeRemoveDeviceFromFilterAcceptList(c, Random, a);
            && r.status == Success
            && Entry(Public, a) in r.next.filterAcceptList
            && |r.next.filterAcceptList|
               == |c.filterAcceptList| - (if Entry(Random, a) in c.filterAcceptList then 1 else 0)
  {
  }

  /** The remove status depends only on the procedures, never on the list
      contents or on which device is named. */
  lemma GateIgnoresListContents(c: Controller, d: Controller,
                                t: FilterAcceptListAddressType, a: Address,
                                u: FilterAcceptListAddressType, b: Address)
    requires c.scanner == d.scanner
    requires c.legacyAdvertiser == d.legacyAdvertiser
    requires c.advertisingSets == d.advertisingSets
    ensures LeRemoveDeviceFromFilterAcceptList(c, t, a).status
            == LeRemoveDeviceFromFilterAcceptList(d, u, b).status
    ensures LeAddDeviceToFilterAcceptList(c, t, a).status == CommandDisallowed
            <==> LeAddDeviceToFilterAcceptList(d, u, b).status == CommandDisallowed
  {
  }

  /** One enabled advertising set with an accept-list policy blocks list
      changes whatever the other sets and procedures are doing. */
  lemma EnabledListedSetBlocksChanges(c: Controller, h: AdvertisingHandle,
                                      t: FilterAcceptListAddressType, a: Address)
    requires h in c.advertisingSets
    requires SetUsesList(c.advertisingSets[h])
    ensures LeRemoveDeviceFromFilterAcceptList(c, t, a) == Reply(CommandDisallowed, c)
    ensures LeAddDeviceToFilterAcceptList(c, t, a) == Reply(CommandDisallowed, c)
  {
  }

  /** Stopping the only procedure that used the list lifts the gate. */
  lemma DisablingScanLiftsGate(c: Controller)
    requires !LegacyAdvertiserUsesList(c)
    requires forall h :: h in c.advertisingSets ==> !SetUsesList(c.advertisingSets[h])
    ensures !FilterAcceptListBusy(SetLeScanEnable(c, false))
  {
  }

  /** Disabling one advertising set lifts the gate when it was the only
      procedure using the list; the other sets stay configured. */
  lemma DisablingSetLiftsGate(c: Controller, h: AdvertisingHandle)
    requires h in c.advertisingSets
    requires !ScannerUsesList(c) && !LegacyAdvertiserUsesList(c)
    requires forall k :: k in c.advertisingSets && k != h ==> !SetUsesList(c.advertisingSets[k])
    ensures var r := SetLeExtendedAdvertisingEnable(c, false, [h]);
            && r.status == Success
            && r.next.advertisingSets.Keys == c.advertisingSets.Keys
            && !FilterAcceptListBusy(r.next)
  {
  }

  /** Setting legacy advertising parameters never puts the list in use. */
  lemma AdvertisingParametersNeverClaimList(c: Controller, p: AdvertisingFilterPolicy)
    ensures FilterAcceptListBusy(LeSetAdvertisingParameters(c, p).next) ==> FilterAcceptListBusy(c)
  {
  }

  /** Setting extended advertising parameters never puts the list in use:
      the configured set is left disabled. */
  lemma ExtendedAdvertisingParametersNeverClaimList(c: Controller, h: AdvertisingHandle,
                                                    p: AdvertisingFilterPolicy)
    ensures FilterAcceptListBusy(SetLeExtendedAdvertisingParameters(c, h, p).next)
            ==> FilterAcceptListBusy(c)
  {
  }

  /** After the legacy advertising enable command, the legacy advertiser uses
      the list exactly when it was enabled under an accept-list policy. */
  lemma AdvertisingEnableClaimsListIffListed(c: Controller, enable: bool)
    ensures LegacyAdvertiserUsesList(LeSetAdvertisingEnable(c, enable).next)
            <==> enable && AdvertisingUsesAcceptList(c.legacyAdvertiser.policy)
  {
  }

  /** Changing the policy of a stopped scanner leaves the gate as it was. */
  lemma StoppedScanPolicyKeepsGate(c: Controller, p: LeScanningFilterPolicy)
    requires !c.scanner.enabled
    ensures FilterAcceptListBusy(SetLeScanFilterPolicy(c, p)) <==> FilterAcceptListBusy(c)
  {
  }

  /** Removing a stored device cuts it out of the list where it stood; the
      other entries keep their order. */
  lemma RemoveKeepsOrder(c: Controller, t: FilterAcceptListAddressType, a: Address)
    requires Valid(c) && !FilterAcceptListBusy(c)
    requires Entry(t, a) in c.filterAcceptList
    ensures var l := c.filterAcceptList;
            var i := IndexOf(l, Entry(t, a));
            LeRemoveDeviceFromFilterAcceptList(c, t, a).next.filterAcceptList == l[..i] + l[i + 1..]
  {
    DeleteCutsOut(c.filterAcceptList, Entry(t, a));
  }
}
