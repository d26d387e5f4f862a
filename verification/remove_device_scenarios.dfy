/** The five remove-device scenarios, each replayed command by command on a
    freshly constructed controller. The scenarios use address 1; the
    lemmas hold for every address and for every accept-list capacity of at
    least one entry. */
module RemoveDeviceScenarios {
  import opened Hci
  import opened FilterPolicy
  import opened AcceptList
  import opened LinkLayer

  /** Add then remove the same public device: both succeed and the list ends empty. */
  lemma ScenarioSuccess(size: nat, a: Address)
    requires size >= 1
    ensures var c0 := Fresh(size);
            var r1 := LeAddDeviceToFilterAcceptList(c0, Public, a);
            var r2 := LeRemoveDeviceFromFilterAcceptList(r1.next, Public, a);
            && r1.status == Success
            && r2.status == Success
            && r2.next.filterAcceptList == []
  {
  }

  /** Add a public device, remove the random one at the same address: both
      succeed and the public entry is still the only one stored. */
  lemma ScenarioNotFound(size: nat, a: Address)
    requires size >= 1
    ensures var c0 := Fresh(size);
            var r1 := LeAddDeviceToFilterAcceptList(c0, Public, a);
            var r2 := LeRemoveDeviceFromFilterAcceptList(r1.next, Random, a);
            && r1.status == Success
            && r2.status == Success
            && r2.next.filterAcceptList == [Entry(Public, a)]
  {
  }

  /** Scanning under FilterAcceptListOnly blocks removing the stored device. */
  lemma ScenarioScanningActive(size: nat, a: Address)
    requires size >= 1
    ensures var c0 := Fresh(size);
            var r1 := LeAddDeviceToFilterAcceptList(c0, Public, a);
            var c2 := SetLeScanEnable(SetLeScanFilterPolicy(r1.next, FilterAcceptListOnly), true);
            var r3 := LeRemoveDeviceFromFilterAcceptList(c2, Public, a);
            && r1.status == Success
            && Entry(Public, a) in c2.filterAcceptList
            && r3 == Reply(CommandDisallowed, c2)
  {
  }

  /** Legacy advertising under ListedScan blocks removing the stored device. */
  lemma ScenarioLegacyAdvertisingActive(size: nat, a: Address)
    requires size >= 1
    ensures var c0 := Fresh(size);
            var r1 := LeAddDeviceToFilterAcceptList(c0, Public, a);
            var r2 := LeSetAdvertisingParameters(r1.next, ListedScan);
            var r3 := LeSetAdvertisingEnable(r2.next, true);
            var r4 := LeRemoveDeviceFromFilterAcceptList(r3.next, Public, a);
            && r1.status == Success
            && r2.status == Success
            && r3.status == Success
            && Entry(Public, a) in r3.next.filterAcceptList
            && r4 == Reply(CommandDisallowed, r3.next)
  {
  }

  /** Extended advertising set 1 under ListedScan blocks removing the
      stored device. */
  lemma ScenarioExtendedAdvertisingActive(size: nat, a: Address)
    requires size >= 1
    ensures var c0 := Fresh(size);
            var r1 := LeAddDeviceToFilterAcceptList(c0, Public, a);
            var r2 := SetLeExtendedAdvertisingParameters(r1.next, 1, ListedScan);
            var r3 := SetLeExtendedAdvertisingEnable(r2.next, true, [1]);
            var r4 := LeRemoveDeviceFromFilterAcceptList(r3.next, Public, a);
            && r1.status == Success
            && r2.status == Success
            && r3.status == Success
            && Entry(Public, a) in r3.next.filterAcceptList
            && r4 == Reply(CommandDisallowed, r3.next)
  {
  }
}
