# Filter accept list admission in rootcanal's LE link-layer controller

This project models the rule rootcanal's `LinkLayerController` uses to decide
whether the LE Filter Accept List may change. It covers
HCI_LE_Add_Device_To_Filter_Accept_List and
HCI_LE_Remove_Device_From_Filter_Accept_List (sections 7.8.16 and 7.8.17 of
the Bluetooth Core Specification v5.3, Vol 4, Part E). It also covers the
scan and advertising commands that put the list in use.

The controller is an immutable `LinkLayer.Controller` value. It holds:

- the accept list, a sequence of `(address type, address)` entries kept duplicate-free by the invariant `Valid`;
- the list's capacity;
- the scanner's enable flag and filter policy;
- the legacy advertiser's enable flag and filter policy;
- a map from advertising handle to each extended advertising set's enable flag and filter policy.

Every command is a total function that returns a `Reply`: an HCI status code
and the next controller.

The rule: adding or removing a device returns `CommandDisallowed` exactly
when some enabled procedure has a filter policy that consults the list. These
procedures are:

- scanning under `FilterAcceptListOnly` or `FilterAcceptListAndInitiatorsIdentity`;
- legacy advertising under any policy other than `AllDevices`;
- any extended advertising set under any policy other than `AllDevices`.

That check comes before anything else, and it ignores the list's contents.
When nothing uses the list, remove always succeeds, even when no matching
entry exists. Entries match on both the address type and the address.

Modules:

- `Hci`: status codes, address types, 48-bit addresses and advertising handles.
- `FilterPolicy`: the scanning and advertising filter policies, and the one
  classifier that says whether a policy consults the list.
- `AcceptList`: the entry type, plus insert and delete on the list.
- `LinkLayer`: the controller state, the gate `FilterAcceptListBusy`, and the commands.
- `AdmissionProperties`: lemmas that relate several commands.
- `RemoveDeviceScenarios`: the five remove-device test scenarios, each
  replayed from a fresh controller.

The controller implementation, `model/controller/link_layer_controller.h`, is
not part of this model. The behaviour modelled here is the behaviour the
remove-device tests fix. Where the tests are silent, some error conditions of
the Bluetooth Core Specification sections cited below are used. Those left
out are listed under "Left out".

## Model

| member | source | states |
|---|---|---|
| LinkLayer.Fresh | test/controller/le/le_remove_device_from_filter_accept_list_test.cc:25-38 | a newly constructed controller has an empty list, keeps the configured capacity, satisfies the store invariant and has nothing that uses the list |
| LinkLayer.LeAddDeviceToFilterAcceptList | test/controller/le/le_remove_device_from_filter_accept_list_test.cc:41-43 | Disallowed iff a procedure uses the list; capacity exceeded iff not busy, the entry is absent and the list is full; on success the entry is present; a present entry returns Success with the controller unchanged; an absent entry is appended at the end; no other entry changes; no procedure changes; the store invariant is kept |
| LinkLayer.LeRemoveDeviceFromFilterAcceptList | test/controller/le/le_remove_device_from_filter_accept_list_test.cc:45-57 | returns only Success or Disallowed; Disallowed iff a procedure uses the list, and then nothing changes; on success the entry is absent and every other entry keeps its membership; the store invariant is kept |
| LinkLayer.ActiveDependentProcedureExists | test/controller/le/le_remove_device_from_filter_accept_list_test.cc:60-113 | walking the scanner, the legacy advertiser and every advertising set one by one returns true exactly when the gate `FilterAcceptListBusy` holds |
| LinkLayer.SetLeScanFilterPolicy | test/controller/le/le_remove_device_from_filter_accept_list_test.cc:65-66 | the scanner takes the given policy; its enable flag, the list and the advertisers are unchanged |
| LinkLayer.SetLeScanEnable | test/controller/le/le_remove_device_from_filter_accept_list_test.cc:67 | the scanner's enable flag is set and its policy kept; the list and the advertisers are unchanged |
| LinkLayer.LeSetAdvertisingParameters | test/controller/le/le_remove_device_from_filter_accept_list_test.cc:79-84 | Disallowed iff legacy advertising is enabled, and then nothing changes; otherwise the advertiser holds the given policy, still disabled; nothing else changes |
| LinkLayer.LeSetAdvertisingEnable | test/controller/le/le_remove_device_from_filter_accept_list_test.cc:85 | always Success; the advertiser's enable flag becomes the argument and its stored policy is kept; nothing else changes |
| LinkLayer.SetLeExtendedAdvertisingParameters | test/controller/le/le_remove_device_from_filter_accept_list_test.cc:100-105 | Disallowed iff that set exists and is enabled, and then nothing changes; otherwise the set exists, disabled, with the given policy; the other sets and procedures are unchanged |
| LinkLayer.SetLeExtendedAdvertisingEnable | test/controller/le/le_remove_device_from_filter_accept_list_test.cc:97-108 | invalid parameters iff enabling an empty list or a handle repeats; unknown identifier iff handles are distinct but one names no set; on error nothing changes; on success exactly the listed sets (every set, for an empty disable) take the flag, and the policies and set handles are kept |
| LinkLayer.SetEnabled | test/controller/le/le_remove_device_from_filter_accept_list_test.cc:106-108 | the listed sets take the new enable flag; the other sets keep theirs; every policy and the set of handles are preserved |
| AcceptList.Insert | test/controller/le/le_remove_device_from_filter_accept_list_test.cc:41-43 | storing an absent entry adds exactly that entry, grows the list by one and keeps it duplicate-free |
| AcceptList.Delete | test/controller/le/le_remove_device_from_filter_accept_list_test.cc:45-47 | the result holds exactly the other entries; an absent entry leaves the list identical; a present entry in a duplicate-free list shortens it by one; it stays duplicate-free |
| AcceptList.DeleteCutsOut | test/controller/le/le_remove_device_from_filter_accept_list_test.cc:45-47 | in a duplicate-free list, deleting a present entry gives the list with exactly the slot at its index removed, so the entries before and after keep their order |
| AcceptList.DeleteInsertRoundTrip | test/controller/le/le_remove_device_from_filter_accept_list_test.cc:40-48 | deleting an entry just inserted into a list that lacked it gives back the original list, order included |
| AdmissionProperties.AddThenRemoveRestores | test/controller/le/le_remove_device_from_filter_accept_list_test.cc:40-48 | with nothing using the list and room left, adding an absent device then removing it succeeds and returns the exact original controller |
| AdmissionProperties.RemoveKeepsOrder | test/controller/le/le_remove_device_from_filter_accept_list_test.cc:45-47 | with nothing using the list, removing a stored device cuts it out at its own position and the other entries keep their order |
| AdmissionProperties.RemoveAbsentIsNoOp | test/controller/le/le_remove_device_from_filter_accept_list_test.cc:50-58 | with nothing using the list, removing an absent device returns Success and the controller unchanged |
| AdmissionProperties.AddIsIdempotent | test/controller/le/le_remove_device_from_filter_accept_list_test.cc:41-43 | with room or with the device present, add succeeds; a second add of the same device succeeds and changes nothing; the list grew by at most one |
| AdmissionProperties.RemoveOtherAddressTypeKeepsEntry | test/controller/le/le_remove_device_from_filter_accept_list_test.cc:50-58 | removing the Random form of a stored Public address succeeds; the Public entry stays; the list shrinks only if the Random entry was also stored |
| AdmissionProperties.GateIgnoresListContents | test/controller/le/le_remove_device_from_filter_accept_list_test.cc:60-113 | two controllers with the same scanner, legacy advertiser and advertising sets give the same remove status, and the same Disallowed verdict on add, whatever their lists hold and whichever device is named |
| AdmissionProperties.EnabledListedSetBlocksChanges | test/controller/le/le_remove_device_from_filter_accept_list_test.cc:92-113 | one enabled advertising set under a list policy makes add and remove Disallowed and leaves the controller unchanged, whatever the other sets do |
| AdmissionProperties.DisablingScanLiftsGate | test/controller/le/le_remove_device_from_filter_accept_list_test.cc:60-72 | when the scanner was the only procedure using the list, disabling it frees the list |
| AdmissionProperties.DisablingSetLiftsGate | test/controller/le/le_remove_device_from_filter_accept_list_test.cc:92-113 | when one advertising set was the only procedure using the list, disabling just that set succeeds, keeps all sets configured and frees the list |
| AdmissionProperties.AdvertisingParametersNeverClaimList | test/controller/le/le_remove_device_from_filter_accept_list_test.cc:79-84 | for every controller and policy, if the list is in use after setting legacy advertising parameters, it was already in use before |
| AdmissionProperties.ExtendedAdvertisingParametersNeverClaimList | test/controller/le/le_remove_device_from_filter_accept_list_test.cc:100-105 | for every controller, handle and policy, if the list is in use after setting extended advertising parameters, it was already in use before |
| AdmissionProperties.AdvertisingEnableClaimsListIffListed | test/controller/le/le_remove_device_from_filter_accept_list_test.cc:85-89 | after the legacy enable command, the legacy advertiser uses the list iff it was enabled and its stored policy is an accept-list policy |
| AdmissionProperties.StoppedScanPolicyKeepsGate | test/controller/le/le_remove_device_from_filter_accept_list_test.cc:65-67 | changing the policy of a stopped scanner leaves the gate as it was; only the enable that follows can put the list in use |
| RemoveDeviceScenarios.ScenarioSuccess | test/controller/le/le_remove_device_from_filter_accept_list_test.cc:40-48 | on a fresh controller, add(Public, a) and remove(Public, a) both return Success and the list ends empty |
| RemoveDeviceScenarios.ScenarioNotFound | test/controller/le/le_remove_device_from_filter_accept_list_test.cc:50-58 | on a fresh controller, add(Public, a) and remove(Random, a) both return Success and the list still holds exactly (Public, a) |
| RemoveDeviceScenarios.ScenarioScanningActive | test/controller/le/le_remove_device_from_filter_accept_list_test.cc:60-72 | after add, FilterAcceptListOnly and scan enable, remove of the present entry returns CommandDisallowed and changes nothing |
| RemoveDeviceScenarios.ScenarioLegacyAdvertisingActive | test/controller/le/le_remove_device_from_filter_accept_list_test.cc:74-90 | add, ListedScan advertising parameters and advertising enable all return Success; then remove of the present entry returns CommandDisallowed and changes nothing |
| RemoveDeviceScenarios.ScenarioExtendedAdvertisingActive | test/controller/le/le_remove_device_from_filter_accept_list_test.cc:92-113 | add, ListedScan parameters for set 1 and enabling set 1 all return Success; then remove of the present entry returns CommandDisallowed and changes nothing |

## Left out

- The internals of `LinkLayerController`. They are not part of this model, so its structure is not mirrored. Only the asserted outcomes are reproduced, plus the standard's error rules stated in the contracts; the ones not modelled are listed below.
- LinkLayer.Fresh: the default accept-list capacity of the controller properties is not visible. It is a parameter here, and the scenario lemmas hold for every capacity of at least one entry.
- LinkLayer.LeAddDeviceToFilterAcceptList: the Full branch follows section 7.8.16. The tests never reach it.
- LinkLayer.SetLeScanEnable: the opcode argument of the test helper becomes an enable flag. The disabling direction exists only to state the gate-lifting property.
- LinkLayer.LeSetAdvertisingParameters: only the filter policy is kept. Intervals, advertising type, own and peer address types, peer address and channel map are not validated, as the tests pass them only as fixture values. The one refusal modelled is the standard's refusal while advertising is enabled.
- LinkLayer.LeSetAdvertisingParameters: the refusal of legacy advertising commands after extended advertising commands have been used since the last reset is not modelled. Legacy and extended advertising may run side by side here.
- LinkLayer.LeSetAdvertisingEnable: refusals that depend on the own-address configuration are not modelled. Neither is the refusal after extended advertising commands have been used.
- LinkLayer.SetLeExtendedAdvertisingParameters: the refusal of extended advertising commands after legacy advertising commands have been used since the last reset is not modelled.
- LinkLayer.SetLeExtendedAdvertisingEnable: the Invalid HCI Command Parameters refusal for a set whose random own address is not set is not modelled. So the contract's "iff" for that status covers only the empty-list and repeated-handle cases.
- LinkLayer.SetLeExtendedAdvertisingEnable: the repeated-handle check is taken to come before the unknown-handle check. So a list that both repeats a handle and names an unknown set gets Invalid HCI Command Parameters, not Unknown Advertising Identifier. Neither the remove-device tests nor section 7.8.56 fixes this order.
- Hci.AdvertisingHandle: handles 0xF0 to 0xFF are outside the type. The error path for an out-of-range handle is therefore not modelled.
- LinkLayer.SetLeExtendedAdvertisingParameters: properties, intervals, address types, peer address and tx power are not validated. There is no limit on the number of advertising sets.
- LinkLayer.SetLeExtendedAdvertisingEnable: the per-set duration and max-events fields, and advertising-timeout expiry, are not modelled.
- Connection initiation: its filter-policy gating is not exercised by the remove-device tests, so it is not part of the gate.
- HCI_LE_Clear_Filter_Accept_List and HCI_LE_Read_Filter_Accept_List_Size: not exercised by the remove-device tests.
- HCI_LE_Remove_Advertising_Set and HCI_LE_Clear_Advertising_Sets: not exercised. Sets are turned off by disabling them instead.
- The resolving list size set in the fixture, and all address resolution and privacy behaviour: no asserted effect on the accept list.
- The anonymous-advertisers address type (0xFF): not used by the tests.
- HCI packet framing, event generation, and over-the-air scanning and advertising.
