/** The device picker: bonded and newly discovered devices are listed as
    "name\naddress" entries, and the hardware address handed back to the
    connect screen is read off the end of the chosen entry. */
module DevicePicker {

  import opened Wrappers

  /** Length of a Bluetooth hardware address written "XX:XX:XX:XX:XX:XX". */
  const NAME_ADDRESS_OFFSET: nat := 17

  /** `BluetoothDevice.BOND_*`. */
  datatype BondState = BondNone | BondBonding | BondBonded

  /** What the picker reads of a `BluetoothDevice`; the platform may report no name. */
  datatype Device = Device(name: Option<string>, address: string, bond: BondState)

  /** Java string concatenation renders a `null` name as "null". */
  function DisplayName(name: Option<string>): (r: string)
    ensures name.Some? ==> r == name.value
    ensures name.None? ==> r == "null"
  {
    match name
    case None => "null"
    case Some(n) => n
  }

  /** The list entry `device.getName() + "\n" + device.getAddress()`. */
  function Entry(d: Device): (e: string)
    ensures |e| == |DisplayName(d.name)| + 1 + |d.address|
    ensures e[|e| - |d.address|..] == d.address
    ensures e[..|DisplayName(d.name)|] == DisplayName(d.name)
    ensures e[|DisplayName(d.name)|] == '\n'
  {
    DisplayName(d.name) + "\n" + d.address
  }

  /** The entries of a sequence of devices, one per device, in order. */
  function Entries(ds: seq<Device>): (r: seq<string>)
    ensures |r| == |ds|
    ensures forall i :: 0 <= i < |ds| ==> r[i] == Entry(ds[i])
  {
    if ds == [] then [] else [Entry(ds[0])] + Entries(ds[1..])
  }

  /** `info.substring(info.length() - 17)`: the last 17 characters; `None` when
      the entry is shorter and `substring` throws. */
  function GetAddress(info: string): (r: Option<string>)
    ensures r.Some? <==> |info| >= NAME_ADDRESS_OFFSET
    ensures r.Some? ==> |r.value| == NAME_ADDRESS_OFFSET
    ensures r.Some? ==> info == info[..|info| - NAME_ADDRESS_OFFSET] + r.value
  {
    if |info| < NAME_ADDRESS_OFFSET then None
    else Some(info[|info| - NAME_ADDRESS_OFFSET..])
  }

  /** Formatting a device as an entry and reading the address back gives the
      device's address exactly when that address is 17 characters long. */
  lemma AddressRoundTrip(d: Device)
    ensures GetAddress(Entry(d)) == Some(d.address) <==> |d.address| == NAME_ADDRESS_OFFSET
  {
    var e := Entry(d);
    if |d.address| == NAME_ADDRESS_OFFSET {
      assert e[|e| - NAME_ADDRESS_OFFSET..] == d.address;
    }
  }

  /** Clicking any entry of a list built from devices with well-formed
      addresses yields that device's address. */
  lemma EntriesRoundTrip(ds: seq<Device>, i: nat)
    requires i < |ds|
    requires forall j :: 0 <= j < |ds| ==> |ds[j].address| == NAME_ADDRESS_OFFSET
    ensures GetAddress(Entries(ds)[i]) == Some(ds[i].address)
  {
    AddressRoundTrip(ds[i]);
  }

  /** The else-if chain after the paired list is filled. */
  datatype PairedOutcome = NonePaired | ShowList | AutoSelect(address: Option<string>)

  function PairedDecision(entries: seq<string>): (r: PairedOutcome)
    ensures r == NonePaired <==> |entries| == 0
    ensures r == ShowList <==> |entries| > 1
    ensures r.AutoSelect? ==> |entries| == 1 && r.address == GetAddress(entries[0])
  {
    if |entries| == 0 then NonePaired
    else if |entries| > 1 then ShowList
    else AutoSelect(GetAddress(entries[0]))
  }

  /** No bonded device: the placeholder case; several: only the list is shown;
      exactly one with a well-formed address: that address is selected. */
  lemma PairedDecisionCases(ds: seq<Device>)
    ensures |ds| == 0 <==> PairedDecision(Entries(ds)) == NonePaired
    ensures |ds| > 1 <==> PairedDecision(Entries(ds)) == ShowList
    ensures |ds| == 1 <==> PairedDecision(Entries(ds)).AutoSelect?
    ensures |ds| == 1 && |ds[0].address| == NAME_ADDRESS_OFFSET ==>
              PairedDecision(Entries(ds)) == AutoSelect(Some(ds[0].address))
  {
    if |ds| == 1 {
      AddressRoundTrip(ds[0]);
    }
  }

  /** One ACTION_FOUND broadcast: a non-null device not yet bonded is appended. */
  function Discovered(entries: seq<string>, found: Option<Device>): (r: seq<string>)
    ensures r != entries <==> found.Some? && found.value.bond != BondBonded
    ensures r != entries ==> r == entries + [Entry(found.value)]
  {
    if found.Some? && found.value.bond != BondBonded then entries + [Entry(found.value)]
    else entries
  }

  /** The ACTION_DISCOVERY_FINISHED broadcast: an empty list gets one placeholder. */
  function DiscoveryFinished(entries: seq<string>, noneFound: string): (r: seq<string>)
    ensures |r| >= 1
    ensures entries != [] ==> r == entries
    ensures entries == [] ==> r == [noneFound]
  {
    if |entries| == 0 then [noneFound] else entries
  }

  /** The new-devices list after a run of ACTION_FOUND broadcasts from empty. */
  function DiscoverAll(found: seq<Option<Device>>): (r: seq<string>)
    ensures |r| <= |found|
  {
    if found == [] then []
    else Discovered(DiscoverAll(found[..|found| - 1]), found[|found| - 1])
  }

  /** Reference definition: the reported devices that are present and not bonded. */
  function Unbonded(found: seq<Option<Device>>): (r: seq<Device>)
    ensures forall i :: 0 <= i < |r| ==> r[i].bond != BondBonded
    ensures forall i :: 0 <= i < |r| ==> Some(r[i]) in found
    ensures forall i :: 0 <= i < |found| && found[i].Some? && found[i].value.bond != BondBonded ==>
              found[i].value in r
  {
    if found == [] then []
    else
      var last := found[|found| - 1];
      var rest := Unbonded(found[..|found| - 1]);
      assert forall o :: o in found[..|found| - 1] ==> o in found;
      assert forall i :: 0 <= i < |found| - 1 ==> found[i] == found[..|found| - 1][i];
      if last.Some? && last.value.bond != BondBonded then rest + [last.value] else rest
  }

  lemma EntriesSnoc(ds: seq<Device>, d: Device)
    ensures Entries(ds + [d]) == Entries(ds) + [Entry(d)]
  {
  }

  /** Discovery lists exactly the reported devices that are not bonded, in the
      order they were reported. */
  lemma {:induction false} DiscoverAllIsUnbonded(found: seq<Option<Device>>)
    ensures DiscoverAll(found) == Entries(Unbonded(found))
  {
    if found != [] {
      var init := found[..|found| - 1];
      var last := found[|found| - 1];
      DiscoverAllIsUnbonded(init);
      if last.Some? && last.value.bond != BondBonded {
        EntriesSnoc(Unbonded(init), last.value);
      }
    }
  }

  /** When discovery finishes, the list holds exactly one placeholder if no
      unbonded device was reported, and otherwise just those devices. */
  lemma DiscoveryOutcome(found: seq<Option<Device>>, noneFound: string)
    ensures Unbonded(found) == [] ==> DiscoveryFinished(DiscoverAll(found), noneFound) == [noneFound]
    ensures Unbonded(found) != [] ==>
              DiscoveryFinished(DiscoverAll(found), noneFound) == Entries(Unbonded(found))
  {
    DiscoverAllIsUnbonded(found);
  }

  /** The loop over the bonded devices: one entry is added to a fresh
      adapter per device, in iteration order. */
  method FillPaired(bonded: seq<Device>) returns (adapter: seq<string>)
    ensures adapter == Entries(bonded)
  {
    adapter := [];
    if |bonded| > 0 {
      for i := 0 to |bonded|
        invariant |adapter| == i
        invariant forall k :: 0 <= k < i ==> adapter[k] == Entry(bonded[k])
      {
        adapter := adapter + [Entry(bonded[i])];
      }
    }
    assert |adapter| == |Entries(bonded)|;
  }

  class DeviceListActivity {
    var paired: seq<string>
    var newDevices: seq<string>
    var pairedTitleVisible: bool
    /** The address returned with RESULT_OK; `None` is RESULT_CANCELED. */
    var result: Option<string>
    var finished: bool
    /** A `StringIndexOutOfBoundsException` escaped `getAddress`. */
    var failed: bool

    constructor ()
      ensures paired == [] && newDevices == [] && !pairedTitleVisible
      ensures result == None && !finished && !failed
    {
      paired := [];
      newDevices := [];
      pairedTitleVisible := false;
      result := None;
      finished := false;
      failed := false;
    }

    /** Hands `address` back to the connect screen and closes the picker. */
    method OnDeviceFound(address: string)
      modifies this`result, this`finished
      ensures result == Some(address) && finished
    {
      result := Some(address);
      finished := true;
    }

    /** Fills the paired list from the bonded devices, then: none gives one
        placeholder entry, several show the list, exactly one is selected. */
    method OnCreate(bonded: seq<Device>, nonePaired: string)
      modifies this
      ensures newDevices == []
      ensures paired == if |bonded| == 0 then [nonePaired] else Entries(bonded)
      ensures pairedTitleVisible == (old(pairedTitleVisible) || |bonded| != 1)
      ensures match PairedDecision(Entries(bonded))
              case AutoSelect(Some(a)) => result == Some(a) && finished && failed == old(failed)
              case AutoSelect(None) => result == None && finished == old(finished) && failed
              case _ => result == None && finished == old(finished) && failed == old(failed)
    {
      result := None;
      newDevices := [];
      paired := FillPaired(bonded);
      ghost var decision := PairedDecision(paired);
      if |paired| == 0 {
        pairedTitleVisible := true;
        paired := paired + [nonePaired];
      } else if |paired| > 1 {
        assert decision == ShowList;
        pairedTitleVisible := true;
      } else if |paired| == 1 {
        var adr := GetAddress(paired[0]);
        assert decision == AutoSelect(adr);
        match adr {
          case None => failed := true;
          case Some(a) => OnDeviceFound(a);
        }
      }
    }

    /** A click on a list entry selects the address at its end. */
    method OnItemClick(info: string)
      modifies this`result, this`finished, this`failed
      ensures match GetAddress(info)
              case Some(a) => result == Some(a) && finished && failed == old(failed)
              case None => failed && result == old(result) && finished == old(finished)
    {
      var address := GetAddress(info);
      match address {
        case None => failed := true;
        case Some(a) => OnDeviceFound(a);
      }
    }

    method OnDeviceDiscovered(found: Option<Device>)
      modifies this`newDevices
      ensures newDevices == Discovered(old(newDevices), found)
      ensures found.Some? && found.value.bond == BondBonded ==> newDevices == old(newDevices)
    {
      if found.Some? && found.value.bond != BondBonded {
        newDevices := newDevices + [Entry(found.value)];
      }
    }

    method OnDiscoveryFinished(noneFound: string)
      modifies this`newDevices
      ensures newDevices == DiscoveryFinished(old(newDevices), noneFound)
      ensures old(newDevices) == [] ==> newDevices == [noneFound]
    {
      if |newDevices| == 0 {
        newDevices := newDevices + [noneFound];
      }
    }
  }
}
