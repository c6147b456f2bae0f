/**
 Server device lists, as the attach and detach calls of the UpCloud API see them.
 A device occupies an address; the addresses of one server are distinct.
 */
module Devices {
  import opened Common

  type ServerId = nat
  type VolumeId = nat
  type Address = nat

  datatype Device = Device(address: Address, storage: VolumeId)

  predicate Holds(devices: seq<Device>, vol: VolumeId) {
    exists i :: 0 <= i < |devices| && devices[i].storage == vol
  }

  predicate AddressUsed(devices: seq<Device>, address: Address) {
    exists i :: 0 <= i < |devices| && devices[i].address == address
  }

  ghost predicate DistinctAddresses(devices: seq<Device>) {
    forall i, j :: 0 <= i < j < |devices| ==> devices[i].address != devices[j].address
  }

  /** The address of the first device that holds the volume. */
  function FirstAddress(devices: seq<Device>, vol: VolumeId): (r: Option<Address>)
    ensures r.Some? <==> Holds(devices, vol)
  {
    if devices == [] then None
    else if devices[0].storage == vol then Some(devices[0].address)
    else
      assert Holds(devices[1..], vol) ==> Holds(devices, vol);
      FirstAddress(devices[1..], vol)
  }

  /** Device i is the first one that holds the volume. */
  ghost predicate IsFirst(devices: seq<Device>, vol: VolumeId, i: nat) {
    i < |devices| && devices[i].storage == vol && forall j :: 0 <= j < i ==> devices[j].storage != vol
  }

  lemma {:induction false} FirstAddressIsFirst(devices: seq<Device>, vol: VolumeId)
    ensures var r := FirstAddress(devices, vol);
      r.Some? ==> exists i: nat :: IsFirst(devices, vol, i) && devices[i].address == r.value
  {
    if Holds(devices, vol) {
      if devices[0].storage == vol {
        assert IsFirst(devices, vol, 0);
      } else {
        FirstAddressIsFirst(devices[1..], vol);
        var i: nat :| IsFirst(devices[1..], vol, i) && devices[1..][i].address == FirstAddress(devices[1..], vol).value;
        assert forall j :: 0 < j < |devices| ==> devices[j] == devices[1..][j - 1];
        assert IsFirst(devices, vol, i + 1);
      }
    }
  }

  /** What the backend keeps when the device at an address is detached. */
  function WithoutAddress(devices: seq<Device>, address: Address): seq<Device> {
    if devices == [] then []
    else if devices[0].address == address then WithoutAddress(devices[1..], address)
    else [devices[0]] + WithoutAddress(devices[1..], address)
  }

  /** The attached storages, counted. */
  ghost function Storages(devices: seq<Device>): multiset<VolumeId> {
    if devices == [] then multiset{}
    else multiset{devices[0].storage} + Storages(devices[1..])
  }

  lemma {:induction false} StoragesHolds(devices: seq<Device>, vol: VolumeId)
    ensures vol in Storages(devices) <==> Holds(devices, vol)
  {
    if devices != [] {
      StoragesHolds(devices[1..], vol);
      assert Holds(devices[1..], vol) ==> Holds(devices, vol);
    }
  }

  lemma {:induction false} StoragesAppend(devices: seq<Device>, d: Device)
    ensures Storages(devices + [d]) == Storages(devices) + multiset{d.storage}
  {
    if devices == [] {
      assert devices + [d] == [d];
    } else {
      assert (devices + [d])[1..] == devices[1..] + [d];
      StoragesAppend(devices[1..], d);
    }
  }

  lemma {:induction false} WithoutAddressIsSubsequence(devices: seq<Device>, address: Address)
    requires DistinctAddresses(devices)
    ensures var r := WithoutAddress(devices, address);
      && DistinctAddresses(r)
      && |r| <= |devices|
      && !AddressUsed(r, address)
      && (forall i :: 0 <= i < |r| ==> r[i] in devices)
  {
    if devices != [] {
      WithoutAddressIsSubsequence(devices[1..], address);
    }
  }

  lemma {:induction false} WithoutUnusedAddress(devices: seq<Device>, address: Address)
    requires !AddressUsed(devices, address)
    ensures WithoutAddress(devices, address) == devices
  {
    if devices != [] {
      assert devices[0].address != address;
      forall i | 0 <= i < |devices[1..]| ensures devices[1..][i].address != address {
        assert devices[1..][i] == devices[i + 1];
      }
      WithoutUnusedAddress(devices[1..], address);
    }
  }

  /** Detaching by the address found for a volume takes away one device, and it is the volume's. */
  lemma {:induction false} DetachRemovesExactlyOne(devices: seq<Device>, vol: VolumeId)
    requires DistinctAddresses(devices) && Holds(devices, vol)
    ensures var r := WithoutAddress(devices, FirstAddress(devices, vol).value);
      && Storages(r) == Storages(devices) - multiset{vol}
      && |r| == |devices| - 1
  {
    var a := FirstAddress(devices, vol).value;
    if devices[0].storage == vol {
      assert !AddressUsed(devices[1..], a);
      WithoutUnusedAddress(devices[1..], a);
    } else {
      assert Holds(devices[1..], vol);
      DetachRemovesExactlyOne(devices[1..], vol);
      StoragesHolds(devices[1..], vol);
      FirstAddressIsUsed(devices[1..], vol);
      assert devices[0].address != a;
      var r := WithoutAddress(devices[1..], a);
      assert WithoutAddress(devices, a) == [devices[0]] + r;
      assert ([devices[0]] + r)[1..] == r;
    }
  }

  /** Detaching the device attached last, found by its volume, leaves the list there was. */
  lemma {:induction false} DetachLastAttached(devices: seq<Device>, d: Device)
    requires !Holds(devices, d.storage) && !AddressUsed(devices, d.address)
    ensures FirstAddress(devices + [d], d.storage) == Some(d.address)
    ensures WithoutAddress(devices + [d], d.address) == devices
  {
    if devices == [] {
      assert devices + [d] == [d] && [d][1..] == [];
    } else {
      var rest := devices[1..];
      assert (devices + [d])[1..] == rest + [d];
      assert forall i :: 0 <= i < |rest| ==> rest[i] == devices[i + 1];
      assert !Holds(rest, d.storage) && !AddressUsed(rest, d.address);
      DetachLastAttached(rest, d);
      assert devices[0].storage != d.storage && devices[0].address != d.address;
      assert devices == [devices[0]] + rest;
    }
  }

  lemma {:induction false} FirstAddressIsUsed(devices: seq<Device>, vol: VolumeId)
    requires Holds(devices, vol)
    ensures AddressUsed(devices, FirstAddress(devices, vol).value)
  {
    if devices[0].storage != vol {
      assert Holds(devices[1..], vol);
      FirstAddressIsUsed(devices[1..], vol);
      var i :| 0 <= i < |devices[1..]| && devices[1..][i].address == FirstAddress(devices, vol).value;
      assert devices[i + 1].address == FirstAddress(devices, vol).value;
    }
  }
}
