/**
 The controller's publish check and its unpublish loop, step by step over the backend's device lists.
 Here one RPC runs at a time; each detach may fail before or after the backend has taken the device away.
 */
module Unpublish {
  import opened Common
  import opened Devices
  import AttachProtocol

  type Attached = map<ServerId, seq<Device>>

  /** How the detach from each server goes. */
  type Faults = ServerId -> Outcome

  datatype DetachResult = Ok | NotAttached | Err

  // ----- loops of the service and the controller -----

  /** The scan for the device to detach finds the first one that holds the volume. */
  method FindDevice(devices: seq<Device>, vol: VolumeId) returns (r: Option<Address>)
    ensures r == FirstAddress(devices, vol)
    ensures r.None? <==> !Holds(devices, vol)
    ensures r.Some? ==> exists i: nat :: IsFirst(devices, vol, i) && devices[i].address == r.value
  {
    FirstAddressIsFirst(devices, vol);
    var i := 0;
    while i < |devices|
      invariant 0 <= i <= |devices|
      invariant FirstAddress(devices, vol) == FirstAddress(devices[i..], vol)
    {
      if devices[i].storage == vol {
        return Some(devices[i].address);
      }
      assert devices[i..][1..] == devices[i + 1..];
      i := i + 1;
    }
    return None;
  }

  /** The publish check: the loop over the volume's servers, then the wrong-node and the capacity checks. */
  method CheckPublish(attached: seq<ServerId>, node: ServerId, count: nat, maxVolumes: int) returns (d: AttachProtocol.Decision)
    ensures d == AttachProtocol.Decide(attached, node, count, maxVolumes)
    ensures d.AlreadyAttached? <==> node in attached
    ensures d.WrongNode? <==> node !in attached && attached != []
    ensures d.NodeFull? <==> attached == [] && count > maxVolumes
  {
    var attachedTo: Option<ServerId> := None;
    for i := 0 to |attached|
      invariant node !in attached[..i]
      invariant attachedTo.Some? <==> i > 0
    {
      attachedTo := Some(attached[i]);
      if attached[i] == node {
        return AttachProtocol.AlreadyAttached;
      }
    }
    if attachedTo.Some? {
      return AttachProtocol.WrongNode;
    }
    if count > maxVolumes {
      return AttachProtocol.NodeFull;
    }
    return AttachProtocol.Proceed;
  }

  // ----- one detach, and the loop over all nodes, as functions -----

  function DetachOne(devices: seq<Device>, vol: VolumeId, fault: Outcome): (seq<Device>, DetachResult) {
    if fault.Rejected? then (devices, Err)
    else match FirstAddress(devices, vol)
      case None => (devices, NotAttached)
      case Some(a) =>
        var left := WithoutAddress(devices, a);
        (left, if fault.LostReply? || Holds(left, vol) then Err else Ok)
  }

  /** The detach loop over a list of servers: it stops at the first error. */
  function DetachEach(s: Attached, vol: VolumeId, listing: seq<ServerId>, faults: Faults): (r: (Attached, bool))
    ensures r.0.Keys == s.Keys
  {
    if listing == [] then (s, true)
    else if listing[0] !in s then (s, false)
    else
      var (devices, res) := DetachOne(s[listing[0]], vol, faults(listing[0]));
      var t := s[listing[0] := devices];
      if res.Err? then (t, false) else DetachEach(t, vol, listing[1..], faults)
  }

  ghost predicate Distinct(listing: seq<ServerId>) {
    forall a, b :: 0 <= a < b < |listing| ==> listing[a] != listing[b]
  }

  /** The listing a volume's details give: every server that holds it, once. */
  ghost predicate Lists(s: Attached, vol: VolumeId, listing: seq<ServerId>) {
    && Distinct(listing)
    && (forall srv :: srv in listing <==> srv in s && Holds(s[srv], vol))
  }

  class Backend {
    var servers: Attached

    constructor (s: Attached)
      ensures servers == s
    {
      servers := s;
    }

    /** DetachBlockStorage: the other servers are untouched, and the result says what became of the volume on this one. */
    method DetachBlockStorage(vol: VolumeId, srv: ServerId, fault: Outcome) returns (res: DetachResult)
      requires srv in servers
      modifies this
      ensures servers == old(servers)[srv := DetachOne(old(servers)[srv], vol, fault).0]
      ensures res == DetachOne(old(servers)[srv], vol, fault).1
      ensures DistinctAddresses(old(servers)[srv]) ==> DetachMeans(old(servers)[srv], servers[srv], vol, fault, res)
    {
      if DistinctAddresses(servers[srv]) { DetachMeaning(servers[srv], vol, fault); }
      if fault.Rejected? {
        return Err;
      }
      var address := FindDevice(servers[srv], vol);
      match address {
        case None => return NotAttached;
        case Some(a) =>
          servers := servers[srv := WithoutAddress(servers[srv], a)];
          if fault.LostReply? {
            return Err;
          }
          var still := FindDevice(servers[srv], vol);
          return if still.Some? then Err else Ok;
      }
    }

    /** The attach call and the check that the device list it returns holds the volume. */
    method AttachBlockStorage(vol: VolumeId, srv: ServerId, address: Address, outcome: Outcome) returns (ok: bool)
      requires srv in servers
      modifies this
      ensures servers == if outcome.Rejected? then old(servers) else old(servers)[srv := old(servers)[srv] + [Device(address, vol)]]
      ensures ok == outcome.Fine?
    {
      if outcome.Rejected? {
        return false;
      }
      servers := servers[srv := servers[srv] + [Device(address, vol)]];
      if outcome.LostReply? {
        return false;
      }
      var found := FindDevice(servers[srv], vol);
      assert servers[srv][|servers[srv]| - 1].storage == vol;
      return found.Some?;
    }

    /** ControllerPublishVolume with no other RPC in between: the volume is attached only if it is nowhere and there is room. */
    method ControllerPublishVolume(vol: VolumeId, node: ServerId, listing: seq<ServerId>, maxVolumes: int, address: Address, outcome: Outcome)
      returns (ok: bool)
      requires node in servers && Lists(servers, vol, listing)
      modifies this
      ensures node in old(servers) && (servers == old(servers) || servers == old(servers)[node := old(servers)[node] + [Device(address, vol)]])
      ensures ok ==> Holds(servers[node], vol)
      ensures servers != old(servers) ==>
        AttachedNowhere(old(servers), vol) && |servers[node]| <= maxVolumes + 1
      ensures outcome.Fine? ==> (ok <==> Holds(old(servers)[node], vol) || (listing == [] && |old(servers)[node]| <= maxVolumes))
    {
      var decision := CheckPublish(listing, node, |servers[node]|, maxVolumes);
      match decision {
        case AlreadyAttached => return true;
        case WrongNode => return false;
        case NodeFull => return false;
        case Proceed =>
          ok := AttachBlockStorage(vol, node, address, outcome);
          if ok { assert servers[node][|servers[node]| - 1].storage == vol; }
      }
    }

    /** ControllerUnpublishVolume without a node: detach from every server of the listing, in order. */
    method UnpublishVolumeFromAllNodes(vol: VolumeId, listing: seq<ServerId>, faults: Faults) returns (ok: bool)
      modifies this
      ensures (servers, ok) == DetachEach(old(servers), vol, listing, faults)
    {
      var i := 0;
      while i < |listing|
        invariant 0 <= i <= |listing|
        invariant DetachEach(old(servers), vol, listing, faults) == DetachEach(servers, vol, listing[i..], faults)
      {
        if listing[i] !in servers {
          return false;
        }
        var res := DetachBlockStorage(vol, listing[i], faults(listing[i]));
        if res.Err? {
          return false;
        }
        assert listing[i..][1..] == listing[i + 1..];
        i := i + 1;
      }
      return true;
    }
  }

  // ----- what the loop achieves -----

  ghost predicate WellAddressed(s: Attached) {
    forall srv :: srv in s ==> DistinctAddresses(s[srv])
  }

  /** A server lost nothing but copies of the volume. */
  ghost predicate OnlyLost(before: seq<Device>, after: seq<Device>, vol: VolumeId) {
    && DistinctAddresses(after)
    && (forall v :: v != vol ==> Storages(after)[v] == Storages(before)[v])
    && Storages(after)[vol] <= Storages(before)[vol]
  }

  ghost predicate Shrinks(s: Attached, t: Attached, vol: VolumeId) {
    s.Keys == t.Keys && forall srv :: srv in s ==> OnlyLost(s[srv], t[srv], vol)
  }

  lemma DetachOneOnlyLoses(devices: seq<Device>, vol: VolumeId, fault: Outcome)
    requires DistinctAddresses(devices)
    ensures OnlyLost(devices, DetachOne(devices, vol, fault).0, vol)
  {
    if !fault.Rejected? && Holds(devices, vol) {
      DetachRemovesExactlyOne(devices, vol);
      WithoutAddressIsSubsequence(devices, FirstAddress(devices, vol).value);
    }
  }

  /** Detaching undoes attaching, for a volume the server did not hold and an address it did not use. */
  lemma DetachUndoesAttach(devices: seq<Device>, vol: VolumeId, address: Address)
    requires !Holds(devices, vol) && !AddressUsed(devices, address)
    ensures DetachOne(devices + [Device(address, vol)], vol, Fine) == (devices, Ok)
  {
    DetachLastAttached(devices, Device(address, vol));
  }

  /**
   What a caller learns from a detach: OK took away the only copy, "not attached" found none and did
   nothing, an error without a fault means that copies are left; whatever the result, nothing else was lost.
   */
  ghost predicate DetachMeans(before: seq<Device>, after: seq<Device>, vol: VolumeId, fault: Outcome, res: DetachResult) {
    && OnlyLost(before, after, vol)
    && Storages(before)[vol] <= Storages(after)[vol] + 1
    && (res.Ok? ==> Storages(before)[vol] == 1 && !Holds(after, vol))
    && (res.NotAttached? ==> after == before && !Holds(after, vol))
    && (fault.Fine? ==> (res.Err? <==> Storages(before)[vol] > 1))
    && (res.Ok? ==> fault.Fine?) && (fault.Rejected? ==> res.Err?)
    && (fault.Fine? && res.Err? ==> Storages(before)[vol] == Storages(after)[vol] + 1)
  }

  lemma DetachMeaning(devices: seq<Device>, vol: VolumeId, fault: Outcome)
    requires DistinctAddresses(devices)
    ensures var (left, res) := DetachOne(devices, vol, fault); DetachMeans(devices, left, vol, fault, res)
  {
    DetachOneOnlyLoses(devices, vol, fault);
    StoragesHolds(devices, vol);
    StoragesHolds(DetachOne(devices, vol, fault).0, vol);
    if Holds(devices, vol) { DetachRemovesExactlyOne(devices, vol); }
  }

  lemma ShrinksTransitive(s: Attached, t: Attached, u: Attached, vol: VolumeId)
    requires Shrinks(s, t, vol) && Shrinks(t, u, vol)
    ensures Shrinks(s, u, vol)
  {
    forall srv | srv in s ensures OnlyLost(s[srv], u[srv], vol) {
      assert OnlyLost(s[srv], t[srv], vol) && OnlyLost(t[srv], u[srv], vol);
      forall v | v != vol ensures Storages(u[srv])[v] == Storages(s[srv])[v] {
        assert Storages(t[srv])[v] == Storages(s[srv])[v];
      }
    }
  }

  /** The loop only takes copies of the volume away. */
  lemma {:induction false} DetachEachShrinks(s: Attached, vol: VolumeId, listing: seq<ServerId>, faults: Faults)
    requires WellAddressed(s)
    ensures var t := DetachEach(s, vol, listing, faults).0;
      Shrinks(s, t, vol) && WellAddressed(t)
  {
    if listing != [] && listing[0] in s {
      var srv := listing[0];
      DetachOneOnlyLoses(s[srv], vol, faults(srv));
      var t := s[srv := DetachOne(s[srv], vol, faults(srv)).0];
      assert Shrinks(s, t, vol);
      var u := DetachEach(t, vol, listing[1..], faults).0;
      DetachEachShrinks(t, vol, listing[1..], faults);
      ShrinksTransitive(s, t, u, vol);
    }
  }

  /** How many servers of the list the loop got past. */
  ghost function Passed(s: Attached, vol: VolumeId, listing: seq<ServerId>, faults: Faults): (n: nat)
    ensures n <= |listing|
    ensures n == |listing| <==> DetachEach(s, vol, listing, faults).1
  {
    if listing == [] || listing[0] !in s then 0
    else
      var (devices, res) := DetachOne(s[listing[0]], vol, faults(listing[0]));
      if res.Err? then 0 else 1 + Passed(s[listing[0] := devices], vol, listing[1..], faults)
  }

  /** Servers that are not listed keep their devices as they are. */
  lemma {:induction false} DetachEachFrame(s: Attached, vol: VolumeId, listing: seq<ServerId>, faults: Faults, srv: ServerId)
    requires srv in s && srv !in listing
    ensures DetachEach(s, vol, listing, faults).0[srv] == s[srv]
  {
    if listing != [] && listing[0] in s {
      assert listing[0] in listing;
      var t := s[listing[0] := DetachOne(s[listing[0]], vol, faults(listing[0])).0];
      DetachEachFrame(t, vol, listing[1..], faults, srv);
    }
  }

  /**
   Unpublish from all nodes: every server the loop got past is left without the volume, every server
   behind the one it failed at is as it was. It got past all of them exactly when it reports success.
   */
  lemma {:induction false} DetachEachAchieves(s: Attached, vol: VolumeId, listing: seq<ServerId>, faults: Faults)
    requires Distinct(listing)
    ensures var t := DetachEach(s, vol, listing, faults).0; var n := Passed(s, vol, listing, faults);
      && (forall j :: 0 <= j < n ==> listing[j] in t && !Holds(t[listing[j]], vol))
      && (forall j :: n < j < |listing| && listing[j] in s ==> t[listing[j]] == s[listing[j]])
  {
    if listing != [] && listing[0] in s {
      var srv, rest := listing[0], listing[1..];
      var (devices, res) := DetachOne(s[srv], vol, faults(srv));
      var t := s[srv := devices];
      assert forall j :: 0 < j < |listing| ==> listing[j] == rest[j - 1];
      if !res.Err? {
        assert !Holds(devices, vol);
        DetachEachAchieves(t, vol, rest, faults);
        DetachEachFrame(t, vol, rest, faults, srv);
      }
    }
  }

  // ----- repeated calls -----

  datatype Call = Call(listing: seq<ServerId>, faults: Faults)

  /** The states of repeated calls, each reading the listing of the state it finds. */
  ghost predicate Retries(states: seq<Attached>, calls: seq<Call>, vol: VolumeId) {
    && |states| == |calls| + 1
    && (forall n :: 0 <= n < |calls| ==>
          && Lists(states[n], vol, calls[n].listing)
          && states[n + 1] == DetachEach(states[n], vol, calls[n].listing, calls[n].faults).0)
  }

  /** However many calls fail, the volume is never attached anywhere new and no other volume is touched. */
  lemma {:induction false} RetriesOnlyShrink(states: seq<Attached>, calls: seq<Call>, vol: VolumeId)
    requires Retries(states, calls, vol) && WellAddressed(states[0])
    ensures Shrinks(states[0], states[|calls|], vol) && WellAddressed(states[|calls|])
  {
    if calls == [] {
    } else {
      var n := |calls| - 1;
      RetriesOnlyShrink(states[..n + 1], calls[..n], vol);
      assert states[..n + 1][n] == states[n];
      DetachEachShrinks(states[n], vol, calls[n].listing, calls[n].faults);
      ShrinksTransitive(states[0], states[n], states[n + 1], vol);
    }
  }

  /** Once failures stop, a call succeeds or leaves some server with fewer copies. */
  lemma {:induction false} CleanCallProgresses(s: Attached, vol: VolumeId, listing: seq<ServerId>, faults: Faults)
    requires WellAddressed(s) && Distinct(listing)
    requires forall srv :: srv in listing ==> srv in s && faults(srv).Fine?
    ensures var (t, ok) := DetachEach(s, vol, listing, faults);
      ok || exists srv :: srv in s && Storages(t[srv])[vol] < Storages(s[srv])[vol]
  {
    if listing != [] {
      var srv, rest := listing[0], listing[1..];
      assert srv in listing;
      DetachMeaning(s[srv], vol, Fine);
      var t := s[srv := DetachOne(s[srv], vol, faults(srv)).0];
      assert forall x :: x in rest ==> x in listing;
      if !DetachOne(s[srv], vol, faults(srv)).1.Err? {
        CleanCallProgresses(t, vol, rest, faults);
        var (u, ok) := DetachEach(t, vol, rest, faults);
        if !ok {
          var x :| x in t && Storages(u[x])[vol] < Storages(t[x])[vol];
          assert Storages(u[x])[vol] < Storages(s[x])[vol];
        }
      }
    }
  }

  /** Once failures stop, a call succeeds if and only if none of the servers it lists holds the volume twice. */
  lemma {:induction false} CleanCallSucceeds(s: Attached, vol: VolumeId, listing: seq<ServerId>, faults: Faults)
    requires WellAddressed(s) && Distinct(listing)
    requires forall srv :: srv in listing ==> srv in s && faults(srv).Fine?
    ensures DetachEach(s, vol, listing, faults).1 <==> forall srv :: srv in listing ==> Storages(s[srv])[vol] <= 1
  {
    if listing != [] {
      var srv, rest := listing[0], listing[1..];
      assert srv in listing;
      DetachMeaning(s[srv], vol, Fine);
      var t := s[srv := DetachOne(s[srv], vol, faults(srv)).0];
      forall x | x in rest ensures x in listing && x in t && faults(x).Fine? && t[x] == s[x] {
        var j :| 0 <= j < |rest| && rest[j] == x;
        assert listing[j + 1] == x;
      }
      CleanCallSucceeds(t, vol, rest, faults);
      assert forall x :: x in listing <==> x == srv || x in rest;
    }
  }

  ghost predicate AttachedNowhere(s: Attached, vol: VolumeId) {
    forall srv :: srv in s ==> !Holds(s[srv], vol)
  }

  /** A successful call that listed every server of the volume leaves it attached nowhere. */
  lemma {:induction false} SuccessMeansNowhere(s: Attached, vol: VolumeId, listing: seq<ServerId>, faults: Faults)
    requires Lists(s, vol, listing) && DetachEach(s, vol, listing, faults).1
    ensures AttachedNowhere(DetachEach(s, vol, listing, faults).0, vol)
  {
    DetachEachAchieves(s, vol, listing, faults);
    var t := DetachEach(s, vol, listing, faults).0;
    forall srv | srv in t ensures !Holds(t[srv], vol) {
      if srv in listing {
        var j :| 0 <= j < |listing| && listing[j] == srv;
      } else {
        DetachEachFrame(s, vol, listing, faults, srv);
      }
    }
  }

  // ----- retrying ends -----

  ghost function Pick(keys: set<ServerId>): ServerId
    requires keys != {}
  {
    var k :| k in keys; k
  }

  /** The copies of the volume on some servers, all together. */
  ghost function CopiesOn(s: Attached, keys: set<ServerId>, vol: VolumeId): nat
    requires keys <= s.Keys
  {
    if keys == {} then 0 else Storages(s[Pick(keys)])[vol] + CopiesOn(s, keys - {Pick(keys)}, vol)
  }

  ghost function Copies(s: Attached, vol: VolumeId): nat { CopiesOn(s, s.Keys, vol) }

  lemma {:induction false} CopiesFall(s: Attached, t: Attached, keys: set<ServerId>, vol: VolumeId)
    requires keys <= s.Keys && keys <= t.Keys
    requires forall k :: k in keys ==> Storages(t[k])[vol] <= Storages(s[k])[vol]
    ensures CopiesOn(t, keys, vol) <= CopiesOn(s, keys, vol)
    ensures (exists k :: k in keys && Storages(t[k])[vol] < Storages(s[k])[vol]) ==> CopiesOn(t, keys, vol) < CopiesOn(s, keys, vol)
  {
    if keys != {} { CopiesFall(s, t, keys - {Pick(keys)}, vol); }
  }

  ghost predicate FaultFree(c: Call) { forall srv :: srv in c.listing ==> c.faults(srv).Fine? }

  ghost predicate Succeeds(s: Attached, c: Call, vol: VolumeId) { DetachEach(s, vol, c.listing, c.faults).1 }

  /** Every call without faults that still fails uses up a copy of the volume. */
  lemma {:induction false} FailuresUseUpCopies(states: seq<Attached>, calls: seq<Call>, vol: VolumeId)
    requires Retries(states, calls, vol) && WellAddressed(states[0])
    requires forall n :: 0 <= n < |calls| ==> FaultFree(calls[n]) && !Succeeds(states[n], calls[n], vol)
    ensures |calls| + Copies(states[|calls|], vol) <= Copies(states[0], vol)
  {
    if calls != [] {
      var n := |calls| - 1;
      var s, t := states[n], states[n + 1];
      FailuresUseUpCopies(states[..n + 1], calls[..n], vol);
      RetriesOnlyShrink(states[..n + 1], calls[..n], vol);
      assert states[..n + 1][n] == s && !Succeeds(s, calls[n], vol);
      DetachEachShrinks(s, vol, calls[n].listing, calls[n].faults);
      CleanCallProgresses(s, vol, calls[n].listing, calls[n].faults);
      CopiesFall(s, t, s.Keys, vol);
    }
  }

  /**
   Retrying ends: once failures stop, more calls than there are copies of the volume cannot all fail,
   and after the one that succeeds the volume is attached nowhere.
   */
  lemma RetryingEnds(states: seq<Attached>, calls: seq<Call>, vol: VolumeId)
    requires Retries(states, calls, vol) && WellAddressed(states[0])
    requires (forall n :: 0 <= n < |calls| ==> FaultFree(calls[n])) && |calls| > Copies(states[0], vol)
    ensures exists n :: 0 <= n < |calls| && Succeeds(states[n], calls[n], vol) && AttachedNowhere(states[n + 1], vol)
  {
    if forall n :: 0 <= n < |calls| ==> !Succeeds(states[n], calls[n], vol) {
      FailuresUseUpCopies(states, calls, vol);
      assert false;
    }
    var n :| 0 <= n < |calls| && Succeeds(states[n], calls[n], vol);
    SuccessMeansNowhere(states[n], vol, calls[n].listing, calls[n].faults);
    assert AttachedNowhere(states[n + 1], vol);
  }
}
