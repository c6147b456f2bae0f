/**
 What publishing guarantees although it reads the server and the volume before it takes the lock:
 the device limit up to the number of overlapping publishes, and single attachment as long as
 publishes of one volume do not overlap.
 */
module AttachLimits {
  import opened Devices
  import opened AttachProtocol

  // ----- the device limit -----

  /** A publish to the server that is not over yet. */
  ghost predicate InFlightTo(k: Worker, srv: ServerId) {
    k.job.Publish? && k.job.node == srv && !k.at.Finished?
  }

  ghost function PublishesTo(s: State, srv: ServerId): set<WorkerId> {
    set w | 0 <= w < |s.workers| && InFlightTo(s.workers[w], srv)
  }

  /** A publish that saw room on the server, or is past the check, and has not made its call. */
  ghost predicate MayAttach(k: Worker, srv: ServerId, maxVolumes: int) {
    && InFlightTo(k, srv)
    && (match k.at
        case PubReadVolume(n) => n <= maxVolumes
        case PubCheck(n, _) => n <= maxVolumes
        case WantMutex => true
        case WantLock => true
        case AttachWait => true
        case AttachCall => true
        case _ => false)
  }

  ghost function Pending(s: State, srv: ServerId): set<WorkerId> {
    set w | 0 <= w < |s.workers| && MayAttach(s.workers[w], srv, s.maxVolumes)
  }

  ghost function DeviceCount(s: State, srv: ServerId): nat {
    if srv in s.servers then |s.servers[srv].devices| else 0
  }

  lemma {:induction false} SubsetSize<T>(a: set<T>, b: set<T>)
    requires a <= b
    ensures |a| <= |b|
  {
    if a != {} {
      var x :| x in a;
      SubsetSize(a - {x}, b - {x});
    }
  }

  /** Every publish allowed to attach fits under the limit, counting those still on their way. */
  ghost predicate FitsWithin(s: State, srv: ServerId, k: nat) {
    DeviceCount(s, srv) <= s.maxVolumes + k && DeviceCount(s, srv) + |Pending(s, srv)| <= s.maxVolumes + k
  }

  /** What one change can do to a server's room: nothing, or use a place it had counted, or count one after seeing room. */
  lemma ChangeAndRoom(s: State, w: WorkerId, r: Reply, srv: ServerId)
    requires Inv(s) && w < |s.workers| && GoEnabled(s, s.workers[w], r)
    ensures var k := s.workers[w]; var c := ChangeOf(s, w, k, r); var t := Apply(s, w, c);
      && (!MayAttach(k, srv, s.maxVolumes) && MayAttach(c.next, srv, s.maxVolumes) ==>
            DeviceCount(s, srv) <= s.maxVolumes && DeviceCount(t, srv) == DeviceCount(s, srv))
      && (DeviceCount(t, srv) <= DeviceCount(s, srv)
          || (DeviceCount(t, srv) == DeviceCount(s, srv) + 1 && MayAttach(k, srv, s.maxVolumes) && !MayAttach(c.next, srv, s.maxVolumes)))
  {
    var k := s.workers[w];
    assert WorkerOk(s, w);
    if k.at.DetachCall? { WithoutAddressIsSubsequence(s.servers[k.server].devices, k.at.address); }
  }

  lemma GoFits(s: State, w: WorkerId, r: Reply, srv: ServerId, k: nat)
    requires Inv(s) && w < |s.workers| && GoEnabled(s, s.workers[w], r) && FitsWithin(s, srv, k)
    requires |PublishesTo(Apply(s, w, ChangeOf(s, w, s.workers[w], r)), srv)| <= k
    ensures FitsWithin(Apply(s, w, ChangeOf(s, w, s.workers[w], r)), srv, k)
  {
    ChangeAndRoom(s, w, r, srv);
    RoomArithmetic(s, w, ChangeOf(s, w, s.workers[w], r), srv, k);
  }

  lemma RoomArithmetic(s: State, w: WorkerId, c: Change, srv: ServerId, k: nat)
    requires w < |s.workers| && FitsWithin(s, srv, k)
    requires var t := Apply(s, w, c);
      && |PublishesTo(t, srv)| <= k
      && (!MayAttach(s.workers[w], srv, s.maxVolumes) && MayAttach(c.next, srv, s.maxVolumes) ==>
            DeviceCount(s, srv) <= s.maxVolumes && DeviceCount(t, srv) == DeviceCount(s, srv))
      && (DeviceCount(t, srv) <= DeviceCount(s, srv)
          || (DeviceCount(t, srv) == DeviceCount(s, srv) + 1 && MayAttach(s.workers[w], srv, s.maxVolumes) && !MayAttach(c.next, srv, s.maxVolumes)))
    ensures FitsWithin(Apply(s, w, c), srv, k)
  {
    var t := Apply(s, w, c);
    var before, after := MayAttach(s.workers[w], srv, s.maxVolumes), MayAttach(c.next, srv, s.maxVolumes);
    if after && !before {
      SubsetSize(Pending(t, srv), PublishesTo(t, srv));
    } else if before && !after {
      assert Pending(t, srv) == Pending(s, srv) - {w};
      assert w in Pending(s, srv);
    } else {
      assert Pending(t, srv) == Pending(s, srv);
    }
  }

  lemma StepFits(s: State, l: Label, srv: ServerId, k: nat)
    requires Inv(s) && FitsWithin(s, srv, k) && |PublishesTo(Step(s, l), srv)| <= k
    ensures FitsWithin(Step(s, l), srv, k)
  {
    if Enabled(s, l) {
      match l
      case Go(w, r) => GoFits(s, w, r, srv, k);
      case Recover(_) =>
        assert Pending(Step(s, l), srv) == Pending(s, srv);
      case Spawn(job) =>
        assert Pending(Step(s, l), srv) == Pending(s, srv);
    }
  }

  /** At every moment of the run at most k publishes to the server overlap. */
  ghost predicate AtMostInFlight(s0: State, ls: seq<Label>, srv: ServerId, k: nat) {
    forall n :: 0 <= n <= |ls| ==> |PublishesTo(Run(s0, ls[..n]), srv)| <= k
  }

  lemma {:induction false} RunFits(s0: State, ls: seq<Label>, srv: ServerId, k: nat)
    requires Init(s0) && s0.maxVolumes + k >= DeviceCount(s0, srv)
    requires AtMostInFlight(s0, ls, srv, k)
    ensures FitsWithin(Run(s0, ls), srv, k)
  {
    assert ls[..|ls|] == ls;
    if ls == [] {
      assert Pending(s0, srv) == {};
    } else {
      var front := ls[..|ls| - 1];
      forall n | 0 <= n <= |front| ensures |PublishesTo(Run(s0, front[..n]), srv)| <= k {
        assert front[..n] == ls[..n];
      }
      RunFits(s0, front, srv, k);
      RunKeeps(s0, front);
      StepFits(Run(s0, front), ls[|ls| - 1], srv, k);
    }
  }

  lemma {:induction false} MaxVolumesIsFixed(s0: State, ls: seq<Label>)
    ensures Run(s0, ls).maxVolumes == s0.maxVolumes
  {
    if ls != [] { MaxVolumesIsFixed(s0, ls[..|ls| - 1]); }
  }

  /**
   The device limit under concurrency: with at most k publishes to a server in flight at a time, the
   server never has more than maxVolumesPerNode + k devices, the root disk included. With k = 1 this is the bound
   the check intends.
   */
  lemma {:induction false} DeviceLimit(s0: State, ls: seq<Label>, srv: ServerId, k: nat)
    requires Init(s0) && DeviceCount(s0, srv) <= s0.maxVolumes + k
    requires AtMostInFlight(s0, ls, srv, k)
    ensures DeviceCount(Run(s0, ls), srv) <= s0.maxVolumes + k
  {
    RunFits(s0, ls, srv, k);
    MaxVolumesIsFixed(s0, ls);
  }

  // ----- single attachment -----

  ghost predicate On(s: State, srv: ServerId, vol: VolumeId) {
    srv in s.servers && Holds(s.servers[srv].devices, vol)
  }

  ghost predicate AttachedOnce(s: State, vol: VolumeId) {
    forall a, b :: On(s, a, vol) && On(s, b, vol) ==> a == b
  }

  ghost predicate Nowhere(s: State, vol: VolumeId) {
    forall srv :: !On(s, srv, vol)
  }

  /** A publish of the volume that is not over yet. */
  ghost predicate Publishing(k: Worker, vol: VolumeId) {
    k.job.Publish? && k.job.vol == vol && !k.at.Finished?
  }

  ghost predicate NoOverlap(s: State, vol: VolumeId) {
    forall v, w | 0 <= v < |s.workers| && 0 <= w < |s.workers| ::
      Publishing(s.workers[v], vol) && Publishing(s.workers[w], vol) ==> v == w
  }

  /** A publish that has read that the volume is attached nowhere and has not made its call. */
  ghost predicate SawNowhere(k: Worker, vol: VolumeId) {
    && Publishing(k, vol)
    && (k.at.WantMutex? || k.at.WantLock? || k.at.AttachWait? || k.at.AttachCall? || (k.at.PubCheck? && k.at.attached == []))
  }

  ghost predicate SingleInv(s: State, vol: VolumeId) {
    && AttachedOnce(s, vol)
    && (forall w :: 0 <= w < |s.workers| && SawNowhere(s.workers[w], vol) ==> Nowhere(s, vol))
  }

  /** A step attaches the volume only from a publish that saw it nowhere, and that publish then is done attaching. */
  lemma NewlyOn(s: State, w: WorkerId, r: Reply, vol: VolumeId, srv: ServerId)
    requires Inv(s) && w < |s.workers| && GoEnabled(s, s.workers[w], r)
    ensures var k := s.workers[w]; var c := ChangeOf(s, w, k, r); var t := Apply(s, w, c);
      On(t, srv, vol) && !On(s, srv, vol) ==> SawNowhere(k, vol) && !SawNowhere(c.next, vol) && srv == k.server
  {
    var k := s.workers[w];
    assert WorkerOk(s, w);
    StepsAreLawful(s, w, r);
    if k.at.DetachCall? { WithoutAddressIsSubsequence(s.servers[k.server].devices, k.at.address); }
  }

  /** A publish comes to believe that the volume is nowhere only by reading so. */
  lemma NewlySawNowhere(s: State, w: WorkerId, k: Worker, r: Reply, vol: VolumeId)
    requires Shaped(k) && GoEnabled(s, k, r)
    ensures var c := ChangeOf(s, w, k, r);
      !SawNowhere(k, vol) && SawNowhere(c.next, vol) ==> Nowhere(s, vol) && c.devices.None?
  {
    if k.at.PubReadVolume? && r.Answer? && k.job.vol == vol && r.listing == [] {
      forall srv ensures !On(s, srv, vol) { assert srv !in r.listing; }
    }
  }

  lemma GoStaysSingle(s: State, w: WorkerId, r: Reply, vol: VolumeId)
    requires Inv(s) && w < |s.workers| && GoEnabled(s, s.workers[w], r)
    requires SingleInv(s, vol) && NoOverlap(s, vol)
    ensures SingleInv(Apply(s, w, ChangeOf(s, w, s.workers[w], r)), vol)
  {
    var k := s.workers[w];
    var c := ChangeOf(s, w, k, r);
    var t := Apply(s, w, c);
    assert WorkerOk(s, w);
    NewlySawNowhere(s, w, k, r, vol);
    forall srv ensures On(t, srv, vol) && !On(s, srv, vol) ==> SawNowhere(k, vol) && !SawNowhere(c.next, vol) && srv == k.server
    {
      NewlyOn(s, w, r, vol, srv);
    }
    SingleArithmetic(s, w, c, vol);
  }

  lemma SingleArithmetic(s: State, w: WorkerId, c: Change, vol: VolumeId)
    requires w < |s.workers| && SingleInv(s, vol) && NoOverlap(s, vol)
    requires forall srv :: On(Apply(s, w, c), srv, vol) && !On(s, srv, vol) ==>
        SawNowhere(s.workers[w], vol) && !SawNowhere(c.next, vol) && srv == s.workers[w].server
    requires !SawNowhere(s.workers[w], vol) && SawNowhere(c.next, vol) ==>
        Nowhere(s, vol) && Apply(s, w, c).servers == s.servers
    ensures SingleInv(Apply(s, w, c), vol)
  {
    var t := Apply(s, w, c);
    assert SawNowhere(s.workers[w], vol) ==> Nowhere(s, vol);
    forall v | 0 <= v < |t.workers| && SawNowhere(t.workers[v], vol) ensures Nowhere(t, vol) {
      if v != w {
        assert t.workers[v] == s.workers[v];
        assert Nowhere(s, vol);
      }
    }
  }

  lemma StepStaysSingle(s: State, l: Label, vol: VolumeId)
    requires Inv(s) && SingleInv(s, vol) && NoOverlap(s, vol)
    ensures SingleInv(Step(s, l), vol)
  {
    if Enabled(s, l) {
      match l
      case Go(w, r) => GoStaysSingle(s, w, r, vol);
      case Recover(srv) =>
        var t := Step(s, l);
        assert forall x :: On(t, x, vol) <==> On(s, x, vol);
      case Spawn(_) =>
        var t := Step(s, l);
        assert forall x :: On(t, x, vol) <==> On(s, x, vol);
    }
  }

  ghost predicate NeverOverlaps(s0: State, ls: seq<Label>, vol: VolumeId) {
    forall n :: 0 <= n <= |ls| ==> NoOverlap(Run(s0, ls[..n]), vol)
  }

  /**
   In every run in which no two publishes of the volume overlap, whatever else is interleaved and
   whatever fails, the volume is attached to at most one server.
   */
  lemma {:induction false} SingleAttachment(s0: State, ls: seq<Label>, vol: VolumeId)
    requires Init(s0) && AttachedOnce(s0, vol) && NeverOverlaps(s0, ls, vol)
    ensures SingleInv(Run(s0, ls), vol) && AttachedOnce(Run(s0, ls), vol)
  {
    if ls != [] {
      var front := ls[..|ls| - 1];
      forall n | 0 <= n <= |front| ensures NoOverlap(Run(s0, front[..n]), vol) {
        assert front[..n] == ls[..n];
      }
      SingleAttachment(s0, front, vol);
      RunKeeps(s0, front);
      assert NoOverlap(Run(s0, ls[..|front|]), vol);
      StepStaysSingle(Run(s0, front), ls[|ls| - 1], vol);
    }
  }
}
