/**
 Runs that reach the limits of what publishing guarantees. An undisturbed publish attaches its
 volume; k publishes that all read before any of them attaches use k places beyond the limit; two overlapping
 publishes of one volume attach it twice.
 */
module AttachRaces {
  import opened Devices
  import opened AttachProtocol
  import opened AttachLimits

  lemma RunSnoc(s: State, ls: seq<Label>, l: Label)
    ensures Run(s, ls + [l]) == Step(Run(s, ls), l)
  {
    assert (ls + [l])[..|ls|] == ls;
  }

  lemma {:induction false} RunConcat(s: State, a: seq<Label>, b: seq<Label>)
    ensures Run(s, a + b) == Run(Run(s, a), b)
  {
    if b == [] {
      assert a + b == a;
    } else {
      RunConcat(s, a, b[..|b| - 1]);
      assert (a + b)[..|a + b| - 1] == a + b[..|b| - 1];
    }
  }

  lemma Run2(s: State, a: Label, b: Label)
    ensures Run(s, [a, b]) == Step(Step(s, a), b)
  {
    RunSnoc(s, [], a);
    assert [] + [a] == [a] && [a] + [b] == [a, b];
    RunSnoc(s, [a], b);
  }

  lemma Run3(s: State, a: Label, b: Label, c: Label)
    ensures Run(s, [a, b, c]) == Step(Step(Step(s, a), b), c)
  {
    Run2(s, a, b);
    assert [a, b] + [c] == [a, b, c];
    RunSnoc(s, [a, b], c);
  }

  /** A publish that saw its volume nowhere and room on its server, with the server up and its mutex free. */
  ghost predicate Cleared(s: State, w: WorkerId) {
    && w < |s.workers|
    && var k := s.workers[w];
    && k.job.Publish? && k.at.PubCheck? && k.at.attached == [] && k.at.count <= s.maxVolumes
    && k.server == k.job.node && Up(s, k.server)
    && (k.server in s.nodeSync ==> s.nodeSync[k.server] !in s.held)
    && (k.server !in s.nodeSync ==> s.nextMutex !in s.held)
  }

  lemma CheckMutexLock(s: State, w: WorkerId) returns (t: State, m: MutexId)
    requires Cleared(s, w)
    ensures var ls := [Go(w, Plain), Go(w, Plain), Go(w, Plain)]; t == Run(s, ls)
    ensures m !in s.held && t.held == s.held[m := w] && t.servers == s.servers && t.maxVolumes == s.maxVolumes
    ensures t.workers == s.workers[w := s.workers[w].(at := AttachWait, mutex := m)]
  {
    var k := s.workers[w];
    m := if k.server in s.nodeSync then s.nodeSync[k.server] else s.nextMutex;
    var s1 := Step(s, Go(w, Plain));
    assert s1 == s.(workers := s.workers[w := k.(at := WantMutex)]);
    var s2 := Step(s1, Go(w, Plain));
    assert s2.workers == s.workers[w := k.(at := WantLock, mutex := m)] && s2.held == s.held && s2.servers == s.servers;
    t := Step(s2, Go(w, Plain));
    assert t.workers == s.workers[w := k.(at := AttachWait, mutex := m)];
    Run3(s, Go(w, Plain), Go(w, Plain), Go(w, Plain));
  }

  lemma WaitCallRecover(s: State, w: WorkerId, a: Address) returns (t: State)
    requires w < |s.workers| && s.workers[w].at.AttachWait? && Up(s, s.workers[w].server)
    requires !AddressUsed(s.servers[s.workers[w].server].devices, a)
    ensures var ls := [Go(w, Plain), Go(w, Answer([], a)), Recover(s.workers[w].server)]; t == Run(s, ls)
    ensures var k := s.workers[w];
      && t.servers == s.servers[k.server := Server(Started, s.servers[k.server].devices + [Device(a, k.job.vol)])]
      && t.workers == s.workers[w := k.(at := FinalWait)] && t.held == s.held && t.maxVolumes == s.maxVolumes
  {
    var k := s.workers[w];
    var s1 := Step(s, Go(w, Plain));
    assert s1 == s.(workers := s.workers[w := k.(at := AttachCall)]);
    var s2 := Step(s1, Go(w, Answer([], a)));
    var devices := s.servers[k.server].devices + [Device(a, k.job.vol)];
    assert devices[|devices| - 1].storage == k.job.vol;
    assert s2.workers == s.workers[w := k.(at := FinalWait)];
    assert s2.servers == s.servers[k.server := Server(Maintenance, devices)];
    t := Step(s2, Recover(k.server));
    Run3(s, Go(w, Plain), Go(w, Answer([], a)), Recover(k.server));
  }

  lemma WaitRelease(s: State, w: WorkerId) returns (t: State)
    requires w < |s.workers| && s.workers[w].at.FinalWait? && s.workers[w].job.Publish? && Up(s, s.workers[w].server)
    ensures var ls := [Go(w, Plain), Go(w, Plain)]; t == Run(s, ls)
    ensures t.servers == s.servers && t.held == s.held - {s.workers[w].mutex} && t.maxVolumes == s.maxVolumes
    ensures t.workers == s.workers[w := s.workers[w].(at := Finished(Done))]
  {
    var k := s.workers[w];
    var s1 := Step(s, Go(w, Plain));
    assert s1 == s.(workers := s.workers[w := k.(at := Releasing(Done))]);
    t := Step(s1, Go(w, Plain));
    assert t.workers == s.workers[w := k.(at := Finished(Done))];
    Run2(s, Go(w, Plain), Go(w, Plain));
  }

  lemma {:induction false} FreeAddress(devices: seq<Device>) returns (a: Address)
    ensures forall i :: 0 <= i < |devices| ==> devices[i].address < a
  {
    if devices == [] {
      a := 0;
    } else {
      a := FreeAddress(devices[1..]);
      if devices[0].address >= a { a := devices[0].address + 1; }
      forall i | 0 <= i < |devices| ensures devices[i].address < a {
        if i > 0 { assert devices[i] == devices[1..][i - 1]; }
      }
    }
  }

  /** Undisturbed, a cleared publish attaches its volume, answers OK, and frees the lock it took. */
  lemma ClearedPublishAttaches(s: State, w: WorkerId) returns (ls: seq<Label>, a: Address)
    requires Cleared(s, w)
    ensures var k := s.workers[w]; var t := Run(s, ls);
      && t.servers == s.servers[k.server := Server(Started, s.servers[k.server].devices + [Device(a, k.job.vol)])]
      && |t.workers| == |s.workers| && t.workers[w].at == Finished(Done)
      && (forall v :: 0 <= v < |s.workers| && v != w ==> t.workers[v] == s.workers[v])
      && t.held == s.held && t.maxVolumes == s.maxVolumes
  {
    a := FreeAddress(s.servers[s.workers[w].server].devices);
    var k := s.workers[w];
    var t1, m := CheckMutexLock(s, w);
    var t2 := WaitCallRecover(t1, w, a);
    var t3 := WaitRelease(t2, w);
    assert t3.held == s.held;
    var ls1 := [Go(w, Plain), Go(w, Plain), Go(w, Plain)];
    var ls2 := [Go(w, Plain), Go(w, Answer([], a)), Recover(k.server)];
    var ls3 := [Go(w, Plain), Go(w, Plain)];
    RunConcat(s, ls1, ls2);
    RunConcat(s, ls1 + ls2, ls3);
    ls := ls1 + ls2 + ls3;
  }

  /** A new publish up to its volume read: it has counted the devices and seen the volume nowhere. */
  lemma NewPublishReads(s: State, vol: VolumeId, srv: ServerId) returns (ls: seq<Label>)
    requires srv in s.servers && Nowhere(s, vol)
    ensures ls == [Spawn(Publish(vol, srv)), Go(|s.workers|, Plain), Go(|s.workers|, Plain)]
    ensures var k := Worker(Publish(vol, srv), PubCheck(|s.servers[srv].devices|, []), srv, 0, [], []);
      Run(s, ls) == s.(workers := s.workers + [k])
  {
    var w := |s.workers|;
    ls := [Spawn(Publish(vol, srv)), Go(w, Plain), Go(w, Plain)];
    var n := |s.servers[srv].devices|;
    var s1 := Step(s, Spawn(Publish(vol, srv)));
    var s2 := Step(s1, Go(w, Plain));
    assert s2.workers == s.workers + [Worker(Publish(vol, srv), PubReadVolume(n), srv, 0, [], [])];
    assert forall x :: x in s.servers ==> !On(s, x, vol);
    assert IsListing([], s2.servers, vol);
    var s3 := Step(s2, Go(w, Plain));
    assert s3.workers == s.workers + [Worker(Publish(vol, srv), PubCheck(n, []), srv, 0, [], [])];
    Run3(s, Spawn(Publish(vol, srv)), Go(w, Plain), Go(w, Plain));
  }

  lemma TwoPublishesRead(s0: State, vol: VolumeId, a: ServerId, b: ServerId) returns (ls: seq<Label>)
    requires a in s0.servers && b in s0.servers && s0.workers == [] && Nowhere(s0, vol)
    ensures var s := Run(s0, ls);
      && s == s0.(workers := s.workers) && |s.workers| == 2
      && s.workers[0] == Worker(Publish(vol, a), PubCheck(|s0.servers[a].devices|, []), a, 0, [], [])
      && s.workers[1] == Worker(Publish(vol, b), PubCheck(|s0.servers[b].devices|, []), b, 0, [], [])
  {
    var one := NewPublishReads(s0, vol, a);
    var s1 := Run(s0, one);
    forall srv ensures !On(s1, srv, vol) { assert !On(s0, srv, vol); }
    var two := NewPublishReads(s1, vol, b);
    RunConcat(s0, one, two);
    ls := one + two;
  }

  /** Both then attach, in either case under their own server's lock. */
  lemma BothAttach(s: State) returns (ls: seq<Label>)
    requires |s.workers| == 2 && Cleared(s, 0) && Cleared(s, 1) && s.held == map[]
    requires s.workers[0].server != s.workers[1].server
    ensures forall w :: 0 <= w < 2 ==> On(Run(s, ls), s.workers[w].server, s.workers[w].job.vol)
  {
    var c, x := ClearedPublishAttaches(s, 0);
    var t := Run(s, c);
    assert t.workers[1] == s.workers[1];
    var d, y := ClearedPublishAttaches(t, 1);
    RunConcat(s, c, d);
    ls := c + d;
    var u := Run(s, ls);
    var one, two := s.servers[s.workers[0].server].devices, t.servers[s.workers[1].server].devices;
    assert u.servers[s.workers[0].server].devices[|one|].storage == s.workers[0].job.vol;
    assert u.servers[s.workers[1].server].devices[|two|].storage == s.workers[1].job.vol;
  }

  /**
   Single attachment needs its condition, wherever it could fail: from every start, a volume that is
   attached nowhere, and any two started servers with room, have a run in which two overlapping publishes both read
   that the volume is attached nowhere, and both attach it.
   */
  lemma OverlappingPublishesAttachTwice(s0: State, vol: VolumeId, a: ServerId, b: ServerId) returns (ls: seq<Label>)
    requires Init(s0) && Nowhere(s0, vol) && a != b && Up(s0, a) && Up(s0, b)
    requires DeviceCount(s0, a) <= s0.maxVolumes && DeviceCount(s0, b) <= s0.maxVolumes
    ensures On(Run(s0, ls), a, vol) && On(Run(s0, ls), b, vol) && !AttachedOnce(Run(s0, ls), vol)
  {
    var first := TwoPublishesRead(s0, vol, a, b);
    var s := Run(s0, first);
    var second := BothAttach(s);
    RunConcat(s0, first, second);
    ls := first + second;
    assert On(Run(s, second), s.workers[0].server, vol) && On(Run(s, second), s.workers[1].server, vol);
  }

  // ----- the device limit is tight for every k -----

  ghost function Crowd(maxVolumes: nat, devices: seq<Device>): State {
    State(maxVolumes, map[0 := Server(Started, devices)], map[], 0, map[], [], [])
  }

  ghost predicate Waiting(s: State, w: WorkerId, vol: VolumeId, maxVolumes: nat) {
    w < |s.workers| && s.workers[w].job == Publish(vol, 0) && s.workers[w].server == 0 && s.workers[w].at == PubCheck(maxVolumes, [])
  }

  /** k publishes of fresh volumes read a server that is exactly at the limit, one after the other. */
  lemma {:induction false} CrowdReads(s0: State, k: nat) returns (ls: seq<Label>)
    requires s0.maxVolumes >= 0 && 0 in s0.servers && |s0.servers[0].devices| == s0.maxVolumes && s0.workers == []
    requires forall vol: VolumeId :: vol < k ==> Nowhere(s0, vol)
    ensures var s := Run(s0, ls);
      && s == s0.(workers := s.workers) && |s.workers| == k
      && forall w :: 0 <= w < k ==> Waiting(s, w, w, s0.maxVolumes)
  {
    if k == 0 {
      ls := [];
    } else {
      var front := CrowdReads(s0, k - 1);
      var s := Run(s0, front);
      var vol := k - 1;
      assert Nowhere(s0, vol);
      forall srv ensures !On(s, srv, vol) { assert !On(s0, srv, vol); }
      var more := NewPublishReads(s, vol, 0);
      RunConcat(s0, front, more);
      ls := front + more;
      var t := Run(s0, ls);
      forall w | 0 <= w < k ensures Waiting(t, w, w, s0.maxVolumes) {
        if w < k - 1 { assert Waiting(s, w, w, s0.maxVolumes); }
      }
    }
  }

  /** Then the ones from j on attach, each under the lock. */
  lemma {:induction false} CrowdAttaches(s: State, j: nat, k: nat, m: nat) returns (ls: seq<Label>)
    requires j <= k == |s.workers| && s.maxVolumes == m && Up(s, 0) && s.held == map[]
    requires forall w :: j <= w < k ==> Waiting(s, w, w, m)
    ensures |Run(s, ls).workers| == k
    ensures 0 in Run(s, ls).servers && |Run(s, ls).servers[0].devices| == |s.servers[0].devices| + (k - j)
    decreases k - j
  {
    if j == k {
      ls := [];
    } else {
      assert Waiting(s, j, j, m);
      var a, x := ClearedPublishAttaches(s, j);
      var t := Run(s, a);
      forall w | j + 1 <= w < k ensures Waiting(t, w, w, m) { assert Waiting(s, w, w, m); }
      var b := CrowdAttaches(t, j + 1, k, m);
      RunConcat(s, a, b);
      ls := a + b;
    }
  }

  lemma {:induction false} WorkersOnlyGrow(s: State, ls: seq<Label>, n: nat)
    requires n <= |ls|
    ensures |Run(s, ls[..n]).workers| <= |Run(s, ls).workers|
  {
    if n == |ls| {
      assert ls[..n] == ls;
    } else {
      var front := ls[..|ls| - 1];
      WorkersOnlyGrow(s, front, n);
      assert front[..n] == ls[..n];
      var l := ls[|ls| - 1];
      assert |Step(Run(s, front), l).workers| >= |Run(s, front).workers|;
    }
  }

  lemma {:induction false} FewWorkers(ws: set<WorkerId>, n: nat)
    requires forall w :: w in ws ==> w < n
    ensures |ws| <= n
  {
    if n == 0 {
      assert forall w :: w !in ws;
      assert ws == {};
    } else {
      FewWorkers(ws - {n - 1}, n - 1);
    }
  }

  /** For every limit and every k there is a run with at most k publishes in flight that ends k above the limit. */
  lemma DeviceLimitIsTight(maxVolumes: nat, k: nat) returns (s0: State, ls: seq<Label>)
    ensures Init(s0) && s0.maxVolumes == maxVolumes && DeviceCount(s0, 0) == maxVolumes
    ensures AtMostInFlight(s0, ls, 0, k)
    ensures DeviceCount(Run(s0, ls), 0) == maxVolumes + k
  {
    var devices := seq(maxVolumes, i requires 0 <= i < maxVolumes => Device(i, k + i));
    s0 := Crowd(maxVolumes, devices);
    assert forall vol: VolumeId :: vol < k ==> Nowhere(s0, vol);
    var a := CrowdReads(s0, k);
    var b := CrowdAttaches(Run(s0, a), 0, k, maxVolumes);
    RunConcat(s0, a, b);
    ls := a + b;
    forall n | 0 <= n <= |ls| ensures |PublishesTo(Run(s0, ls[..n]), 0)| <= k {
      WorkersOnlyGrow(s0, ls, n);
      FewWorkers(PublishesTo(Run(s0, ls[..n]), 0), |Run(s0, ls[..n]).workers|);
    }
  }
}
