/**
 What the answers of the RPCs mean in terms of the backend, over every run, and what an RPC achieves
 when nothing disturbs it.
 */
module AttachReplies {
  import opened Common
  import opened Devices
  import opened AttachProtocol
  import opened AttachHistory
  import opened AttachLimits
  import opened AttachRaces

  // ----- unpublish from all nodes reaches every node -----

  /** Step n of the run is the worker's read of the servers that hold its volume. */
  ghost predicate ReadsServersAt(s0: State, ls: seq<Label>, w: WorkerId, n: nat) {
    && n < |ls| && ls[n].Go? && ls[n].w == w && ls[n].reply.Answer? && Enabled(Run(s0, ls[..n]), ls[n])
    && Run(s0, ls[..n]).workers[w].at.AllReadVolume?
  }

  /** An unpublish from all nodes that has read the servers and has not failed. */
  ghost predicate PastRead(k: Worker) {
    k.job.UnpublishAll? && !k.at.AllReadVolume? && !(k.at.Finished? && (k.at.verdict.Failed? || k.at.verdict.Missing?))
  }

  ghost predicate Covers(s: State, vol: VolumeId, listed: seq<ServerId>) {
    forall srv :: On(s, srv, vol) ==> srv in listed
  }

  lemma ListedChange(s: State, w: WorkerId, k: Worker, r: Reply)
    requires Shaped(k) && GoEnabled(s, k, r) && PastRead(ChangeOf(s, w, k, r).next)
    ensures var next := ChangeOf(s, w, k, r).next;
      && next.job == k.job
      && ((PastRead(k) && next.listed == k.listed)
          || (k.at.AllReadVolume? && r.Answer? && Covers(s, k.job.vol, next.listed)))
  {
  }

  lemma ListedStep(s: State, l: Label, w: WorkerId)
    requires Inv(s) && w < |Step(s, l).workers| && PastRead(Step(s, l).workers[w])
    ensures w < |s.workers| && Step(s, l).workers[w].job == s.workers[w].job
    ensures var k, next := s.workers[w], Step(s, l).workers[w];
      || (PastRead(k) && next.listed == k.listed)
      || (l.Go? && l.w == w && l.reply.Answer? && Enabled(s, l) && k.at.AllReadVolume? && Covers(s, k.job.vol, next.listed))
  {
    assert w < |s.workers|;
    if Enabled(s, l) && l.Go? && l.w == w {
      assert WorkerOk(s, w);
      ListedChange(s, w, s.workers[w], l.reply);
    } else {
      assert Step(s, l).workers[w] == s.workers[w];
    }
  }

  lemma {:induction false} PastReadHasRead(s0: State, ls: seq<Label>, w: WorkerId)
    requires Init(s0) && w < |Run(s0, ls).workers| && PastRead(Run(s0, ls).workers[w])
    ensures var k := Run(s0, ls).workers[w];
      exists n: nat :: ReadsServersAt(s0, ls, w, n) && Covers(Run(s0, ls[..n]), k.job.vol, k.listed)
  {
    assert ls != [];
    var last := |ls| - 1;
    var front := ls[..last];
    var s, k := Run(s0, front), Run(s0, ls).workers[w];
    RunKeeps(s0, front);
    ListedStep(s, ls[last], w);
    if PastRead(s.workers[w]) && k.listed == s.workers[w].listed {
      PastReadHasRead(s0, front, w);
      var n: nat :| ReadsServersAt(s0, front, w, n) && Covers(Run(s0, front[..n]), k.job.vol, k.listed);
      assert front[..n] == ls[..n];
      assert ReadsServersAt(s0, ls, w, n);
    } else {
      assert ReadsServersAt(s0, ls, w, last);
    }
  }

  /**
   Whenever an unpublish from all nodes has answered OK for a known volume, there is an earlier point
   of the run at which it read the servers, and every server that held the volume at that point was without
   it at one of the worker's own events.
   */
  lemma {:induction false} UnpublishAllReachesAll(s0: State, ls: seq<Label>, w: WorkerId)
    requires Init(s0) && w < |Run(s0, ls).workers|
    requires var k := Run(s0, ls).workers[w];
      k.job.UnpublishAll? && k.at.Finished? && k.at.verdict != Failed && k.at.verdict != Missing
    ensures var s := Run(s0, ls); var vol := s.workers[w].job.vol;
      exists n: nat :: ReadsServersAt(s0, ls, w, n) &&
        (forall srv :: On(Run(s0, ls[..n]), srv, vol) ==> AbsentAt(Abs(s0), s.log, w, srv, vol))
  {
    var s := Run(s0, ls);
    var k := s.workers[w];
    PastReadHasRead(s0, ls, w);
    RepliesAreLinearized(s0, ls, w);
    var n: nat :| ReadsServersAt(s0, ls, w, n) && Covers(Run(s0, ls[..n]), k.job.vol, k.listed);
    assert forall srv :: On(Run(s0, ls[..n]), srv, k.job.vol) ==> AbsentAt(Abs(s0), s.log, w, srv, k.job.vol);
  }

  // ----- every verdict has its reason, and every reason its verdict -----

  /** The reads of an unpublish, for which "not found" is no error. */
  predicate Forgiving(p: Point) { p.UnpubReadVolume? || p.UnpubReadServer? || p.AllReadVolume? }

  /**
   Why a worker fails: the backend gave it something other than an answer, "not found" for a read of an
   unpublish excepted; a publish found its volume on other servers only, or its server full; a detach took one of
   several copies.
   */
  ghost predicate Excuses(s: State, k: Worker, r: Reply) {
    || (!r.Answer? && !(r.NotFound? && Forgiving(k.at)))
    || (k.at.PubCheck? && k.server !in k.at.attached && (k.at.attached != [] || k.at.count > s.maxVolumes))
    || (k.at.DetachCall? && k.server in s.servers && Storages(s.servers[k.server].devices)[k.job.vol] > 1)
  }

  /** The worker has gone wrong, or found its volume or node missing. */
  predicate Ending(p: Point, missing: bool) {
    if missing then p == Finished(Missing) else p == Releasing(Failed) || p == Finished(Failed)
  }

  ghost predicate Reason(s: State, k: Worker, r: Reply, missing: bool) {
    if missing then r.NotFound? && Forgiving(k.at) else Excuses(s, k, r)
  }

  lemma DetachReason(s: State, w: WorkerId, k: Worker, r: Reply)
    requires BackendOk(s) && Knows(s, k) && k.at.DetachCall? && GoEnabled(s, k, r)
    ensures Ending(ChangeOf(s, w, k, r).next.at, false) <==> Excuses(s, k, r)
  {
    var devices := s.servers[k.server].devices;
    DetachRemovesExactlyOne(devices, k.job.vol);
    StoragesHolds(WithoutAddress(devices, k.at.address), k.job.vol);
  }

  lemma AppendHolds(devices: seq<Device>, d: Device)
    ensures Holds(devices + [d], d.storage)
  {
    assert (devices + [d])[|devices|] == d;
  }

  lemma AttachReason(s: State, w: WorkerId, k: Worker, r: Reply)
    requires Knows(s, k) && k.at.AttachCall? && GoEnabled(s, k, r)
    ensures Ending(ChangeOf(s, w, k, r).next.at, false) <==> Excuses(s, k, r)
  {
    if r.Answer? { AppendHolds(s.servers[k.server].devices, Device(r.address, k.job.vol)); }
  }

  lemma FailingChange(s: State, w: WorkerId, k: Worker, r: Reply)
    requires BackendOk(s) && Shaped(k) && Knows(s, k) && GoEnabled(s, k, r) && !Ending(k.at, false)
    ensures Ending(ChangeOf(s, w, k, r).next.at, false) <==> Excuses(s, k, r)
  {
    if k.at.DetachCall? { DetachReason(s, w, k, r); }
    else if k.at.AttachCall? { AttachReason(s, w, k, r); }
  }

  lemma MissingChange(s: State, w: WorkerId, k: Worker, r: Reply)
    requires Shaped(k) && GoEnabled(s, k, r)
    ensures ChangeOf(s, w, k, r).next.at == Finished(Missing) <==> r.NotFound? && Forgiving(k.at)
  {
  }

  /** One step: an ending that has come stays, and one comes exactly for its reason. */
  lemma EndingStep(s: State, l: Label, w: WorkerId, missing: bool)
    requires Inv(s) && w < |Step(s, l).workers|
    ensures Ending(Step(s, l).workers[w].at, missing) <==>
      || (w < |s.workers| && Ending(s.workers[w].at, missing))
      || (w < |s.workers| && l.Go? && l.w == w && Enabled(s, l) && Reason(s, s.workers[w], l.reply, missing))
  {
    if w < |s.workers| && l.Go? && l.w == w && Enabled(s, l) {
      var k := s.workers[w];
      assert WorkerOk(s, w);
      if missing { MissingChange(s, w, k, l.reply); }
      else if !Ending(k.at, false) { FailingChange(s, w, k, l.reply); }
    } else if w < |s.workers| {
      assert Step(s, l).workers[w] == s.workers[w];
    }
  }

  /** Step n of the run gives the worker a reason to end like that. */
  ghost predicate ReasonAt(s0: State, ls: seq<Label>, w: WorkerId, n: nat, missing: bool) {
    && n < |ls| && ls[n].Go? && ls[n].w == w && Enabled(Run(s0, ls[..n]), ls[n])
    && Reason(Run(s0, ls[..n]), Run(s0, ls[..n]).workers[w], ls[n].reply, missing)
  }

  /**
   In every run, a worker has failed if and only if it met a reason to fail at some point of the run,
   and it has answered OK because its volume or node is missing if and only if one of its own reads was answered
   "not found".
   */
  lemma {:induction false} VerdictHasReason(s0: State, ls: seq<Label>, w: WorkerId, missing: bool)
    requires Init(s0) && w < |Run(s0, ls).workers|
    ensures Ending(Run(s0, ls).workers[w].at, missing) <==> exists n: nat :: ReasonAt(s0, ls, w, n, missing)
  {
    assert ls != [];
    var last := |ls| - 1;
    var front := ls[..last];
    var s, l := Run(s0, front), ls[last];
    RunKeeps(s0, front);
    EndingStep(s, l, w, missing);
    forall n: nat | n < last ensures ReasonAt(s0, ls, w, n, missing) <==> ReasonAt(s0, front, w, n, missing) {
      assert front[..n] == ls[..n];
    }
    if w < |s.workers| {
      VerdictHasReason(s0, front, w, missing);
      if Ending(s.workers[w].at, missing) {
        var n: nat :| ReasonAt(s0, front, w, n, missing);
        assert ReasonAt(s0, ls, w, n, missing);
      } else if Ending(Run(s0, ls).workers[w].at, missing) {
        assert ReasonAt(s0, ls, w, last, missing);
      }
    } else {
      forall n: nat | n < last ensures !ReasonAt(s0, front, w, n, missing) { WorkersOnlyGrow(s0, front, n); }
    }
  }

  // ----- an undisturbed publish -----

  /** What a publish that reads the backend as it is comes to, before it asks for the lock. */
  lemma UndisturbedPublish(s: State, vol: VolumeId, srv: ServerId, listing: seq<ServerId>) returns (ls: seq<Label>, k: Worker)
    requires srv in s.servers && IsListing(listing, s.servers, vol)
    ensures Run(s, ls).workers == s.workers + [k] && Run(s, ls).servers == s.servers && Run(s, ls).held == s.held
    ensures k.at == Finished(AlreadyThere) <==> On(s, srv, vol)
    ensures k.at == WantMutex <==> Nowhere(s, vol) && DeviceCount(s, srv) <= s.maxVolumes
    ensures k.at == Finished(Failed) <==> !On(s, srv, vol) && (!Nowhere(s, vol) || DeviceCount(s, srv) > s.maxVolumes)
    ensures k.job == Publish(vol, srv) && k.server == srv
  {
    var w := |s.workers|;
    var n := |s.servers[srv].devices|;
    var start, second := Spawn(Publish(vol, srv)), Go(w, Answer(listing, 0));
    var s1 := Step(s, start);
    var s2 := Step(s1, Go(w, Plain));
    assert s2.workers == s.workers + [Worker(Publish(vol, srv), PubReadVolume(n), srv, 0, [], [])];
    var s3 := Step(s2, second);
    assert s3.workers == s.workers + [Worker(Publish(vol, srv), PubCheck(n, listing), srv, 0, [], [])];
    var s4 := Step(s3, Go(w, Plain));
    k := s4.workers[w];
    assert s4.workers == s.workers + [k];
    assert Nowhere(s, vol) <==> listing == [] by {
      if listing != [] { assert listing[0] in listing; assert On(s, listing[0], vol); }
    }
    Run3(s, start, Go(w, Plain), second);
    RunSnoc(s, [start, Go(w, Plain), second], Go(w, Plain));
    ls := [start, Go(w, Plain), second] + [Go(w, Plain)];
  }

  // ----- an undisturbed unpublish -----

  /** The server is up and free, and holds the volume once. */
  ghost predicate Ready(s: State, srv: ServerId, vol: VolumeId) {
    && Up(s, srv) && (srv in s.nodeSync ==> s.nodeSync[srv] !in s.held)
    && Storages(s.servers[srv].devices)[vol] == 1
  }

  lemma RunJoin(s: State, a: seq<Label>, b: seq<Label>, c: seq<Label>)
    ensures Run(s, a + b + c) == Run(Run(Run(s, a), b), c)
  {
    RunConcat(s, a, b);
    RunConcat(s, a + b, c);
  }

  lemma NextMutexIsFree(s: State)
    requires Inv(s)
    ensures s.nextMutex !in s.held
  {
    forall m | m in s.held ensures m < s.nextMutex { assert WorkerOk(s, s.held[m]); }
  }

  lemma LockForDetach(s: State, w: WorkerId) returns (t: State, m: MutexId)
    requires s.nextMutex !in s.held && w < |s.workers| && s.workers[w].at.WantMutex? && !s.workers[w].job.Publish?
    requires Ready(s, s.workers[w].server, s.workers[w].job.vol)
    ensures t == Run(s, [Go(w, Plain), Go(w, Plain)])
    ensures m !in s.held && t.held == s.held[m := w] && t.servers == s.servers && t.nodeSync == s.nodeSync[s.workers[w].server := m]
    ensures t.workers == s.workers[w := s.workers[w].(at := DetachRead, mutex := m)]
  {
    var k := s.workers[w];
    m := if k.server in s.nodeSync then s.nodeSync[k.server] else s.nextMutex;
    var s1 := Step(s, Go(w, Plain));
    assert s1.workers == s.workers[w := k.(at := WantLock, mutex := m)] && s1.held == s.held;
    t := Step(s1, Go(w, Plain));
    assert t.workers == s.workers[w := k.(at := DetachRead, mutex := m)];
    Run2(s, Go(w, Plain), Go(w, Plain));
  }

  /** The scan under the lock, while the server is up. */
  lemma ScanFinds(s: State, w: WorkerId) returns (a: Address)
    requires w < |s.workers| && s.workers[w].at.DetachRead? && Up(s, s.workers[w].server)
    requires Holds(s.servers[s.workers[w].server].devices, s.workers[w].job.vol)
    ensures FirstAddress(s.servers[s.workers[w].server].devices, s.workers[w].job.vol) == Some(a)
    ensures Step(s, Go(w, Plain)) == s.(workers := s.workers[w := s.workers[w].(at := DetachCall(a))])
  {
    a := FirstAddress(s.servers[s.workers[w].server].devices, s.workers[w].job.vol).value;
  }

  lemma CallDetaches(s: State, w: WorkerId, a: Address)
    requires w < |s.workers| && s.workers[w].at == DetachCall(a) && Up(s, s.workers[w].server)
    requires !Holds(WithoutAddress(s.servers[s.workers[w].server].devices, a), s.workers[w].job.vol)
    ensures var k := s.workers[w]; var t := Step(s, Go(w, Plain));
      && t.servers == s.servers[k.server := Server(Maintenance, WithoutAddress(s.servers[k.server].devices, a))]
      && t.workers == s.workers[w := k.(at := FinalWait)] && t.held == s.held && t.nodeSync == s.nodeSync
  {
  }

  lemma ReadAndDetach(s: State, w: WorkerId) returns (t: State, left: seq<Device>)
    requires w < |s.workers| && s.workers[w].at.DetachRead? && Up(s, s.workers[w].server)
    requires DistinctAddresses(s.servers[s.workers[w].server].devices)
    requires Storages(s.servers[s.workers[w].server].devices)[s.workers[w].job.vol] == 1
    ensures t == Step(Step(s, Go(w, Plain)), Go(w, Plain))
    ensures var k := s.workers[w];
      && t.servers == s.servers[k.server := Server(Maintenance, left)]
      && Storages(left) == Storages(s.servers[k.server].devices) - multiset{k.job.vol}
      && t.workers == s.workers[w := k.(at := FinalWait)] && t.held == s.held && t.nodeSync == s.nodeSync
  {
    var k := s.workers[w];
    var devices := s.servers[k.server].devices;
    StoragesHolds(devices, k.job.vol);
    DetachRemovesExactlyOne(devices, k.job.vol);
    var a := ScanFinds(s, w);
    left := WithoutAddress(devices, a);
    StoragesHolds(left, k.job.vol);
    var s1 := Step(s, Go(w, Plain));
    CallDetaches(s1, w, a);
    t := Step(s1, Go(w, Plain));
  }

  lemma ReadDetachRecover(s: State, w: WorkerId) returns (t: State, left: seq<Device>)
    requires w < |s.workers| && s.workers[w].at.DetachRead? && Up(s, s.workers[w].server)
    requires DistinctAddresses(s.servers[s.workers[w].server].devices)
    requires Storages(s.servers[s.workers[w].server].devices)[s.workers[w].job.vol] == 1
    ensures t == Run(s, [Go(w, Plain), Go(w, Plain), Recover(s.workers[w].server)])
    ensures var k := s.workers[w];
      && t.servers == s.servers[k.server := Server(Started, left)]
      && Storages(left) == Storages(s.servers[k.server].devices) - multiset{k.job.vol}
      && t.workers == s.workers[w := k.(at := FinalWait)] && t.held == s.held && t.nodeSync == s.nodeSync
  {
    var srv := s.workers[w].server;
    var u, l := ReadAndDetach(s, w);
    left := l;
    t := Step(u, Recover(srv));
    Run3(s, Go(w, Plain), Go(w, Plain), Recover(srv));
  }

  lemma FinishSection(s: State, w: WorkerId) returns (t: State)
    requires w < |s.workers| && s.workers[w].at.FinalWait? && Up(s, s.workers[w].server)
    ensures t == Run(s, [Go(w, Plain), Go(w, Plain)])
    ensures t.servers == s.servers && t.held == s.held - {s.workers[w].mutex} && t.nodeSync == s.nodeSync
    ensures t.workers == s.workers[w := Onward(s.workers[w])]
  {
    var k := s.workers[w];
    var s1 := Step(s, Go(w, Plain));
    assert s1 == s.(workers := s.workers[w := k.(at := Releasing(Done))]);
    t := Step(s1, Go(w, Plain));
    assert t.workers == s.workers[w := AfterRelease(k.(at := Releasing(Done)), Done)];
    Run2(s, Go(w, Plain), Go(w, Plain));
  }

  /** A worker of an unpublish after a critical section that worked: on to the next server, or done. */
  ghost function Onward(k: Worker): Worker {
    if k.job.UnpublishAll? && k.rest != [] then k.(at := WantMutex, server := k.rest[0], rest := k.rest[1..])
    else k.(at := Finished(Done))
  }

  /** What an undisturbed critical section does: the volume leaves the server, the lock is free again, the worker goes on. */
  ghost predicate Detaches(s: State, t: State, w: WorkerId, left: seq<Device>, m: MutexId)
    requires w < |s.workers| && s.workers[w].server in s.servers
  {
    var k := s.workers[w];
    && t.servers == s.servers[k.server := Server(Started, left)]
    && Storages(left) == Storages(s.servers[k.server].devices) - multiset{k.job.vol}
    && t.held == s.held && m !in s.held && t.nodeSync == s.nodeSync[k.server := m]
    && t.workers == s.workers[w := Onward(k.(mutex := m))]
  }

  lemma SectionStates(s: State, w: WorkerId) returns (t: State, left: seq<Device>, m: MutexId)
    requires s.nextMutex !in s.held && w < |s.workers| && s.workers[w].at.WantMutex? && !s.workers[w].job.Publish?
    requires Ready(s, s.workers[w].server, s.workers[w].job.vol) && DistinctAddresses(s.servers[s.workers[w].server].devices)
    ensures var a, b := [Go(w, Plain), Go(w, Plain)], [Go(w, Plain), Go(w, Plain), Recover(s.workers[w].server)];
      t == Run(Run(Run(s, a), b), a)
    ensures Detaches(s, t, w, left, m)
  {
    var k := s.workers[w];
    var t1, mutex := LockForDetach(s, w);
    var t2, l := ReadDetachRecover(t1, w);
    left, m := l, mutex;
    assert t2.workers == s.workers[w := k.(at := FinalWait, mutex := m)];
    t := FinishSection(t2, w);
    assert t.workers == s.workers[w := Onward(k.(mutex := m))];
    assert t.held == s.held;
  }

  lemma DetachSection(s: State, w: WorkerId) returns (ls: seq<Label>, left: seq<Device>, m: MutexId)
    requires Inv(s) && w < |s.workers| && s.workers[w].at.WantMutex? && !s.workers[w].job.Publish?
    requires Ready(s, s.workers[w].server, s.workers[w].job.vol)
    ensures Inv(Run(s, ls)) && Detaches(s, Run(s, ls), w, left, m)
  {
    var a, b := [Go(w, Plain), Go(w, Plain)], [Go(w, Plain), Go(w, Plain), Recover(s.workers[w].server)];
    NextMutexIsFree(s);
    var t, l, mutex := SectionStates(s, w);
    ls, left, m := a + b + a, l, mutex;
    RunJoin(s, a, b, a);
    RunKeeps(s, ls);
  }

  /** A new unpublish up to the lock. */
  lemma NewUnpublishReads(s: State, vol: VolumeId, srv: ServerId) returns (ls: seq<Label>)
    requires srv in s.servers
    ensures Run(s, ls) == s.(workers := s.workers + [Worker(Unpublish(vol, srv), WantMutex, srv, 0, [], [])])
  {
    var w := |s.workers|;
    ls := [Spawn(Unpublish(vol, srv)), Go(w, Plain), Go(w, Plain)];
    var s1 := Step(s, Spawn(Unpublish(vol, srv)));
    var s2 := Step(s1, Go(w, Plain));
    assert s2 == s.(workers := s.workers + [Worker(Unpublish(vol, srv), UnpubReadServer, 0, 0, [], [])]);
    var s3 := Step(s2, Go(w, Plain));
    assert s3 == s.(workers := s.workers + [Worker(Unpublish(vol, srv), WantMutex, srv, 0, [], [])]);
    Run3(s, Spawn(Unpublish(vol, srv)), Go(w, Plain), Go(w, Plain));
  }

  /** A new unpublish from a node that is up, free and holds the volume once: the volume goes, the worker is done, the lock is free. */
  lemma UndisturbedUnpublish(s: State, vol: VolumeId, srv: ServerId) returns (ls: seq<Label>)
    requires Inv(s) && Ready(s, srv, vol)
    ensures var t := Run(s, ls);
      && !On(t, srv, vol) && srv in t.servers && t.held == s.held
      && Storages(t.servers[srv].devices) == Storages(s.servers[srv].devices) - multiset{vol}
      && (forall x :: x != srv ==> (x in t.servers <==> x in s.servers) && (x in s.servers ==> t.servers[x] == s.servers[x]))
      && |t.workers| == |s.workers| + 1 && t.workers[..|s.workers|] == s.workers
      && t.workers[|s.workers|].at == Finished(Done) && t.workers[|s.workers|].job == Unpublish(vol, srv)
  {
    var a := NewUnpublishReads(s, vol, srv);
    RunKeeps(s, a);
    var b, left, m := DetachSection(Run(s, a), |s.workers|);
    RunConcat(s, a, b);
    ls := a + b;
    StoragesHolds(left, vol);
  }

  /** Every listed server is up, free and holds the volume once, and none is listed twice. */
  ghost predicate AllReady(s: State, todo: seq<ServerId>, vol: VolumeId) {
    && (forall i, j :: 0 <= i < j < |todo| ==> todo[i] != todo[j])
    && (forall i :: 0 <= i < |todo| ==> Ready(s, todo[i], vol))
  }

  lemma OthersStayReady(s: State, t: State, w: WorkerId, left: seq<Device>, m: MutexId, todo: seq<ServerId>)
    requires w < |s.workers| && todo != [] && s.workers[w].server == todo[0] && AllReady(s, todo, s.workers[w].job.vol)
    requires todo[0] in s.servers && Detaches(s, t, w, left, m)
    ensures AllReady(t, todo[1..], s.workers[w].job.vol)
    ensures forall x :: On(t, x, s.workers[w].job.vol) <==> On(s, x, s.workers[w].job.vol) && x != todo[0]
  {
    StoragesHolds(left, s.workers[w].job.vol);
    forall i | 0 <= i < |todo[1..]| ensures Ready(t, todo[1..][i], s.workers[w].job.vol) {
      assert Ready(s, todo[i + 1], s.workers[w].job.vol) && todo[0] != todo[i + 1];
    }
    StoragesHolds(s.servers[todo[0]].devices, s.workers[w].job.vol);
  }

  /** The loop over the servers that are left. */
  lemma {:induction false} UnpublishRest(s: State, w: WorkerId, todo: seq<ServerId>) returns (ls: seq<Label>)
    requires Inv(s) && w < |s.workers| && s.workers[w].at.WantMutex? && s.workers[w].job.UnpublishAll?
    requires todo == [s.workers[w].server] + s.workers[w].rest && AllReady(s, todo, s.workers[w].job.vol)
    ensures var t := Run(s, ls);
      && |t.workers| == |s.workers| && t.workers[w].at == Finished(Done) && t.held == s.held
      && (forall x :: On(t, x, s.workers[w].job.vol) ==> On(s, x, s.workers[w].job.vol) && x !in todo)
    decreases |todo|
  {
    assert Ready(s, todo[0], s.workers[w].job.vol);
    var a, left, m := DetachSection(s, w);
    var t := Run(s, a);
    OthersStayReady(s, t, w, left, m, todo);
    assert todo[1..] == s.workers[w].rest;
    if todo[1..] == [] {
      ls := a;
    } else {
      assert t.workers[w].job == s.workers[w].job;
      assert todo[1..] == [t.workers[w].server] + t.workers[w].rest;
      var b := UnpublishRest(t, w, todo[1..]);
      RunConcat(s, a, b);
      ls := a + b;
    }
  }

  /** A new unpublish from all nodes, with every server of the volume up, free and holding it once, ends with the volume nowhere. */
  lemma UndisturbedUnpublishAll(s: State, vol: VolumeId, listing: seq<ServerId>) returns (ls: seq<Label>)
    requires Inv(s) && IsListing(listing, s.servers, vol) && forall x :: x in listing ==> Ready(s, x, vol)
    ensures var t := Run(s, ls);
      Nowhere(t, vol) && t.held == s.held && |t.workers| == |s.workers| + 1 && t.workers[|s.workers|].at == Finished(Done)
  {
    var w := |s.workers|;
    var start, read := Spawn(UnpublishAll(vol)), Go(w, Answer(listing, 0));
    var s1 := Step(s, start);
    var s2 := Step(s1, read);
    Run2(s, start, read);
    assert forall x :: On(s2, x, vol) <==> x in listing;
    if listing == [] {
      ls := [start, read];
    } else {
      assert s2 == s.(workers := s.workers + [Worker(UnpublishAll(vol), WantMutex, listing[0], 0, listing, listing[1..])]);
      RunKeeps(s, [start, read]);
      forall i | 0 <= i < |listing| ensures Ready(s2, listing[i], vol) { assert Ready(s, listing[i], vol); }
      var b := UnpublishRest(s2, w, listing);
      RunConcat(s, [start, read], b);
      ls := [start, read] + b;
    }
  }
}
