/**
 The concurrent protocol against its sequential meaning: a map from each server to the storages
 attached to it, changed one atomic operation at a time. The log gives the order.
 */
module AttachHistory {
  import opened Common
  import opened Devices
  import opened AttachProtocol

  type Attachments = map<ServerId, multiset<VolumeId>>

  ghost function AbsOf(servers: map<ServerId, Server>): Attachments {
    map srv | srv in servers :: Storages(servers[srv].devices)
  }

  ghost function Abs(s: State): Attachments { AbsOf(s.servers) }

  /** One event on the atomic map; observations and lock events leave it alone. */
  ghost function ApplyEvent(m: Attachments, e: Event): Attachments {
    match e
    case Attached(_, srv, vol) => if srv in m then m[srv := m[srv] + multiset{vol}] else m
    case Detached(_, srv, vol) => if srv in m then m[srv := m[srv] - multiset{vol}] else m
    case _ => m
  }

  ghost function Replay(m: Attachments, log: seq<Event>): Attachments {
    if log == [] then m else ApplyEvent(Replay(m, log[..|log| - 1]), log[|log| - 1])
  }

  lemma ReplayAppend(m: Attachments, log: seq<Event>, e: Event)
    ensures Replay(m, log + [e]) == ApplyEvent(Replay(m, log), e)
  {
    assert (log + [e])[..|log|] == log;
  }

  // ----- every step is one atomic operation, or none -----

  lemma AbsOfUpdate(servers: map<ServerId, Server>, srv: ServerId, v: Server)
    requires srv in servers
    ensures AbsOf(servers[srv := v]) == AbsOf(servers)[srv := Storages(v.devices)]
  {
  }

  lemma AttachSimulates(s: State, w: WorkerId, k: Worker, r: Reply)
    requires k.server in s.servers
    ensures var c := OnAttachCall(s, w, k, r);
      c.devices.Some? ==> Storages(c.devices.value) == Storages(s.servers[k.server].devices) + multiset{k.job.vol}
  {
    if r.Answer? || r.Lost? { StoragesAppend(s.servers[k.server].devices, Device(r.address, k.job.vol)); }
  }

  lemma DetachSimulates(s: State, w: WorkerId, k: Worker, r: Reply)
    requires BackendOk(s) && k.at.DetachCall? && k.server in s.servers
    requires FirstAddress(s.servers[k.server].devices, k.job.vol) == Some(k.at.address)
    ensures var c := OnDetachCall(s, w, k, k.at.address, r);
      c.devices.Some? ==> Storages(c.devices.value) == Storages(s.servers[k.server].devices) - multiset{k.job.vol}
  {
    DetachRemovesExactlyOne(s.servers[k.server].devices, k.job.vol);
  }

  /** A worker's step changes the attachments exactly as the event it logs says. */
  lemma {:induction false} GoSimulates(s: State, w: WorkerId, r: Reply)
    requires Inv(s) && w < |s.workers| && GoEnabled(s, s.workers[w], r)
    ensures var c := ChangeOf(s, w, s.workers[w], r);
      Abs(Apply(s, w, c)) == (if c.event.Some? then ApplyEvent(Abs(s), c.event.value) else Abs(s))
  {
    var k := s.workers[w];
    var c := ChangeOf(s, w, k, r);
    assert WorkerOk(s, w);
    StepsAreLawful(s, w, r);
    if c.devices.Some? {
      AbsOfUpdate(s.servers, k.server, Server(Maintenance, c.devices.value));
      if k.at.AttachCall? { AttachSimulates(s, w, k, r); } else { DetachSimulates(s, w, k, r); }
    }
  }

  lemma GoReplays(s: State, w: WorkerId, r: Reply, m0: Attachments)
    requires Inv(s) && w < |s.workers| && GoEnabled(s, s.workers[w], r) && Abs(s) == Replay(m0, s.log)
    ensures var t := Apply(s, w, ChangeOf(s, w, s.workers[w], r)); Abs(t) == Replay(m0, t.log)
  {
    GoSimulates(s, w, r);
    var c := ChangeOf(s, w, s.workers[w], r);
    if c.event.Some? { ReplayAppend(m0, s.log, c.event.value); }
  }

  lemma StepReplays(s: State, l: Label, m0: Attachments)
    requires Inv(s) && Abs(s) == Replay(m0, s.log)
    ensures Abs(Step(s, l)) == Replay(m0, Step(s, l).log)
  {
    if Enabled(s, l) && l.Go? { GoReplays(s, l.w, l.reply, m0); }
    if Enabled(s, l) && l.Recover? { RecoverIsSilent(s, l.server); }
  }

  lemma RecoverIsSilent(s: State, srv: ServerId)
    requires srv in s.servers
    ensures Abs(Step(s, Recover(srv))) == Abs(s) && Step(s, Recover(srv)).log == s.log
  {
    AbsOfUpdate(s.servers, srv, s.servers[srv].(power := Started));
  }

  /** In every run the attachments are the replay of the log from where the run began. */
  lemma {:induction false} RunRefinesAtomicMap(s0: State, ls: seq<Label>)
    requires Init(s0)
    ensures Abs(Run(s0, ls)) == Replay(Abs(s0), Run(s0, ls).log)
  {
    if ls != [] {
      var s := Run(s0, ls[..|ls| - 1]);
      var l := ls[|ls| - 1];
      RunRefinesAtomicMap(s0, ls[..|ls| - 1]);
      RunKeeps(s0, ls[..|ls| - 1]);
      StepReplays(s, l, Abs(s0));
    }
  }

  // ----- effects come in lock order, one per critical section -----

  datatype Section = Free | Open(w: WorkerId, acted: bool) | Broken

  ghost function Advance(p: Section, e: Event, srv: ServerId): Section {
    if e.server != srv || e.SawAttached? then p
    else match e
      case Acquired(w, _) => if p.Free? then Open(w, false) else Broken
      case Released(w, _) => if p.Open? && p.w == w then Free else Broken
      case _ => if p == Open(e.w, false) then Open(e.w, true) else Broken
  }

  /** The state of a server's critical section after a log, or Broken if the log interleaves two. */
  ghost function Track(log: seq<Event>, srv: ServerId): Section {
    if log == [] then Free else Advance(Track(log[..|log| - 1], srv), log[|log| - 1], srv)
  }

  lemma TrackAppend(log: seq<Event>, e: Event, srv: ServerId)
    ensures Track(log + [e], srv) == Advance(Track(log, srv), e, srv)
  {
    assert (log + [e])[..|log|] == log;
  }

  ghost predicate SectionOk(s: State, srv: ServerId) {
    match Track(s.log, srv)
    case Broken => false
    case Open(w, acted) =>
      w < |s.workers| && Critical(s.workers[w].at) && s.workers[w].server == srv && (acted ==> Tail(s.workers[w].at))
    case Free => forall w :: 0 <= w < |s.workers| && Critical(s.workers[w].at) ==> s.workers[w].server != srv
  }

  ghost predicate Sectioned(s: State) { forall srv :: SectionOk(s, srv) }

  lemma SectionHolder(s: State, w: WorkerId)
    requires Inv(s) && Sectioned(s) && w < |s.workers| && Critical(s.workers[w].at)
    ensures Track(s.log, s.workers[w].server).Open? && Track(s.log, s.workers[w].server).w == w
  {
    var srv := s.workers[w].server;
    assert SectionOk(s, srv);
    match Track(s.log, srv)
    case Open(v, _) => MutualExclusion(s, v, w);
    case _ =>
  }

  lemma OpenIsHeld(s: State, srv: ServerId)
    requires Inv(s) && Sectioned(s) && Track(s.log, srv).Open?
    ensures srv in s.nodeSync && s.nodeSync[srv] in s.held
  {
    assert SectionOk(s, srv);
    assert WorkerOk(s, Track(s.log, srv).w);
  }

  lemma LawfulSectioned(s: State, w: WorkerId, c: Change, srv: ServerId)
    requires Inv(s) && Sectioned(s) && w < |s.workers| && Lawful(s, w, s.workers[w], c)
    ensures SectionOk(Apply(s, w, c), srv)
  {
    var k := s.workers[w];
    assert SectionOk(s, srv);
    if c.event.Some? { TrackAppend(s.log, c.event.value, srv); }
    if Critical(k.at) { SectionHolder(s, w); }
    assert WorkerOk(s, w);
    if Track(s.log, srv).Open? { OpenIsHeld(s, srv); }
    if k.at.Releasing? && k.server == srv {
      forall v | 0 <= v < |s.workers| && Critical(s.workers[v].at) && s.workers[v].server == srv ensures v == w {
        MutualExclusion(s, v, w);
      }
    }
  }

  lemma StepSectioned(s: State, l: Label)
    requires Inv(s) && Sectioned(s)
    ensures Sectioned(Step(s, l))
  {
    var t := Step(s, l);
    forall srv ensures SectionOk(t, srv) {
      assert SectionOk(s, srv);
      if Enabled(s, l) && l.Go? {
        StepsAreLawful(s, l.w, l.reply);
        LawfulSectioned(s, l.w, ChangeOf(s, l.w, s.workers[l.w], l.reply), srv);
      }
    }
  }

  /**
   In every run and for every server, the log is a sequence of whole critical sections (the last one
   may be open): a worker acquires, acts on the server at most once, and releases before the next
   worker acquires. So operations take effect in lock order.
   */
  lemma {:induction false} RunIsSectioned(s0: State, ls: seq<Label>)
    requires Init(s0)
    ensures Sectioned(Run(s0, ls))
  {
    if ls != [] {
      RunIsSectioned(s0, ls[..|ls| - 1]);
      RunKeeps(s0, ls[..|ls| - 1]);
      StepSectioned(Run(s0, ls[..|ls| - 1]), ls[|ls| - 1]);
    }
  }

  // ----- what a verdict means -----

  /** At some event of worker w, the atomic map had the volume on the server. */
  ghost predicate PresentAt(m0: Attachments, log: seq<Event>, w: WorkerId, srv: ServerId, vol: VolumeId) {
    exists n :: 0 <= n < |log| && Witnesses(log[n], w, srv, vol, true) && Shows(Replay(m0, log[..n + 1]), srv, vol, true)
  }

  /** At some event of worker w, the atomic map did not have the volume on the server. */
  ghost predicate AbsentAt(m0: Attachments, log: seq<Event>, w: WorkerId, srv: ServerId, vol: VolumeId) {
    exists n :: 0 <= n < |log| && Witnesses(log[n], w, srv, vol, false) && Shows(Replay(m0, log[..n + 1]), srv, vol, false)
  }

  ghost predicate Witnesses(e: Event, w: WorkerId, srv: ServerId, vol: VolumeId, present: bool) {
    if present then e == Attached(w, srv, vol) || e == SawAttached(w, srv, vol)
    else e == Detached(w, srv, vol) || e == SawAbsent(w, srv, vol)
  }

  ghost predicate Shows(m: Attachments, srv: ServerId, vol: VolumeId, present: bool) {
    srv in m && (vol in m[srv] <==> present)
  }

  ghost predicate Backed(m0: Attachments, log: seq<Event>, w: WorkerId, srv: ServerId, vol: VolumeId, present: bool) {
    if present then PresentAt(m0, log, w, srv, vol) else AbsentAt(m0, log, w, srv, vol)
  }

  lemma BackedGrows(m0: Attachments, log: seq<Event>, e: Event, w: WorkerId, srv: ServerId, vol: VolumeId, present: bool)
    requires Backed(m0, log, w, srv, vol, present)
    ensures Backed(m0, log + [e], w, srv, vol, present)
  {
    var n :| 0 <= n < |log| && Witnesses(log[n], w, srv, vol, present) && Shows(Replay(m0, log[..n + 1]), srv, vol, present);
    assert (log + [e])[n] == log[n] && (log + [e])[..n + 1] == log[..n + 1];
  }

  lemma BackedNow(m0: Attachments, log: seq<Event>, e: Event, w: WorkerId, srv: ServerId, vol: VolumeId, present: bool)
    requires Witnesses(e, w, srv, vol, present) && Shows(Replay(m0, log + [e]), srv, vol, present)
    ensures Backed(m0, log + [e], w, srv, vol, present)
  {
    var n := |log|;
    assert (log + [e])[n] == e && (log + [e])[..n + 1] == log + [e];
  }

  /** The servers a worker's record claims to have found or left with, or without, its volume. */
  ghost predicate Claims(k: Worker, srv: ServerId) {
    match k.job
    case Publish(_, node) =>
      srv == node &&
      (k.at.FinalWait? || k.at == Releasing(Done) || k.at == Finished(Done) || k.at == Finished(AlreadyThere)
       || (k.at.PubCheck? && k.server in k.at.attached))
    case Unpublish(_, node) =>
      srv == node &&
      (k.at.FinalWait? || k.at == Releasing(Done) || k.at == Releasing(AlreadyGone)
       || k.at == Finished(Done) || k.at == Finished(AlreadyGone))
    case UnpublishAll(_) =>
      srv in k.listed && srv !in k.rest &&
      (k.at.Finished? && k.at.verdict.Failed? ==> srv != k.server) &&
      (InService(k.at) && srv == k.server ==>
        k.at.FinalWait? || k.at == Releasing(Done) || k.at == Releasing(AlreadyGone))
  }

  ghost predicate Honest(m0: Attachments, log: seq<Event>, w: WorkerId, k: Worker) {
    forall srv :: Claims(k, srv) ==> Backed(m0, log, w, srv, k.job.vol, k.job.Publish?)
  }

  /** A step that adds a claim logs the event that backs it, from a point where the worker has just looked. */
  lemma ClaimArises(s: State, w: WorkerId, k: Worker, r: Reply, srv: ServerId)
    requires Shaped(k) && GoEnabled(s, k, r) && !Claims(k, srv) && Claims(ChangeOf(s, w, k, r).next, srv)
    ensures k.at.AttachCall? || k.at.DetachCall? || k.at.DetachRead? || k.at.DetachWait? || k.at.PubReadVolume?
    ensures var c := ChangeOf(s, w, k, r);
      k.server == srv && c.event.Some? && Witnesses(c.event.value, w, srv, k.job.vol, k.job.Publish?)
  {
  }

  lemma ClaimIsTrue(s: State, w: WorkerId, k: Worker, r: Reply, srv: ServerId)
    requires Shaped(k) && Knows(s, k) && GoEnabled(s, k, r) && !Claims(k, srv) && Claims(ChangeOf(s, w, k, r).next, srv)
    ensures var c := ChangeOf(s, w, k, r);
      && srv in s.servers
      && (Holds(if c.devices.Some? then c.devices.value else s.servers[srv].devices, k.job.vol) <==> k.job.Publish?)
  {
    ClaimArises(s, w, k, r, srv);
  }

  lemma NewClaimIsBacked(s: State, w: WorkerId, r: Reply, m0: Attachments, srv: ServerId)
    requires Inv(s) && w < |s.workers| && GoEnabled(s, s.workers[w], r) && Abs(s) == Replay(m0, s.log)
    requires var k := s.workers[w]; !Claims(k, srv) && Claims(ChangeOf(s, w, k, r).next, srv)
    ensures var k := s.workers[w]; var t := Apply(s, w, ChangeOf(s, w, k, r));
      Backed(m0, t.log, w, srv, k.job.vol, k.job.Publish?)
  {
    assert WorkerOk(s, w);
    ClaimArises(s, w, s.workers[w], r, srv);
    ClaimIsTrue(s, w, s.workers[w], r, srv);
    GoReplays(s, w, r, m0);
    TrueClaimIsBacked(s, w, ChangeOf(s, w, s.workers[w], r), m0, srv);
  }

  lemma TrueClaimIsBacked(s: State, w: WorkerId, c: Change, m0: Attachments, srv: ServerId)
    requires w < |s.workers|
    requires var k := s.workers[w];
      && k.server == srv && srv in s.servers
      && c.event.Some? && Witnesses(c.event.value, w, srv, k.job.vol, k.job.Publish?)
      && (Holds(if c.devices.Some? then c.devices.value else s.servers[srv].devices, k.job.vol) <==> k.job.Publish?)
    requires Abs(Apply(s, w, c)) == Replay(m0, Apply(s, w, c).log)
    ensures var k := s.workers[w]; Backed(m0, Apply(s, w, c).log, w, srv, k.job.vol, k.job.Publish?)
  {
    var k := s.workers[w];
    StoragesHolds(Apply(s, w, c).servers[srv].devices, k.job.vol);
    BackedNow(m0, s.log, c.event.value, w, srv, k.job.vol, k.job.Publish?);
  }

  lemma HonestStep(s: State, w: WorkerId, r: Reply, m0: Attachments)
    requires Inv(s) && w < |s.workers| && GoEnabled(s, s.workers[w], r) && Abs(s) == Replay(m0, s.log)
    requires Honest(m0, s.log, w, s.workers[w])
    ensures var c := ChangeOf(s, w, s.workers[w], r); Honest(m0, Apply(s, w, c).log, w, c.next)
  {
    var k := s.workers[w];
    var c := ChangeOf(s, w, k, r);
    var t := Apply(s, w, c);
    StepsAreLawful(s, w, r);
    forall srv | Claims(c.next, srv) ensures Backed(m0, t.log, w, srv, k.job.vol, k.job.Publish?) {
      if Claims(k, srv) {
        if c.event.Some? { BackedGrows(m0, s.log, c.event.value, w, srv, k.job.vol, k.job.Publish?); }
      } else {
        NewClaimIsBacked(s, w, r, m0, srv);
      }
    }
  }

  lemma HonestGrows(m0: Attachments, log: seq<Event>, e: Event, w: WorkerId, k: Worker)
    requires Honest(m0, log, w, k)
    ensures Honest(m0, log + [e], w, k)
  {
    forall srv | Claims(k, srv) ensures Backed(m0, log + [e], w, srv, k.job.vol, k.job.Publish?) {
      BackedGrows(m0, log, e, w, srv, k.job.vol, k.job.Publish?);
    }
  }

  ghost predicate AllHonest(m0: Attachments, s: State) {
    forall w :: 0 <= w < |s.workers| ==> Honest(m0, s.log, w, s.workers[w])
  }

  lemma StepStaysHonest(s: State, l: Label, m0: Attachments)
    requires Inv(s) && Abs(s) == Replay(m0, s.log) && AllHonest(m0, s)
    ensures AllHonest(m0, Step(s, l))
  {
    var t := Step(s, l);
    if Enabled(s, l) && l.Go? {
      var c := ChangeOf(s, l.w, s.workers[l.w], l.reply);
      forall v | 0 <= v < |t.workers| ensures Honest(m0, t.log, v, t.workers[v]) {
        if v == l.w { HonestStep(s, v, l.reply, m0); }
        else if c.event.Some? { HonestGrows(m0, s.log, c.event.value, v, s.workers[v]); }
      }
    }
  }

  lemma {:induction false} RunStaysHonest(s0: State, ls: seq<Label>)
    requires Init(s0)
    ensures AllHonest(Abs(s0), Run(s0, ls))
  {
    if ls != [] {
      RunStaysHonest(s0, ls[..|ls| - 1]);
      RunRefinesAtomicMap(s0, ls[..|ls| - 1]);
      RunKeeps(s0, ls[..|ls| - 1]);
      StepStaysHonest(Run(s0, ls[..|ls| - 1]), ls[|ls| - 1], Abs(s0));
    }
  }

  /**
   Linearization of the replies. Whenever a publish has answered OK, its volume was attached to its
   node at one of the worker's own events; whenever an unpublish has answered OK other than because
   the volume or the node is unknown, the volume was absent at one; and an unpublish from all nodes
   that answered OK made or found it absent on every server it had listed.
   */
  lemma {:induction false} RepliesAreLinearized(s0: State, ls: seq<Label>, w: WorkerId)
    requires Init(s0) && w < |Run(s0, ls).workers|
    ensures var s := Run(s0, ls); var k := s.workers[w];
      k.at.Finished? && k.at.verdict != Failed && k.at.verdict != Missing ==>
        match k.job
        case Publish(vol, node) => PresentAt(Abs(s0), s.log, w, node, vol)
        case Unpublish(vol, node) => AbsentAt(Abs(s0), s.log, w, node, vol)
        case UnpublishAll(vol) => forall srv :: srv in k.listed ==> AbsentAt(Abs(s0), s.log, w, srv, vol)
  {
    RunStaysHonest(s0, ls);
    RunKeeps(s0, ls);
    var s := Run(s0, ls);
    var k := s.workers[w];
    assert WorkerOk(s, w) && Honest(Abs(s0), s.log, w, k);
    if k.at.Finished? && k.at.verdict != Failed && k.at.verdict != Missing {
      match k.job
      case Publish(vol, node) => assert Claims(k, node);
      case Unpublish(vol, node) => assert Claims(k, node);
      case UnpublishAll(vol) =>
        forall srv | srv in k.listed ensures AbsentAt(Abs(s0), s.log, w, srv, vol) { assert Claims(k, srv); }
    }
  }

  /** The event takes away what a claim about the volume on the server says. */
  ghost predicate Undoes(e: Event, srv: ServerId, vol: VolumeId, present: bool) {
    (if present then e.Detached? else e.Attached?) && e.server == srv && e.vol == vol
  }

  /** Some event after the n-th undoes the claim. */
  ghost predicate Undone(log: seq<Event>, n: nat, srv: ServerId, vol: VolumeId, present: bool) {
    exists m :: n < m < |log| && Undoes(log[m], srv, vol, present)
  }

  lemma EventKeepsClaim(m: Attachments, e: Event, srv: ServerId, vol: VolumeId, present: bool)
    requires Shows(m, srv, vol, present) && !Undoes(e, srv, vol, present)
    ensures Shows(ApplyEvent(m, e), srv, vol, present)
  {
  }

  ghost predicate ShowsAt(m0: Attachments, log: seq<Event>, n: nat, srv: ServerId, vol: VolumeId, present: bool)
    requires n <= |log|
  {
    Shows(Replay(m0, log[..n]), srv, vol, present)
  }

  lemma StaysOneEvent(m0: Attachments, log: seq<Event>, n: nat, srv: ServerId, vol: VolumeId, present: bool)
    requires n < |log| && ShowsAt(m0, log, n, srv, vol, present) && !Undoes(log[n], srv, vol, present)
    ensures ShowsAt(m0, log, n + 1, srv, vol, present)
  {
    assert log[..n + 1][..n] == log[..n];
    EventKeepsClaim(Replay(m0, log[..n]), log[n], srv, vol, present);
  }

  lemma {:induction false} StaysUntilUndone(m0: Attachments, log: seq<Event>, n: nat, len: nat, srv: ServerId, vol: VolumeId, present: bool)
    requires n < len <= |log| && ShowsAt(m0, log, n + 1, srv, vol, present)
    requires !Undone(log, n, srv, vol, present)
    ensures ShowsAt(m0, log, len, srv, vol, present)
    decreases len
  {
    if n + 1 < len {
      var last := len - 1;
      assert !Undoes(log[last], srv, vol, present);
      StaysUntilUndone(m0, log, n, last, srv, vol, present);
      StaysOneEvent(m0, log, last, srv, vol, present);
    }
  }

  /**
   An OK stays true until a later operation undoes it: what a claim says holds now, or an opposite
   effect on the same server and volume came after the event that backs the claim.
   */
  lemma {:induction false} ClaimsHoldUntilUndone(s0: State, ls: seq<Label>, w: WorkerId, srv: ServerId)
    requires Init(s0) && w < |Run(s0, ls).workers| && Claims(Run(s0, ls).workers[w], srv)
    ensures var s := Run(s0, ls); var k := s.workers[w];
      || (srv in s.servers && (Holds(s.servers[srv].devices, k.job.vol) <==> k.job.Publish?))
      || exists n :: 0 <= n < |s.log| && Witnesses(s.log[n], w, srv, k.job.vol, k.job.Publish?)
                      && Undone(s.log, n, srv, k.job.vol, k.job.Publish?)
  {
    RunStaysHonest(s0, ls);
    RunRefinesAtomicMap(s0, ls);
    var s := Run(s0, ls);
    var k := s.workers[w];
    var present := k.job.Publish?;
    assert Honest(Abs(s0), s.log, w, k) && Backed(Abs(s0), s.log, w, srv, k.job.vol, present);
    var n :| 0 <= n < |s.log| && Witnesses(s.log[n], w, srv, k.job.vol, present) && Shows(Replay(Abs(s0), s.log[..n + 1]), srv, k.job.vol, present);
    if !Undone(s.log, n, srv, k.job.vol, present) {
      StaysUntilUndone(Abs(s0), s.log, n, |s.log|, srv, k.job.vol, present);
      assert s.log[..|s.log|] == s.log;
    }
    if srv in s.servers { StoragesHolds(s.servers[srv].devices, k.job.vol); }
  }

  /** The worker waits under its server's lock for the end of the maintenance it caused, and the server is up. */
  ghost predicate SeesStarted(s: State, w: WorkerId, srv: ServerId) {
    && w < |s.workers| && s.workers[w].at.FinalWait? && s.workers[w].server == srv && Up(s, srv)
    && srv in s.nodeSync && s.nodeSync[srv] in s.held && s.held[s.nodeSync[srv]] == w
  }

  /** The worker reports, or is about to report, that its backend call is done. */
  ghost predicate ReportsDone(k: Worker) {
    k.at == Releasing(Done) || (k.at == Finished(Done) && !k.job.UnpublishAll?)
  }

  /** A worker's step to a report comes from another report on the same server, or from the final wait. */
  lemma DoneChange(s: State, w: WorkerId, k: Worker, r: Reply)
    requires Shaped(k) && GoEnabled(s, k, r) && ReportsDone(ChangeOf(s, w, k, r).next)
    ensures ChangeOf(s, w, k, r).next.server == k.server
    ensures (k.at.FinalWait? && Up(s, k.server)) || ReportsDone(k)
  {
  }

  lemma DoneStep(s: State, l: Label, w: WorkerId)
    requires Inv(s) && w < |Step(s, l).workers| && ReportsDone(Step(s, l).workers[w])
    ensures w < |s.workers| && s.workers[w].server == Step(s, l).workers[w].server
    ensures SeesStarted(s, w, s.workers[w].server) || ReportsDone(s.workers[w])
  {
    assert w < |s.workers|;
    if Enabled(s, l) && l.Go? && l.w == w {
      assert WorkerOk(s, w);
      DoneChange(s, w, s.workers[w], l.reply);
    } else {
      assert Step(s, l).workers[w] == s.workers[w];
    }
  }

  /**
   In every run a worker that reports its backend call done has, at an earlier point of the run, seen
   its server started again while it still held that server's lock.
   */
  lemma {:induction false} DoneMeansStarted(s0: State, ls: seq<Label>, w: WorkerId)
    requires Init(s0) && w < |Run(s0, ls).workers| && ReportsDone(Run(s0, ls).workers[w])
    ensures exists n :: 0 <= n < |ls| && SeesStarted(Run(s0, ls[..n]), w, Run(s0, ls).workers[w].server)
  {
    assert ls != [];
    var last := |ls| - 1;
    var front := ls[..last];
    var s, srv := Run(s0, front), Run(s0, ls).workers[w].server;
    RunKeeps(s0, front);
    DoneStep(s, ls[last], w);
    if SeesStarted(s, w, srv) {
      assert SeesStarted(Run(s0, ls[..last]), w, srv);
    } else {
      DoneMeansStarted(s0, front, w);
      var n :| 0 <= n < |front| && SeesStarted(Run(s0, front[..n]), w, srv);
      assert front[..n] == ls[..n];
    }
  }
}
