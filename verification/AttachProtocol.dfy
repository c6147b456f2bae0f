/**
 The attach/detach protocol as a transition system.

 Any number of RPC workers publish and unpublish volumes at the same time. A worker reads the
 backend, takes the mutex that `nodeSync` keeps for the server, waits for the server to be started,
 issues the backend call, waits again and unlocks. Every backend reply may be an error; a call may
 also take effect and still report an error. A run is any sequence of labels, so every interleaving
 and every failure pattern is a run.
 */
module AttachProtocol {
  import opened Common
  import opened Devices

  type WorkerId = nat
  type MutexId = nat

  datatype Power = Started | Maintenance

  datatype Server = Server(power: Power, devices: seq<Device>)

  /** The RPC a worker serves: ControllerPublishVolume, or ControllerUnpublishVolume with and without a node. */
  datatype Job =
    | Publish(vol: VolumeId, node: ServerId)
    | Unpublish(vol: VolumeId, node: ServerId)
    | UnpublishAll(vol: VolumeId)

  /** How a worker ends. All but Failed are an OK response. */
  datatype Verdict =
    | Done          // the backend call took effect and the server came back
    | AlreadyThere  // publish: the volume was listed on the server
    | AlreadyGone   // detach: the server's device list did not hold the volume
    | Missing       // unpublish: the volume or the server is unknown
    | Failed

  datatype Point =
    | PubReadServer
    | PubReadVolume(count: nat)
    | PubCheck(count: nat, attached: seq<ServerId>)
    | UnpubReadVolume
    | UnpubReadServer
    | AllReadVolume
    | WantMutex
    | WantLock
    | AttachWait
    | AttachCall
    | DetachRead
    | DetachWait(seen: seq<Device>)
    | DetachCall(address: Address)
    | FinalWait
    | Releasing(verdict: Verdict)
    | Finished(verdict: Verdict)

  /**
   `server` and `mutex` belong to the current attach or detach. The unpublish-all loop read `listed`
   and has `rest` left after the current server.
   */
  datatype Worker = Worker(job: Job, at: Point, server: ServerId, mutex: MutexId, listed: seq<ServerId>, rest: seq<ServerId>)

  /** What happened, in order. Effects are recorded at the backend call, observations at the read. */
  datatype Event =
    | Acquired(w: WorkerId, server: ServerId)
    | Attached(w: WorkerId, server: ServerId, vol: VolumeId)
    | Detached(w: WorkerId, server: ServerId, vol: VolumeId)
    | SawAttached(w: WorkerId, server: ServerId, vol: VolumeId)
    | SawAbsent(w: WorkerId, server: ServerId, vol: VolumeId)
    | Released(w: WorkerId, server: ServerId)

  datatype State = State(
    maxVolumes: int,
    servers: map<ServerId, Server>,
    nodeSync: map<ServerId, MutexId>,
    nextMutex: MutexId,
    held: map<MutexId, WorkerId>,
    workers: seq<Worker>,
    log: seq<Event>)

  /** The backend's reply to a step. `Lost` applies the effect and still reports an error. */
  datatype Reply =
    | Answer(listing: seq<ServerId>, address: Address)
    | NotFound
    | Refused
    | Lost(address: Address)

  const Plain := Answer([], 0)

  datatype Label =
    | Go(w: WorkerId, reply: Reply)
    | Recover(server: ServerId)
    | Spawn(job: Job)

  // ----- reading the backend -----

  /** The servers a volume's details list: each server that holds it, once, in any order. */
  ghost predicate IsListing(listing: seq<ServerId>, servers: map<ServerId, Server>, vol: VolumeId) {
    && (forall i, j :: 0 <= i < j < |listing| ==> listing[i] != listing[j])
    && (forall srv :: srv in listing <==> srv in servers && Holds(servers[srv].devices, vol))
  }

  /** The checks a publish makes on what it read, before it asks for the server's mutex. */
  datatype Decision = AlreadyAttached | WrongNode | NodeFull | Proceed

  function Decide(attached: seq<ServerId>, node: ServerId, count: nat, maxVolumes: int): Decision {
    if node in attached then AlreadyAttached
    else if attached != [] then WrongNode
    else if count > maxVolumes then NodeFull
    else Proceed
  }

  // ----- steps -----

  predicate Critical(p: Point) {
    p.AttachWait? || p.AttachCall? || p.DetachRead? || p.DetachWait? || p.DetachCall? || p.FinalWait? || p.Releasing?
  }

  predicate InService(p: Point) {
    p.WantMutex? || p.WantLock? || Critical(p)
  }

  predicate Up(s: State, srv: ServerId) {
    srv in s.servers && s.servers[srv].power.Started?
  }

  /** Which replies the backend and the mutex can give a worker where it stands. */
  ghost predicate GoEnabled(s: State, k: Worker, r: Reply) {
    match k.at
    case Finished(_) => false
    case WantMutex => r.Answer?
    case WantLock => r.Answer? && k.mutex !in s.held
    case Releasing(_) => r.Answer?
    case PubReadServer => k.job.Publish? && (r.Answer? ==> k.job.node in s.servers)
    case UnpubReadServer => k.job.Unpublish? && (r.Answer? ==> k.job.node in s.servers)
    case PubReadVolume(_) => r.Answer? ==> IsListing(r.listing, s.servers, k.job.vol)
    case AllReadVolume => r.Answer? ==> IsListing(r.listing, s.servers, k.job.vol)
    case AttachWait => r.Answer? ==> Up(s, k.server)
    case DetachWait(_) => r.Answer? ==> Up(s, k.server)
    case FinalWait => r.Answer? ==> Up(s, k.server)
    case DetachRead => k.server in s.servers
    case DetachCall(_) => k.server in s.servers
    case AttachCall =>
      k.server in s.servers &&
      (r.Answer? || r.Lost? ==> !AddressUsed(s.servers[k.server].devices, r.address))
    case _ => true
  }

  ghost predicate Enabled(s: State, l: Label) {
    match l
    case Go(w, r) => w < |s.workers| && GoEnabled(s, s.workers[w], r)
    case Recover(srv) => srv in s.servers
    case Spawn(_) => true
  }

  datatype LockOp = Keep | Allocate | Take | Drop

  /** What one step of a worker does: its next record, an event, a new device list, a lock operation. */
  datatype Change = Change(next: Worker, event: Option<Event>, devices: Option<seq<Device>>, lock: LockOp)

  function Goto(k: Worker, p: Point): Change {
    Change(k.(at := p), None, None, Keep)
  }

  function OnPublishRead(s: State, w: WorkerId, k: Worker, r: Reply): Change
    requires k.at.PubReadServer? ==> k.job.Publish? && (r.Answer? ==> k.job.node in s.servers)
  {
    if !r.Answer? then Goto(k, Finished(Failed))
    else match k.at
      case PubReadServer =>
        Goto(k.(server := k.job.node), PubReadVolume(|s.servers[k.job.node].devices|))
      case PubReadVolume(n) =>
        Goto(k, PubCheck(n, r.listing)).(event := if k.server in r.listing then Some(SawAttached(w, k.server, k.job.vol)) else None)
      case PubCheck(n, attached) =>
        (match Decide(attached, k.server, n, s.maxVolumes)
         case AlreadyAttached => Goto(k, Finished(AlreadyThere))
         case Proceed => Goto(k, WantMutex)
         case _ => Goto(k, Finished(Failed)))
      case _ => Goto(k, k.at)
  }

  function OnUnpublishRead(k: Worker, r: Reply): Change
    requires k.at.UnpubReadServer? ==> k.job.Unpublish?
  {
    if r.NotFound? then Goto(k, Finished(Missing))
    else if !r.Answer? then Goto(k, Finished(Failed))
    else match k.at
      case UnpubReadVolume => Goto(k, UnpubReadServer)
      case UnpubReadServer => Goto(k.(server := k.job.node), WantMutex)
      case AllReadVolume =>
        if r.listing == [] then Goto(k, Finished(Done))
        else Goto(k.(server := r.listing[0], listed := r.listing, rest := r.listing[1..]), WantMutex)
      case _ => Goto(k, k.at)
  }

  /** The scan of a server's devices under the lock: on to the call, or nothing to detach. */
  function OnScan(w: WorkerId, k: Worker, seen: seq<Device>): Change {
    match FirstAddress(seen, k.job.vol)
    case Some(a) => Goto(k, DetachCall(a))
    case None => Goto(k, Releasing(AlreadyGone)).(event := Some(SawAbsent(w, k.server, k.job.vol)))
  }

  function OnAttachCall(s: State, w: WorkerId, k: Worker, r: Reply): Change
    requires k.server in s.servers
  {
    if !(r.Answer? || r.Lost?) || !Up(s, k.server) then Goto(k, Releasing(Failed))
    else
      var devices := s.servers[k.server].devices + [Device(r.address, k.job.vol)];
      var at := if r.Answer? && Holds(devices, k.job.vol) then FinalWait else Releasing(Failed);
      Goto(k, at).(event := Some(Attached(w, k.server, k.job.vol)), devices := Some(devices))
  }

  function OnDetachCall(s: State, w: WorkerId, k: Worker, a: Address, r: Reply): Change
    requires k.server in s.servers
  {
    if !(r.Answer? || r.Lost?) || !Up(s, k.server) then Goto(k, Releasing(Failed))
    else
      var devices := WithoutAddress(s.servers[k.server].devices, a);
      var at := if r.Answer? && !Holds(devices, k.job.vol) then FinalWait else Releasing(Failed);
      Goto(k, at).(event := Some(Detached(w, k.server, k.job.vol)), devices := Some(devices))
  }

  /** A critical section ends: the RPC ends too, or the unpublish-all loop takes the next server. */
  function AfterRelease(k: Worker, v: Verdict): Worker {
    if k.job.UnpublishAll? && v != Failed then
      if k.rest == [] then k.(at := Finished(Done))
      else k.(at := WantMutex, server := k.rest[0], rest := k.rest[1..])
    else k.(at := Finished(v))
  }

  ghost function ChangeOf(s: State, w: WorkerId, k: Worker, r: Reply): Change
    requires GoEnabled(s, k, r)
  {
    match k.at
    case WantMutex =>
      if k.server in s.nodeSync then Goto(k.(mutex := s.nodeSync[k.server]), WantLock)
      else Goto(k.(mutex := s.nextMutex), WantLock).(lock := Allocate)
    case WantLock =>
      Goto(k, if k.job.Publish? then AttachWait else DetachRead).(event := Some(Acquired(w, k.server)), lock := Take)
    case AttachWait => Goto(k, if r.Answer? then AttachCall else Releasing(Failed))
    case AttachCall => OnAttachCall(s, w, k, r)
    case DetachRead =>
      if !r.Answer? then Goto(k, Releasing(Failed))
      else if Up(s, k.server) then OnScan(w, k, s.servers[k.server].devices)
      else Goto(k, DetachWait(s.servers[k.server].devices))
    case DetachWait(seen) => if r.Answer? then OnScan(w, k, seen) else Goto(k, Releasing(Failed))
    case DetachCall(a) => OnDetachCall(s, w, k, a, r)
    case FinalWait => Goto(k, Releasing(if r.Answer? then Done else Failed))
    case Releasing(v) => Change(AfterRelease(k, v), Some(Released(w, k.server)), None, Drop)
    case PubReadServer => OnPublishRead(s, w, k, r)
    case PubReadVolume(_) => OnPublishRead(s, w, k, r)
    case PubCheck(_, _) => OnPublishRead(s, w, k, r)
    case _ => OnUnpublishRead(k, r)
  }

  /** A backend call leaves the worker's server in maintenance with its new devices. */
  function Apply(s: State, w: WorkerId, c: Change): State
    requires w < |s.workers|
  {
    var k := s.workers[w];
    State(s.maxVolumes,
          if c.devices.Some? then s.servers[k.server := Server(Maintenance, c.devices.value)] else s.servers,
          if c.lock.Allocate? then s.nodeSync[k.server := s.nextMutex] else s.nodeSync,
          if c.lock.Allocate? then s.nextMutex + 1 else s.nextMutex,
          match c.lock case Take => s.held[k.mutex := w] case Drop => s.held - {k.mutex} case _ => s.held,
          s.workers[w := c.next],
          if c.event.Some? then s.log + [c.event.value] else s.log)
  }

  function Fresh(job: Job): Worker {
    var at := match job case Publish(_, _) => PubReadServer case Unpublish(_, _) => UnpubReadVolume case UnpublishAll(_) => AllReadVolume;
    Worker(job, at, 0, 0, [], [])
  }

  /** One label. A label that is not enabled changes nothing. */
  ghost function Step(s: State, l: Label): State {
    if !Enabled(s, l) then s
    else match l
      case Go(w, r) => Apply(s, w, ChangeOf(s, w, s.workers[w], r))
      case Recover(srv) => s.(servers := s.servers[srv := s.servers[srv].(power := Started)])
      case Spawn(job) => s.(workers := s.workers + [Fresh(job)])
  }

  ghost function Run(s: State, ls: seq<Label>): State {
    if ls == [] then s else Step(Run(s, ls[..|ls| - 1]), ls[|ls| - 1])
  }

  /** A driver that has just started over some backend. */
  ghost predicate Init(s: State) {
    && s.nodeSync == map[] && s.held == map[] && s.workers == [] && s.log == []
    && forall srv :: srv in s.servers ==> DistinctAddresses(s.servers[srv].devices)
  }

  // ----- the invariant -----

  /** What a record says by itself: which job stands where. */
  ghost predicate Shaped(k: Worker) {
    && (k.at.PubReadServer? || k.at.PubReadVolume? || k.at.PubCheck? || k.at.AttachWait? || k.at.AttachCall? ==> k.job.Publish?)
    && (k.at.UnpubReadVolume? || k.at.UnpubReadServer? ==> k.job.Unpublish?)
    && (k.at.AllReadVolume? ==> k.job.UnpublishAll?)
    && (k.at.DetachRead? || k.at.DetachWait? || k.at.DetachCall? ==> !k.job.Publish?)
    && (k.job.Publish? && (InService(k.at) || k.at.PubReadVolume? || k.at.PubCheck?) ==> k.server == k.job.node)
    && (k.job.Unpublish? && InService(k.at) ==> k.server == k.job.node)
    && (!k.job.UnpublishAll? || k.at.AllReadVolume? ==> k.listed == [] && k.rest == [])
    && (k.at == Releasing(AlreadyGone) || k.at == Finished(AlreadyGone) ==> !k.job.Publish?)
    && (k.at == Finished(AlreadyThere) ==> k.job.Publish?)
    && !(k.at.Releasing? && (k.at.verdict.AlreadyThere? || k.at.verdict.Missing?))
    && (k.at == Finished(Missing) ==> !k.job.Publish?)
    && (k.job.UnpublishAll? && k.at.Finished? && k.at.verdict != Failed ==> k.rest == [])
  }

  /** What a record says about the backend, true as long as the worker stands there. */
  ghost predicate Knows(s: State, k: Worker) {
    && (InService(k.at) || k.at.PubReadVolume? || k.at.PubCheck? ==> k.server in s.servers)
    && (forall srv :: srv in k.rest ==> srv in s.servers)
    && (k.at.AttachCall? || k.at.DetachCall? ==> Up(s, k.server))
    && (k.at.DetachWait? ==> k.at.seen == s.servers[k.server].devices)
    && (k.at.DetachCall? ==> FirstAddress(s.servers[k.server].devices, k.job.vol) == Some(k.at.address))
  }

  ghost predicate LockOk(s: State, w: WorkerId, k: Worker) {
    && (k.at.WantLock? || Critical(k.at) ==> k.server in s.nodeSync && s.nodeSync[k.server] == k.mutex)
    && (Critical(k.at) ==> k.mutex in s.held && s.held[k.mutex] == w)
  }

  ghost predicate WorkerOk(s: State, w: WorkerId)
    requires w < |s.workers|
  {
    Shaped(s.workers[w]) && Knows(s, s.workers[w]) && LockOk(s, w, s.workers[w])
  }

  ghost predicate TablesOk(s: State) {
    && (forall a :: a in s.nodeSync ==> s.nodeSync[a] < s.nextMutex)
    && (forall a, b :: a in s.nodeSync && b in s.nodeSync && a != b ==> s.nodeSync[a] != s.nodeSync[b])
    && (forall m :: m in s.held ==>
          s.held[m] < |s.workers| && Critical(s.workers[s.held[m]].at) && s.workers[s.held[m]].mutex == m)
  }

  ghost predicate BackendOk(s: State) {
    forall srv :: srv in s.servers ==> DistinctAddresses(s.servers[srv].devices)
  }

  ghost predicate Inv(s: State) {
    TablesOk(s) && BackendOk(s) && forall w :: 0 <= w < |s.workers| ==> WorkerOk(s, w)
  }

  /** At most one worker per server is between lock and unlock. */
  lemma MutualExclusion(s: State, v: WorkerId, w: WorkerId)
    requires Inv(s) && v < |s.workers| && w < |s.workers|
    requires Critical(s.workers[v].at) && Critical(s.workers[w].at)
    requires s.workers[v].server == s.workers[w].server
    ensures v == w
  {
    assert WorkerOk(s, v) && WorkerOk(s, w);
  }

  // ----- every step is lawful, and lawful steps keep the invariant -----

  predicate Tail(p: Point) { p.FinalWait? || p.Releasing? }

  /** The lock discipline of one step. */
  ghost predicate LocksLawfully(s: State, k: Worker, c: Change) {
    && (c.lock.Take? <==> k.at.WantLock?)
    && (c.lock.Drop? <==> k.at.Releasing?)
    && (c.lock.Allocate? <==> k.at.WantMutex? && k.server !in s.nodeSync)
    && (k.at.WantMutex? ==> c.next.at.WantLock? && c.next.server == k.server)
    && (k.at.WantMutex? ==> c.next.mutex == if k.server in s.nodeSync then s.nodeSync[k.server] else s.nextMutex)
    && (k.at.WantLock? ==> k.mutex !in s.held && Critical(c.next.at) && c.next == k.(at := c.next.at))
    && (Critical(k.at) && !k.at.Releasing? ==> Critical(c.next.at) && c.next == k.(at := c.next.at))
    && (k.at.Releasing? ==> !Critical(c.next.at) && !c.next.at.WantLock?)
    && (!InService(k.at) ==> !Critical(c.next.at) && !c.next.at.WantLock?)
  }

  /** The event of one step belongs to the worker and to the section it is in. */
  ghost predicate LogsLawfully(w: WorkerId, k: Worker, c: Change) {
    && (c.event.Some? ==> c.event.value.w == w && c.event.value.server == k.server)
    && (c.event.Some? && c.event.value.Acquired? <==> k.at.WantLock?)
    && (c.event.Some? && c.event.value.Released? <==> k.at.Releasing?)
    && (c.event.Some? && !c.event.value.Acquired? && !c.event.value.Released? && !c.event.value.SawAttached? ==>
         c.event.value.vol == k.job.vol && Critical(k.at) && !Tail(k.at) && Tail(c.next.at))
    && (c.event.Some? && c.event.value.SawAttached? ==> k.at.PubReadVolume? && c.event.value.vol == k.job.vol)
    && (c.devices.Some? <==> c.event.Some? && (c.event.value.Attached? || c.event.value.Detached?))
    && (c.event.Some? && c.event.value.Attached? ==> k.at.AttachCall?)
    && (c.event.Some? && c.event.value.Detached? ==> k.at.DetachCall?)
    && (Tail(k.at) && !k.at.Releasing? ==> Tail(c.next.at))
  }

  ghost predicate Lawful(s: State, w: WorkerId, k: Worker, c: Change) {
    && c.next.job == k.job
    && Shaped(c.next) && Knows(s, c.next)
    && LocksLawfully(s, k, c) && LogsLawfully(w, k, c)
    && (c.devices.Some? ==> DistinctAddresses(c.devices.value))
  }

  lemma PublishReadsAreLawful(s: State, w: WorkerId, k: Worker, r: Reply)
    requires Shaped(k) && Knows(s, k) && GoEnabled(s, k, r) && (k.at.PubReadServer? || k.at.PubReadVolume? || k.at.PubCheck?)
    ensures Lawful(s, w, k, ChangeOf(s, w, k, r))
  {
  }

  lemma UnpublishReadsAreLawful(s: State, w: WorkerId, k: Worker, r: Reply)
    requires Shaped(k) && Knows(s, k) && GoEnabled(s, k, r)
    requires k.at.UnpubReadVolume? || k.at.UnpubReadServer? || k.at.AllReadVolume?
    ensures Lawful(s, w, k, ChangeOf(s, w, k, r))
  {
    if k.at.AllReadVolume? && r.Answer? && r.listing != [] {
      assert r.listing[0] in r.listing;
    }
  }

  lemma CallsAreLawful(s: State, w: WorkerId, k: Worker, r: Reply)
    requires BackendOk(s) && Shaped(k) && Knows(s, k) && GoEnabled(s, k, r) && (k.at.AttachCall? || k.at.DetachCall?)
    ensures Lawful(s, w, k, ChangeOf(s, w, k, r))
  {
    if k.at.DetachCall? { WithoutAddressIsSubsequence(s.servers[k.server].devices, k.at.address); }
  }

  lemma LockStepsAreLawful(s: State, w: WorkerId, k: Worker, r: Reply)
    requires Shaped(k) && Knows(s, k) && GoEnabled(s, k, r) && (k.at.WantMutex? || k.at.WantLock? || k.at.Releasing?)
    ensures Lawful(s, w, k, ChangeOf(s, w, k, r))
  {
  }

  lemma WaitsAndScansAreLawful(s: State, w: WorkerId, k: Worker, r: Reply)
    requires Shaped(k) && Knows(s, k) && GoEnabled(s, k, r)
    requires k.at.AttachWait? || k.at.DetachRead? || k.at.DetachWait? || k.at.FinalWait?
    ensures Lawful(s, w, k, ChangeOf(s, w, k, r))
  {
  }

  lemma StepsAreLawful(s: State, w: WorkerId, r: Reply)
    requires Inv(s) && w < |s.workers| && GoEnabled(s, s.workers[w], r)
    ensures Lawful(s, w, s.workers[w], ChangeOf(s, w, s.workers[w], r))
  {
    var k := s.workers[w];
    assert WorkerOk(s, w);
    if k.at.PubReadServer? || k.at.PubReadVolume? || k.at.PubCheck? { PublishReadsAreLawful(s, w, k, r); }
    else if !InService(k.at) { UnpublishReadsAreLawful(s, w, k, r); }
    else if k.at.AttachCall? || k.at.DetachCall? { CallsAreLawful(s, w, k, r); }
    else if k.at.WantMutex? || k.at.WantLock? || k.at.Releasing? { LockStepsAreLawful(s, w, k, r); }
    else { WaitsAndScansAreLawful(s, w, k, r); }
  }

  lemma LawfulTables(s: State, w: WorkerId, c: Change)
    requires Inv(s) && w < |s.workers| && Lawful(s, w, s.workers[w], c)
    ensures TablesOk(Apply(s, w, c)) && BackendOk(Apply(s, w, c)) && LockOk(Apply(s, w, c), w, c.next)
  {
    assert WorkerOk(s, w);
  }

  /** Another worker's record stays true: only the holder of its server's mutex could have changed that. */
  lemma LawfulOthers(s: State, w: WorkerId, c: Change, v: WorkerId)
    requires Inv(s) && w < |s.workers| && Lawful(s, w, s.workers[w], c)
    requires v < |s.workers| && v != w
    ensures WorkerOk(Apply(s, w, c), v)
  {
    assert WorkerOk(s, w) && WorkerOk(s, v);
    assert Apply(s, w, c).workers[v] == s.workers[v];
  }

  lemma LawfulSelf(s: State, w: WorkerId, c: Change)
    requires Inv(s) && w < |s.workers| && Lawful(s, w, s.workers[w], c)
    ensures Knows(Apply(s, w, c), c.next)
  {
    assert WorkerOk(s, w);
  }

  lemma LawfulKeeps(s: State, w: WorkerId, c: Change)
    requires Inv(s) && w < |s.workers| && Lawful(s, w, s.workers[w], c)
    ensures Inv(Apply(s, w, c))
  {
    var t := Apply(s, w, c);
    LawfulTables(s, w, c);
    LawfulSelf(s, w, c);
    forall v | 0 <= v < |t.workers| ensures WorkerOk(t, v) {
      if v != w { LawfulOthers(s, w, c, v); }
    }
  }

  /** Every label keeps the invariant. */
  lemma StepKeeps(s: State, l: Label)
    requires Inv(s)
    ensures Inv(Step(s, l))
  {
    if Enabled(s, l) {
      match l
      case Go(w, r) =>
        StepsAreLawful(s, w, r);
        LawfulKeeps(s, w, ChangeOf(s, w, s.workers[w], r));
      case Recover(srv) =>
        forall v | 0 <= v < |s.workers| ensures WorkerOk(Step(s, l), v) { assert WorkerOk(s, v); }
      case Spawn(job) =>
        var t := Step(s, l);
        forall v | 0 <= v < |t.workers| ensures WorkerOk(t, v) {
          if v < |s.workers| { assert WorkerOk(s, v); }
        }
    }
  }

  lemma {:induction false} RunKeeps(s: State, ls: seq<Label>)
    requires Inv(s)
    ensures Inv(Run(s, ls))
  {
    if ls != [] {
      RunKeeps(s, ls[..|ls| - 1]);
      StepKeeps(Run(s, ls[..|ls| - 1]), ls[|ls| - 1]);
    }
  }

  /**
   Safety over every run of a fresh driver: two workers never share a server's critical section, and
   whoever is about to call AttachStorage or DetachStorage finds its server started. The second part
   holds also after an earlier worker gave up waiting and unlocked in the middle of maintenance.
   */
  lemma {:induction false} ProtocolSafety(s0: State, ls: seq<Label>)
    requires Init(s0)
    ensures var s := Run(s0, ls);
      && Inv(s)
      && (forall v, w | 0 <= v < |s.workers| && 0 <= w < |s.workers| && Critical(s.workers[v].at) && Critical(s.workers[w].at) ::
            s.workers[v].server == s.workers[w].server ==> v == w)
      && (forall w :: 0 <= w < |s.workers| && (s.workers[w].at.AttachCall? || s.workers[w].at.DetachCall?) ==>
            Up(s, s.workers[w].server))
  {
    RunKeeps(s0, ls);
    var s := Run(s0, ls);
    forall v, w | 0 <= v < |s.workers| && 0 <= w < |s.workers| && Critical(s.workers[v].at) && Critical(s.workers[w].at)
                  && s.workers[v].server == s.workers[w].server
      ensures v == w
    {
      MutualExclusion(s, v, w);
    }
    forall w | 0 <= w < |s.workers| && (s.workers[w].at.AttachCall? || s.workers[w].at.DetachCall?)
      ensures Up(s, s.workers[w].server)
    {
      assert WorkerOk(s, w);
    }
  }
}
