/**
 The controller over the backend's storages: creating volumes from nothing or from a source, deleting
 them, and snapshots. A call to the backend may be refused, or take effect and still report an error.
 */
module VolumeStore {
  import opened Common
  import opened Capacity

  type Id = nat

  datatype Kind = Normal | Backup

  datatype Storage = Storage(kind: Kind, title: string, size: int, origin: Option<Id>, encrypted: bool)

  /** The backend's storages by id, and the next id it will hand out. */
  datatype Store = Store(storages: map<Id, Storage>, nextId: Id)

  /** A list of storages as the backend returns it. */
  type Listing = seq<(Id, Storage)>

  /**
   What the backend contributes to one RPC: the storages it lists, its replies to the numbered calls,
   and the title it gives to a backup made by a resize.
   */
  datatype Env = Env(listing: Listing, reply: nat -> Outcome, resizeTitle: string)

  predicate Fails(env: Env, n: nat) { !env.reply(n).Fine? }

  datatype Code = Internal | InvalidArgument | NotFound | AlreadyExists | NotInRange | Aborted | Duplicate

  datatype Created = Volume(id: Id, capacity: int) | Refused(code: Code)

  datatype CreateRequest = CreateRequest(name: string, range: Option<Range>, source: Option<Id>, encrypted: bool)

  // ----- the backend -----

  function Add(s: Store, v: Storage): Store {
    Store(s.storages[s.nextId := v], s.nextId + 1)
  }

  function Remove(s: Store, id: Id): Store {
    s.(storages := s.storages - {id})
  }

  function Resize(s: Store, id: Id, size: int): Store
    requires id in s.storages
  {
    s.(storages := s.storages[id := s.storages[id].(size := size)])
  }

  /** The listing holds every storage once, in whatever order. */
  ghost predicate Enumerates(listing: Listing, s: Store) {
    && DistinctIds(listing)
    && (forall i :: 0 <= i < |listing| ==> listing[i].0 in s.storages && s.storages[listing[i].0] == listing[i].1)
    && (forall id :: id in s.storages ==> Mentions(listing, id))
  }

  ghost predicate DistinctIds(listing: Listing) {
    forall i, j :: 0 <= i < j < |listing| ==> listing[i].0 != listing[j].0
  }

  ghost predicate Mentions(listing: Listing, id: Id) {
    exists i :: 0 <= i < |listing| && listing[i].0 == id
  }

  /** The storages of a kind that have a title, in listing order. */
  function Titled(listing: Listing, kind: Kind, name: string): seq<(Id, Storage)> {
    if listing == [] then []
    else
      var rest := Titled(listing[..|listing| - 1], kind, name);
      var last := listing[|listing| - 1];
      if last.1.kind == kind && last.1.title == name then rest + [last] else rest
  }

  // ----- CreateVolume -----

  function CreateVolume(s: Store, req: CreateRequest, env: Env): (Store, Created) {
    if Fails(env, 0) then (s, Refused(Internal))
    else
      var volumes := Titled(env.listing, Normal, req.name);
      if volumes != [] then (s, ExistsResponse(volumes, req))
      else match ValidateCapacityRange(req.range, MinBlock, MaxBlock)
        case OutOfRange => (s, Refused(NotInRange))
        case Bytes(n) =>
          if req.source.Some? then CreateFromSource(s, req, n, env)
          else CreatePlain(s, req, n, env)
  }

  /** An existing name is answered from the one volume that has it, if its size is the size requested. */
  function ExistsResponse(volumes: seq<(Id, Storage)>, req: CreateRequest): Created
    requires volumes != []
  {
    if |volumes| > 1 then Refused(Duplicate)
    else match ValidateCapacityRange(req.range, MinBlock, MaxBlock)
      case OutOfRange => Refused(NotInRange)
      case Bytes(n) =>
        if volumes[0].1.size * GiB != n then Refused(AlreadyExists) else Volume(volumes[0].0, volumes[0].1.size * GiB)
  }

  function CreatePlain(s: Store, req: CreateRequest, bytes: int, env: Env): (Store, Created) {
    if env.reply(1).Rejected? then (s, Refused(Internal))
    else
      var t := Add(s, Storage(Normal, req.name, InGiB(bytes), None, req.encrypted));
      (t, if Fails(env, 1) || Fails(env, 2) then Refused(Internal) else Volume(s.nextId, bytes))
  }

  /** Clone the source; if the clone is too small, resize it and drop the backup the resize leaves. */
  function CreateFromSource(s: Store, req: CreateRequest, bytes: int, env: Env): (Store, Created)
    requires req.source.Some?
  {
    var src := req.source.value;
    if Fails(env, 1) then (s, Refused(InvalidArgument))
    else if src !in s.storages then (s, Refused(NotFound))
    else
      var source := s.storages[src];
      if source.kind.Normal? && source.encrypted != req.encrypted then (s, Refused(InvalidArgument))
      else if Fails(env, 2) || env.reply(3).Rejected? then (s, Refused(Internal))
      else
        var t := Add(s, Storage(Normal, req.name, source.size, None, req.encrypted));
        if Fails(env, 3) || Fails(env, 4) || Fails(env, 5) || Fails(env, 6) then (t, Refused(Internal))
        else if InGiB(bytes) <= source.size then (t, Volume(s.nextId, bytes))
        else ResizeClone(t, s.nextId, bytes, env)
  }

  function ResizeClone(s: Store, id: Id, bytes: int, env: Env): (Store, Created)
    requires id in s.storages
  {
    if env.reply(7).Rejected? then (s, Refused(Internal))
    else
      var t := Resize(s, id, InGiB(bytes));
      if Fails(env, 7) || Fails(env, 8) || env.reply(9).Rejected? then (t, Refused(Internal))
      else
        var u := Add(t, Storage(Backup, env.resizeTitle, InGiB(bytes), Some(id), s.storages[id].encrypted));
        if Fails(env, 9) || env.reply(10).Rejected? then (u, Refused(Internal))
        else (Remove(u, t.nextId), if Fails(env, 10) || Fails(env, 11) then Refused(Internal) else Volume(id, bytes))
  }

  // ----- DeleteVolume, CreateSnapshot, DeleteSnapshot -----

  /** The backend's "not found" for an id it does not have is answered OK, like a deletion that works. */
  function DeleteVolume(s: Store, id: Id, env: Env): (Store, bool) {
    (if env.reply(0).Rejected? then s else Remove(s, id), !Fails(env, 0))
  }

  datatype Snapshot = Taken(id: Id, source: Id, size: int) | NotTaken(code: Code)

  function CreateSnapshot(s: Store, name: string, source: Id, busy: bool, env: Env): (Store, Snapshot) {
    if Fails(env, 0) then (s, NotTaken(Internal))
    else
      var backups := Titled(env.listing, Backup, name);
      if backups != [] then
        var (id, b) := backups[0];
        (s, if b.origin == Some(source) then Taken(id, source, b.size) else NotTaken(AlreadyExists))
      else if Fails(env, 1) || source !in s.storages then (s, NotTaken(Internal))
      else if busy then (s, NotTaken(Aborted))
      else if env.reply(2).Rejected? then (s, NotTaken(Internal))
      else
        var b := Storage(Backup, name, s.storages[source].size, Some(source), s.storages[source].encrypted);
        (Add(s, b), if Fails(env, 2) || Fails(env, 3) then NotTaken(Internal) else Taken(s.nextId, source, b.size))
  }

  /** An error of the backend is an API problem with a status, or something else. */
  datatype CallError = NoError | Problem(status: int) | Transport

  datatype DeleteEnv = DeleteEnv(lookup: CallError, call: CallError, applied: bool)

  predicate Reported(e: CallError) { e.Problem? && e.status != 404 }

  /** The id may be malformed, which is answered OK. `applied` says whether a failing delete call took effect all the same. */
  function DeleteSnapshot(s: Store, id: Option<Id>, env: DeleteEnv): (Store, bool) {
    if id.None? then (s, true)
    else if !env.lookup.NoError? then (s, !Reported(env.lookup))
    else if id.value !in s.storages then (s, true)
    else if !s.storages[id.value].kind.Backup? then (s, true)
    else if env.call.NoError? then (Remove(s, id.value), true)
    else (if env.applied then Remove(s, id.value) else s, !Reported(env.call))
  }
}
