/**
 The RPCs of the controller call by call, over a store they change, with what each gives its caller.
 */
module ControllerCalls {
  import opened Common
  import opened Capacity
  import opened VolumeStore
  import opened StoreRuns

  class Controller {
    var store: Store

    constructor (s: Store)
      ensures store == s
    {
      store := s;
    }

    /** GetBlockStorageByName and GetBlockStorageBackupByName walk the list the backend returns. */
    static method GetByTitle(listing: Listing, kind: Kind, name: string) returns (found: seq<(Id, Storage)>)
      ensures found == Titled(listing, kind, name)
    {
      found := [];
      for i := 0 to |listing|
        invariant found == Titled(listing[..i], kind, name)
      {
        assert listing[..i + 1][..i] == listing[..i];
        if listing[i].1.kind == kind && listing[i].1.title == name {
          found := found + [listing[i]];
        }
      }
      assert listing[..|listing|] == listing;
    }

    /** A call that creates a storage: refused, or created with or without the caller learning of it. */
    method Create(v: Storage, reply: Outcome) returns (ok: bool, id: Id)
      modifies this
      ensures ok == reply.Fine? && id == old(store.nextId)
      ensures store == if reply.Rejected? then old(store) else Add(old(store), v)
    {
      id := store.nextId;
      if !reply.Rejected? {
        store := Store(store.storages[id := v], id + 1);
      }
      ok := reply.Fine?;
    }

    method Delete(id: Id, reply: Outcome) returns (ok: bool)
      modifies this
      ensures ok == reply.Fine?
      ensures store == if reply.Rejected? then old(store) else Remove(old(store), id)
    {
      if !reply.Rejected? {
        store := store.(storages := store.storages - {id});
      }
      ok := reply.Fine?;
    }

    method Modify(id: Id, size: int, reply: Outcome) returns (ok: bool)
      requires id in store.storages
      modifies this
      ensures ok == reply.Fine?
      ensures store == if reply.Rejected? then old(store) else Resize(old(store), id, size)
    {
      if !reply.Rejected? {
        store := store.(storages := store.storages[id := store.storages[id].(size := size)]);
      }
      ok := reply.Fine?;
    }

    method CreateVolumeRPC(req: CreateRequest, env: Env) returns (r: Created)
      modifies this
      ensures (store, r) == CreateVolume(old(store), req, env)
      ensures IdsBelow(old(store)) && Enumerates(env.listing, old(store)) ==> CreateMeans(old(store), store, req, r)
      ensures IdsBelow(old(store)) && Undisturbed(old(store), env) && (forall id :: !Carries(old(store), id, Normal, req.name)) ==>
        && (r.Volume? <==> Satisfiable(req.range, MinBlock, MaxBlock) && (req.source.None? || Cloneable(old(store), req)))
        && (r.Refused? ==> store == old(store))
    {
      if IdsBelow(store) && Undisturbed(store, env) && forall id :: !Carries(store, id, Normal, req.name) {
        CreateExactly(store, req, env);
      }
      if IdsBelow(store) && Enumerates(env.listing, store) { CreateMeaning(store, req, env); }
      if Fails(env, 0) {
        return Refused(Internal);
      }
      var volumes := GetByTitle(env.listing, Normal, req.name);
      if |volumes| > 0 {
        return ExistsResponse(volumes, req);
      }
      var size := ValidateCapacityRange(req.range, MinBlock, MaxBlock);
      if size.OutOfRange? {
        return Refused(NotInRange);
      }
      if req.source.Some? {
        r := CloneRPC(req, size.n, env);
        return;
      }
      var ok, id := Create(Storage(Normal, req.name, size.n / GiB, None, req.encrypted), env.reply(1));
      if !ok || Fails(env, 2) {
        return Refused(Internal);
      }
      return Volume(id, size.n);
    }

    method CloneRPC(req: CreateRequest, bytes: int, env: Env) returns (r: Created)
      requires req.source.Some?
      modifies this
      ensures (store, r) == CreateFromSource(old(store), req, bytes, env)
      ensures IdsBelow(old(store)) ==> CloneMeans(old(store), store, req, bytes, r)
    {
      if IdsBelow(store) { CloneMeaning(store, req, bytes, env); }
      if Fails(env, 1) {
        return Refused(InvalidArgument);
      }
      if req.source.value !in store.storages {
        return Refused(NotFound);
      }
      var source := store.storages[req.source.value];
      if source.kind.Normal? && source.encrypted != req.encrypted {
        return Refused(InvalidArgument);
      }
      if Fails(env, 2) {
        return Refused(Internal);
      }
      var ok, id := Create(Storage(Normal, req.name, source.size, None, req.encrypted), env.reply(3));
      if !ok || Fails(env, 4) || Fails(env, 5) || Fails(env, 6) {
        return Refused(Internal);
      }
      if bytes / GiB > source.size {
        ok := ResizeBlockStorage(id, bytes / GiB, env);
        if !ok {
          return Refused(Internal);
        }
      }
      return Volume(id, bytes);
    }

    /** ModifyStorage, wait, ResizeStorageFilesystem, delete the backup it made, wait. */
    method ResizeBlockStorage(id: Id, newSize: int, env: Env) returns (ok: bool)
      requires id in store.storages
      modifies this
      ensures forall bytes :: InGiB(bytes) == newSize ==>
        (store, if ok then Volume(id, bytes) else Refused(Internal)) == ResizeClone(old(store), id, bytes, env)
      ensures IdsBelow(old(store)) ==> ResizeMeans(old(store), store, id, newSize, ok)
      ensures ok <==> CallsWork(env, 7, 11)
    {
      if IdsBelow(store) { ResizeMeaning(store, id, newSize * GiB, env); }
      assert CallsWork(env, 7, 11) <==>
        && env.reply(7).Fine? && env.reply(8).Fine? && env.reply(9).Fine?
        && env.reply(10).Fine? && env.reply(11).Fine?;
      ok := Modify(id, newSize, env.reply(7));
      if !ok || Fails(env, 8) {
        return false;
      }
      var backup: Id;
      ok, backup := Create(Storage(Backup, env.resizeTitle, newSize, Some(id), store.storages[id].encrypted), env.reply(9));
      if !ok {
        return false;
      }
      ok := Delete(backup, env.reply(10));
      return ok && !Fails(env, 11);
    }

    method DeleteVolumeRPC(id: Id, env: Env) returns (ok: bool)
      modifies this
      ensures (store, ok) == DeleteVolume(old(store), id, env)
      ensures DeleteVolumeMeans(old(store), store, id, env, ok)
    {
      ok := Delete(id, env.reply(0));
    }

    method CreateSnapshotRPC(name: string, source: Id, busy: bool, env: Env) returns (r: Snapshot)
      modifies this
      ensures (store, r) == CreateSnapshot(old(store), name, source, busy, env)
      ensures IdsBelow(old(store)) && Enumerates(env.listing, old(store)) ==> SnapshotMeans(old(store), store, name, source, r)
      ensures IdsBelow(old(store)) && Enumerates(env.listing, old(store)) && (forall id :: !Carries(old(store), id, Backup, name)) ==>
        (r.Taken? <==> source in old(store).storages && !busy && CallsWork(env, 0, 3)) && (busy ==> store == old(store))
    {
      if IdsBelow(store) && Enumerates(env.listing, store) && forall id :: !Carries(store, id, Backup, name) {
        SnapshotExactly(store, name, source, busy, env);
      }
      if IdsBelow(store) && Enumerates(env.listing, store) { SnapshotMeaning(store, name, source, busy, env); }
      if Fails(env, 0) {
        return NotTaken(Internal);
      }
      var backups := GetByTitle(env.listing, Backup, name);
      if backups != [] {
        if backups[0].1.origin != Some(source) {
          return NotTaken(AlreadyExists);
        }
        return Taken(backups[0].0, source, backups[0].1.size);
      }
      if Fails(env, 1) || source !in store.storages {
        return NotTaken(Internal);
      }
      if busy {
        return NotTaken(Aborted);
      }
      var size := store.storages[source].size;
      var ok, id := Create(Storage(Backup, name, size, Some(source), store.storages[source].encrypted), env.reply(2));
      if !ok || Fails(env, 3) {
        return NotTaken(Internal);
      }
      return Taken(id, source, size);
    }

    method DeleteSnapshotRPC(id: Option<Id>, env: DeleteEnv) returns (ok: bool)
      modifies this
      ensures (store, ok) == DeleteSnapshot(old(store), id, env)
      ensures DeleteSnapshotMeans(old(store), store, id, env, ok)
    {
      if id.None? {
        return true;
      }
      if !env.lookup.NoError? {
        return !Reported(env.lookup);
      }
      if id.value !in store.storages || !store.storages[id.value].kind.Backup? {
        return true;
      }
      if env.call.NoError? || env.applied {
        store := store.(storages := store.storages - {id.value});
      }
      return !Reported(env.call);
    }
  }
}
