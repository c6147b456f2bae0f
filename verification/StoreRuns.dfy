/**
 What creating, cloning, deleting and snapshotting keep over whole sequential runs, and exactly when
 creating a volume is idempotent.
 */
module StoreRuns {
  import opened Common
  import opened Capacity
  import opened VolumeStore

  // ----- listings -----

  /** The filtered listing finds the storages of that kind and title, and nothing else. */
  lemma {:induction false} TitledFinds(listing: Listing, kind: Kind, name: string)
    ensures forall x :: x in Titled(listing, kind, name) <==> x in listing && x.1.kind == kind && x.1.title == name
  {
    if listing != [] {
      TitledFinds(listing[..|listing| - 1], kind, name);
      var last := listing[|listing| - 1];
      assert listing == listing[..|listing| - 1] + [last];
    }
  }

  ghost predicate Carries(s: Store, id: Id, kind: Kind, name: string) {
    id in s.storages && s.storages[id].kind == kind && s.storages[id].title == name
  }

  lemma TitledIsEmpty(s: Store, listing: Listing, kind: Kind, name: string)
    requires Enumerates(listing, s)
    ensures Titled(listing, kind, name) == [] <==> forall id :: !Carries(s, id, kind, name)
  {
    var found := Titled(listing, kind, name);
    TitledFinds(listing, kind, name);
    if found != [] {
      var x := found[0];
      assert x in found;
      var i :| 0 <= i < |listing| && listing[i] == x;
      assert Carries(s, x.0, kind, name);
    } else {
      forall id ensures !Carries(s, id, kind, name) {
        if id in s.storages {
          assert Mentions(listing, id);
          var i :| 0 <= i < |listing| && listing[i].0 == id;
          assert listing[i] in listing && listing[i] !in found;
        }
      }
    }
  }

  lemma {:induction false} TitledIsDistinct(listing: Listing, kind: Kind, name: string)
    requires DistinctIds(listing)
    ensures DistinctIds(Titled(listing, kind, name))
  {
    if listing != [] {
      var front := listing[..|listing| - 1];
      TitledIsDistinct(front, kind, name);
      TitledFinds(front, kind, name);
      var rest := Titled(front, kind, name);
      forall i | 0 <= i < |rest| ensures rest[i].0 != listing[|listing| - 1].0 {
        assert rest[i] in rest;
        var j :| 0 <= j < |front| && front[j] == rest[i];
        assert listing[j] == rest[i];
      }
    }
  }

  /** With one storage of that title, the listing finds just it. */
  lemma TitledIsUnique(s: Store, listing: Listing, kind: Kind, name: string, id: Id)
    requires Enumerates(listing, s) && OnlyCarrier(s, id, kind, name)
    ensures Titled(listing, kind, name) == [(id, s.storages[id])]
  {
    var found := Titled(listing, kind, name);
    TitledIsEmpty(s, listing, kind, name);
    TitledFinds(listing, kind, name);
    TitledIsDistinct(listing, kind, name);
    forall i | 0 <= i < |found| ensures found[i] == (id, s.storages[id]) {
      assert found[i] in found;
      var j :| 0 <= j < |listing| && listing[j] == found[i];
      assert Carries(s, found[i].0, kind, name);
    }
    assert !(|found| > 1 && found[0].0 == found[1].0);
  }

  // ----- runs -----

  datatype Op =
    | OpCreate(req: CreateRequest, env: Env)
    | OpResize(id: Id, size: int)
    | OpDelete(id: Id, env: Env)
    | OpSnapshot(name: string, source: Id, busy: bool, env: Env)
    | OpDeleteSnapshot(snap: Option<Id>, failures: DeleteEnv)

  function After(s: Store, op: Op): Store {
    match op
    case OpCreate(req, env) => CreateVolume(s, req, env).0
    case OpResize(id, size) => if id in s.storages then Resize(s, id, size) else s
    case OpDelete(id, env) => DeleteVolume(s, id, env).0
    case OpSnapshot(name, source, busy, env) => CreateSnapshot(s, name, source, busy, env).0
    case OpDeleteSnapshot(snap, env) => DeleteSnapshot(s, snap, env).0
  }

  /** The lookups of the RPC read the backend as it is. */
  ghost predicate Truthful(s: Store, op: Op) {
    match op
    case OpCreate(_, env) => Enumerates(env.listing, s)
    case OpSnapshot(_, _, _, env) => Enumerates(env.listing, s)
    case _ => true
  }

  function RunStore(s: Store, ops: seq<Op>): Store {
    if ops == [] then s else After(RunStore(s, ops[..|ops| - 1]), ops[|ops| - 1])
  }

  ghost predicate TruthfulRun(s: Store, ops: seq<Op>) {
    ops == [] ||
    (TruthfulRun(s, ops[..|ops| - 1]) && Truthful(RunStore(s, ops[..|ops| - 1]), ops[|ops| - 1]))
  }

  /** Ids in use were handed out before. */
  ghost predicate IdsBelow(s: Store) {
    forall id :: id in s.storages ==> id < s.nextId
  }

  ghost predicate NamesUnique(s: Store, kind: Kind) {
    forall a, b, name :: Carries(s, a, kind, name) && Carries(s, b, kind, name) ==> a == b
  }

  /** What any RPC may do to the store it finds: drop storages, resize volumes, and add storages with new ids. */
  ghost predicate Extends(s: Store, t: Store) {
    && s.nextId <= t.nextId && IdsBelow(t)
    && (forall id :: id in t.storages && id in s.storages ==>
          t.storages[id] == s.storages[id].(size := t.storages[id].size))
    && (forall id :: id in t.storages && id !in s.storages ==> s.nextId <= id)
  }

  /** The added storages of a kind have names that no storage of the kind had, all different. */
  ghost predicate NewNames(s: Store, t: Store, kind: Kind) {
    && (forall a, id, name :: Carries(s, a, kind, name) && Carries(t, id, kind, name) ==> id in s.storages)
    && (forall a, b, name :: a !in s.storages && b !in s.storages && Carries(t, a, kind, name) && Carries(t, b, kind, name) ==> a == b)
  }

  lemma NewNamesStayUnique(s: Store, t: Store, kind: Kind)
    requires NamesUnique(s, kind) && Extends(s, t) && NewNames(s, t, kind)
    ensures NamesUnique(t, kind)
  {
    forall a, b, name | Carries(t, a, kind, name) && Carries(t, b, kind, name) ensures a == b {
      if a in s.storages { assert Carries(s, a, kind, name); }
      if b in s.storages { assert Carries(s, b, kind, name); }
    }
  }

  lemma AddExtends(s: Store, v: Storage)
    requires IdsBelow(s)
    ensures Extends(s, Add(s, v))
    ensures forall kind :: kind != v.kind || (forall id :: !Carries(s, id, v.kind, v.title)) ==> NewNames(s, Add(s, v), kind)
  {
  }

  /** The stores a clone can leave behind: nothing, the clone, the resized clone, or that and its backup. */
  ghost predicate CloneLeaves(s: Store, t: Store, req: CreateRequest, src: Storage, bytes: int, env: Env) {
    var id := s.nextId;
    var clone := Storage(Normal, req.name, src.size, None, req.encrypted);
    var grown := clone.(size := InGiB(bytes));
    var backup := Storage(Backup, env.resizeTitle, InGiB(bytes), Some(id), req.encrypted);
    if LeavesBackup(src, req, bytes, env) then t == Store(s.storages[id := grown][id + 1 := backup], id + 2)
    else
      || t == s
      || t == Store(s.storages[id := clone], id + 1)
      || t == Store(s.storages[id := grown], id + 1)
      || t == Store(s.storages[id := grown], id + 2)
  }

  /** The clone has to grow, everything up to the backup of the resize works, and the backup is made and not deleted. */
  predicate LeavesBackup(src: Storage, req: CreateRequest, bytes: int, env: Env) {
    && !(src.kind.Normal? && src.encrypted != req.encrypted) && src.size < InGiB(bytes)
    && !Fails(env, 1) && !Fails(env, 2) && !Fails(env, 3) && !Fails(env, 4)
    && !Fails(env, 5) && !Fails(env, 6) && !Fails(env, 7) && !Fails(env, 8)
    && !env.reply(9).Rejected? && (Fails(env, 9) || env.reply(10).Rejected?)
  }

  lemma CloneOutcomes(s: Store, req: CreateRequest, bytes: int, env: Env)
    requires IdsBelow(s) && req.source.Some?
    ensures var t := CreateFromSource(s, req, bytes, env).0;
      if req.source.value in s.storages then CloneLeaves(s, t, req, s.storages[req.source.value], bytes, env) else t == s
  {
    if req.source.value in s.storages {
      var id := s.nextId;
      assert id !in s.storages && id + 1 !in s.storages;
      var src := s.storages[req.source.value];
      var clone := Storage(Normal, req.name, src.size, None, req.encrypted);
      var grown := clone.(size := InGiB(bytes));
      var backup := Storage(Backup, env.resizeTitle, InGiB(bytes), Some(id), req.encrypted);
      assert s.storages[id := clone][id := grown] == s.storages[id := grown];
      assert s.storages[id := grown][id + 1 := backup] - {id + 1} == s.storages[id := grown];
    }
  }

  lemma CloneExtends(s: Store, t: Store, req: CreateRequest, src: Storage, bytes: int, env: Env)
    requires IdsBelow(s) && CloneLeaves(s, t, req, src, bytes, env)
    ensures Extends(s, t)
    ensures (forall id :: !Carries(s, id, Normal, req.name)) ==> NewNames(s, t, Normal)
    ensures !LeavesBackup(src, req, bytes, env) || (forall id :: !Carries(s, id, Backup, env.resizeTitle)) ==> NewNames(s, t, Backup)
  {
  }

  lemma RemoveExtends(s: Store, id: Id)
    requires IdsBelow(s)
    ensures Extends(s, Remove(s, id)) && NewNames(s, Remove(s, id), Normal) && NewNames(s, Remove(s, id), Backup)
  {
  }

  /** The bytes a create will ask for, if it gets as far as creating anything. */
  function CreateSize(req: CreateRequest, env: Env): Size {
    if Fails(env, 0) || Titled(env.listing, Normal, req.name) != [] then OutOfRange
    else ValidateCapacityRange(req.range, MinBlock, MaxBlock)
  }

  /** A create that leaves the backup of its resize behind, under a title that another backup has. */
  ghost predicate Clashes(s: Store, op: Op) {
    && op.OpCreate? && op.req.source.Some? && op.req.source.value in s.storages
    && CreateSize(op.req, op.env).Bytes?
    && LeavesBackup(s.storages[op.req.source.value], op.req, CreateSize(op.req, op.env).n, op.env)
    && exists id :: Carries(s, id, Backup, op.env.resizeTitle)
  }

  lemma CreateExtends(s: Store, req: CreateRequest, env: Env)
    requires IdsBelow(s)
    ensures var op := OpCreate(req, env);
      && Extends(s, After(s, op))
      && (Truthful(s, op) ==> NewNames(s, After(s, op), Normal))
      && (!Clashes(s, op) ==> NewNames(s, After(s, op), Backup))
  {
    var op := OpCreate(req, env);
    if Truthful(s, op) { TitledIsEmpty(s, env.listing, Normal, req.name); }
    if CreateSize(req, env).Bytes? {
      var n := CreateSize(req, env).n;
      if req.source.None? {
        AddExtends(s, Storage(Normal, req.name, InGiB(n), None, req.encrypted));
      } else {
        CloneOutcomes(s, req, n, env);
        if req.source.value in s.storages {
          CloneExtends(s, After(s, op), req, s.storages[req.source.value], n, env);
        }
      }
    }
  }

  lemma SnapshotExtends(s: Store, name: string, source: Id, busy: bool, env: Env)
    requires IdsBelow(s)
    ensures var op := OpSnapshot(name, source, busy, env);
      && Extends(s, After(s, op)) && NewNames(s, After(s, op), Normal)
      && (Truthful(s, op) ==> NewNames(s, After(s, op), Backup))
  {
    var op := OpSnapshot(name, source, busy, env);
    if Truthful(s, op) { TitledIsEmpty(s, env.listing, Backup, name); }
    if After(s, op) != s {
      AddExtends(s, Storage(Backup, name, s.storages[source].size, Some(source), s.storages[source].encrypted));
    }
  }

  /** Every RPC only extends the store; volume names are new if lookups are truthful, backup names if no title clashes. */
  lemma {:induction false} OpExtends(s: Store, op: Op)
    requires IdsBelow(s)
    ensures Extends(s, After(s, op))
    ensures Truthful(s, op) ==> NewNames(s, After(s, op), Normal)
    ensures Truthful(s, op) && !Clashes(s, op) ==> NewNames(s, After(s, op), Backup)
  {
    match op
    case OpCreate(req, env) => CreateExtends(s, req, env);
    case OpResize(_, _) =>
    case OpDelete(id, env) => RemoveExtends(s, id);
    case OpSnapshot(name, source, busy, env) => SnapshotExtends(s, name, source, busy, env);
    case OpDeleteSnapshot(snap, env) => if snap.Some? { RemoveExtends(s, snap.value); }
  }

  /** No sequential run, with calls failing before or after they take effect at any point, ever makes two volumes with one name. */
  lemma {:induction false} VolumeNamesStayUnique(s: Store, ops: seq<Op>)
    requires IdsBelow(s) && NamesUnique(s, Normal) && TruthfulRun(s, ops)
    ensures IdsBelow(RunStore(s, ops)) && NamesUnique(RunStore(s, ops), Normal)
  {
    if ops != [] {
      var u := RunStore(s, ops[..|ops| - 1]);
      VolumeNamesStayUnique(s, ops[..|ops| - 1]);
      OpExtends(u, ops[|ops| - 1]);
      NewNamesStayUnique(u, RunStore(s, ops), Normal);
    }
  }

  /** One RPC makes two backups of one name exactly if a leftover resize backup reuses a title. */
  lemma BackupStep(s: Store, op: Op)
    requires IdsBelow(s) && NamesUnique(s, Backup) && Truthful(s, op)
    ensures NamesUnique(After(s, op), Backup) <==> !Clashes(s, op)
  {
    OpExtends(s, op);
    var t := After(s, op);
    if Clashes(s, op) {
      CloneOutcomes(s, op.req, CreateSize(op.req, op.env).n, op.env);
      var id :| Carries(s, id, Backup, op.env.resizeTitle);
      assert Carries(t, id, Backup, op.env.resizeTitle) && Carries(t, s.nextId + 1, Backup, op.env.resizeTitle);
    } else {
      NewNamesStayUnique(s, t, Backup);
    }
  }

  /** No RPC of the run leaves a resize backup under a title in use. */
  ghost predicate ClashFree(s: Store, ops: seq<Op>) {
    ops == [] ||
    (ClashFree(s, ops[..|ops| - 1]) && !Clashes(RunStore(s, ops[..|ops| - 1]), ops[|ops| - 1]))
  }

  /** Backup names were unique all along the run. */
  ghost predicate AlwaysUnique(s: Store, ops: seq<Op>) {
    NamesUnique(RunStore(s, ops), Backup) && (ops == [] || AlwaysUnique(s, ops[..|ops| - 1]))
  }

  /** A sequential run keeps backup names unique throughout if and only if no resize backup is left under a title in use. */
  lemma {:induction false} BackupNamesStayUnique(s: Store, ops: seq<Op>)
    requires IdsBelow(s) && NamesUnique(s, Backup) && TruthfulRun(s, ops)
    ensures IdsBelow(RunStore(s, ops))
    ensures AlwaysUnique(s, ops) <==> ClashFree(s, ops)
  {
    if ops != [] {
      var u := RunStore(s, ops[..|ops| - 1]);
      BackupNamesStayUnique(s, ops[..|ops| - 1]);
      OpExtends(u, ops[|ops| - 1]);
      if AlwaysUnique(s, ops[..|ops| - 1]) { BackupStep(u, ops[|ops| - 1]); }
    }
  }

  /** The excepted case: a clone grows, its resize backup cannot be deleted, and its title is that of a snapshot. */
  lemma LeftoverBackupClashes() returns (s: Store, op: Op)
    ensures IdsBelow(s) && NamesUnique(s, Backup) && NamesUnique(s, Normal) && Truthful(s, op)
    ensures !NamesUnique(After(s, op), Backup)
  {
    var vol, snap := Storage(Normal, "data", 1, None, false), Storage(Backup, "snap", 1, Some(0), false);
    s := Store(map[0 := vol, 1 := snap], 2);
    var env := Env([(0, vol), (1, snap)], (n: nat) => if n == 10 then Rejected else Fine, "snap");
    var req := CreateRequest("copy", Some(Range(2 * GiB, 0)), Some(0), false);
    op := OpCreate(req, env);
    assert Enumerates(env.listing, s) by {
      assert env.listing[0].0 == 0 && env.listing[1].0 == 1;
    }
    assert CreateSize(req, env) == Bytes(2 * GiB) by {
      assert "data"[0] != "copy"[0];
      TitledIsEmpty(s, env.listing, Normal, "copy");
    }
    assert Carries(s, 1, Backup, "snap");
    assert Clashes(s, op);
    BackupStep(s, op);
  }

  /** A storage that is still there is the same one: its kind, its title and its source never change, and ids are never reused. */
  lemma {:induction false} StoragesKeepIdentity(s: Store, ops: seq<Op>, id: Id)
    requires IdsBelow(s) && id < s.nextId
    ensures var t := RunStore(s, ops);
      && s.nextId <= t.nextId && IdsBelow(t)
      && (id in t.storages ==> id in s.storages && t.storages[id] == s.storages[id].(size := t.storages[id].size))
  {
    if ops != [] {
      StoragesKeepIdentity(s, ops[..|ops| - 1], id);
      OpExtends(RunStore(s, ops[..|ops| - 1]), ops[|ops| - 1]);
    }
  }

  /** While the backup of a snapshot name exists, the name belongs to it and to its source volume. */
  lemma SnapshotNameIsNeverRebound(s: Store, ops: seq<Op>, id: Id, other: Id)
    requires IdsBelow(s) && NamesUnique(s, Backup) && TruthfulRun(s, ops) && ClashFree(s, ops)
    requires id in s.storages && s.storages[id].kind.Backup?
    requires id in RunStore(s, ops).storages && Carries(RunStore(s, ops), other, Backup, s.storages[id].title)
    ensures other == id && RunStore(s, ops).storages[other].origin == s.storages[id].origin
  {
    StoragesKeepIdentity(s, ops, id);
    BackupNamesStayUnique(s, ops);
    assert Carries(RunStore(s, ops), id, Backup, s.storages[id].title);
  }

  // ----- CreateVolume -----

  /**
   Idempotence, exactly. Creating a fresh plain volume and repeating the request leaves the store of
   the first call, and gives the first answer again if and only if the validated size is whole GiB.
   */
  lemma CreateIdempotence(s: Store, req: CreateRequest, env: Env, again: Env)
    requires IdsBelow(s) && req.source.None? && (forall id :: !Carries(s, id, Normal, req.name))
    requires Enumerates(env.listing, s)
    requires CreateVolume(s, req, env).1.Volume?
    requires var t := CreateVolume(s, req, env).0; Enumerates(again.listing, t) && again.reply(0).Fine?
    ensures var (t, first) := CreateVolume(s, req, env);
            var (u, second) := CreateVolume(t, req, again);
      && u == t
      && (second == first <==> first.capacity % GiB == 0)
      && (second != first ==> second == Refused(AlreadyExists))
      && ValidateCapacityRange(req.range, MinBlock, MaxBlock) == Bytes(first.capacity)
  {
    var (t, first) := CreateVolume(s, req, env);
    PlainCreated(s, req, env);
    RepeatedCreate(t, first.id, req, again);
  }

  ghost predicate OnlyCarrier(s: Store, id: Id, kind: Kind, name: string) {
    Carries(s, id, kind, name) && forall x :: Carries(s, x, kind, name) ==> x == id
  }

  /** A storage added under a name of its own. */
  lemma NewCarrier(s: Store, t: Store, id: Id, kind: Kind, name: string)
    requires id !in s.storages && Carries(t, id, kind, name) && t.storages == s.storages[id := t.storages[id]]
    requires forall x :: !Carries(s, x, kind, name)
    ensures OnlyCarrier(t, id, kind, name)
  {
    forall x | Carries(t, x, kind, name) ensures x == id {
      assert x != id ==> Carries(s, x, kind, name);
    }
  }

  lemma PlainCreated(s: Store, req: CreateRequest, env: Env)
    requires IdsBelow(s) && req.source.None? && (forall id :: !Carries(s, id, Normal, req.name))
    requires Enumerates(env.listing, s) && CreateVolume(s, req, env).1.Volume?
    ensures var (t, r) := CreateVolume(s, req, env);
      && ValidateCapacityRange(req.range, MinBlock, MaxBlock) == Bytes(r.capacity)
      && r.id == s.nextId && OnlyCarrier(t, r.id, Normal, req.name)
      && t == Add(s, Storage(Normal, req.name, InGiB(r.capacity), None, req.encrypted))
  {
    TitledIsEmpty(s, env.listing, Normal, req.name);
    var t := CreateVolume(s, req, env).0;
    NewCarrier(s, t, s.nextId, Normal, req.name);
  }

  /** A request for an existing name is answered from that volume. */
  lemma RepeatedCreate(t: Store, id: Id, req: CreateRequest, again: Env)
    requires OnlyCarrier(t, id, Normal, req.name) && Enumerates(again.listing, t) && again.reply(0).Fine?
    ensures CreateVolume(t, req, again) == (t, ExistsResponse([(id, t.storages[id])], req))
  {
    TitledIsUnique(t, again.listing, Normal, req.name, id);
  }

  /** A request of one GiB and one byte is created, reported with its odd byte, and refused when repeated. */
  lemma OddSizeIsNotIdempotent(env: Env, again: Env)
    requires env.listing == [] && (forall n :: env.reply(n).Fine?) && again.reply(0).Fine?
    requires var req := CreateRequest("data", Some(Range(GiB + 1, 0)), None, false);
      Enumerates(again.listing, CreateVolume(Store(map[], 0), req, env).0)
    ensures var req := CreateRequest("data", Some(Range(GiB + 1, 0)), None, false);
      var (t, first) := CreateVolume(Store(map[], 0), req, env);
      first == Volume(0, GiB + 1) && CreateVolume(t, req, again).1 == Refused(AlreadyExists)
  {
    var req := CreateRequest("data", Some(Range(GiB + 1, 0)), None, false);
    CreateIdempotence(Store(map[], 0), req, env, again);
  }

  /**
   Cloning. On success exactly one storage is new: a volume with the requested name, as large as the
   larger of source and request; everything else, the source and all backups included, is as before.
   Whatever fails, no storage that was there is changed.
   */
  lemma CloneOutcome(s: Store, req: CreateRequest, env: Env)
    requires IdsBelow(s) && req.source.Some? && Enumerates(env.listing, s)
    requires forall id :: !Carries(s, id, Normal, req.name)
    ensures var (t, r) := CreateVolume(s, req, env);
      && (forall id :: id in s.storages ==> id in t.storages && t.storages[id] == s.storages[id])
      && (r.Volume? ==>
            && req.source.value in s.storages
            && r.id !in s.storages && r.id in t.storages
            && t.storages == s.storages[r.id := t.storages[r.id]]
            && t.storages[r.id].kind == Normal && t.storages[r.id].title == req.name
            && t.storages[r.id].size == Max(s.storages[req.source.value].size, InGiB(r.capacity))
            && ValidateCapacityRange(req.range, MinBlock, MaxBlock) == Bytes(r.capacity))
  {
    TitledIsEmpty(s, env.listing, Normal, req.name);
    var size := ValidateCapacityRange(req.range, MinBlock, MaxBlock);
    if size.Bytes? && !Fails(env, 0) {
      CloneOutcomes(s, req, size.n, env);
      CloneSuccess(s, req, size.n, env);
    }
  }

  lemma CloneSuccess(s: Store, req: CreateRequest, bytes: int, env: Env)
    requires IdsBelow(s) && req.source.Some?
    ensures var (t, r) := CreateFromSource(s, req, bytes, env);
      r.Volume? ==>
        && req.source.value in s.storages && r == Volume(s.nextId, bytes) && s.nextId in t.storages
        && t.storages == s.storages[s.nextId := t.storages[s.nextId]]
        && t.storages[s.nextId] == Storage(Normal, req.name, Max(s.storages[req.source.value].size, InGiB(bytes)), None, req.encrypted)
  {
    var (t, r) := CreateFromSource(s, req, bytes, env);
    if r.Volume? && InGiB(bytes) > s.storages[req.source.value].size {
      var id := s.nextId;
      var src := s.storages[req.source.value];
      assert id !in s.storages && id + 1 !in s.storages;
      var clone := Storage(Normal, req.name, src.size, None, req.encrypted);
      var grown := clone.(size := InGiB(bytes));
      var backup := Storage(Backup, env.resizeTitle, InGiB(bytes), Some(id), req.encrypted);
      assert s.storages[id := clone][id := grown] == s.storages[id := grown];
      assert s.storages[id := grown][id + 1 := backup] - {id + 1} == s.storages[id := grown];
    }
  }

  /**
   Idempotence of cloning, exactly: the repeated request gets the first answer if and only if the
   requested size is whole GiB and the source is not larger. A clone of a larger source is refused when repeated.
   */
  lemma CloneIdempotence(s: Store, req: CreateRequest, env: Env, again: Env)
    requires IdsBelow(s) && req.source.Some? && (forall id :: !Carries(s, id, Normal, req.name))
    requires Enumerates(env.listing, s)
    requires CreateVolume(s, req, env).1.Volume?
    requires var t := CreateVolume(s, req, env).0; Enumerates(again.listing, t) && again.reply(0).Fine?
    ensures req.source.value in s.storages
    ensures var (t, first) := CreateVolume(s, req, env);
            var (u, second) := CreateVolume(t, req, again);
      && u == t
      && (second == first <==> first.capacity % GiB == 0 && s.storages[req.source.value].size <= InGiB(first.capacity))
      && (second != first ==> second == Refused(AlreadyExists))
  {
    var (t, first) := CreateVolume(s, req, env);
    CloneOutcome(s, req, env);
    NewCarrier(s, t, first.id, Normal, req.name);
    RepeatedCreate(t, first.id, req, again);
    WholeGiB(t.storages[first.id].size, s.storages[req.source.value].size, first.capacity);
  }

  lemma WholeGiB(size: int, source: int, capacity: int)
    requires size == Max(source, InGiB(capacity))
    ensures size * GiB == capacity <==> capacity % GiB == 0 && source <= InGiB(capacity)
  {
  }

  // ----- snapshots -----

  /**
   A retried CreateSnapshot answers from the backup the earlier attempt left, be that attempt failed
   after the backup was made, and creates nothing more.
   */
  lemma SnapshotRetry(s: Store, name: string, source: Id, busy: bool, env: Env, again: Env, stillBusy: bool)
    requires IdsBelow(s) && Enumerates(env.listing, s) && (forall id :: !Carries(s, id, Backup, name))
    requires var t := CreateSnapshot(s, name, source, busy, env).0;
      t != s && Enumerates(again.listing, t) && again.reply(0).Fine?
    ensures var t := CreateSnapshot(s, name, source, busy, env).0;
      && t.storages.Keys == s.storages.Keys + {s.nextId}
      && source in s.storages
      && CreateSnapshot(t, name, source, stillBusy, again) == (t, Taken(s.nextId, source, s.storages[source].size))
      && forall v :: v != source ==> CreateSnapshot(t, name, v, stillBusy, again) == (t, NotTaken(AlreadyExists))
  {
    var t := CreateSnapshot(s, name, source, busy, env).0;
    TitledIsEmpty(s, env.listing, Backup, name);
    NewCarrier(s, t, s.nextId, Backup, name);
    TitledIsUnique(t, again.listing, Backup, name, s.nextId);
  }

  /** OK from DeleteSnapshot does not mean deleted. The backup is still there exactly when a call failed for a reason that is not reported. */
  lemma DeletedOrNot(s: Store, id: Id, env: DeleteEnv)
    requires id in s.storages
    ensures var (t, ok) := DeleteSnapshot(s, Some(id), env);
      ok ==> (id in t.storages <==>
        || s.storages[id].kind.Normal?
        || !env.lookup.NoError?
        || (!env.call.NoError? && !env.applied))
  {
  }

  lemma OkWithoutDeleting()
    ensures var s := Store(map[5 := Storage(Backup, "snap", 1, Some(4), false)], 6);
      DeleteSnapshot(s, Some(5), DeleteEnv(Transport, NoError, false)) == (s, true)
  {
  }

  /** No sequence of DeleteSnapshot calls removes or changes anything but backups. */
  lemma {:induction false} DeleteSnapshotSparesVolumes(s: Store, ops: seq<Op>, id: Id)
    requires forall i :: 0 <= i < |ops| ==> ops[i].OpDeleteSnapshot?
    requires id in s.storages && s.storages[id].kind.Normal?
    ensures id in RunStore(s, ops).storages && RunStore(s, ops).storages[id] == s.storages[id]
  {
    if ops != [] { DeleteSnapshotSparesVolumes(s, ops[..|ops| - 1], id); }
  }

  // ----- what a caller gets from one RPC -----

  /** No storage that was there is changed or gone. */
  ghost predicate Keeps(s: Store, t: Store) {
    forall id :: id in s.storages ==> id in t.storages && t.storages[id] == s.storages[id]
  }

  /**
   Creating a volume. Nothing that exists changes, no volume name is used twice, and a volume in the
   reply exists under the requested name with at least the whole GiB of the capacity reported.
   */
  ghost predicate CreateMeans(s: Store, t: Store, req: CreateRequest, r: Created) {
    && Keeps(s, t) && Extends(s, t)
    && (NamesUnique(s, Normal) ==> NamesUnique(t, Normal))
    && (r.Volume? ==> VolumeGiven(s, t, req, r.id, r.capacity))
  }

  /** The volume of a reply: the requested one, with the exact size unless it was cloned just now, old only if nothing changed. */
  ghost predicate VolumeGiven(s: Store, t: Store, req: CreateRequest, id: Id, capacity: int) {
    && Carries(t, id, Normal, req.name)
    && ValidateCapacityRange(req.range, MinBlock, MaxBlock) == Bytes(capacity)
    && InGiB(capacity) <= t.storages[id].size
    && (req.source.None? || id in s.storages ==> InGiB(capacity) == t.storages[id].size)
    && (id in s.storages ==> t == s)
  }

  /** A lookup by title finds storages of the store. */
  lemma FoundIsThere(s: Store, listing: Listing, kind: Kind, name: string)
    requires Enumerates(listing, s) && Titled(listing, kind, name) != []
    ensures var (id, v) := Titled(listing, kind, name)[0]; Carries(s, id, kind, name) && s.storages[id] == v
  {
    TitledFinds(listing, kind, name);
    assert Titled(listing, kind, name)[0] in Titled(listing, kind, name);
  }

  lemma CreateGives(s: Store, req: CreateRequest, env: Env)
    requires IdsBelow(s) && Enumerates(env.listing, s)
    ensures var (t, r) := CreateVolume(s, req, env); Keeps(s, t) && (r.Volume? ==> VolumeGiven(s, t, req, r.id, r.capacity))
  {
    if Titled(env.listing, Normal, req.name) != [] {
      FoundIsThere(s, env.listing, Normal, req.name);
    } else if req.source.Some? {
      TitledIsEmpty(s, env.listing, Normal, req.name);
      CloneOutcome(s, req, env);
    }
  }

  lemma CreateMeaning(s: Store, req: CreateRequest, env: Env)
    requires IdsBelow(s) && Enumerates(env.listing, s)
    ensures var (t, r) := CreateVolume(s, req, env); CreateMeans(s, t, req, r)
  {
    CreateGives(s, req, env);
    CreateExtends(s, req, env);
    if NamesUnique(s, Normal) { NewNamesStayUnique(s, CreateVolume(s, req, env).0, Normal); }
  }

  /**
   Cloning. A success adds exactly one storage, as large as the larger of source and request. A
   failure can leave the clone, and the backup its resize made, and nothing else.
   */
  ghost predicate CloneMeans(s: Store, t: Store, req: CreateRequest, bytes: int, r: Created)
    requires req.source.Some?
  {
    && Keeps(s, t)
    && (forall id :: id in t.storages && id !in s.storages ==>
          || (id == s.nextId && Carries(t, id, Normal, req.name))
          || (id == s.nextId + 1 && t.storages[id].kind.Backup? && t.storages[id].origin == Some(s.nextId)))
    && (r.Volume? ==>
          && req.source.value in s.storages && r == Volume(s.nextId, bytes) && s.nextId in t.storages
          && t.storages == s.storages[s.nextId := t.storages[s.nextId]]
          && t.storages[s.nextId].size == Max(s.storages[req.source.value].size, InGiB(bytes)))
  }

  lemma CloneMeaning(s: Store, req: CreateRequest, bytes: int, env: Env)
    requires IdsBelow(s) && req.source.Some?
    ensures var (t, r) := CreateFromSource(s, req, bytes, env); CloneMeans(s, t, req, bytes, r)
  {
    CloneOutcomes(s, req, bytes, env);
    CloneSuccess(s, req, bytes, env);
  }

  /** Resizing. A success changes one size and nothing else; a failure can also leave the backup of that volume. */
  ghost predicate ResizeMeans(s: Store, t: Store, id: Id, newSize: int, ok: bool)
    requires id in s.storages
  {
    var grown := s.storages[id := s.storages[id].(size := newSize)];
    && (ok ==> t.storages == grown)
    && (t.storages == s.storages || t.storages == grown
        || (s.nextId in t.storages && t.storages == grown[s.nextId := t.storages[s.nextId]]
            && t.storages[s.nextId].kind.Backup? && t.storages[s.nextId].origin == Some(id)))
  }

  lemma ResizeMeaning(s: Store, id: Id, bytes: int, env: Env)
    requires IdsBelow(s) && id in s.storages
    ensures var (t, r) := ResizeClone(s, id, bytes, env); ResizeMeans(s, t, id, InGiB(bytes), r.Volume?)
  {
    var grown := s.storages[id := s.storages[id].(size := InGiB(bytes))];
    var backup := Storage(Backup, env.resizeTitle, InGiB(bytes), Some(id), s.storages[id].encrypted);
    assert s.nextId !in grown;
    assert grown[s.nextId := backup] - {s.nextId} == grown;
  }

  /**
   Taking a snapshot. Nothing that exists changes, at most the one backup is new, no backup name is
   used twice, and a snapshot in the reply exists with the name, the source and the size reported.
   */
  ghost predicate SnapshotMeans(s: Store, t: Store, name: string, source: Id, r: Snapshot) {
    && Keeps(s, t) && t.storages.Keys <= s.storages.Keys + {s.nextId}
    && (NamesUnique(s, Backup) ==> NamesUnique(t, Backup))
    && (t != s ==> forall id :: !Carries(s, id, Backup, name))
    && (r.Taken? ==>
          && r.source == source && Carries(t, r.id, Backup, name)
          && t.storages[r.id].origin == Some(source) && t.storages[r.id].size == r.size)
  }

  lemma SnapshotMeaning(s: Store, name: string, source: Id, busy: bool, env: Env)
    requires IdsBelow(s) && Enumerates(env.listing, s)
    ensures var (t, r) := CreateSnapshot(s, name, source, busy, env); SnapshotMeans(s, t, name, source, r)
  {
    var t := CreateSnapshot(s, name, source, busy, env).0;
    SnapshotExtends(s, name, source, busy, env);
    if NamesUnique(s, Backup) { NewNamesStayUnique(s, t, Backup); }
    TitledIsEmpty(s, env.listing, Backup, name);
    if Titled(env.listing, Backup, name) != [] { FoundIsThere(s, env.listing, Backup, name); }
  }

  /**
   Deleting a snapshot. Only the storage named can go, and only if it is a backup; without errors it
   is gone; an error reported is an API problem other than 404.
   */
  ghost predicate DeleteSnapshotMeans(s: Store, t: Store, id: Option<Id>, env: DeleteEnv, ok: bool) {
    && (forall x :: x in s.storages && (s.storages[x].kind.Normal? || id != Some(x)) ==> x in t.storages)
    && (forall x :: x in t.storages ==> x in s.storages && t.storages[x] == s.storages[x])
    && (id.Some? && env.lookup.NoError? && env.call.NoError? ==> ok && (id.value in t.storages ==> t.storages[id.value].kind.Normal?))
    && (!ok <==>
          || (id.Some? && env.lookup.Problem? && env.lookup.status != 404)
          || (id.Some? && env.lookup.NoError? && id.value in s.storages && s.storages[id.value].kind.Backup?
              && env.call.Problem? && env.call.status != 404))
  }

  /** Deleting a volume. OK means gone, only the volume named can go, and an undisturbed call, repeated or not, answers OK. */
  ghost predicate DeleteVolumeMeans(s: Store, t: Store, id: Id, env: Env, ok: bool) {
    && (ok ==> id !in t.storages)
    && (forall x :: x in s.storages && x != id ==> x in t.storages)
    && (forall x :: x in t.storages ==> x in s.storages && t.storages[x] == s.storages[x])
    && (env.reply(0).Fine? ==> ok)
    && (env.reply(0).Rejected? ==> !ok && t == s)
  }

  // ----- what an undisturbed RPC does -----

  ghost predicate Undisturbed(s: Store, env: Env) {
    Enumerates(env.listing, s) && forall n :: env.reply(n).Fine?
  }

  /** A clone is possible: the source exists, and if it is a volume its encryption is the one requested. */
  ghost predicate Cloneable(s: Store, req: CreateRequest) {
    req.source.Some? && req.source.value in s.storages &&
    (s.storages[req.source.value].kind.Backup? || s.storages[req.source.value].encrypted == req.encrypted)
  }

  /** The size a create of this name ends with: the whole GiB requested, or the source's if that is more. */
  ghost function EndSize(s: Store, req: CreateRequest, capacity: int): int {
    if req.source.Some? && req.source.value in s.storages then Max(s.storages[req.source.value].size, InGiB(capacity)) else InGiB(capacity)
  }

  /** The calls numbered lo to hi all work. */
  ghost predicate CallsWork(env: Env, lo: nat, hi: nat) {
    forall n :: lo <= n <= hi ==> env.reply(n).Fine?
  }

  /** Every backend call that the clone needs works: one more group of them if it has to grow. */
  ghost predicate CloneCallsWork(s: Store, req: CreateRequest, capacity: int, env: Env)
    requires req.source.Some? && req.source.value in s.storages
  {
    CallsWork(env, 1, 6) && (s.storages[req.source.value].size < InGiB(capacity) ==> CallsWork(env, 7, 11))
  }

  lemma CloneExactly(s: Store, req: CreateRequest, bytes: int, env: Env)
    requires req.source.Some?
    ensures var (t, r) := CreateFromSource(s, req, bytes, env);
      && (r.Volume? <==> Cloneable(s, req) && CloneCallsWork(s, req, bytes, env))
      && (r.Volume? ==> r.capacity == bytes)
      && (r == Refused(NotFound) <==> env.reply(1).Fine? && req.source.value !in s.storages)
      && (r == Refused(InvalidArgument) <==> !env.reply(1).Fine? || (req.source.value in s.storages && !Cloneable(s, req)))
      && (r.Refused? ==> r.code.NotFound? || r.code.InvalidArgument? || r.code.Internal?)
  {
    assert CallsWork(env, 1, 6) <==>
      && env.reply(1).Fine? && env.reply(2).Fine? && env.reply(3).Fine?
      && env.reply(4).Fine? && env.reply(5).Fine? && env.reply(6).Fine?;
    assert CallsWork(env, 7, 11) <==>
      && env.reply(7).Fine? && env.reply(8).Fine? && env.reply(9).Fine?
      && env.reply(10).Fine? && env.reply(11).Fine?;
  }

  /**
   A create of a free name, exactly. It succeeds if and only if the capacity can be met, the source, if
   there is one, can be cloned, and every backend call it needs works; then exactly that volume is new. A refusal says
   why, and changes nothing if no call failed.
   */
  lemma CreateExactly(s: Store, req: CreateRequest, env: Env)
    requires IdsBelow(s) && Enumerates(env.listing, s) && forall id :: !Carries(s, id, Normal, req.name)
    ensures var (t, r) := CreateVolume(s, req, env);
      var fits := Satisfiable(req.range, MinBlock, MaxBlock); var size := ValidateCapacityRange(req.range, MinBlock, MaxBlock);
      && (r.Volume? <==>
            && fits && size.Bytes? && env.reply(0).Fine?
            && if req.source.None? then CallsWork(env, 1, 2) else Cloneable(s, req) && CloneCallsWork(s, req, size.n, env))
      && (r.Volume? ==>
            && r.id == s.nextId && size == Bytes(r.capacity)
            && t.storages == s.storages[s.nextId := Storage(Normal, req.name, EndSize(s, req, r.capacity), None, req.encrypted)])
      && (r == Refused(NotInRange) <==> env.reply(0).Fine? && !fits)
      && (r == Refused(NotFound) <==>
            env.reply(0).Fine? && fits && req.source.Some? && env.reply(1).Fine? && req.source.value !in s.storages)
      && (r == Refused(InvalidArgument) <==>
            env.reply(0).Fine? && fits && req.source.Some? &&
            (!env.reply(1).Fine? || (req.source.value in s.storages && !Cloneable(s, req))))
      && (r.Refused? ==> r.code.NotInRange? || r.code.NotFound? || r.code.InvalidArgument? || r.code.Internal?)
      && (r.Refused? && Undisturbed(s, env) ==> t == s)
  {
    TitledIsEmpty(s, env.listing, Normal, req.name);
    CapacityAcceptance(req.range, MinBlock, MaxBlock);
    var size := ValidateCapacityRange(req.range, MinBlock, MaxBlock);
    if size.Bytes? && req.source.Some? {
      CloneSuccess(s, req, size.n, env);
      CloneExactly(s, req, size.n, env);
    }
    assert CallsWork(env, 1, 2) <==> env.reply(1).Fine? && env.reply(2).Fine?;
  }

  /** A create for a name in use changes nothing. It gives the one volume of that name if the size is the one requested. */
  lemma CreateOfExisting(s: Store, req: CreateRequest, env: Env, id: Id)
    requires Enumerates(env.listing, s) && Carries(s, id, Normal, req.name)
    ensures var (t, r) := CreateVolume(s, req, env); var size := ValidateCapacityRange(req.range, MinBlock, MaxBlock);
      && t == s
      && (!env.reply(0).Fine? ==> r == Refused(Internal))
      && (env.reply(0).Fine? && !OnlyCarrier(s, id, Normal, req.name) ==> r == Refused(Duplicate))
      && (env.reply(0).Fine? && OnlyCarrier(s, id, Normal, req.name) ==>
            r == if !Satisfiable(req.range, MinBlock, MaxBlock) then Refused(NotInRange)
                 else if size == Bytes(s.storages[id].size * GiB) then Volume(id, s.storages[id].size * GiB)
                 else Refused(AlreadyExists))
  {
    CapacityAcceptance(req.range, MinBlock, MaxBlock);
    if OnlyCarrier(s, id, Normal, req.name) {
      TitledIsUnique(s, env.listing, Normal, req.name, id);
    } else {
      var other :| Carries(s, other, Normal, req.name) && other != id;
      SeveralTitled(s, env.listing, Normal, req.name, id, other);
    }
  }

  lemma CarrierIsListed(s: Store, listing: Listing, kind: Kind, name: string, id: Id)
    requires Enumerates(listing, s) && Carries(s, id, kind, name)
    ensures (id, s.storages[id]) in Titled(listing, kind, name)
  {
    TitledFinds(listing, kind, name);
    assert Mentions(listing, id);
    var i :| 0 <= i < |listing| && listing[i].0 == id;
    assert listing[i] == (id, s.storages[id]);
  }

  lemma SeveralTitled(s: Store, listing: Listing, kind: Kind, name: string, a: Id, b: Id)
    requires Enumerates(listing, s) && Carries(s, a, kind, name) && Carries(s, b, kind, name) && a != b
    ensures |Titled(listing, kind, name)| > 1
  {
    CarrierIsListed(s, listing, kind, name, a);
    CarrierIsListed(s, listing, kind, name, b);
    var found := Titled(listing, kind, name);
    var i :| 0 <= i < |found| && found[i] == (a, s.storages[a]);
    var j :| 0 <= j < |found| && found[j] == (b, s.storages[b]);
    assert i != j;
  }

  /**
   A snapshot under a free name, exactly. It is taken if and only if the volume exists, is not being
   backed up, and every backend call works; then exactly that backup is new. It is refused as aborted if and only if
   the volume is being backed up, and then nothing changes.
   */
  lemma SnapshotExactly(s: Store, name: string, source: Id, busy: bool, env: Env)
    requires IdsBelow(s) && Enumerates(env.listing, s) && forall id :: !Carries(s, id, Backup, name)
    ensures var (t, r) := CreateSnapshot(s, name, source, busy, env);
      && (r.Taken? <==> source in s.storages && !busy && CallsWork(env, 0, 3))
      && (r.Taken? ==>
            && r == Taken(s.nextId, source, s.storages[source].size)
            && t.storages == s.storages[s.nextId := Storage(Backup, name, s.storages[source].size, Some(source), s.storages[source].encrypted)])
      && (r == NotTaken(Aborted) <==> source in s.storages && busy && CallsWork(env, 0, 1))
      && (r.NotTaken? ==> r.code.Aborted? || r.code.Internal?)
      && (busy || source !in s.storages ==> t == s)
  {
    TitledIsEmpty(s, env.listing, Backup, name);
    assert CallsWork(env, 0, 1) <==> env.reply(0).Fine? && env.reply(1).Fine?;
    assert CallsWork(env, 0, 3) <==> CallsWork(env, 0, 1) && env.reply(2).Fine? && env.reply(3).Fine?;
  }

  /** A snapshot under a name in use is answered from the backup of that name, if the source is the same; nothing changes. */
  lemma SnapshotOfExisting(s: Store, name: string, source: Id, busy: bool, env: Env, id: Id)
    requires Enumerates(env.listing, s) && OnlyCarrier(s, id, Backup, name)
    ensures CreateSnapshot(s, name, source, busy, env) ==
      (s, if !env.reply(0).Fine? then NotTaken(Internal) else if s.storages[id].origin == Some(source) then Taken(id, source, s.storages[id].size) else NotTaken(AlreadyExists))
  {
    TitledIsUnique(s, env.listing, Backup, name, id);
  }
}
