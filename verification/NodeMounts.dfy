/**
 The node service: staging, publishing, unpublishing and unstaging volumes over a mount table, the
 target paths and the disks.
 */
module NodeMounts {
  import opened Common
  import opened Devices
  import F = Formatting

  type Path = string

  datatype Source = Partition(vol: VolumeId) | Whole(vol: VolumeId) | Share(name: string) | BindOf(path: Path)

  datatype Mount = Mount(target: Path, source: Source, fsType: string, shared: bool)

  datatype NodeState = NodeState(disks: map<VolumeId, F.Disk>, mounts: seq<Mount>, paths: set<Path>)

  datatype Access = RawBlock | Filesystem(fsType: string) | Nfs(share: string)

  datatype Call =
    | Stage(vol: VolumeId, target: Path, access: Access)
    | Publish(vol: VolumeId, staging: Path, target: Path, access: Access)
    | Unpublish(target: Path)
    | Unstage(target: Path)

  /** What findmnt does: answers, fails with a message, or fails without output, which is read as "not mounted". */
  datatype Probe = Answers | Breaks | FailsSilently

  /** What the system does during one call; `statFails` says that os.Stat fails on a path that exists. */
  datatype Env = Env(probe: Probe, reply: nat -> Outcome, format: F.Replies, statFails: bool, shared: bool)

  /** What the probes of a call missed: a mount, a label or filesystem, a path. */
  datatype Lapse = Lapse(mount: bool, disk: F.Blind, path: bool)

  function LapseOf(env: Env): Lapse { Lapse(env.probe.FailsSilently?, F.BlindOf(env.format), env.statFails) }

  // ----- the mount table -----

  predicate Mounted(mounts: seq<Mount>, target: Path) {
    exists i :: 0 <= i < |mounts| && mounts[i].target == target
  }

  ghost predicate AllShared(mounts: seq<Mount>, target: Path) {
    forall i :: 0 <= i < |mounts| && mounts[i].target == target ==> mounts[i].shared
  }

  /** No path carries two mounts. */
  ghost predicate MountedOnce(mounts: seq<Mount>) {
    forall i, j :: 0 <= i < j < |mounts| ==> mounts[i].target != mounts[j].target
  }

  /** findmnt gives an answer the driver takes: every mount at the target is shared, or it fails without output. */
  ghost predicate ProbeWorks(mounts: seq<Mount>, target: Path, probe: Probe) {
    probe.FailsSilently? || (probe.Answers? && AllShared(mounts, target))
  }

  /** Every command that taking the target down needs works. */
  ghost predicate ReleaseCallsWork(n: NodeState, target: Path, env: Env) {
    && ProbeWorks(n.mounts, target, env.probe)
    && (Seen(n, target, LapseOf(env)) && target in n.paths ==> env.reply(0).Fine?)
    && (!env.statFails && target in n.paths ==> env.reply(1).Fine?)
  }

  /** Target path and mount are made without failure, unless there is a mount already. */
  ghost predicate MountCallsWork(n: NodeState, target: Path, env: Env) {
    Seen(n, target, LapseOf(env)) || (env.reply(2).Fine? && env.reply(3).Fine?)
  }

  /** The mount is the only one at the path. */
  ghost predicate SoleMount(mounts: seq<Mount>, e: Mount, target: Path) {
    e in mounts && e.target == target && MountedOnce(mounts)
  }

  /** The mounts at a path, in order. */
  function At(mounts: seq<Mount>, target: Path): seq<Mount> {
    if mounts == [] then []
    else
      var rest := At(mounts[..|mounts| - 1], target);
      if mounts[|mounts| - 1].target == target then rest + [mounts[|mounts| - 1]] else rest
  }

  /** umount takes the topmost mount of the path. */
  function Unmounted(mounts: seq<Mount>, target: Path): seq<Mount> {
    if mounts == [] then []
    else if mounts[|mounts| - 1].target == target then mounts[..|mounts| - 1]
    else Unmounted(mounts[..|mounts| - 1], target) + [mounts[|mounts| - 1]]
  }

  // ----- what each call may do -----

  function WithPath(n: NodeState, p: Path): NodeState { n.(paths := n.paths + {p}) }

  function WithMount(n: NodeState, e: Mount): NodeState {
    n.(paths := n.paths + {e.target}, mounts := n.mounts + [e])
  }

  function WithoutMount(n: NodeState, p: Path): NodeState { n.(mounts := Unmounted(n.mounts, p)) }

  function WithoutPath(n: NodeState, p: Path): NodeState { n.(paths := n.paths - {p}) }

  /** Mounting: the path, then the mount. */
  ghost predicate MountStep(n: NodeState, m: NodeState, e: Mount, ok: bool) {
    (m == n || m == WithPath(n, e.target) || m == WithMount(n, e)) && (ok ==> m == WithMount(n, e))
  }

  /** One more mount, of this source and type at this target, on top of those there were; the target exists. */
  ghost predicate Mounts(n: NodeState, m: NodeState, target: Path, source: Source, fsType: string) {
    && m.paths == n.paths + {target}
    && |m.mounts| == |n.mounts| + 1 && m.mounts[..|n.mounts|] == n.mounts
    && var e := m.mounts[|n.mounts|]; e.target == target && e.source == source && e.fsType == fsType
  }

  /** The target is mounted and findmnt says so. */
  predicate Seen(n: NodeState, target: Path, x: Lapse) { Mounted(n.mounts, target) && !x.mount }

  /**
   Taking a target down: the mount if one is seen, then the path if it is found. A path that still
   carries a mount cannot be removed.
   */
  ghost predicate ReleaseStep(n: NodeState, m: NodeState, target: Path, x: Lapse, ok: bool) {
    var u := if Seen(n, target, x) && target in n.paths then WithoutMount(n, target) else n;
    || (m == u && !ok)
    || (if x.path || target !in n.paths then m == u else !Mounted(u.mounts, target) && m == WithoutPath(u, target))
  }

  /** The mount a publish makes: a bind of the staging path, or of the device itself. */
  ghost predicate PublishedAs(e: Mount, c: Call)
    requires c.Publish?
  {
    && e.target == c.target
    && e.source == (if c.access.RawBlock? then Whole(c.vol) else BindOf(c.staging))
    && e.fsType == PublishFs(c.access)
  }

  function PublishFs(a: Access): string {
    match a case Filesystem(t) => (if t == "" then "ext4" else t) case Nfs(_) => "ext4" case RawBlock => ""
  }

  function DefaultFs(a: Access): string {
    match a case Filesystem(t) => (if t == "" then "ext4" else t) case Nfs(_) => "nfs" case RawBlock => ""
  }

  ghost predicate StagedAs(e: Mount, c: Call)
    requires c.Stage?
  {
    && e.target == c.target && e.fsType == DefaultFs(c.access)
    && e.source == (match c.access case Nfs(share) => Share(share) case _ => Partition(c.vol))
  }

  /** Formatting, then mounting; a failure of either ends the call. */
  ghost predicate FormatAndMount(n: NodeState, m: NodeState, c: Call, x: Lapse, ok: bool)
    requires c.Stage?
  {
    c.vol in n.disks &&
    exists d, formatted ::
      && F.FormatStep(n.disks[c.vol], d, F.Lower(DefaultFs(c.access)), x.disk, formatted)
      && var t := n.(disks := n.disks[c.vol := d]);
         || (m == t && !ok)
         || (formatted && exists e :: StagedAs(e, c) && MountStep(t, m, e, ok))
  }

  /** One call, with what its probes missed. */
  ghost predicate Step(n: NodeState, c: Call, x: Lapse, m: NodeState, ok: bool) {
    var seen := Seen(n, c.target, x);
    || (m == n && !ok)
    || (match c
        case Stage(vol, target, access) =>
          if access.RawBlock? then m == n && ok
          else if seen then
            m == n && ok &&
            (access.Filesystem? ==> exists i :: 0 <= i < |n.mounts| && n.mounts[i].target == target
                                      && F.Lower(n.mounts[i].fsType) == F.Lower(DefaultFs(access)))
          else if access.Nfs? then exists e :: StagedAs(e, c) && MountStep(n, m, e, ok)
          else FormatAndMount(n, m, c, x, ok)
        case Publish(vol, staging, target, access) =>
          if seen then m == n && ok else exists e :: PublishedAs(e, c) && MountStep(n, m, e, ok)
        case Unpublish(target) => ReleaseStep(n, m, target, x, ok)
        case Unstage(target) => ReleaseStep(n, m, target, x, ok))
  }

  // ----- the calls, command by command -----

  ghost predicate Clean(env: Env) {
    env.probe.Answers? && !env.statFails && F.AllFine(env.format) && forall k :: env.reply(k).Fine?
  }

  /** A supported filesystem type, written in lower case as mount needs it. */
  ghost predicate Plain(a: Access, types: seq<string>) {
    DefaultFs(a) in types && F.Lower(DefaultFs(a)) == DefaultFs(a)
  }

  class Node {
    var disks: map<VolumeId, F.Disk>
    var mounts: seq<Mount>
    var paths: set<Path>
    const types: seq<string>

    constructor (n: NodeState, types: seq<string>)
      ensures State() == n && this.types == types
    {
      this.disks := n.disks;
      this.mounts := n.mounts;
      this.paths := n.paths;
      this.types := types;
    }

    ghost function State(): NodeState
      reads this
    {
      NodeState(disks, mounts, paths)
    }

    /** findmnt: an unshared mount at the target is an error. */
    method IsMounted(target: Path, probe: Probe) returns (mounted: bool, ok: bool)
      ensures probe.Breaks? ==> !ok
      ensures probe.FailsSilently? ==> ok && !mounted
      ensures probe.Answers? ==> (ok <==> AllShared(mounts, target)) && (ok ==> mounted == Mounted(mounts, target))
    {
      match probe
      case Breaks => return false, false;
      case FailsSilently => return false, true;
      case Answers =>
        mounted := false;
        for i := 0 to |mounts|
          invariant mounted == Mounted(mounts[..i], target)
          invariant AllShared(mounts[..i], target)
        {
          assert mounts[..i + 1] == mounts[..i] + [mounts[i]];
          if mounts[i].target == target {
            if !mounts[i].shared {
              return true, false;
            }
            mounted := true;
            assert mounts[..i + 1][i].target == target;
          }
        }
        assert mounts[..|mounts|] == mounts;
        return mounted, true;
    }

    /** The first mount at the target, if any. */
    method GetMountInfo(target: Path, probe: Probe) returns (info: Option<Mount>, ok: bool)
      ensures probe.Breaks? ==> !ok
      ensures probe.FailsSilently? ==> ok && info.None?
      ensures probe.Answers? && ok ==> (info.Some? <==> Mounted(mounts, target))
      ensures ok && info.Some? ==> exists i :: 0 <= i < |mounts| && mounts[i] == info.value && info.value.target == target
      ensures probe.Answers? && AllShared(mounts, target) ==> ok
      ensures ok && info.Some? ==> info.value.shared
    {
      match probe
      case Breaks => return None, false;
      case FailsSilently => return None, true;
      case Answers =>
        for i := 0 to |mounts|
          invariant !Mounted(mounts[..i], target)
        {
          if mounts[i].target == target {
            return Some(mounts[i]), mounts[i].shared;
          }
        }
        assert mounts[..|mounts|] == mounts;
        return None, true;
    }

    /** Create the target, then mount. A partition mounts as the type it has, a bind needs its source. */
    method MountAt(e: Mount, path: Outcome, mount: Outcome) returns (ok: bool)
      modifies this
      ensures MountStep(old(State()), State(), e, ok)
      ensures ok <==> path.Fine? && mount.Fine? && Mountable(old(State()), e)
    {
      if !path.Rejected? {
        paths := paths + {e.target};
      }
      if !path.Fine? {
        return false;
      }
      if mount.Rejected? || !Mountable(NodeState(disks, mounts, paths), e) {
        return false;
      }
      mounts := mounts + [e];
      return mount.Fine?;
    }

    method UnmountAt(target: Path, r: Outcome) returns (ok: bool)
      modifies this`mounts
      ensures mounts == old(mounts) || (target in paths && mounts == Unmounted(old(mounts), target))
      ensures ok ==> mounts == if target in paths then Unmounted(old(mounts), target) else old(mounts)
      ensures ok <==> r.Fine? || target !in paths
    {
      if target !in paths {
        return true;
      }
      if !r.Rejected? {
        mounts := Unmounted(mounts, target);
      }
      return r.Fine?;
    }

    /** os.Stat and os.Remove: any failure of the former is taken for an absent path; a path that carries a mount is busy. */
    method RemoveTarget(target: Path, statFails: bool, r: Outcome) returns (ok: bool)
      modifies this`paths
      ensures paths == old(paths) || (!statFails && !Mounted(mounts, target) && paths == old(paths) - {target})
      ensures ok ==> statFails || target !in old(paths) || (!Mounted(mounts, target) && paths == old(paths) - {target})
      ensures statFails ==> ok && paths == old(paths)
      ensures ok <==> statFails || target !in old(paths) || (r.Fine? && !Mounted(mounts, target))
    {
      if statFails || target !in paths {
        return true;
      }
      if r.Rejected? || Mounted(mounts, target) {
        return false;
      }
      paths := paths - {target};
      return r.Fine?;
    }

    method Release(target: Path, env: Env) returns (ok: bool)
      modifies this`mounts, this`paths
      ensures (State() == old(State()) && !ok) || ReleaseStep(old(State()), State(), target, LapseOf(env), ok)
      ensures Clean(env) && AllShared(old(mounts), target) && MountedOnce(old(mounts)) && (Mounted(old(mounts), target) ==> target in old(paths)) ==> ok
      ensures ok && !env.statFails ==> target !in paths && (target in old(paths) ==> !Mounted(mounts, target))
      ensures ok ==> ReleaseCallsWork(old(State()), target, env)
    {
      var mounted, probed := IsMounted(target, env.probe);
      if !probed {
        return false;
      }
      if mounted {
        ok := UnmountAt(target, env.reply(0));
        if !ok {
          return;
        }
        UnmountedOnce(old(mounts), target);
      }
      ok := RemoveTarget(target, env.statFails, env.reply(1));
    }

    method NodeUnpublishVolume(target: Path, env: Env) returns (ok: bool)
      modifies this`mounts, this`paths
      ensures Step(old(State()), Unpublish(target), LapseOf(env), State(), ok)
      ensures Clean(env) && AllShared(old(mounts), target) && MountedOnce(old(mounts)) && (Mounted(old(mounts), target) ==> target in old(paths)) ==> ok
      ensures ok && !env.statFails ==> target !in paths && (target in old(paths) ==> !Mounted(mounts, target))
      ensures ok ==> ReleaseCallsWork(old(State()), target, env)
    {
      ok := Release(target, env);
    }

    method NodeUnstageVolume(target: Path, env: Env) returns (ok: bool)
      modifies this`mounts, this`paths
      ensures Step(old(State()), Unstage(target), LapseOf(env), State(), ok)
      ensures Clean(env) && AllShared(old(mounts), target) && MountedOnce(old(mounts)) && (Mounted(old(mounts), target) ==> target in old(paths)) ==> ok
      ensures ok && !env.statFails ==> target !in paths && (target in old(paths) ==> !Mounted(mounts, target))
      ensures ok ==> ReleaseCallsWork(old(State()), target, env)
    {
      ok := Release(target, env);
    }

    method NodePublishVolume(vol: VolumeId, staging: Path, target: Path, access: Access, env: Env) returns (ok: bool)
      modifies this
      ensures Step(old(State()), Publish(vol, staging, target, access), LapseOf(env), State(), ok)
      ensures ok && !Seen(old(State()), target, LapseOf(env)) ==>
        Mounts(old(State()), State(), target, if access.RawBlock? then Whole(vol) else BindOf(staging),
               if access.RawBlock? then "" else if access.Filesystem? && access.fsType != "" then access.fsType else "ext4")
      ensures ok <==>
        && (access.RawBlock? ==> env.reply(0).Fine?) && ProbeWorks(old(mounts), target, env.probe)
        && (Seen(old(State()), target, LapseOf(env)) ||
            (env.reply(1).Fine? && env.reply(2).Fine? && (access.RawBlock? || staging == target || staging in old(paths))))
    {
      ghost var c := Publish(vol, staging, target, access);
      var source := BindOf(staging);
      if access.RawBlock? {
        if !env.reply(0).Fine? {
          return false;
        }
        source := Whole(vol);
      }
      var mounted, probed := IsMounted(target, env.probe);
      if !probed {
        return false;
      }
      if mounted {
        return true;
      }
      var e := Mount(target, source, PublishFs(access), env.shared);
      assert PublishedAs(e, c);
      ok := MountAt(e, env.reply(1), env.reply(2));
    }

    /** Raw block volumes are not staged. Otherwise an OK leaves the volume mounted at the target as the type requested, ext4 if none is. */
    method NodeStageVolume(vol: VolumeId, target: Path, access: Access, env: Env) returns (ok: bool)
      modifies this
      ensures Step(old(State()), Stage(vol, target, access), LapseOf(env), State(), ok)
      ensures access.RawBlock? ==> ok && State() == old(State())
      ensures ok && access.Nfs? && !Seen(old(State()), target, LapseOf(env)) ==>
        Mounts(old(State()), State(), target, Share(access.share), "nfs") && disks == old(disks)
      ensures ok && access.Filesystem? && access.fsType != "" && !Seen(old(State()), target, LapseOf(env)) ==>
        Mounts(old(State()), State(), target, Partition(vol), access.fsType) && vol in disks && F.HasFilesystem(disks[vol], F.Lower(access.fsType))
      ensures ok && access.Filesystem? && access.fsType == "" && !Seen(old(State()), target, LapseOf(env)) ==>
        Mounts(old(State()), State(), target, Partition(vol), "ext4") && vol in disks && F.HasFilesystem(disks[vol], "ext4")
      ensures access.Filesystem? && Seen(old(State()), target, LapseOf(env)) ==> State() == old(State())
      ensures forall e :: Clean(env) && access.Filesystem? && vol in old(disks) && SoleMount(old(mounts), e, target) ==>
        (ok <==> e.shared && F.Lower(e.fsType) == F.Lower(if access.fsType == "" then "ext4" else access.fsType))
      ensures Clean(env) && access.Filesystem? && !Mounted(old(mounts), target) && vol in old(disks) && Plain(access, types) ==> ok
      ensures access.Nfs? ==> (ok <==> ProbeWorks(old(mounts), target, env.probe) && MountCallsWork(old(State()), target, env))
      ensures ok && access.Filesystem? ==>
        && env.reply(0).Fine? && !env.probe.Breaks? && MountCallsWork(old(State()), target, env)
        && (Seen(old(State()), target, LapseOf(env)) || env.reply(1).Fine?)
    {
      match access
      case RawBlock => return true;
      case Nfs(share) => ok := StageFileStorage(vol, target, share, env);
      case Filesystem(_) => ok := StageFilesystem(vol, target, access, env);
    }

    method StageFileStorage(vol: VolumeId, target: Path, share: string, env: Env) returns (ok: bool)
      modifies this
      ensures Step(old(State()), Stage(vol, target, Nfs(share)), LapseOf(env), State(), ok)
      ensures ok && !Seen(old(State()), target, LapseOf(env)) ==>
        Mounts(old(State()), State(), target, Share(share), "nfs") && disks == old(disks)
      ensures ok <==> ProbeWorks(old(mounts), target, env.probe) && MountCallsWork(old(State()), target, env)
    {
      var mounted, probed := IsMounted(target, env.probe);
      if !probed || mounted {
        return probed;
      }
      var e := Mount(target, Share(share), "nfs", env.shared);
      assert StagedAs(e, Stage(vol, target, Nfs(share)));
      ok := MountAt(e, env.reply(2), env.reply(3));
    }

    method StageFilesystem(vol: VolumeId, target: Path, access: Access, env: Env) returns (ok: bool)
      requires access.Filesystem?
      modifies this
      ensures Step(old(State()), Stage(vol, target, access), LapseOf(env), State(), ok)
      ensures ok && !Seen(old(State()), target, LapseOf(env)) ==>
        Mounts(old(State()), State(), target, Partition(vol), DefaultFs(access)) && vol in disks && F.HasFilesystem(disks[vol], F.Lower(DefaultFs(access)))
      ensures Seen(old(State()), target, LapseOf(env)) ==> State() == old(State())
      ensures ok ==>
        && env.reply(0).Fine? && !env.probe.Breaks? && MountCallsWork(old(State()), target, env)
        && (Seen(old(State()), target, LapseOf(env)) || env.reply(1).Fine?)
      ensures forall e :: Clean(env) && vol in old(disks) && SoleMount(old(mounts), e, target) ==>
        (ok <==> e.shared && F.Lower(e.fsType) == F.Lower(DefaultFs(access)))
      ensures Clean(env) && !Mounted(old(mounts), target) && vol in old(disks) && Plain(access, types) ==> ok
    {
      if !env.reply(0).Fine? || vol !in disks {
        return false;
      }
      var info, probed := GetMountInfo(target, env.probe);
      if !probed {
        return false;
      }
      if info.Some? {
        return F.Lower(info.value.fsType) == F.Lower(DefaultFs(access));
      }
      ok := FormatThenMount(vol, target, access, env);
    }

    method FormatThenMount(vol: VolumeId, target: Path, access: Access, env: Env) returns (ok: bool)
      requires access.Filesystem? && vol in disks
      modifies this
      ensures FormatAndMount(old(State()), State(), Stage(vol, target, access), LapseOf(env), ok)
      ensures ok ==>
        Mounts(old(State()), State(), target, Partition(vol), DefaultFs(access)) && vol in disks && F.HasFilesystem(disks[vol], F.Lower(DefaultFs(access)))
      ensures ok ==> env.reply(1).Fine? && env.reply(2).Fine? && env.reply(3).Fine?
      ensures Clean(env) && Plain(access, types) ==> ok
    {
      ghost var n := State();
      ghost var c := Stage(vol, target, access);
      var fsType := DefaultFs(access);
      var device := new F.BlockDevice(disks[vol]);
      var formatted := device.Format(fsType, types, env.format);
      disks := disks[vol := device.disk];
      ghost var t := State();
      assert t == n.(disks := n.disks[vol := device.disk]);
      assert F.FormatStep(n.disks[vol], device.disk, F.Lower(fsType), F.BlindOf(env.format), formatted);
      if !formatted || !env.reply(1).Fine? {
        return false;
      }
      var e := Mount(target, Partition(vol), fsType, env.shared);
      assert StagedAs(e, c);
      ok := MountAt(e, env.reply(2), env.reply(3));
      assert MountStep(t, State(), e, ok);
      assert FormatAndMount(n, State(), c, LapseOf(env), ok);
    }
  }

  /** Whether the mount command can work at all. */
  predicate Mountable(n: NodeState, e: Mount) {
    match e.source
    case Partition(vol) => vol in n.disks && n.disks[vol].parts != [] && n.disks[vol].parts[|n.disks[vol].parts| - 1] == e.fsType
    case BindOf(path) => path in n.paths + {e.target}
    case _ => true
  }

  lemma {:induction false} UnmountedOnce(mounts: seq<Mount>, target: Path)
    ensures MountedOnce(mounts) ==> !Mounted(Unmounted(mounts, target), target) && MountedOnce(Unmounted(mounts, target))
    ensures forall e :: e in Unmounted(mounts, target) ==> e in mounts
  {
    if mounts != [] {
      var front, last := mounts[..|mounts| - 1], mounts[|mounts| - 1];
      UnmountedOnce(front, target);
      assert mounts == front + [last];
      if MountedOnce(mounts) {
        assert MountedOnce(front);
        var u := Unmounted(front, target);
        forall i | 0 <= i < |u| ensures u[i].target != last.target {
          assert u[i] in front;
          var j :| 0 <= j < |front| && front[j] == u[i];
          assert mounts[j] == u[i];
        }
      }
    }
  }
}
