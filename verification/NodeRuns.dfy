/**
 What the node service keeps over whole sequential runs with arbitrary repeats and failures.
 */
module NodeRuns {
  import opened Devices
  import F = Formatting
  import opened NodeMounts

  // ----- the mount table under mount and umount -----

  lemma AtAppend(mounts: seq<Mount>, e: Mount, p: Path)
    ensures At(mounts + [e], p) == if e.target == p then At(mounts, p) + [e] else At(mounts, p)
  {
    assert (mounts + [e])[..|mounts|] == mounts;
  }

  lemma {:induction false} AtUnmounted(mounts: seq<Mount>, target: Path, p: Path)
    requires p != target
    ensures At(Unmounted(mounts, target), p) == At(mounts, p)
  {
    if mounts != [] && mounts[|mounts| - 1].target != target {
      AtUnmounted(mounts[..|mounts| - 1], target, p);
      AtAppend(Unmounted(mounts[..|mounts| - 1], target), mounts[|mounts| - 1], p);
    }
  }

  lemma UnmountUndoesMount(mounts: seq<Mount>, e: Mount)
    ensures Unmounted(mounts + [e], e.target) == mounts
  {
    assert (mounts + [e])[..|mounts|] == mounts;
  }

  // ----- one call -----

  /** The part of the node that a path stands for. */
  ghost predicate SamePath(n: NodeState, m: NodeState, p: Path) {
    At(m.mounts, p) == At(n.mounts, p) && (p in m.paths <==> p in n.paths)
  }

  lemma MountTouchesTarget(n: NodeState, m: NodeState, e: Mount, ok: bool, p: Path)
    requires MountStep(n, m, e, ok) && p != e.target
    ensures SamePath(n, m, p)
  {
    AtAppend(n.mounts, e, p);
  }

  lemma ReleaseTouchesTarget(n: NodeState, m: NodeState, target: Path, x: Lapse, ok: bool, p: Path)
    requires ReleaseStep(n, m, target, x, ok) && p != target
    ensures SamePath(n, m, p)
  {
    AtUnmounted(n.mounts, target, p);
  }

  lemma StepTouchesTarget(n: NodeState, c: Call, x: Lapse, m: NodeState, ok: bool, p: Path)
    requires Step(n, c, x, m, ok) && p != c.target
    ensures SamePath(n, m, p)
  {
    if m != n {
      match c
      case Stage(vol, target, access) =>
        if access.Nfs? {
          var e :| StagedAs(e, c) && MountStep(n, m, e, ok);
          MountTouchesTarget(n, m, e, ok, p);
        } else {
          StageTouchesTarget(n, c, x, m, ok, p);
        }
      case Publish(_, _, _, _) =>
        var e :| PublishedAs(e, c) && MountStep(n, m, e, ok);
        MountTouchesTarget(n, m, e, ok, p);
      case Unpublish(target) => ReleaseTouchesTarget(n, m, target, x, ok, p);
      case Unstage(target) => ReleaseTouchesTarget(n, m, target, x, ok, p);
    }
  }

  lemma StageTouchesTarget(n: NodeState, c: Call, x: Lapse, m: NodeState, ok: bool, p: Path)
    requires c.Stage? && FormatAndMount(n, m, c, x, ok) && p != c.target
    ensures SamePath(n, m, p)
  {
    var d, formatted :|
      && F.FormatStep(n.disks[c.vol], d, F.Lower(DefaultFs(c.access)), x.disk, formatted)
      && var t := n.(disks := n.disks[c.vol := d]);
         || (m == t && !ok)
         || (formatted && exists e :: StagedAs(e, c) && MountStep(t, m, e, ok));
    var t := n.(disks := n.disks[c.vol := d]);
    if !(m == t && !ok) {
      var e :| StagedAs(e, c) && MountStep(t, m, e, ok);
      MountTouchesTarget(t, m, e, ok, p);
    }
  }

  /** The calls that mount: publishing, and staging anything but a raw block volume. */
  predicate Mounting(c: Call) {
    c.Publish? || (c.Stage? && !c.access.RawBlock?)
  }

  /** The mount table after a call: as it was, without the target's topmost mount, or with one more at the target. */
  lemma TableAfter(n: NodeState, c: Call, x: Lapse, m: NodeState, ok: bool)
    requires Step(n, c, x, m, ok)
    ensures
      || m.mounts == n.mounts
      || m.mounts == Unmounted(n.mounts, c.target)
      || (Mounting(c) && !Seen(n, c.target, x) && BroughtUp(n, m, c.target))
    ensures ok && Mounting(c) && !Seen(n, c.target, x) ==> BroughtUp(n, m, c.target)
  {
    if m != n && c.Stage? && c.access.Filesystem? && !Seen(n, c.target, x) {
      assert FormatAndMount(n, m, c, x, ok);
    }
  }

  /** Bringing a target up: one more mount at it, last in the table, and the path. */
  ghost predicate BroughtUp(n: NodeState, m: NodeState, target: Path) {
    exists e: Mount :: e.target == target && m.mounts == n.mounts + [e] && m.paths == n.paths + {target}
  }

  /** A mounting call that misses the mount its target has. */
  ghost predicate MountsOnTop(n: NodeState, c: Call, x: Lapse) {
    x.mount && Mounting(c) && Mounted(n.mounts, c.target)
  }

  lemma StepMountsOnce(n: NodeState, c: Call, x: Lapse, m: NodeState, ok: bool)
    requires Step(n, c, x, m, ok) && MountedOnce(n.mounts) && !MountsOnTop(n, c, x)
    ensures MountedOnce(m.mounts)
  {
    TableAfter(n, c, x, m, ok);
    UnmountedOnce(n.mounts, c.target);
  }

  /** For a call that is answered OK, missing its own target's mount is exactly what mounts a path twice. */
  lemma MountedTwiceExactly(n: NodeState, c: Call, x: Lapse, m: NodeState)
    requires Step(n, c, x, m, true) && MountedOnce(n.mounts)
    ensures MountedOnce(m.mounts) <==> !MountsOnTop(n, c, x)
  {
    if MountsOnTop(n, c, x) {
      TableAfter(n, c, x, m, true);
      var i :| 0 <= i < |n.mounts| && n.mounts[i].target == c.target;
      assert m.mounts[i].target == m.mounts[|n.mounts|].target;
    } else {
      StepMountsOnce(n, c, x, m, true);
    }
  }

  // ----- runs -----

  datatype Event = Event(call: Call, lapse: Lapse, ok: bool)

  ghost predicate NodeRun(states: seq<NodeState>, events: seq<Event>) {
    && |states| == |events| + 1
    && forall i :: 0 <= i < |events| ==> Step(states[i], events[i].call, events[i].lapse, states[i + 1], events[i].ok)
  }

  /** In every run in which no mounting call misses the mount of its own target, each path carries at most one mount. */
  lemma {:induction false} EachPathMountedOnce(states: seq<NodeState>, events: seq<Event>)
    requires NodeRun(states, events) && MountedOnce(states[0].mounts)
    requires forall i :: 0 <= i < |events| ==> !MountsOnTop(states[i], events[i].call, events[i].lapse)
    ensures MountedOnce(states[|events|].mounts)
  {
    if events != [] {
      var i := |events| - 1;
      EachPathMountedOnce(states[..i + 1], events[..i]);
      assert states[..i + 1][i] == states[i];
      StepMountsOnce(states[i], events[i].call, events[i].lapse, states[i + 1], events[i].ok);
    }
  }

  /** A findmnt that is killed without output makes a repeated publish mount on top of its own mount. */
  lemma SilentProbeMountsTwice()
    ensures var e := Mount("/pod", BindOf("/stage"), "ext4", true);
      var n := NodeState(map[], [e], {"/pod", "/stage"});
      var c := Publish(1, "/stage", "/pod", Filesystem("ext4"));
      && MountedOnce(n.mounts)
      && Step(n, c, Lapse(true, F.Sighted, false), n.(mounts := [e, e]), true)
      && !MountedOnce([e, e])
  {
    var e := Mount("/pod", BindOf("/stage"), "ext4", true);
    var n := NodeState(map[], [e], {"/pod", "/stage"});
    var c := Publish(1, "/stage", "/pod", Filesystem("ext4"));
    assert PublishedAs(e, c);
    assert [e] + [e] == [e, e];
    assert n.paths + {e.target} == n.paths;
    assert WithMount(n, e) == n.(mounts := [e, e]);
    assert MountStep(n, n.(mounts := [e, e]), e, true);
    assert [e, e][0].target == [e, e][1].target;
  }

  /** Paths that no call of the run names are as they were, mounts and all. */
  lemma {:induction false} OtherPathsUntouched(states: seq<NodeState>, events: seq<Event>, p: Path)
    requires NodeRun(states, events) && forall i :: 0 <= i < |events| ==> events[i].call.target != p
    ensures SamePath(states[0], states[|events|], p)
  {
    if events != [] {
      var i := |events| - 1;
      OtherPathsUntouched(states[..i + 1], events[..i], p);
      assert states[..i + 1][i] == states[i];
      StepTouchesTarget(states[i], events[i].call, events[i].lapse, states[i + 1], events[i].ok, p);
    }
  }

  // ----- the life cycle -----

  lemma AbsentMeansUnmounted(n: NodeState, p: Path, e: Mount)
    requires !Mounted(n.mounts, p) && e.target != p
    ensures !Mounted(n.mounts + [e], p)
  {
    var ms := n.mounts + [e];
    forall i | 0 <= i < |ms| ensures ms[i].target != p {
      if i < |n.mounts| { assert ms[i] == n.mounts[i]; }
    }
  }

  lemma UpIsMounted(n: NodeState, u: NodeState, target: Path)
    requires BroughtUp(n, u, target)
    ensures Mounted(u.mounts, target)
  {
    assert u.mounts[|n.mounts|].target == target;
  }

  /**
   An OK for taking down a mounted target. It leaves the mount exactly if findmnt missed it, and the path exactly
   if os.Stat failed; a mount that findmnt missed keeps the path busy, so that both were missed.
   */
  lemma ReleaseExactly(u: NodeState, m: NodeState, target: Path, x: Lapse)
    requires Mounted(u.mounts, target) && target in u.paths && ReleaseStep(u, m, target, x, true)
    ensures m.disks == u.disks && (x.mount ==> x.path)
    ensures m.mounts == if x.mount then u.mounts else Unmounted(u.mounts, target)
    ensures m.paths == if x.path then u.paths else u.paths - {target}
  {
  }

  /** Taking down what was just brought up. */
  lemma ReleaseRestores(n: NodeState, u: NodeState, m: NodeState, target: Path, x: Lapse)
    requires BroughtUp(n, u, target) && target !in n.paths && ReleaseStep(u, m, target, x, true)
    ensures m.disks == u.disks && (x.mount ==> x.path)
    ensures m.mounts == if x.mount then u.mounts else n.mounts
    ensures m.paths == if x.path then u.paths else n.paths
  {
    var e: Mount :| e.target == target && u.mounts == n.mounts + [e] && u.paths == n.paths + {target};
    UnmountUndoesMount(n.mounts, e);
    UpIsMounted(n, u, target);
    ReleaseExactly(u, m, target, x);
  }

  lemma {:induction false} UnmountedLength(mounts: seq<Mount>, target: Path)
    ensures |Unmounted(mounts, target)| >= |mounts| - 1
  {
    if mounts != [] { UnmountedLength(mounts[..|mounts| - 1], target); }
  }

  /** The release of the staging path, after the first release left the published mount or not. */
  lemma SecondRelease(base: seq<Mount>, e: Mount, s3: NodeState, s4: NodeState, more: seq<Mount>, y: Lapse)
    requires s3.mounts == base + [e] + more && e.target in s3.paths && ReleaseStep(s3, s4, e.target, y, true)
    ensures s4.mounts == base <==> more == [] && !y.mount
    ensures s4.paths == if y.path then s3.paths else s3.paths - {e.target}
    ensures y.mount ==> y.path
  {
    assert s3.mounts[|base|].target == e.target;
    ReleaseExactly(s3, s4, e.target, y);
    if more == [] {
      assert base + [e] + more == base + [e];
      UnmountUndoesMount(base, e);
    } else {
      UnmountedLength(s3.mounts, e.target);
    }
  }

  function Kept(p: Path, keep: bool): set<Path> { if keep then {p} else {} }

  lemma PathsLeft(paths: set<Path>, staging: Path, target: Path, x: bool, y: bool)
    requires staging != target && staging !in paths && target !in paths
    ensures var up := if x then paths + {staging} + {target} else paths + {staging};
      && staging in up
      && (if y then up else up - {staging}) == paths + Kept(target, x) + Kept(staging, y)
  {
  }

  /** Releasing a target and a staging path that were brought up the other way round. */
  lemma TwoReleases(s0: NodeState, s1: NodeState, s2: NodeState, s3: NodeState, s4: NodeState, staging: Path, target: Path, x: Lapse, y: Lapse)
    requires staging != target && staging !in s0.paths && target !in s0.paths
    requires BroughtUp(s0, s1, staging) && BroughtUp(s1, s2, target)
    requires ReleaseStep(s2, s3, target, x, true) && ReleaseStep(s3, s4, staging, y, true)
    ensures s4.mounts == s0.mounts <==> !x.mount && !y.mount
    ensures s4.paths == s0.paths + Kept(target, x.path) + Kept(staging, y.path)
    ensures (x.mount ==> x.path) && (y.mount ==> y.path)
  {
    var e: Mount :| e.target == staging && s1.mounts == s0.mounts + [e] && s1.paths == s0.paths + {staging};
    var f: Mount :| f.target == target && s2.mounts == s1.mounts + [f] && s2.paths == s1.paths + {target};
    ReleaseRestores(s1, s2, s3, target, x);
    PathsLeft(s0.paths, staging, target, x.path, y.path);
    var more := if x.mount then [f] else [];
    assert s3.mounts == s0.mounts + [e] + more;
    SecondRelease(s0.mounts, e, s3, s4, more, y);
  }

  /**
   Stage, publish, unpublish, unstage, each answered OK, from paths that were absent, whatever the
   probes of the four calls missed. The mount table is what it was if and only if findmnt missed neither mount when
   it was to be taken down; the target and the staging path are gone if and only if os.Stat did not fail on them.
   */
  lemma {:induction false} LifeCycleRestores(s0: NodeState, s1: NodeState, s2: NodeState, s3: NodeState, s4: NodeState,
                          vol: VolumeId, staging: Path, target: Path, staged: Access, published: Access,
                          x1: Lapse, x2: Lapse, x3: Lapse, x4: Lapse)
    requires staging != target && staging !in s0.paths && target !in s0.paths
    requires !Mounted(s0.mounts, staging) && !Mounted(s0.mounts, target) && !staged.RawBlock?
    requires Step(s0, Stage(vol, staging, staged), x1, s1, true)
    requires Step(s1, Publish(vol, staging, target, published), x2, s2, true)
    requires Step(s2, Unpublish(target), x3, s3, true)
    requires Step(s3, Unstage(staging), x4, s4, true)
    ensures s4.mounts == s0.mounts <==> !x3.mount && !x4.mount
    ensures s4.paths == s0.paths + Kept(target, x3.path) + Kept(staging, x4.path)
    ensures (x3.mount ==> x3.path) && (x4.mount ==> x4.path)
  {
    TableAfter(s0, Stage(vol, staging, staged), x1, s1, true);
    assert !Mounted(s1.mounts, target) by {
      var e: Mount :| e.target == staging && s1.mounts == s0.mounts + [e] && s1.paths == s0.paths + {staging};
      AbsentMeansUnmounted(s0, target, e);
    }
    TableAfter(s1, Publish(vol, staging, target, published), x2, s2, true);
    assert ReleaseStep(s2, s3, target, x3, true) && ReleaseStep(s3, s4, staging, x4, true);
    TwoReleases(s0, s1, s2, s3, s4, staging, target, x3, x4);
  }

  /** The same for a raw block volume, whose staging does nothing: the node is as it was unless os.Stat failed on the target. */
  lemma RawLifeCycleRestores(s0: NodeState, s1: NodeState, s2: NodeState, s3: NodeState, s4: NodeState,
                             vol: VolumeId, staging: Path, target: Path, x1: Lapse, x2: Lapse, x3: Lapse, x4: Lapse)
    requires staging != target && staging !in s0.paths && target !in s0.paths
    requires !Mounted(s0.mounts, staging) && !Mounted(s0.mounts, target)
    requires Step(s0, Stage(vol, staging, RawBlock), x1, s1, true)
    requires Step(s1, Publish(vol, staging, target, RawBlock), x2, s2, true)
    requires Step(s2, Unpublish(target), x3, s3, true)
    requires Step(s3, Unstage(staging), x4, s4, true)
    ensures s4 == s0 <==> !x3.path
    ensures s4.mounts == s0.mounts <==> !x3.mount
  {
    TableAfter(s1, Publish(vol, staging, target, RawBlock), x2, s2, true);
    ReleaseRestores(s1, s2, s3, target, x3);
    assert s4 == s3;
  }

  // ----- the data -----

  /** A call that gets as far as formatting the volume's disk: a filesystem stage whose target is not seen mounted. */
  ghost predicate Formats(n: NodeState, c: Call, x: Lapse, vol: VolumeId) {
    c.Stage? && c.vol == vol && c.access.Filesystem? && !Seen(n, c.target, x)
  }

  lemma StepOnDisk(n: NodeState, c: Call, x: Lapse, m: NodeState, ok: bool, vol: VolumeId)
    requires Step(n, c, x, m, ok) && vol in n.disks
    ensures vol in m.disks
    ensures if Formats(n, c, x, vol) then F.OnTheWay(n.disks[vol], m.disks[vol], F.Lower(DefaultFs(c.access)), x.disk)
            else m.disks[vol] == n.disks[vol]
  {
    if m != n && c.Stage? && c.access.Filesystem? && !Seen(n, c.target, x) {
      assert FormatAndMount(n, m, c, x, ok);
    }
  }

  /** A disk that differs after a run was formatted by some stage call of the run that did not see its target mounted. */
  lemma {:induction false} DiskWrittenOnlyWhenUnmounted(states: seq<NodeState>, events: seq<Event>, vol: VolumeId)
    requires NodeRun(states, events) && vol in states[0].disks
    ensures vol in states[|events|].disks
    ensures states[|events|].disks[vol] != states[0].disks[vol] ==>
      exists i :: 0 <= i < |events| && Formats(states[i], events[i].call, events[i].lapse, vol)
  {
    if events != [] {
      var i := |events| - 1;
      DiskWrittenOnlyWhenUnmounted(states[..i + 1], events[..i], vol);
      assert states[..i + 1][i] == states[i];
      StepOnDisk(states[i], events[i].call, events[i].lapse, states[i + 1], events[i].ok, vol);
      if states[i].disks[vol] != states[0].disks[vol] {
        var j :| 0 <= j < i && Formats(states[..i + 1][j], events[..i][j].call, events[..i][j].lapse, vol);
        assert Formats(states[j], events[j].call, events[j].lapse, vol);
      }
    }
  }

  /** Every call that formats the volume asks for one type, and its probes miss nothing that is on the disk. */
  ghost predicate SteadyAndSeen(states: seq<NodeState>, events: seq<Event>, vol: VolumeId, fs: string)
    requires |states| == |events| + 1
  {
    forall i :: 0 <= i < |events| && Formats(states[i], events[i].call, events[i].lapse, vol) && vol in states[i].disks ==>
      F.Lower(DefaultFs(events[i].call.access)) == fs && !F.Misled(states[i].disks[vol], fs, events[i].lapse.disk)
  }

  lemma {:induction false} RunStaysOnTheWay(states: seq<NodeState>, events: seq<Event>, vol: VolumeId, fs: string, k: nat)
    requires NodeRun(states, events) && vol in states[0].disks && fs != "" && SteadyAndSeen(states, events, vol, fs)
    requires k <= |events|
    ensures vol in states[k].disks && F.OnTheWay(states[0].disks[vol], states[k].disks[vol], fs, F.Sighted)
    decreases k
  {
    if k > 0 {
      var i := k - 1;
      RunStaysOnTheWay(states, events, vol, fs, i);
      StepOnDisk(states[i], events[i].call, events[i].lapse, states[k], events[i].ok, vol);
      var d, e := states[i].disks[vol], states[k].disks[vol];
      if Formats(states[i], events[i].call, events[i].lapse, vol) { F.NotMisled(d, e, fs, events[i].lapse.disk, false); }
      F.OnTheWayIsClosed(states[0].disks[vol], d, e, fs);
    }
  }

  /**
   In every run whose stage calls ask for one filesystem type on a volume, repeats and failures
   included, and in which blkid does not miss what is on the disk: mkfs takes effect on the volume at most once, and
   not at all if the filesystem is there; a gpt label is never rewritten.
   */
  lemma RunPreservesData(states: seq<NodeState>, events: seq<Event>, vol: VolumeId, fs: string)
    requires NodeRun(states, events) && vol in states[0].disks && fs != "" && SteadyAndSeen(states, events, vol, fs)
    ensures vol in states[|events|].disks
    ensures var d, e := states[0].disks[vol], states[|events|].disks[vol];
      && F.OnTheWay(d, e, fs, F.Sighted)
      && e.fsWrites <= d.fsWrites + 1
      && (F.HasFilesystem(d, fs) ==> e == d)
      && (d.table.Gpt? ==> e.labelWrites == d.labelWrites)
  {
    RunStaysOnTheWay(states, events, vol, fs, |events|);
    F.DataIsPreserved(states[0].disks[vol], states[|events|].disks[vol], fs);
  }
}
