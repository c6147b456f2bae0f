/**
 Formatting a disk: three stages, each of which checks and then acts. Any command can fail, before or
 after it has taken effect, and blkid can report that it found nothing where there is something.
 */
module Formatting {
  import opened Common

  /** blkid answers, fails, or exits with the status that the driver reads as "not there". */
  datatype Blkid = Answers | Breaks | SaysAbsent

  /** What the commands of one call do: the two blkid probes, and the others by position. */
  datatype Replies = Replies(table: Blkid, filesystem: Blkid, run: nat -> Outcome)

  /** Which of the two probes of a call said "not there" without regard to the disk. */
  datatype Blind = Blind(table: bool, filesystem: bool)

  const Sighted := Blind(false, false)

  function BlindOf(f: Replies): Blind { Blind(f.table.SaysAbsent?, f.filesystem.SaysAbsent?) }

  ghost predicate AllFine(f: Replies) {
    f.table.Answers? && f.filesystem.Answers? && forall n :: f.run(n).Fine?
  }

  datatype Label = NoLabel | Gpt | OtherLabel

  /** Partitions hold a filesystem type, or "" before mkfs. The counters count labels and filesystems written. */
  datatype Disk = Disk(table: Label, parts: seq<string>, labelWrites: nat, fsWrites: nat)

  function Lower(s: string): string {
    seq(|s|, i requires 0 <= i < |s| => if 'A' <= s[i] <= 'Z' then s[i] + ('a' - 'A') else s[i])
  }

  predicate IsUpper(c: char) { 'A' <= c <= 'Z' }

  /** Lower-casing touches capital letters only, leaves none, and pairs the alphabets. */
  lemma LowerFoldsCase(s: string)
    ensures |Lower(s)| == |s| && Lower(Lower(s)) == Lower(s)
    ensures forall i :: 0 <= i < |s| ==> !IsUpper(Lower(s)[i]) && (Lower(s)[i] == s[i] <==> !IsUpper(s[i]))
    ensures Lower("ABCDEFGHIJKLMNOPQRSTUVWXYZ") == "abcdefghijklmnopqrstuvwxyz"
  {
  }

  // ----- what each stage is for -----

  /** A gpt label; writing one drops whatever partitions there were. */
  function Labelled(d: Disk, blind: bool): Disk {
    if d.table.Gpt? && !blind then d else Disk(Gpt, [], d.labelWrites + 1, d.fsWrites)
  }

  /** A partition. */
  function Partitioned(d: Disk): Disk {
    if d.parts != [] then d else d.(parts := [""])
  }

  /** The wanted filesystem on the last partition. */
  function WithFilesystem(d: Disk, fs: string, blind: bool): Disk
    requires d.parts != []
  {
    var last := |d.parts| - 1;
    if d.parts[last] == fs && !blind then d else d.(parts := d.parts[last := fs], fsWrites := d.fsWrites + 1)
  }

  function Complete(d: Disk, fs: string, b: Blind): Disk {
    WithFilesystem(Partitioned(Labelled(d, b.table)), fs, b.filesystem)
  }

  /** A disk that one call of Format has left, or could leave, on its way. */
  ghost predicate OnTheWay(d: Disk, e: Disk, fs: string, b: Blind) {
    e == d || e == Labelled(d, b.table) || e == Partitioned(Labelled(d, b.table)) || e == Complete(d, fs, b)
  }

  /** One call of Format: it gets some of the way, and all of it if it reports success. */
  ghost predicate FormatStep(d: Disk, e: Disk, fs: string, b: Blind, ok: bool) {
    OnTheWay(d, e, fs, b) && (ok ==> e == Complete(d, fs, b))
  }

  // ----- the commands -----

  class BlockDevice {
    var disk: Disk

    constructor (d: Disk)
      ensures disk == d
    {
      disk := d;
    }

    /** blkid --match-token PTTYPE=gpt */
    method HasPartitionTable(r: Blkid) returns (has: bool, ok: bool)
      ensures ok == !r.Breaks?
      ensures has <==> r.Answers? && disk.table.Gpt?
    {
      return r.Answers? && disk.table.Gpt?, !r.Breaks?;
    }

    method CreatePartitionTableIfNotExists(f: Replies) returns (ok: bool)
      modifies this
      ensures disk == old(disk) || disk == Labelled(old(disk), BlindOf(f).table)
      ensures ok ==> disk == Labelled(old(disk), BlindOf(f).table)
      ensures ok <==> !f.table.Breaks? && ((f.table.Answers? && old(disk).table.Gpt?) || f.run(0).Fine?)
    {
      var has, probed := HasPartitionTable(f.table);
      if has || !probed {
        return probed;
      }
      if !f.run(0).Rejected? {
        disk := Disk(Gpt, [], disk.labelWrites + 1, disk.fsWrites);
      }
      return f.run(0).Fine?;
    }

    /** sfdisk --list: the index of the last partition, if the command succeeds and there is one. */
    method LastPartition(r: Outcome) returns (i: int)
      ensures i == if r.Fine? then |disk.parts| - 1 else -1
    {
      return if r.Fine? then |disk.parts| - 1 else -1;
    }

    /** Any failure of the listing counts as no partition; mkpart then fails if the space is taken. */
    method CreatePartitionIfNotExists(f: Replies) returns (i: int)
      requires disk.table.Gpt?
      modifies this
      ensures disk == old(disk) || disk == Partitioned(old(disk))
      ensures i >= 0 ==> disk == Partitioned(old(disk)) && i == |disk.parts| - 1
      ensures i >= 0 <==> if old(disk).parts != [] then f.run(1).Fine? else f.run(2).Fine? && f.run(3).Fine?
    {
      i := LastPartition(f.run(1));
      if i >= 0 {
        return;
      }
      if disk.parts != [] {
        return -1;
      }
      if !f.run(2).Rejected? {
        disk := disk.(parts := [""]);
      }
      if !f.run(2).Fine? {
        return -1;
      }
      i := LastPartition(f.run(3));
    }

    /** blkid --match-token TYPE=fs */
    method FilesystemExists(i: int, fs: string, r: Blkid) returns (has: bool, ok: bool)
      requires 0 <= i < |disk.parts|
      ensures ok == !r.Breaks?
      ensures has <==> r.Answers? && disk.parts[i] == fs
    {
      return r.Answers? && disk.parts[i] == fs, !r.Breaks?;
    }

    method CreateFilesystemIfNotExists(i: int, fs: string, f: Replies) returns (ok: bool)
      requires 0 <= i == |disk.parts| - 1
      modifies this
      ensures disk == old(disk) || disk == WithFilesystem(old(disk), fs, BlindOf(f).filesystem)
      ensures ok ==> disk == WithFilesystem(old(disk), fs, BlindOf(f).filesystem)
      ensures ok <==> !f.filesystem.Breaks? && ((f.filesystem.Answers? && old(disk).parts[i] == fs) || f.run(4).Fine?)
    {
      var has, probed := FilesystemExists(i, fs, f.filesystem);
      if has || !probed {
        return probed;
      }
      if !f.run(4).Rejected? {
        disk := disk.(parts := disk.parts[i := fs], fsWrites := disk.fsWrites + 1);
      }
      return f.run(4).Fine?;
    }

    static method IsSupported(types: seq<string>, fs: string) returns (found: bool)
      ensures found == (fs in types)
    {
      for i := 0 to |types|
        invariant fs !in types[..i]
      {
        if types[i] == fs {
          return true;
        }
      }
      return false;
    }

    /** Format: every call makes some of the progress there is to make; a call in which nothing fails makes all of it. */
    method Format(fsType: string, types: seq<string>, f: Replies) returns (ok: bool)
      modifies this
      ensures FormatStep(old(disk), disk, Lower(fsType), BlindOf(f), ok)
      ensures ok ==> HasFilesystem(disk, Lower(fsType))
      ensures fsType == "" || Lower(fsType) !in types ==> disk == old(disk) && !ok
      ensures fsType != "" && Lower(fsType) in types && AllFine(f) ==> ok
    {
      if fsType == "" {
        return false;
      }
      var fs := Lower(fsType);
      var supported := IsSupported(types, fs);
      if !supported {
        return false;
      }
      ok := CreatePartitionTableIfNotExists(f);
      if !ok {
        return;
      }
      var i := CreatePartitionIfNotExists(f);
      if i < 0 {
        return false;
      }
      ok := CreateFilesystemIfNotExists(i, fs, f);
    }
  }

  // ----- one call, exactly -----

  /** The requested filesystem is on the last partition of a gpt disk. */
  ghost predicate HasFilesystem(d: Disk, fs: string) {
    d.table.Gpt? && d.parts != [] && d.parts[|d.parts| - 1] == fs
  }

  /** A probe missed something that is there. */
  ghost predicate Misled(d: Disk, fs: string, b: Blind) {
    (b.table && d.table.Gpt?) || (b.filesystem && HasFilesystem(d, fs))
  }

  /**
   What a successful Format leaves alone, exactly. The disk is untouched if and only if it has the
   requested filesystem and no probe misses it; otherwise mkfs takes effect once. A label that is not
   gpt, or is not seen, is rewritten and every partition under it is lost.
   */
  lemma FormatExactly(d: Disk, e: Disk, fs: string, b: Blind)
    requires fs != "" && FormatStep(d, e, fs, b, true)
    ensures e == d <==> HasFilesystem(d, fs) && !Misled(d, fs, b)
    ensures e.fsWrites == d.fsWrites + if HasFilesystem(d, fs) && !Misled(d, fs, b) then 0 else 1
    ensures e.labelWrites == d.labelWrites + if d.table.Gpt? && !b.table then 0 else 1
    ensures e.table.Gpt? && e.parts ==
      if d.table.Gpt? && !b.table && d.parts != [] then d.parts[..|d.parts| - 1] + [fs] else [fs]
  {
    var p := Partitioned(Labelled(d, b.table));
    var last := |p.parts| - 1;
    assert p.parts[last := fs] == p.parts[..last] + [fs];
    assert p.parts[last] == fs ==> p.parts == p.parts[..last] + [fs];
  }

  /** Only the requested type is recognised: asking for another one overwrites the filesystem there is. */
  lemma OtherTypeIsOverwritten()
    ensures FormatStep(Disk(Gpt, ["xfs"], 1, 1), Disk(Gpt, ["ext4"], 1, 2), "ext4", Sighted, true)
  {
    assert ["xfs"][0 := "ext4"] == ["ext4"];
  }

  /** Only gpt is recognised: another label goes, with the filesystem of the requested type under it. */
  lemma OtherLabelIsOverwritten()
    ensures FormatStep(Disk(OtherLabel, ["ext4", "xfs"], 0, 2), Disk(Gpt, ["ext4"], 1, 3), "ext4", Sighted, true)
  {
    assert [""][0 := "ext4"] == ["ext4"];
  }

  /** A blkid that gathers nothing from a formatted disk lets mkfs run over its data. */
  lemma MissedFilesystemIsOverwritten()
    ensures FormatStep(Disk(Gpt, ["ext4"], 1, 1), Disk(Gpt, ["ext4"], 1, 2), "ext4", Blind(false, true), true)
  {
    assert ["ext4"][0 := "ext4"] == ["ext4"];
  }

  /** Unless a probe misses something, a call is as good as one whose probes see. */
  lemma NotMisled(d: Disk, e: Disk, fs: string, b: Blind, ok: bool)
    requires fs != "" && !Misled(d, fs, b) && FormatStep(d, e, fs, b, ok)
    ensures FormatStep(d, e, fs, Sighted, ok)
  {
  }

  // ----- runs of Format -----

  /** From anywhere on the way, the way and its end are the same. */
  lemma OnTheWayIsClosed(d: Disk, e: Disk, g: Disk, fs: string)
    requires fs != "" && OnTheWay(d, e, fs, Sighted) && OnTheWay(e, g, fs, Sighted)
    ensures OnTheWay(d, g, fs, Sighted) && Complete(e, fs, Sighted) == Complete(d, fs, Sighted)
  {
    var p := Partitioned(Labelled(d, false));
    var last := |p.parts| - 1;
    assert p.parts[last := fs][last] == fs;
  }

  datatype Attempt = Attempt(blind: Blind, ok: bool)

  ghost predicate FormatRun(disks: seq<Disk>, calls: seq<Attempt>, fs: string) {
    && |disks| == |calls| + 1
    && forall n :: 0 <= n < |calls| ==> FormatStep(disks[n], disks[n + 1], fs, calls[n].blind, calls[n].ok)
  }

  /** No probe of the run misses something that is there. */
  ghost predicate NeverMisled(disks: seq<Disk>, calls: seq<Attempt>, fs: string)
    requires |disks| == |calls| + 1
  {
    forall n :: 0 <= n < |calls| ==> !Misled(disks[n], fs, calls[n].blind)
  }

  /**
   However often and wherever formatting fails, on whatever disk, the disk is always one of at most
   four: untouched, labelled, partitioned, complete. Once a call succeeds it is the complete disk, the same one a
   first-time success makes.
   */
  lemma {:induction false} FormatSurvivesFailure(disks: seq<Disk>, calls: seq<Attempt>, fs: string)
    requires fs != "" && FormatRun(disks, calls, fs) && NeverMisled(disks, calls, fs)
    ensures OnTheWay(disks[0], disks[|calls|], fs, Sighted)
    ensures calls != [] && calls[|calls| - 1].ok ==> disks[|calls|] == Complete(disks[0], fs, Sighted)
  {
    if calls != [] {
      var n := |calls| - 1;
      FormatSurvivesFailure(disks[..n + 1], calls[..n], fs);
      assert disks[..n + 1][n] == disks[n];
      NotMisled(disks[n], disks[n + 1], fs, calls[n].blind, calls[n].ok);
      OnTheWayIsClosed(disks[0], disks[n], disks[n + 1], fs);
    }
  }

  const Blank := Disk(NoLabel, [], 0, 0)

  /** What a blank disk can look like between calls, whatever the probes say. */
  ghost predicate BlankOnTheWay(d: Disk, fs: string) {
    (d.table.NoLabel? && d.parts == []) || (d.table.Gpt? && (d.parts == [] || d.parts == [""] || d.parts == [fs]))
  }

  lemma {:induction false} BlankStaysOnTheWay(disks: seq<Disk>, calls: seq<Attempt>, fs: string)
    requires FormatRun(disks, calls, fs) && disks[0] == Blank
    ensures BlankOnTheWay(disks[|calls|], fs)
    ensures calls != [] && calls[|calls| - 1].ok ==> disks[|calls|].table.Gpt? && disks[|calls|].parts == [fs]
  {
    if calls != [] {
      var n := |calls| - 1;
      BlankStaysOnTheWay(disks[..n + 1], calls[..n], fs);
      assert disks[..n + 1][n] == disks[n];
      assert [""][0 := fs] == [fs] && [fs][0 := fs] == [fs];
    }
  }

  /**
   From a blank disk a success leaves a gpt label and one partition with the requested filesystem,
   even if probes missed what earlier calls had done; if none did, each was written once.
   */
  lemma BlankDiskFormatted(disks: seq<Disk>, calls: seq<Attempt>, fs: string)
    requires fs != "" && FormatRun(disks, calls, fs) && disks[0] == Blank && calls != [] && calls[|calls| - 1].ok
    ensures var e := disks[|calls|];
      && e.table.Gpt? && e.parts == [fs]
      && (NeverMisled(disks, calls, fs) ==> e == Disk(Gpt, [fs], 1, 1))
  {
    BlankStaysOnTheWay(disks, calls, fs);
    if NeverMisled(disks, calls, fs) {
      FormatSurvivesFailure(disks, calls, fs);
    }
  }

  /** On the way, mkfs takes effect at most once and not on a filesystem of that type; a gpt label is never rewritten. */
  lemma DataIsPreserved(d: Disk, e: Disk, fs: string)
    requires fs != "" && OnTheWay(d, e, fs, Sighted)
    ensures d.fsWrites <= e.fsWrites <= d.fsWrites + 1
    ensures HasFilesystem(d, fs) ==> e == d
    ensures d.table.Gpt? ==> e.labelWrites == d.labelWrites && e.table.Gpt?
    ensures e.labelWrites <= d.labelWrites + 1
    ensures e.fsWrites == d.fsWrites + 1 ==> HasFilesystem(e, fs)
  {
    OnTheWayIsClosed(d, e, e, fs);
  }
}
