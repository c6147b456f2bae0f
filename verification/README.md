# The UpCloud CSI driver, modelled in Dafny

This project models the stateful core of the UpCloud CSI driver and proves what it keeps over whole
runs: the concurrent attach/detach protocol, the controller's store of volumes and snapshots, disk
formatting and the mount life cycle on a node, and the small exact algorithms (capacity ranges,
pagination tokens, partition names). `dafny verify dfyconfig.toml` verifies everything.

| file | what it holds |
|---|---|
| `Common.dfy` | options, and the outcome of a backend call |
| `Devices.dfy` | device lists of a server: scan, detach by address |
| `AttachProtocol.dfy` | the protocol as a transition system, its invariant, safety |
| `AttachHistory.dfy` | refinement of an atomic attachment map, lock order, meaning of the replies |
| `AttachProgress.dfy` | lock table, deadlock freedom, termination measure |
| `AttachLimits.dfy`, `AttachRaces.dfy` | device limit and single attachment; runs that show their conditions are needed |
| `AttachReplies.dfy` | what every answer means over a run; what an undisturbed publish or unpublish achieves |
| `Unpublish.dfy` | the publish check and the unpublish-all loop, imperative, with retries |
| `Capacity.dfy`, `Expansion.dfy` | capacity ranges; volume expansion |
| `VolumeStore.dfy`, `StoreRuns.dfy` | create, clone, delete, snapshots; what sequential runs keep |
| `ControllerCalls.dfy` | the same RPCs call by call, with what each gives its caller |
| `Pagination.dfy`, `PartitionNames.dfy` | list tokens; partition names |
| `Formatting.dfy`, `NodeMounts.dfy`, `NodeRuns.dfy` | Format; the four node RPCs; what their runs keep |

## How the attach protocol is modelled

A state holds the servers (power state and devices), `nodeSync`, the held mutexes, one record per RPC
worker with its program point and everything it has read, and a log. A label lets one worker take its
next step with some backend reply, lets a server come back from maintenance, or starts a new RPC. A
run is any finite sequence of labels, so every theorem about `Run` is about every interleaving of any
number of workers over any number of servers, with every wait and call free to fail. A call may also
take effect and still report an error.

Assumptions about the backend: an attach or detach call changes the device list atomically and puts
the server in maintenance, only the return to `started` lags; only the driver causes maintenance; the
address given to a new device is not in use on that server; a detach by address removes the device at that
address; a volume's details list exactly the servers that hold it; servers are not deleted during a run.

## What is assumed elsewhere

- Storages: ids are not reused; a lookup by name reads the list the backend has at that moment. The title of
  the backup that a resize makes is the backend's choice and may be any; where its choice matters the
  theorem says so.
- Node: findmnt, blkid and os.Stat may each miss what is there, and the theorems say exactly what that
  costs. mkpart fails when the space is taken, a partition mounts as the type it has, a path that carries
  a mount cannot be removed.

## Where the obvious claim is false

- An accepted capacity can lie below the supported minimum: exactly when 0 < required < minimum <= limit
  (`Capacity.CapacityAcceptance`, witness `Capacity.AcceptedBelowMinimum`). Such a request is created with
  fewer GiB than the minimum, possibly 0 (`Capacity.FlooredSize`).
- Creating a volume is idempotent exactly when the validated size is a whole number of GiB
  (`StoreRuns.CreateIdempotence`, witness `StoreRuns.OddSizeIsNotIdempotent`): the size is floored but the
  reply reports the unfloored bytes.
- Cloning is idempotent exactly when, besides, the source is not larger than the request
  (`StoreRuns.CloneIdempotence`): a clone of a larger source is refused when repeated.
- Backup names stay unique exactly as long as no resize leaves its backup behind under a title in use
  (`StoreRuns.BackupNamesStayUnique`, witness `StoreRuns.LeftoverBackupClashes`). Volume names stay unique
  without any condition.
- The device limit and single attachment are not unconditional, since publish reads before it locks. With
  at most k overlapping publishes to a server the bound is maxVolumesPerNode + k, and that bound is reached for every k
  (`AttachLimits.DeviceLimit`, `AttachRaces.DeviceLimitIsTight`). A volume is attached once if its
  publishes never overlap; two that overlap can attach it twice, from every start and on any two started servers with
  room (`AttachLimits.SingleAttachment`, `AttachRaces.OverlappingPublishesAttachTwice`).
- OK from `DeleteSnapshot` does not mean deleted: `StoreRuns.DeletedOrNot`, witness `StoreRuns.OkWithoutDeleting`.
- `findmnt` failing without output is read as "not mounted". A call answered OK mounts a path twice exactly
  if it is a publish or a filesystem or NFS stage and this happens on a mounted target (`NodeRuns.MountedTwiceExactly`,
  witness `NodeRuns.SilentProbeMountsTwice`).
- Unpublish and unstage take any failure of os.Stat for an absent path. The life cycle takes both paths away
  exactly if that does not happen, and both mounts exactly if findmnt misses neither (`NodeRuns.LifeCycleRestores`).
- A successful Format leaves the disk alone exactly if it is a gpt disk with the requested filesystem on its last
  partition and blkid, whose exit status 2 is read as "not there", misses neither (`Formatting.FormatExactly`).
  Witnesses: another type (`Formatting.OtherTypeIsOverwritten`), another label
  (`Formatting.OtherLabelIsOverwritten`), a missed filesystem (`Formatting.MissedFilesystemIsOverwritten`).
- List tokens and entry counts are not checked for sign; `Pagination.PaginatePanics` says exactly when
  slicing is out of bounds.

## Model

| member | source | states |
|---|---|---|
| Devices.DetachRemovesExactlyOne | internal/service/upcloud_block_storage.go:150-152 | detaching by the address of the first device that holds the volume removes one device and one copy of that volume, nothing else |
| AttachProtocol.StepKeeps | internal/service/upcloud_block_storage.go:101-166 | every step of every worker, every recovery and every new RPC keeps the invariant: locks match critical sections, what a worker read under the lock is still true |
| AttachProtocol.MutualExclusion | internal/service/upcloud_block_storage.go:103-109 | two workers inside the critical section of one server are the same worker |
| AttachProtocol.ProtocolSafety | internal/service/upcloud_block_storage.go:101-166 | in every run at most one worker per server is between lock and unlock, and every AttachStorage or DetachStorage call finds its server started, also after earlier waits failed and unlocked during maintenance |
| AttachHistory.GoSimulates | internal/service/upcloud_block_storage.go:114-126 | a worker's step changes the attachment map exactly as the one event it logs, or not at all |
| AttachHistory.RunRefinesAtomicMap | internal/service/upcloud_block_storage.go:101-166 | in every run the attachments are the replay of the logged atomic attaches and detaches |
| AttachHistory.RunIsSectioned | internal/service/upcloud_block_storage.go:102-109 | per server the log is a sequence of whole critical sections with at most one effect each, so operations take effect in lock order |
| AttachHistory.RepliesAreLinearized | internal/controller/controller_block_storage.go:220-316 | OK from publish: the volume was on the node at one of the worker's own events; OK from unpublish (volume and node known): it was absent; OK from unpublish-all: absent on every listed server |
| AttachHistory.ClaimsHoldUntilUndone | internal/controller/controller_block_storage.go:220-316 | what an OK claims about a server still holds, or an opposite effect on the same server and volume came after the worker's own event that backs the claim |
| AttachHistory.DoneMeansStarted | internal/service/upcloud_block_storage.go:119-126 | in every run, a worker that reports its backend call done has seen its server started again at an earlier point, while it held that server's lock |
| AttachProgress.MutexIsForever | internal/service/upcloud_service.go:47-49 | a server keeps its mutex for the whole run |
| AttachProgress.LockDiscipline | internal/service/upcloud_block_storage.go:103-109 | distinct servers have distinct mutexes, a worker that asks for a lock holds none, no worker ever holds two |
| AttachProgress.StepDecreases | internal/service/upcloud_block_storage.go:101-166 | every step of a worker lowers a bound on the remaining steps of all RPCs |
| AttachProgress.SomeoneCanMove | internal/service/upcloud_block_storage.go:133-166 | in every state with unfinished work some worker can move, and can do so although every wait times out and every call is refused: no deadlock |
| AttachProgress.CanFinish | internal/controller/controller_block_storage.go:294-316 | from every reachable state all RPCs in flight can be run to their ends within the bound |
| AttachProgress.StepsAreBounded | internal/service/upcloud_block_storage.go:101-166 | however scheduled and however the backend answers, the work at hand takes at most the bound's steps |
| AttachLimits.DeviceLimit | internal/controller/controller_block_storage.go:236-244 | with at most k publishes to a server in flight it never has more than maxVolumesPerNode + k devices |
| AttachLimits.SingleAttachment | internal/controller/controller_block_storage.go:220-254 | if publishes of a volume never overlap, it is attached to at most one server in every run, whatever else is interleaved or fails |
| AttachRaces.ClearedPublishAttaches | internal/controller/controller_block_storage.go:236-254 | an undisturbed publish that passed its checks attaches its volume, answers OK and frees its lock |
| AttachRaces.OverlappingPublishesAttachTwice | internal/controller/controller_block_storage.go:202-244 | from every start, for every volume attached nowhere and any two started servers with room, a run in which two overlapping publishes attach it to both |
| AttachRaces.DeviceLimitIsTight | internal/controller/controller_block_storage.go:193-244 | for every limit and every k a run with at most k publishes in flight that ends k devices above the limit |
| AttachReplies.UnpublishAllReachesAll | internal/controller/controller_block_storage.go:294-316 | in every run, when an unpublish from all nodes has answered OK for a known volume, there is an earlier point at which it read the servers, and every server that held the volume then was without it at one of its own events |
| AttachReplies.VerdictHasReason | internal/controller/controller_block_storage.go:192-316 | in every run, an RPC has failed if and only if it met a reason: a call, read or wait that did not work, its volume on other servers only, its server full, or copies left after a detach; an unpublish has answered OK for a missing volume or node if and only if a read of its own was answered "not found" |
| AttachReplies.UndisturbedPublish | internal/controller/controller_block_storage.go:220-242 | a publish that reads the backend as it is answers "already attached" if and only if the volume is on its node, goes on to attach if and only if the volume is nowhere and the node has room, and fails otherwise |
| AttachReplies.UndisturbedUnpublish | internal/controller/controller_block_storage.go:258-288 | from every reachable state a new unpublish from a started, free server that holds the volume once takes the volume and nothing else away, answers OK and frees the lock |
| AttachReplies.UndisturbedUnpublishAll | internal/controller/controller_block_storage.go:294-316 | the same for all servers of the volume: it ends attached nowhere |
| Unpublish.FindDevice | internal/service/upcloud_block_storage.go:150-164 | the scan finds the first device that holds the volume, the one the protocol detaches, and none if and only if there is none |
| Unpublish.CheckPublish | internal/controller/controller_block_storage.go:221-242 | the loop and the two checks decide as the protocol does: already attached if the node is among the volume's servers, wrong node if only others are, full if there are none and the node has more than the maximum, else go on |
| Unpublish.Backend.DetachBlockStorage | internal/service/upcloud_block_storage.go:131-166 | OK: the only copy of the volume is gone; "not attached": there was none and nothing changed; undisturbed it fails exactly if the server held several copies; at most one copy and nothing else is lost, here or on other servers |
| Unpublish.Backend.AttachBlockStorage | internal/service/upcloud_block_storage.go:114-126 | one attach adds one device unless refused, and succeeds exactly if undisturbed |
| Unpublish.Backend.ControllerPublishVolume | internal/controller/controller_block_storage.go:192-254 | publish with no other RPC in between: OK means attached; a device is added only if the volume is on no server and the node stays within the limit plus one; undisturbed it succeeds exactly if already there, or nowhere and there is room |
| Unpublish.DetachUndoesAttach | internal/service/upcloud_block_storage.go:114-162 | attach then detach of a volume the server did not hold restores its device list |
| Unpublish.Backend.UnpublishVolumeFromAllNodes | internal/controller/controller_block_storage.go:294-316 | the loop is the specified sequence of detaches, ended by the first error that is not "not attached" |
| Unpublish.DetachEachShrinks | internal/controller/controller_block_storage.go:304-313 | the loop takes away copies of the volume only; every other volume keeps its count on every server |
| Unpublish.DetachEachFrame | internal/controller/controller_block_storage.go:304-313 | servers that are not listed keep their devices |
| Unpublish.DetachEachAchieves | internal/controller/controller_block_storage.go:304-313 | every server the loop got past is without the volume, every server behind the failing one is unchanged |
| Unpublish.SuccessMeansNowhere | internal/controller/controller_block_storage.go:294-316 | success leaves the volume attached to no server |
| Unpublish.RetriesOnlyShrink | internal/controller/controller_block_storage.go:292-316 | any number of failing calls never attaches anything anywhere |
| Unpublish.CleanCallProgresses | internal/controller/controller_block_storage.go:294-316 | once failures stop, a call succeeds or leaves some server with fewer copies |
| Unpublish.FailuresUseUpCopies | internal/controller/controller_block_storage.go:304-316 | calls without faults that all fail are at most as many as the copies of the volume they used up |
| Unpublish.RetryingEnds | internal/controller/controller_block_storage.go:294-316 | once failures stop, of more calls than there are copies one succeeds, and then the volume is attached nowhere |
| Unpublish.CleanCallSucceeds | internal/controller/controller_block_storage.go:294-316 | once failures stop, the call succeeds if and only if no listed server holds the volume twice |
| Capacity.CapacityAcceptance | internal/controller/controller_utils.go:61-96 | accepted exactly when some supported size satisfies the request; the size is the least one requested, or the minimum if nothing is, never above the maximum, and below the minimum exactly when 0 < required < minimum <= limit |
| Capacity.AcceptedBelowMinimum | internal/controller/controller_utils.go:84-95 | one byte up to two GiB is accepted as one byte |
| Capacity.FlooredSize | internal/controller/controller_block_storage.go:30-34 | the whole GiB sent to the backend are at most the maximum, lose less than one GiB, and are below the minimum exactly for the same requests |
| Expansion.ExpandRetry | internal/service/upcloud_block_storage.go:217-226 | after a resize that failed before or after its effect, repeating the request gives the size and reply of a first undisturbed call |
| Expansion.Volume.ControllerExpandVolume | internal/controller/controller_block_storage.go:29-78 | the size never shrinks, changes only to the GiB floor of an accepted request, and is the maximum of both unless the resize failed; a reported capacity is the size in bytes and exceeds required minus one GiB; each kind of error is answered exactly in its case, and node expansion asked for exactly for block storage that is not raw; for block and, with its own limits, for file storage |
| Expansion.ReportedCapacity | internal/controller/controller_file_storage.go:160-190 | a reported capacity is the actual size in bytes, exceeds required minus one GiB, and a volume never shrinks |
| Expansion.ExpansionIsRunningMaximum | internal/controller/controller_block_storage.go:48-77 | after any requests, with calls failing before or after their effect, the size is the maximum of the initial size and the GiB floors of the requests that were accepted and not refused |
| Expansion.ExpansionIgnoresOrder | internal/controller/controller_block_storage.go:48-77 | request sequences with the same requests, in any order and number, end in the same size |
| ControllerCalls.Controller.GetByTitle | internal/service/upcloud_block_storage.go:35-51 | the loop returns the storages of the kind with that title, in list order |
| ControllerCalls.Controller.CreateVolumeRPC | internal/controller/controller.go:82-113 | no existing storage changes and no volume name is used twice, whatever fails; a volume in the reply exists under the requested name, with the whole GiB of the reported capacity (at least those, if just cloned), and if it existed before nothing changed |
| ControllerCalls.Controller.CloneRPC | internal/controller/controller_block_storage.go:130-189 | a success adds one volume of size max(source, requested GiB) and nothing else; a failure can leave the clone and the backup its resize made, and nothing else; no existing storage changes |
| ControllerCalls.Controller.ResizeBlockStorage | internal/service/upcloud_block_storage.go:188-213 | a success changes the one size and leaves no backup, although the resize made one; a failure can leave that backup, of that volume, and nothing else |
| ControllerCalls.Controller.DeleteVolumeRPC | internal/controller/controller.go:116-136 | OK means the volume is gone, only the volume named can go, an undisturbed call answers OK whether the volume was there or not |
| ControllerCalls.Controller.CreateSnapshotRPC | internal/controller/controller_snapshot.go:34-66 | no existing storage changes, at most one backup is new and only if the name was free, so no backup name is used twice; a snapshot in the reply exists with the name, source and size reported; under a free name it is taken if and only if the source exists, is not being backed up and every call works |
| ControllerCalls.Controller.DeleteSnapshotRPC | internal/controller/controller_snapshot.go:70-85 | only the storage named can go, and only if it is a backup; without errors it is gone; an error is answered if and only if the lookup, or the deletion of a backup, met an API problem other than 404 |
| StoreRuns.TitledIsUnique | internal/service/upcloud_block_storage.go:44-49 | when one storage carries a name, the lookup by name returns just that one, whatever the order of the list |
| StoreRuns.OpExtends | internal/controller/controller.go:57-136 | every RPC only drops storages, resizes, or adds storages with new ids; added volume names are not in use, nor are added backup names unless a leftover resize backup reuses a title |
| StoreRuns.VolumeNamesStayUnique | internal/controller/controller.go:82-90 | no sequential run, failures included, makes two volumes with one name |
| StoreRuns.BackupNamesStayUnique | internal/controller/controller_snapshot.go:34-56 | a sequential run keeps backup names unique throughout if and only if no resize backup is left under a title in use |
| StoreRuns.LeftoverBackupClashes | internal/service/upcloud_block_storage.go:201-210 | the excepted case does make two backups with one name |
| StoreRuns.StoragesKeepIdentity | internal/controller/controller_snapshot.go:34-56 | a storage that still exists keeps its kind, title and origin, and ids are never reused |
| StoreRuns.SnapshotNameIsNeverRebound | internal/controller/controller_snapshot.go:39-41 | in every run without such a leftover, while the backup of a name exists, every backup of that name is it, with its source |
| StoreRuns.CreateIdempotence | internal/controller/controller.go:93-113 | repeating the create of a fresh plain volume leaves the store alone and repeats the answer if and only if the validated size is whole GiB; otherwise it answers AlreadyExists |
| StoreRuns.OddSizeIsNotIdempotent | internal/controller/controller_block_storage.go:91-116 | one GiB and one byte is created, reported with its odd byte, and refused when repeated |
| StoreRuns.CloneOutcome | internal/controller/controller_block_storage.go:130-189 | a successful clone adds exactly one volume of size max(source, requested GiB) and leaves the source and all backups as they were; a failed one changes no storage there was |
| StoreRuns.CloneIdempotence | internal/controller/controller.go:93-113 | repeating the create of a fresh clone leaves the store alone and repeats the answer if and only if the size is whole GiB and the source is not larger; otherwise it answers AlreadyExists |
| StoreRuns.CreateExactly | internal/controller/controller.go:82-113 | creating a free name succeeds if and only if the capacity can be met, the source can be cloned and every call needed works, and then exactly that volume is new, with its size and encryption; each refusal code has its exact condition |
| StoreRuns.CreateOfExisting | internal/controller/controller.go:93-113 | creating a name in use changes nothing and gives its one volume if the size is the one requested; otherwise AlreadyExists, NotInRange, or an error for several volumes |
| StoreRuns.SnapshotRetry | internal/controller/controller_snapshot.go:43-56 | after an attempt that made the backup, failed or not, a retry answers from it and creates nothing; another source is refused |
| StoreRuns.SnapshotExactly | internal/service/upcloud_block_storage.go:229-248 | a snapshot under a free name is taken if and only if the volume exists, is not being backed up and every call works, and then exactly that backup is new; aborted if and only if it is being backed up, with nothing changed |
| StoreRuns.SnapshotOfExisting | internal/controller/controller_snapshot.go:34-41 | a snapshot under a name in use is answered from its backup if the source is the same, else AlreadyExists; nothing changes |
| StoreRuns.DeletedOrNot | internal/controller/controller_snapshot.go:77-84 | after OK the storage is still there exactly when it is no backup or a call failed without effect |
| StoreRuns.OkWithoutDeleting | internal/controller/controller_snapshot.go:77-84 | a transport error on the lookup is answered OK with the backup still there |
| StoreRuns.DeleteSnapshotSparesVolumes | internal/service/upcloud_block_storage.go:267-276 | no sequence of DeleteSnapshot calls removes or changes a storage that is not a backup |
| Pagination.TokenRoundTrip | internal/controller/controller.go:355-360 | a printed token parses back to its number |
| Pagination.ParseTokenExactly | internal/controller/controller.go:355-360 | a token parses exactly if it is empty, or a decimal number with an optional sign that fits 64 bits |
| Pagination.PaginatePanics | internal/controller/controller.go:364-381 | slicing is out of bounds exactly for a negative start, or a negative size with the start in the list |
| Pagination.TokensIncrease | internal/controller/controller.go:298-300 | successive tokens strictly increase and stay usable |
| Pagination.WalkCoversTheList | internal/controller/controller.go:282-300 | following printed and re-parsed tokens from the empty one takes max(1, ceil(n/size)) pages, whose concatenation is the list; all but the last are full |
| Pagination.FilterZone | internal/controller/controller.go:269-280 | the loop appends the storages of the zone, in order |
| Pagination.InZoneKeeps | internal/controller/controller.go:269-280 | the filter keeps every storage of the zone as often as it occurs, and no other |
| Pagination.InZoneKeepsOrder | internal/controller/controller.go:269-280 | filtering two lists in a row is filtering their concatenation |
| Pagination.ListVolumes | internal/controller/controller.go:250-302 | of the zone's block volumes followed by its file storages the reply shows those from the token on: all if no count is given, else at most that many with the index behind them as next token if more are left, none from a start behind the end |
| PartitionNames.LastPartition | internal/filesystem/linux_utils.go:81-95 | the backward scan returns the last trimmed line that starts with the device name, and fails exactly when there is none (or, for an empty device name, when it is blank) |
| PartitionNames.TrimDropsSpace | internal/filesystem/linux_utils.go:85 | trimming drops the white space at both ends, all of it and nothing else |
| PartitionNames.LinesCutAtNewlines | internal/filesystem/linux_utils.go:82 | the lines contain no newline and joined by newlines are the output |
| PartitionNames.ExtractPartitionNumber | internal/filesystem/linux_filesystem.go:513-523 | the result is the longest run of digits at the end, for any string |
| PartitionNames.RecoverPartitionNumber | internal/filesystem/linux_filesystem.go:453-464 | if the last matching line is the device name, not ending in a digit, followed by k, the two scans recover k |
| Formatting.BlockDevice.CreatePartitionTableIfNotExists | internal/filesystem/linux_filesystem.go:354-396 | the stage leaves the disk as it was or labelled; it succeeds exactly if blkid works and the label is seen or mklabel works, and then the disk is labelled; blkid exit status 2 reads as no label |
| Formatting.BlockDevice.CreatePartitionIfNotExists | internal/filesystem/linux_filesystem.go:399-411 | the stage leaves the disk as it was or partitioned; it returns the last partition exactly if there is one and the listing works, or there is none and mkpart and the second listing work |
| Formatting.BlockDevice.CreateFilesystemIfNotExists | internal/filesystem/linux_filesystem.go:118-161 | the stage leaves the disk as it was or with the requested filesystem; it succeeds exactly if blkid works and the filesystem is seen or mkfs works, and then the disk has it; blkid exit status 2 reads as no filesystem |
| Formatting.BlockDevice.Format | internal/filesystem/linux_filesystem.go:86-115 | a call gets some of the way to the complete disk, all of it if it succeeds, and succeeds if nothing fails and the type is supported |
| Formatting.LowerFoldsCase | internal/filesystem/linux_filesystem.go:94 | lower-casing changes exactly the capital letters, leaves none and pairs the alphabets |
| Formatting.FormatSurvivesFailure | internal/filesystem/linux_filesystem.go:83-106 | after any number of failed calls the disk is one of four; after a success it is the disk a first success makes, whatever it was at the start, as long as no probe misses what is there |
| Formatting.BlankDiskFormatted | internal/filesystem/linux_filesystem.go:83-106 | from a blank disk: gpt label, one partition, requested filesystem, whatever the probes missed; each written once if they missed nothing |
| Formatting.DataIsPreserved | internal/filesystem/linux_filesystem.go:118-130 | mkfs takes effect at most once and never on a filesystem of the requested type; a gpt label is never rewritten |
| Formatting.FormatExactly | internal/filesystem/linux_filesystem.go:83-161 | a successful Format leaves the disk untouched if and only if it has the requested filesystem under a gpt label and no probe misses it; otherwise mkfs takes effect once; a label that is not gpt, or not seen, is rewritten and its partitions are lost |
| Formatting.OtherTypeIsOverwritten | internal/filesystem/linux_filesystem.go:134-161 | witness: a filesystem of another type is overwritten |
| Formatting.OtherLabelIsOverwritten | internal/filesystem/linux_filesystem.go:366-396 | witness: another label is overwritten, with a filesystem of the requested type under it |
| Formatting.MissedFilesystemIsOverwritten | internal/filesystem/linux_filesystem.go:150-156 | witness: a filesystem that blkid misses is overwritten |
| NodeMounts.Node.IsMounted | internal/filesystem/linux_filesystem.go:225-278 | mounted or not, an error if a mount at the target is not shared; a failure without output reads as not mounted |
| NodeMounts.Node.GetMountInfo | internal/filesystem/linux_filesystem.go:282-333 | the mount at the target if there is one, an error if it is not shared |
| NodeMounts.Node.MountAt | internal/filesystem/linux_filesystem.go:164-202 | the target path, then one mount at it, each of which may fail before or after its effect; it succeeds exactly if both work and the source can be mounted |
| NodeMounts.Node.NodeStageVolume | internal/node/node.go:54-169 | raw block: OK and nothing changes; a target seen mounted: nothing changes, and undisturbed it is OK exactly if the mount is shared and of the requested type; otherwise OK means one more mount at the target, of the last partition as the type requested (ext4 if none is) with that filesystem on the disk, or of the NFS share |
| NodeMounts.Node.NodePublishVolume | internal/node/node.go:215-268 | OK exactly if the probe works and the target is seen mounted, or the path and the mount can be made; in the latter case one more mount at the target, a bind of the staging path with the requested type or of the device without one |
| NodeMounts.Node.NodeUnpublishVolume | internal/node/node.go:275-307 | the target's mount, if seen, and then its path, if os.Stat finds it, are taken away; OK means every command needed worked and, unless os.Stat failed, that both are gone |
| NodeMounts.Node.NodeUnstageVolume | internal/node/node.go:176-212 | the same for the staging path |
| NodeRuns.EachPathMountedOnce | internal/node/node.go:54-307 | in every run with repeats and failures each path carries at most one mount, unless a mounting call misses the mount of its own target |
| NodeRuns.MountedTwiceExactly | internal/filesystem/linux_filesystem.go:234-238 | a call answered OK mounts a path twice if and only if it is a mounting call and findmnt failed without output on its mounted target |
| NodeRuns.SilentProbeMountsTwice | internal/filesystem/linux_filesystem.go:234-238 | the excepted case does mount twice |
| NodeRuns.OtherPathsUntouched | internal/node/node.go:54-307 | mounts and existence of paths that no call names stay as they were |
| NodeRuns.LifeCycleRestores | internal/node/node.go:171-307 | stage, publish, unpublish, unstage from absent paths, whatever probes miss: the mount table is restored if and only if findmnt missed neither mount on the way down, each path is gone if and only if os.Stat did not fail on it |
| NodeRuns.RawLifeCycleRestores | internal/node/node.go:75-79 | the same for raw block volumes: the node, disks included, is as it was if and only if os.Stat did not fail on the target |
| NodeRuns.DiskWrittenOnlyWhenUnmounted | internal/node/node.go:96-117 | in every run, a disk that changed was formatted by a stage call that did not see its target mounted |
| NodeRuns.RunPreservesData | internal/node/node.go:117-129 | in every run that asks for one filesystem type on a volume and in which blkid misses nothing that is on its disk, mkfs takes effect at most once, not at all if the filesystem is there, and a gpt label is never rewritten |

## Left out

- gRPC, HTTP, metrics, logging, configuration, identity service, Helm chart and test helpers: wiring around the modelled logic.
- The UpCloud SDK: represented by replies that succeed, are refused, or take effect and still report an error, under the assumptions above.
- Wall-clock timeouts: a wait ends by success or by failure, at any time.
- Error texts and the mapping of errors to gRPC codes, beyond the codes in `VolumeStore.Code`.
- Argument checks, capability, tier, zone and label handling: each is settled by one reading.
- Creating file storages, their network discovery, shares and ACLs; expanding them is modelled. The path for an existing file storage does not re-check its share or ACL.
- `GetServerByHostname`: a node id stands for the server it resolves to, or the lookup fails.
- Details errors in `GetBlockStorageByName`: the code ignores them and the model lets that read succeed.
- Mount options (read-only, mount flags, NFS options) and parent directories created along the way.
- Node-side growing of partitions and filesystems, volume statistics and device lookup: foreign commands; only the partition-name scans are modelled.
- Volume-id to disk-id conversion, ListSnapshots and GetSnapshot: each only reads, and what it returns is settled by one pass over its input.
- Unpublish.Backend.AttachBlockStorage: one RPC at a time, and the backend gives an unused address.
- Unpublish.Backend.ControllerPublishVolume: one RPC at a time; `AttachLimits` treats the interleaved form.
- Unpublish.Backend.DetachBlockStorage: one RPC at a time; the interleaved form is in the attach protocol.
- Overflow of 64-bit sizes and indices: sizes are at most 25000 GiB and lists shorter than 2^63 entries.
- Partial effects of one command (a half-written filesystem): a command takes effect or not.
